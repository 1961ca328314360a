/** Where the line distributor comes to rest: when it exits, when it hangs, and when lines
    that the children printed are lost. */
module HashDistRest {
  import opened Wrappers
  import opened HashDist
  import opened HashDistTheorems

  // ---------------------------------------------------------------- who can move

  ghost predicate CanMove(c: Config, s: State, l: Label)
    requires ValidConfig(c) && |s.workers| == N(c)
  {
    !IsFailure(l) && Step(c, s, l).Some?
  }

  ghost predicate Live(c: Config, s: State) {
    Inv(c, s) && !s.aborted && s.main != Exited
  }

  /** The child cannot print because its pipe is full and nobody reads it any more. */
  ghost predicate Blocked(c: Config, x: Worker) {
    x.outputter.Dead? && x.script != [] && x.script[0].Say? && !PipeHasRoom(c, x)
  }

  /** The inputter cannot write to a child that is blocked. */
  ghost predicate Jammed(c: Config, x: Worker) {
    Blocked(c, x) && x.inputter.Holding? && x.inputter.item.Text? && !InboxHasRoom(c, x)
  }

  lemma {:induction false} AssignedLength(c: Config, k: nat, w: nat)
    requires ValidConfig(c) && k <= |c.lines|
    ensures |Assigned(c, k, w)| <= k
    decreases k
  {
    if k > 0 { AssignedLength(c, k - 1, w); }
  }

  lemma LinesComeFirst(front: seq<Item>, rest: seq<Item>, lines: seq<Item>, end: seq<Item>)
    requires front + rest == lines + end && (end == [] || end == [Stop]) && Stop !in front
    ensures |front| <= |lines|
  {
    assert front != [] ==> front[|front| - 1] == (lines + end)[|front| - 1];
  }

  lemma ReceivedLines(x: Worker, lines: seq<Item>, end: seq<Item>)
    requires x.delivered + InFlight(x) + x.queue == lines + end && (end == [] || end == [Stop]) && Stop !in x.delivered
    ensures |x.delivered| + (if x.inputter.Holding? && x.inputter.item.Text? then 1 else 0) <= |lines|
  {
    var inHand := if x.inputter.Holding? && x.inputter.item.Text? then [x.inputter.item] else [];
    var rest := if x.inputter.Holding? && x.inputter.item == Stop then [Stop] + x.queue else x.queue;
    assert x.delivered + inHand + rest == x.delivered + InFlight(x) + x.queue;
    LinesComeFirst(x.delivered + inHand, rest, lines, end);
  }

  lemma NotAtEnd(c: Config, x: Worker, script: seq<Action>)
    requires ChildOk(c, x, script) && Stop !in x.delivered && |x.delivered| < Takes(script)
    ensures x.script != []
  {
    assert script[..|script|] == script;
  }

  /** As long as its stdin is open a child has received lines only, and has not ended. */
  lemma OpenChild(c: Config, s: State, w: nat)
    requires Inv(c, s) && w < N(c) && Stop !in s.workers[w].delivered
    ensures var x := s.workers[w];
      && |x.delivered| + (if x.inputter.Holding? && x.inputter.item.Text? then 1 else 0) <= |Assigned(c, s.pos, w)|
      && x.script != []
  {
    assert InputSide(c, s, w) && ChildSide(c, s, w);
    var x := s.workers[w];
    hide ChildOk, Assigned, Takes, MainSide, Concat, Partial, OutputSide;
    ReceivedLines(x, Assigned(c, s.pos, w), if Terminated(s.main, w) then [Stop] else []);
    AssignedLength(c, s.pos, w);
    NotAtEnd(c, x, c.scripts[w]);
  }

  lemma MutexHolderCanMove(c: Config, s: State) returns (l: Label)
    requires Live(c, s) && s.mutex.Some?
    ensures CanMove(c, s, l)
  {
    var h := s.mutex.value;
    assert OutputSide(s, h);
    hide OutputOk, Sent, InputSide, ChildSide, MainSide, Concat, Partial;
    WritingHolder(s, h);
    l := if s.workers[h].outputter.sent < |s.workers[h].outputter.line| then WriteChar(h) else Unlock(h);
  }

  lemma WritingHolder(s: State, h: nat)
    requires h < |s.workers| && OutputSide(s, h) && s.mutex == Some(h)
    ensures s.workers[h].outputter.Writing? && s.workers[h].outputter.sent <= |s.workers[h].outputter.line|
  {
  }

  /** An outputter that has a line can move, or waits for the mutex holder, who can. */
  lemma OutputterCanMove(c: Config, s: State, w: nat) returns (l: Label)
    requires Live(c, s) && w < N(c)
    requires var x := s.workers[w];
      (x.outputter == Reading && x.read < |x.emitted|) || x.outputter.Waiting? || x.outputter.Writing?
    ensures CanMove(c, s, l)
  {
    var x := s.workers[w];
    assert OutputSide(s, w);
    if x.outputter == Reading {
      l := ReadLine(w);
    } else if s.mutex == None {
      l := Lock(w);
    } else {
      l := MutexHolderCanMove(c, s);
    }
  }

  /** A child that has something to read, or wants to print, can move or be made to, or is blocked. */
  lemma ChildCanMove(c: Config, s: State, w: nat) returns (l: Label)
    requires Live(c, s) && w < N(c) && s.workers[w].script != []
    requires var x := s.workers[w]; x.script[0].Take? ==> x.taken < |x.delivered| || Stop in x.delivered
    ensures CanMove(c, s, l) || Blocked(c, s.workers[w])
  {
    var x := s.workers[w];
    assert OutputSide(s, w) && ChildSide(c, s, w);
    l := Child(w);
    if x.script[0].Say? && !PipeHasRoom(c, x) && !x.outputter.Dead? {
      assert x.outputter != Ended;
      l := OutputterCanMove(c, s, w);
    }
  }

  /** A queue that is not empty, or not joined, has an inputter that can move or be made to,
      or is jammed. */
  lemma InputterCanMove(c: Config, s: State, w: nat) returns (l: Label)
    requires Live(c, s) && w < N(c)
    requires s.workers[w].inputter != Finished && (s.workers[w].queue != [] || s.workers[w].unfinished > 0)
    ensures CanMove(c, s, l) || Jammed(c, s.workers[w])
  {
    var x := s.workers[w];
    assert InputSide(c, s, w) && ChildSide(c, s, w);
    match x.inputter
    case Getting => l := Get(w);
    case Handed(_) => l := TaskDone(w);
    case Holding(item) =>
      if item == Stop || InboxHasRoom(c, x) {
        l := Hand(w);
      } else {
        assert Stop !in x.delivered;
        OpenChild(c, s, w);
        l := ChildCanMove(c, s, w);
      }
  }

  /** Once its input has ended, a child and its outputter can go on until both are over. */
  lemma EndCanMove(c: Config, s: State, w: nat) returns (l: Label)
    requires Live(c, s) && w < N(c)
    requires Stop in s.workers[w].delivered && !IsOver(s.workers[w].outputter)
    ensures CanMove(c, s, l)
  {
    var x := s.workers[w];
    assert OutputSide(s, w);
    if x.outputter != Reading || x.read < |x.emitted| {
      l := OutputterCanMove(c, s, w);
    } else if x.script == [] {
      l := Eof(w);
    } else {
      l := ChildCanMove(c, s, w);
    }
  }

  /** No other deadlock: until the program exits or its main thread dies, some thread can
      move, or a jammed worker holds the main thread up. */
  lemma Progress(c: Config, s: State) returns (l: Label, w: nat)
    requires Live(c, s) && s.main != Died
    ensures CanMove(c, s, l) || (w < N(c) && Jammed(c, s.workers[w]))
  {
    l, w := Main, 0;
    if MainStep(c, s).None? {
      w := match s.main
        case Dispatching => Target(c, c.lines[s.pos])
        case Stopping(k) => k
        case JoinQueue(v) => v
        case JoinInputter(v) => v
        case JoinOutputter(v) => v;
      var x := s.workers[w];
      assert InputSide(c, s, w);
      if Stop in x.delivered { StopComesLast(x, c, s.main, s.pos, w); }
      if s.main.JoinInputter? { JoinedQueueMeansFinished(x, c, s.main, s.pos, w); }
      if s.main.JoinOutputter? {
        l := EndCanMove(c, s, w);
      } else {
        l := InputterCanMove(c, s, w);
      }
    }
  }

  /** Once the terminated queue has been joined, the inputter thread is over. */
  lemma JoinedQueueMeansFinished(x: Worker, c: Config, main: MainThread, pos: nat, w: nat)
    requires ValidConfig(c) && pos <= |c.lines| && Terminated(main, w)
    requires InputOk(x, Sent(c, main, pos, w), c.maxsize) && x.unfinished == 0
    ensures x.inputter == Finished
  {
    var sent := Sent(c, main, pos, w);
    assert x.delivered == sent;
    assert sent[|sent| - 1] == Stop;
  }

  // ---------------------------------------------------------------- where a run comes to rest

  /** No thread can move, no write fails any more, and the process was not killed. */
  ghost predicate Quiescent(c: Config, s: State)
    requires ValidConfig(c) && |s.workers| == N(c)
  {
    !s.aborted && forall l: Label :: !CanMove(c, s, l)
  }

  ghost predicate AllHaveKeys(c: Config) {
    forall i | 0 <= i < |c.lines| :: Dispatchable(c, c.lines[i])
  }

  /** How many items a child reads before it has printed more than `m` lines. */
  function Allowance(script: seq<Action>, m: nat): nat
    decreases |script|
  {
    if script == [] then 0
    else
      var before := script[..|script| - 1];
      Allowance(before, m) + if script[|script| - 1].Take? && |Says(before)| <= m then 1 else 0
  }

  lemma {:induction false} SaysGrow(script: seq<Action>, k: nat)
    requires k <= |script|
    ensures Says(script[..k]) <= Says(script)
    decreases |script|
  {
    if k < |script| {
      SaysGrow(script[..|script| - 1], k);
      assert script[..|script| - 1][..k] == script[..k];
    } else {
      assert script[..k] == script;
    }
  }

  lemma {:induction false} TakesAllowed(did: seq<Action>, m: nat)
    requires |Says(did)| <= m
    ensures Allowance(did, m) == Takes(did)
    decreases |did|
  {
    if did != [] {
      SaysGrow(did, |did| - 1);
      TakesAllowed(did[..|did| - 1], m);
    }
  }

  /** Having printed at most `m` lines, the child has read no more than its allowance; and
      exactly that when it has printed `m` lines and is about to print another. */
  lemma {:induction false} AllowanceAfter(script: seq<Action>, k: nat, m: nat)
    requires k <= |script| && |Says(script[..k])| <= m
    ensures Takes(script[..k]) <= Allowance(script, m)
    ensures k < |script| && script[k].Say? && |Says(script[..k])| == m ==> Takes(script[..k]) == Allowance(script, m)
    decreases |script|
  {
    var n := |script|;
    if k == n {
      assert script[..k] == script;
      TakesAllowed(script, m);
    } else {
      var before := script[..n - 1];
      assert before[..k] == script[..k];
      AllowanceAfter(before, k, m);
      if script[k].Say? && |Says(script[..k])| == m {
        if k == n - 1 {
          TakesAllowed(before, m);
        } else {
          assert before[..k + 1][..k] == before[..k];
          SaysGrow(before, k + 1);
        }
      }
    }
  }

  /** The lines the dead outputter of `w` has read: those it printed whole, and the one it
      died on. */
  ghost function ReadBeforeDeath(s: State, w: nat): nat {
    |Share(s.printed, w)| + 1
  }

  /** All lines of worker `w` can be handed over although its output is no longer read: what
      the child reads before its pipe is full, and what fits into its stdin, is enough. */
  ghost predicate Fits(c: Config, s: State, w: nat)
    requires ValidConfig(c) && w < N(c)
  {
    |Assigned(c, |c.lines|, w)| <= Allowance(c.scripts[w], ReadBeforeDeath(s, w) + c.outRoom) + c.inRoom
  }

  ghost predicate IsDead(s: State, w: nat) {
    w < |s.workers| && s.workers[w].outputter.Dead?
  }

  lemma DeadHasRead(c: Config, s: State, w: nat)
    requires Inv(c, s) && w < N(c) && IsDead(s, w)
    ensures s.workers[w].read == ReadBeforeDeath(s, w)
  {
    assert OutputSide(s, w);
    ReadSoFar(s.workers[w], s.printed, w, s.mutex == Some(w));
  }

  lemma JammedDoesNotFit(c: Config, s: State, w: nat)
    requires Inv(c, s) && w < N(c) && Jammed(c, s.workers[w])
    ensures IsDead(s, w) && !Fits(c, s, w)
  {
    var x, script := s.workers[w], c.scripts[w];
    DeadHasRead(c, s, w);
    assert ChildSide(c, s, w) && InputSide(c, s, w);
    var k := |script| - |x.script|;
    AllowanceAfter(script, k, x.read + c.outRoom);
    if Stop in x.delivered { StopComesLast(x, c, s.main, s.pos, w); assert false; }
    OpenChild(c, s, w);
    AssignedGrows(c, s.pos, |c.lines|, w);
    hide Takes, Says, Allowance, Assigned, Sent, Share, Cuts;
  }

  lemma ExitedFits(c: Config, s: State, w: nat)
    requires Inv(c, s) && w < N(c) && s.main == Exited && IsDead(s, w)
    ensures Fits(c, s, w)
  {
    var x, script := s.workers[w], c.scripts[w];
    DeadHasRead(c, s, w);
    assert ChildSide(c, s, w) && InputSide(c, s, w) && Done(x);
    StopComesLast(x, c, s.main, s.pos, w);
    AllowanceAfter(script, |script| - |x.script|, x.read + c.outRoom);
    hide Takes, Says, Allowance, Assigned, Sent, Share, Cuts;
  }

  lemma OverIsComplete(c: Config, x: Worker, script: seq<Action>, printed: seq<Printed>, w: nat, holdsMutex: bool)
    requires ChildOk(c, x, script) && OutputOk(x, printed, w, holdsMutex) && IsOver(x.outputter)
    ensures Share(printed, w) == Says(script) <==> !x.outputter.Dead?
    ensures !holdsMutex
  {
    ReadSoFar(x, printed, w, holdsMutex);
    SaysGrow(script, |script| - |x.script|);
    assert script[..|script|] == script && x.emitted[..|x.emitted|] == x.emitted;
    hide Takes, Says, Share, Cuts;
  }

  /** At exit the output of a child is complete if and only if its outputter did not die. */
  lemma ExitedIsComplete(c: Config, s: State, w: nat)
    requires Inv(c, s) && s.main == Exited && w < N(c)
    ensures s.workers[w].delivered == Assigned(c, |c.lines|, w) + [Stop] && s.mutex != Some(w)
    ensures Share(s.printed, w) == Says(c.scripts[w]) <==> !IsDead(s, w)
  {
    assert InputSide(c, s, w) && OutputSide(s, w) && ChildSide(c, s, w) && Done(s.workers[w]);
    StopComesLast(s.workers[w], c, s.main, s.pos, w);
    hide InputOk, OutputOk, ChildOk, Sent, Takes, Says, Share, ValidConfig;
    OverIsComplete(c, s.workers[w], c.scripts[w], s.printed, w, s.mutex == Some(w));
  }

  /** After the main thread has died each inputter waits on its empty queue for ever, or is
      jammed; the stdin of its child stays open and its outputter does not end. */
  lemma DeadMainStarvesInputter(c: Config, s: State, w: nat)
    requires Inv(c, s) && s.main == Died && Quiescent(c, s) && w < N(c)
    ensures var x := s.workers[w];
      && x.outputter != Ended && Stop !in x.delivered
      && (Jammed(c, x) || (x.inputter == Getting && x.queue == [] && x.delivered == Assigned(c, s.pos, w)))
  {
    var x := s.workers[w];
    assert InputSide(c, s, w) && OutputSide(s, w);
    if Stop in x.delivered { StopComesLast(x, c, s.main, s.pos, w); assert false; }
    OpenChild(c, s, w);
    if x.queue != [] || x.unfinished > 0 {
      var l := InputterCanMove(c, s, w);
    } else {
      assert x.delivered + InFlight(x) + x.queue == x.delivered;
    }
  }

  /** Where a run can come to rest.  The program exits if and only if every line has a key
      and, for every outputter that died, the lines of its worker could be handed over all
      the same.  Otherwise the main thread has died on the first line without a key, or it
      waits for a jammed worker for ever. */
  lemma RestingStates(c: Config, labels: seq<Label>)
    requires ValidConfig(c) && Run(c, labels).Some? && Quiescent(c, Run(c, labels).value)
    ensures var s := Run(c, labels).value;
      && (s.main == Exited <==> AllHaveKeys(c) && forall w | 0 <= w < N(c) && IsDead(s, w) :: Fits(c, s, w))
      && (s.main == Died ==>
            && s.pos < |c.lines| && !Dispatchable(c, c.lines[s.pos])
            && forall i | 0 <= i < s.pos :: Dispatchable(c, c.lines[i]))
      && (s.main != Exited && s.main != Died ==> exists w :: 0 <= w < N(c) && Jammed(c, s.workers[w]))
  {
    InvAlways(c, labels);
    var s := Run(c, labels).value;
    hide InputSide, OutputSide, ChildSide, Concat, Partial, Jammed, Fits, CanMove, Dispatchable;
    if s.main == Exited {
      forall w | 0 <= w < N(c) && IsDead(s, w) ensures Fits(c, s, w) { ExitedFits(c, s, w); }
    } else if s.main != Died {
      var l, w := Progress(c, s);
      assert Jammed(c, s.workers[w]);
      JammedDoesNotFit(c, s, w);
    }
  }

  // ---------------------------------------------------------------- outputters that died

  lemma DeathStep(c: Config, s: State, l: Label, w: nat)
    requires ValidConfig(c) && |s.workers| == N(c) && w < N(c) && Step(c, s, l).Some?
    ensures IsDead(Step(c, s, l).value, w) <==> IsDead(s, w) || l == Die(w)
  {
    if l.Main? { MainStepLeavesOutput(c, s, w); }
  }

  /** An outputter is dead exactly if one of its writes failed in the run. */
  lemma {:induction false} DeadIff(c: Config, labels: seq<Label>, w: nat)
    requires ValidConfig(c) && Run(c, labels).Some? && w < N(c)
    ensures IsDead(Run(c, labels).value, w) <==> Die(w) in labels
    decreases |labels|
  {
    if labels != [] {
      var before, l := labels[..|labels| - 1], labels[|labels| - 1];
      DeadIff(c, before, w);
      DeathStep(c, Run(c, before).value, l, w);
      assert labels == before + [l];
      hide Step, IsDead, ValidConfig;
    }
  }

  ghost predicate PrintedEverything(c: Config, s: State)
    requires ValidConfig(c)
  {
    s.stdout == Concat(s.printed) && forall w | 0 <= w < N(c) :: Share(s.printed, w) == Says(c.scripts[w])
  }

  /** A run that has come to rest has exited with everything printed that the children had
      to say if and only if every line has a key and no write to stdout failed. */
  lemma CompleteIff(c: Config, labels: seq<Label>)
    requires ValidConfig(c) && Run(c, labels).Some? && Quiescent(c, Run(c, labels).value)
    ensures var s := Run(c, labels).value;
      s.main == Exited && PrintedEverything(c, s)
      <==> AllHaveKeys(c) && forall w | 0 <= w < N(c) :: Die(w) !in labels
  {
    InvAlways(c, labels);
    RestingStates(c, labels);
    var s := Run(c, labels).value;
    hide Run, Quiescent, InputSide, OutputSide, ChildSide, MainSide, Fits, Dispatchable, Concat, IsDead;
    forall w | 0 <= w < N(c)
      ensures IsDead(s, w) <==> Die(w) in labels
      ensures s.main == Exited ==> s.mutex != Some(w) && (Share(s.printed, w) == Says(c.scripts[w]) <==> !IsDead(s, w))
    {
      DeadIff(c, labels, w);
      if s.main == Exited { ExitedIsComplete(c, s, w); }
    }
    assert s.mutex == None ==> s.stdout == Concat(s.printed) + "";
  }

  // ---------------------------------------------------------------- every run can come to rest

  lemma ExtendRun(c: Config, labels: seq<Label>, l: Label)
    requires ValidConfig(c) && Run(c, labels).Some?
    ensures Run(c, labels + [l]) == Step(c, Run(c, labels).value, l)
  {
    assert (labels + [l])[..|labels|] == labels;
  }

  /** From any state that was not aborted the threads can go on, without further failures,
      until the run comes to rest. */
  lemma {:induction false} ComesToRest(c: Config, labels: seq<Label>) returns (all: seq<Label>)
    requires ValidConfig(c) && Run(c, labels).Some? && !Run(c, labels).value.aborted
    ensures labels <= all && Run(c, all).Some? && Quiescent(c, Run(c, all).value)
    ensures forall i | |labels| <= i < |all| :: !IsFailure(all[i])
    decreases Measure(c, Run(c, labels).value)
  {
    InvAlways(c, labels);
    var s := Run(c, labels).value;
    hide Run, Inv, Measure;
    if Quiescent(c, s) {
      all := labels;
    } else {
      var l :| CanMove(c, s, l);
      ExtendRun(c, labels, l);
      StepDecreases(c, s, l);
      MeasureIsNatural(c, s);
      StaysUp(c, s, l);
      all := ComesToRest(c, labels + [l]);
      assert all[|labels|] == l;
    }
  }

  lemma StaysUp(c: Config, s: State, l: Label)
    requires ValidConfig(c) && |s.workers| == N(c) && CanMove(c, s, l)
    ensures !Step(c, s, l).value.aborted
  {
  }

  // ---------------------------------------------------------------- a failed write at the start

  lemma DeadPrintsNoMore(c: Config, s: State, l: Label, w: nat)
    requires ValidConfig(c) && |s.workers| == N(c) && w < N(c) && IsDead(s, w) && Step(c, s, l).Some?
    ensures Share(Step(c, s, l).value.printed, w) == Share(s.printed, w)
  {
    if l.Main? {
      MainStepLeavesOutput(c, s, w);
    } else if l.Unlock? {
      SharesOfPrinted(s.printed, Whole(l.w, s.workers[l.w].outputter.line), w);
    } else if l.Die? {
      var x := s.workers[l.w];
      SharesOfPrinted(s.printed, Cut(l.w, x.outputter.line[..x.outputter.sent]), w);
    }
  }

  lemma {:induction false} DeadForGood(c: Config, labels: seq<Label>, all: seq<Label>, w: nat)
    requires ValidConfig(c) && labels <= all && Run(c, all).Some? && w < N(c)
    requires Run(c, labels).Some? && IsDead(Run(c, labels).value, w)
    ensures IsDead(Run(c, all).value, w)
    ensures Share(Run(c, all).value.printed, w) == Share(Run(c, labels).value.printed, w)
    decreases |all|
  {
    if |labels| < |all| {
      var before, l := all[..|all| - 1], all[|all| - 1];
      DeadForGood(c, labels, before, w);
      DeathStep(c, Run(c, before).value, l, w);
      DeadPrintsNoMore(c, Run(c, before).value, l, w);
    } else {
      assert labels == all;
    }
  }

  /** The run has reached a state with this first worker, mutex and writes. */
  ghost predicate FirstAt(c: Config, labels: seq<Label>, x: Worker, mutex: Option<nat>, printed: seq<Printed>)
    requires ValidConfig(c)
  {
    && Run(c, labels).Some?
    && var s := Run(c, labels).value;
    s.workers[0] == x && s.mutex == mutex && s.printed == printed && s.main == Dispatching && !s.aborted
  }

  lemma ChildLabel(c: Config, s: State, w: nat)
    requires ValidConfig(c) && |s.workers| == N(c) && w < N(c) && !s.aborted && s.main != Exited
    requires ChildStep(c, s.workers[w]).Some?
    ensures Step(c, s, Child(w)) == Some(SetWorker(s, w, ChildStep(c, s.workers[w]).value))
  {
    hide ChildStep, ValidConfig, MainStep, InputterStep, OutputterStep;
  }

  lemma FirstChildMoves(c: Config, labels: seq<Label>, x: Worker, printed: seq<Printed>)
    requires ValidConfig(c) && FirstAt(c, labels, x, None, printed) && ChildStep(c, x).Some?
    ensures FirstAt(c, labels + [Child(0)], ChildStep(c, x).value, None, printed)
  {
    ExtendRun(c, labels, Child(0));
    assert N(c) > 0;
    hide Run, ChildStep, ValidConfig, Step;
    ChildLabel(c, Run(c, labels).value, 0);
  }

  lemma FirstOutputterReads(c: Config, labels: seq<Label>, x: Worker, printed: seq<Printed>)
    requires ValidConfig(c) && FirstAt(c, labels, x, None, printed) && x.outputter == Reading && x.read < |x.emitted|
    ensures FirstAt(c, labels + [ReadLine(0)], x.(read := x.read + 1, outputter := Waiting(x.emitted[x.read])),
        None, printed)
  {
    ExtendRun(c, labels, ReadLine(0));
    hide Run, MainStep, InputterStep, ChildStep, ValidConfig;
  }

  lemma FirstOutputterLocks(c: Config, labels: seq<Label>, x: Worker, printed: seq<Printed>)
    requires ValidConfig(c) && FirstAt(c, labels, x, None, printed) && x.outputter.Waiting?
    ensures FirstAt(c, labels + [Lock(0)], x.(outputter := Writing(x.outputter.line, 0)), Some(0), printed)
  {
    ExtendRun(c, labels, Lock(0));
    hide Run, MainStep, InputterStep, ChildStep, ValidConfig;
  }

  lemma FirstOutputterDies(c: Config, labels: seq<Label>, x: Worker, printed: seq<Printed>)
    requires ValidConfig(c) && FirstAt(c, labels, x, Some(0), printed) && x.outputter.Writing?
        && x.outputter.sent < |x.outputter.line|
    ensures var y := x.(outputter := Dead(x.outputter.line, x.outputter.sent));
      FirstAt(c, labels + [Die(0)], y, None, printed + [Cut(0, x.outputter.line[..x.outputter.sent])])
  {
    ExtendRun(c, labels, Die(0));
    hide Run, MainStep, InputterStep, ChildStep, ValidConfig;
  }

  lemma FirstLineIsRead(c: Config, line: Line) returns (x: Worker)
    requires ValidConfig(c) && c.scripts[0] != [] && c.scripts[0][0] == Say(line)
    ensures FirstAt(c, [] + [Child(0)] + [ReadLine(0)], x, None, [])
    ensures line != "" && x.outputter == Waiting(line)
  {
    assert c.scripts[0][0] in c.scripts[0];
    x := Worker([], 0, Getting, [], 0, c.scripts[0], [], 0, Reading);
    var y := x.(script := x.script[1..], emitted := [line]);
    assert FirstAt(c, [], x, None, []) by { assert Run(c, []) == Some(Init(c)); }
    assert ChildStep(c, x) == Some(y) by { assert [] + [line] == [line]; }
    hide *;
    FirstChildMoves(c, [], x, []);
    FirstOutputterReads(c, [] + [Child(0)], y, []);
    x := y.(read := 1, outputter := Waiting(line));
  }

  /** The first child prints a line at once, and the write of its outputter fails. */
  lemma FirstWriteFails(c: Config, line: Line) returns (labels: seq<Label>)
    requires ValidConfig(c) && c.scripts[0] != [] && c.scripts[0][0] == Say(line)
    ensures forall i | 0 <= i < |labels| :: labels[i].Die? ==> labels[i] == Die(0)
    ensures Run(c, labels).Some? && !Run(c, labels).value.aborted
    ensures IsDead(Run(c, labels).value, 0) && Share(Run(c, labels).value.printed, 0) == []
  {
    hide *;
    var x := FirstLineIsRead(c, line);
    labels := [] + [Child(0)] + [ReadLine(0)];
    FirstOutputterLocks(c, labels, x, []);
    labels, x := labels + [Lock(0)], x.(outputter := Writing(line, 0));
    FirstOutputterDies(c, labels, x, []);
    labels, x := labels + [Die(0)], x.(outputter := Dead(line, 0));
    NothingWhole(c, labels, x, [] + [Cut(0, line[..0])]);
  }

  lemma NothingWhole(c: Config, labels: seq<Label>, x: Worker, printed: seq<Printed>)
    requires ValidConfig(c) && |printed| == 1 && printed[0].Cut?
    requires FirstAt(c, labels, x, None, printed) && x.outputter.Dead?
    ensures Run(c, labels).Some? && !Run(c, labels).value.aborted
    ensures IsDead(Run(c, labels).value, 0) && Share(Run(c, labels).value.printed, 0) == []
  {
    hide Run;
    assert printed[..0] == [];
  }

  lemma OnlyFirstDied(c: Config, start: seq<Label>, labels: seq<Label>, w: nat)
    requires ValidConfig(c) && Run(c, labels).Some? && start <= labels && 0 < w < N(c)
    requires forall i | 0 <= i < |start| :: start[i].Die? ==> start[i] == Die(0)
    requires forall i | |start| <= i < |labels| :: !IsFailure(labels[i])
    ensures !IsDead(Run(c, labels).value, w)
  {
    DeadIff(c, labels, w);
    hide Run, IsDead;
    assert forall i | 0 <= i < |labels| :: labels[i] != Die(w);
  }

  lemma OnlyFirstMatters(c: Config, start: seq<Label>, labels: seq<Label>)
    requires ValidConfig(c) && N(c) > 0 && Run(c, labels).Some? && start <= labels && IsDead(Run(c, labels).value, 0)
    requires forall i | 0 <= i < |start| :: start[i].Die? ==> start[i] == Die(0)
    requires forall i | |start| <= i < |labels| :: !IsFailure(labels[i])
    ensures var s := Run(c, labels).value;
      (forall w | 0 <= w < N(c) && IsDead(s, w) :: Fits(c, s, w)) <==> Fits(c, s, 0)
  {
    hide Run, ValidConfig, Fits, IsDead;
    forall w | 0 < w < N(c) ensures !IsDead(Run(c, labels).value, w) { OnlyFirstDied(c, start, labels, w); }
  }

  lemma FirstLineIsSaid(script: seq<Action>, line: Line)
    requires script != [] && script[0] == Say(line)
    ensures Says(script) != []
  {
    SaysGrow(script, 1);
    assert script[..1][..0] == [];
  }

  /** From there on no other write need fail, and the run comes to rest with the output of
      the first child lost: the program exits, or hangs when the child has too much to read. */
  lemma OutputIsLost(c: Config, line: Line) returns (labels: seq<Label>)
    requires ValidConfig(c) && AllHaveKeys(c) && c.scripts[0] != [] && c.scripts[0][0] == Say(line)
    ensures Run(c, labels).Some? && Quiescent(c, Run(c, labels).value)
    ensures var s := Run(c, labels).value;
      && Share(s.printed, 0) == [] != Says(c.scripts[0])
      && (s.main == Exited <==> Fits(c, s, 0))
  {
    var start := FirstWriteFails(c, line);
    labels := ComesToRest(c, start);
    DeadForGood(c, start, labels, 0);
    FirstLineIsSaid(c.scripts[0], line);
    hide *;
    RestingStates(c, labels);
    OnlyFirstMatters(c, start, labels);
  }

  // ---------------------------------------------------------------- two configurations

  /** Prints `n` lines before it reads three items. */
  function PrintsFirst(n: nat): seq<Action>
    decreases n
  {
    if n == 0 then [Take, Take, Take] else [Say("x\n")] + PrintsFirst(n - 1)
  }

  function Two(lines: seq<Line>, n: nat): Config {
    Config(lines, 1024, line => Some(line), key => 0, [PrintsFirst(n), PrintsFirst(0)], 1, 1)
  }

  lemma ThreeTakes()
    ensures Takes([Take, Take, Take]) == 3 && Says([Take, Take, Take]) == []
  {
    assert [Take, Take, Take][..2] == [Take, Take] && [Take, Take][..1] == [Take] && [Take][..0] == [];
  }

  lemma TwoIsValid(lines: seq<Line>, n: nat)
    requires |lines| <= 2 && (n == 1 || n == 3)
    ensures ValidConfig(Two(lines, n)) && AllHaveKeys(Two(lines, n))
    ensures PrintsFirst(n)[0] == Say("x\n")
  {
    PrintingTakes(n);
    PrintingTakes(0);
  }

  lemma {:induction false} PrintingTakes(n: nat)
    ensures Takes(PrintsFirst(n)) == 3 && (forall a | a in PrintsFirst(n) && a.Say? :: a.line != "")
    decreases n
  {
    if n == 0 {
      ThreeTakes();
    } else {
      PrintingTakes(n - 1);
      TakesOfCons(Say("x\n"), PrintsFirst(n - 1));
    }
  }

  lemma {:induction false} TakesOfCons(a: Action, script: seq<Action>)
    ensures Takes([a] + script) == (if a.Take? then 1 else 0) + Takes(script)
    decreases |script|
  {
    var all := [a] + script;
    if script == [] {
      assert all[..0] == [];
    } else {
      var n := |script| - 1;
      assert all[..|all| - 1] == [a] + script[..n];
      TakesOfCons(a, script[..n]);
    }
  }

  /** With nothing to read the program exits, and the line its child printed is lost. */
  lemma ExitsWithOutputLost() returns (labels: seq<Label>)
    ensures var c := Two([], 1);
      && ValidConfig(c) && AllHaveKeys(c) && Run(c, labels).Some? && Quiescent(c, Run(c, labels).value)
      && var s := Run(c, labels).value; s.main == Exited && Share(s.printed, 0) == [] != Says(c.scripts[0])
  {
    TwoIsValid([], 1);
    labels := OutputIsLost(Two([], 1), "x\n");
  }

  lemma OneMoreAction(script: seq<Action>, a: Action, m: nat)
    ensures |Says(script + [a])| == |Says(script)| + if a.Say? then 1 else 0
    ensures Allowance(script + [a], m) == Allowance(script, m) + if a.Take? && |Says(script)| <= m then 1 else 0
  {
    assert (script + [a])[..|script|] == script;
  }

  lemma NothingAllowed()
    ensures Allowance(PrintsFirst(3), 2) == 0
  {
    var x := Say("x\n");
    assert PrintsFirst(3) == [] + [x] + [x] + [x] + [Take] + [Take] + [Take];
    assert |Says([])| == 0 && Allowance([], 2) == 0;
    hide Says, Allowance, PrintsFirst;
    OneMoreAction([], x, 2);
    OneMoreAction([] + [x], x, 2);
    OneMoreAction([] + [x] + [x], x, 2);
    OneMoreAction([] + [x] + [x] + [x], Take, 2);
    OneMoreAction([] + [x] + [x] + [x] + [Take], Take, 2);
    OneMoreAction([] + [x] + [x] + [x] + [Take] + [Take], Take, 2);
  }

  /** With two lines to read it hangs, although every line has a key. */
  lemma HangsWithAllKeys() returns (labels: seq<Label>)
    ensures var c := Two(["k", "k"], 3);
      && ValidConfig(c) && AllHaveKeys(c) && Run(c, labels).Some? && Quiescent(c, Run(c, labels).value)
      && Run(c, labels).value.main != Exited
  {
    var c := Two(["k", "k"], 3);
    TwoIsValid(["k", "k"], 3);
    labels := OutputIsLost(c, "x\n");
    NothingAllowed();
    assert |Assigned(c, 2, 0)| == 2 by { assert |Assigned(c, 0, 0)| == 0 && |Assigned(c, 1, 0)| == 1; }
    assert c.scripts[0] == PrintsFirst(3);
    hide Allowance, Assigned, PrintsFirst, Run;
  }
}
