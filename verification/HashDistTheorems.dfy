/** Whole-run properties of the line distributor: order, conservation, progress, termination. */
module HashDistTheorems {
  import opened Wrappers
  import opened HashDist

  // ---------------------------------------------------------------- preservation

  lemma {:induction false} AssignedHasNoStop(c: Config, k: nat, w: nat)
    requires ValidConfig(c) && k <= |c.lines|
    ensures Stop !in Assigned(c, k, w)
    decreases k
  {
    if k > 0 { AssignedHasNoStop(c, k - 1, w); }
  }

  /** `Stop` can only be the last item sent, so once it is delivered nothing is left. */
  lemma StopComesLast(x: Worker, c: Config, main: MainThread, pos: nat, w: nat)
    requires ValidConfig(c) && pos <= |c.lines|
    requires InputOk(x, Sent(c, main, pos, w), c.maxsize) && Stop in x.delivered
    ensures Terminated(main, w) && x.queue == [] && !x.inputter.Holding?
    ensures x.delivered == Assigned(c, pos, w) + [Stop]
  {
    AssignedHasNoStop(c, pos, w);
    var sent := Sent(c, main, pos, w);
    var i :| 0 <= i < |x.delivered| && x.delivered[i] == Stop;
    assert x.delivered == sent[..|x.delivered|];
    assert sent[i] == Stop;
    assert i == |sent| - 1;
  }

  lemma PutKeepsInput(x: Worker, sent: seq<Item>, maxsize: int, item: Item)
    requires InputOk(x, sent, maxsize) && (maxsize <= 0 || |x.queue| < maxsize)
    ensures InputOk(Put(x, item), sent + [item], maxsize)
  {
    var y := Put(x, item);
    assert y.delivered + InFlight(y) + y.queue == (x.delivered + InFlight(x) + x.queue) + [item];
  }

  lemma DispatchKeepsInput(c: Config, s: State, w: nat)
    requires ValidConfig(c) && |s.workers| == N(c) && w < N(c) && s.pos < |c.lines|
    requires s.main == Dispatching && MainStep(c, s).Some? && InputSide(c, s, w)
    ensures var t := MainStep(c, s).value; t.pos <= |c.lines| && |t.workers| == N(c) && InputSide(c, t, w)
  {
    var t, line := MainStep(c, s).value, c.lines[s.pos];
    var sent := Sent(c, s.main, s.pos, w);
    if line != "" && c.key(line).Some? && Target(c, line) == w {
      PutKeepsInput(s.workers[w], sent, c.maxsize, Text(line));
      assert Sent(c, t.main, t.pos, w) == sent + [Text(line)];
    } else {
      assert Sent(c, t.main, t.pos, w) == sent;
    }
  }

  lemma OtherMainStepKeepsInput(c: Config, s: State, w: nat)
    requires ValidConfig(c) && |s.workers| == N(c) && w < N(c) && s.pos <= |c.lines|
    requires s.main != Dispatching || s.pos == |c.lines|
    requires MainStep(c, s).Some? && InputSide(c, s, w)
    ensures var t := MainStep(c, s).value; t.pos <= |c.lines| && |t.workers| == N(c) && InputSide(c, t, w)
  {
    var t := MainStep(c, s).value;
    var sent := Sent(c, s.main, s.pos, w);
    if s.main == Stopping(w) {
      PutKeepsInput(s.workers[w], sent, c.maxsize, Stop);
      assert Sent(c, t.main, t.pos, w) == sent + [Stop];
    } else {
      assert t.workers[w] == s.workers[w];
      assert Terminated(t.main, w) == Terminated(s.main, w);
    }
  }

  lemma PutKeepsRest(c: Config, x: Worker, item: Item, script: seq<Action>, printed: seq<Printed>, w: nat,
      holdsMutex: bool)
    ensures OutputOk(x, printed, w, holdsMutex) ==> OutputOk(Put(x, item), printed, w, holdsMutex)
    ensures ChildOk(c, x, script) ==> ChildOk(c, Put(x, item), script)
  {
  }

  /** The main thread touches neither stdout, nor the mutex, nor any outputter. */
  lemma MainStepLeavesOutput(c: Config, s: State, w: nat)
    requires ValidConfig(c) && |s.workers| == N(c) && w < N(c) && MainStep(c, s).Some?
    ensures var t := MainStep(c, s).value;
      && |t.workers| == N(c) && t.printed == s.printed && t.mutex == s.mutex && t.stdout == s.stdout
      && (t.workers[w] == s.workers[w] || exists item :: t.workers[w] == Put(s.workers[w], item))
  {
    var t := MainStep(c, s).value;
    if s.main.Dispatching? && s.pos < |c.lines| && t.workers[w] != s.workers[w] {
      assert t.workers[w] == Put(s.workers[w], Text(c.lines[s.pos]));
    } else if s.main.Stopping? && t.workers[w] != s.workers[w] {
      assert t.workers[w] == Put(s.workers[w], Stop);
    }
  }

  lemma MainStepKeepsRest(c: Config, s: State, w: nat)
    requires ValidConfig(c) && |s.workers| == N(c) && w < N(c) && s.pos <= |c.lines|
    requires MainStep(c, s).Some? && OutputSide(s, w) && ChildSide(c, s, w)
    ensures var t := MainStep(c, s).value; |t.workers| == N(c) && OutputSide(t, w) && ChildSide(c, t, w)
  {
    MainStepLeavesOutput(c, s, w);
    var t := MainStep(c, s).value;
    if t.workers[w] != s.workers[w] {
      var item :| t.workers[w] == Put(s.workers[w], item);
      PutKeepsRest(c, s.workers[w], item, c.scripts[w], s.printed, w, s.mutex == Some(w));
    }
  }

  lemma MainStepKeepsPartial(c: Config, s: State)
    requires Inv(c, s) && MainStep(c, s).Some?
    ensures var t := MainStep(c, s).value; t.stdout == Concat(t.printed) + Partial(t)
  {
    MainStepLeavesOutput(c, s, if s.mutex.Some? then s.mutex.value else 0);
  }

  lemma MainStepKeepsMainSide(c: Config, s: State)
    requires ValidConfig(c) && |s.workers| == N(c) && s.pos <= |c.lines|
    requires MainSide(c, s) && MainStep(c, s).Some?
    ensures var t := MainStep(c, s).value; t.pos <= |c.lines| && |t.workers| == N(c) && MainSide(c, t)
  {
  }

  lemma MainStepKeepsInv(c: Config, s: State)
    requires Inv(c, s) && MainStep(c, s).Some?
    ensures Inv(c, MainStep(c, s).value)
  {
    var t := MainStep(c, s).value;
    MainStepKeepsMainSide(c, s);
    forall w | 0 <= w < N(c)
      ensures InputSide(c, t, w) && OutputSide(t, w) && ChildSide(c, t, w)
    {
      assert InputSide(c, s, w) && OutputSide(s, w) && ChildSide(c, s, w);
      if s.main == Dispatching && s.pos < |c.lines| {
        DispatchKeepsInput(c, s, w);
      } else {
        OtherMainStepKeepsInput(c, s, w);
      }
      MainStepKeepsRest(c, s, w);
    }
    MainStepKeepsPartial(c, s);
  }

  lemma InputterStepKeepsInput(x: Worker, c: Config, main: MainThread, pos: nat, l: Label)
    requires ValidConfig(c) && pos <= |c.lines| && IsInputter(l)
    requires InputOk(x, Sent(c, main, pos, l.w), c.maxsize) && InputterStep(c, x, l).Some?
    ensures InputOk(InputterStep(c, x, l).value, Sent(c, main, pos, l.w), c.maxsize)
  {
    var y := InputterStep(c, x, l).value;
    if Stop in x.delivered { StopComesLast(x, c, main, pos, l.w); }
    if l.Hand? { assert y.delivered + InFlight(y) == x.delivered + InFlight(x); }
    if l.Get? { assert InFlight(y) + y.queue == x.queue; }
    assert y.delivered + InFlight(y) + y.queue == x.delivered + InFlight(x) + x.queue;
  }

  lemma InputterStepKeepsChild(x: Worker, c: Config, main: MainThread, pos: nat, l: Label, script: seq<Action>)
    requires ValidConfig(c) && pos <= |c.lines| && IsInputter(l) && InputterStep(c, x, l).Some?
    requires InputOk(x, Sent(c, main, pos, l.w), c.maxsize) && ChildOk(c, x, script)
    ensures ChildOk(c, InputterStep(c, x, l).value, script)
  {
    if Stop in x.delivered { StopComesLast(x, c, main, pos, l.w); }
  }

  lemma ReplaceKeepsMainSide(c: Config, s: State, w: nat, y: Worker)
    requires ValidConfig(c) && |s.workers| == N(c) && s.pos <= |c.lines| && MainSide(c, s) && w < N(c)
    requires Done(s.workers[w]) ==> Done(y)
    requires s.workers[w].unfinished == 0 ==>
      y.unfinished == 0 && (s.workers[w].inputter == Finished ==> y.inputter == Finished)
    ensures MainSide(c, SetWorker(s, w, y))
  {
  }

  /** Replacing one worker keeps the invariant when the new worker fits its place. */
  lemma ReplaceKeepsInv(c: Config, s: State, w: nat, y: Worker)
    requires Inv(c, s) && w < N(c)
    requires InputOk(y, Sent(c, s.main, s.pos, w), c.maxsize) && ChildOk(c, y, c.scripts[w])
    requires OutputOk(y, s.printed, w, s.mutex == Some(w))
    requires y.outputter == s.workers[w].outputter
    requires Done(s.workers[w]) ==> Done(y)
    requires s.workers[w].unfinished == 0 ==>
      y.unfinished == 0 && (s.workers[w].inputter == Finished ==> y.inputter == Finished)
    ensures Inv(c, SetWorker(s, w, y))
  {
    ReplaceKeepsMainSide(c, s, w, y);
    ReplaceKeepsPartial(s, w, y);
    var t := SetWorker(s, w, y);
    hide InputSide, OutputSide, ChildSide, InputOk, OutputOk, ChildOk, Sent, Concat, Partial, MainSide, Done,
        ValidConfig;
    forall v | 0 <= v < N(c)
      ensures InputSide(c, t, v) && OutputSide(t, v) && ChildSide(c, t, v)
    {
      ReplaceKeepsSides(c, s, w, y, v);
    }
  }

  lemma ReplaceKeepsSides(c: Config, s: State, w: nat, y: Worker, v: nat)
    requires Inv(c, s) && w < N(c) && v < N(c)
    requires InputOk(y, Sent(c, s.main, s.pos, w), c.maxsize) && ChildOk(c, y, c.scripts[w])
    requires OutputOk(y, s.printed, w, s.mutex == Some(w))
    ensures var t := SetWorker(s, w, y); InputSide(c, t, v) && OutputSide(t, v) && ChildSide(c, t, v)
  {
    assert InputSide(c, s, v) && OutputSide(s, v) && ChildSide(c, s, v);
    hide InputOk, OutputOk, ChildOk, Sent, Concat, Partial, MainSide, ValidConfig, Inv;
  }

  lemma ReplaceKeepsPartial(s: State, w: nat, y: Worker)
    requires w < |s.workers| && y.outputter == s.workers[w].outputter
    ensures Partial(SetWorker(s, w, y)) == Partial(s)
  {
  }

  lemma InputterStepKeepsOutput(x: Worker, c: Config, l: Label, printed: seq<Printed>, holdsMutex: bool)
    requires IsInputter(l) && InputterStep(c, x, l).Some? && OutputOk(x, printed, l.w, holdsMutex)
    ensures var y := InputterStep(c, x, l).value;
      && OutputOk(y, printed, l.w, holdsMutex) && y.outputter == x.outputter
      && !(x.inputter == Finished) && (x.unfinished == 0 ==> y.unfinished == 0)
  {
  }

  lemma InputterStepKeepsInv(c: Config, s: State, l: Label)
    requires Inv(c, s) && IsInputter(l) && l.w < N(c) && InputterStep(c, s.workers[l.w], l).Some?
    ensures Inv(c, SetWorker(s, l.w, InputterStep(c, s.workers[l.w], l).value))
  {
    assert InputSide(c, s, l.w) && OutputSide(s, l.w) && ChildSide(c, s, l.w);
    InputterStepKeepsInput(s.workers[l.w], c, s.main, s.pos, l);
    InputterStepKeepsChild(s.workers[l.w], c, s.main, s.pos, l, c.scripts[l.w]);
    InputterStepKeepsOutput(s.workers[l.w], c, l, s.printed, s.mutex == Some(l.w));
    hide InputOk, OutputOk, ChildOk, Sent, InputterStep;
    ReplaceKeepsInv(c, s, l.w, InputterStep(c, s.workers[l.w], l).value);
  }

  /** What the child has done after one more action. */
  lemma OneActionOn(x: Worker, script: seq<Action>)
    requires 0 < |x.script| <= |script| && x.script == script[|script| - |x.script|..]
    ensures var k := |script| - |x.script|;
      && x.script[1..] == script[k + 1..] && script[k] == x.script[0]
      && Takes(script[..k + 1]) == Takes(script[..k]) + (if x.script[0].Take? then 1 else 0)
      && Says(script[..k + 1]) == Says(script[..k]) + (if x.script[0].Say? then [x.script[0].line] else [])
  {
    var k := |script| - |x.script|;
    assert script[..k + 1][..k] == script[..k];
  }

  lemma ChildStepKeepsChild(c: Config, x: Worker, script: seq<Action>)
    requires ChildOk(c, x, script) && ChildStep(c, x).Some?
    ensures ChildOk(c, ChildStep(c, x).value, script)
  {
    OneActionOn(x, script);
    hide Takes, Says;
  }

  lemma ChildStepKeepsOthers(c: Config, x: Worker, sent: seq<Item>, printed: seq<Printed>, w: nat, holdsMutex: bool)
    requires ChildStep(c, x).Some? && InputOk(x, sent, c.maxsize) && OutputOk(x, printed, w, holdsMutex)
    ensures var y := ChildStep(c, x).value;
      InputOk(y, sent, c.maxsize) && OutputOk(y, printed, w, holdsMutex)
  {
    var y := ChildStep(c, x).value;
    assert y.emitted[..x.read] == x.emitted[..x.read];
  }

  lemma ChildStepKeepsThreads(c: Config, x: Worker)
    requires ChildStep(c, x).Some?
    ensures var y := ChildStep(c, x).value;
      y.unfinished == x.unfinished && y.inputter == x.inputter && y.outputter == x.outputter && (Done(x) ==> Done(y))
  {
  }

  lemma ChildStepKeepsInv(c: Config, s: State, w: nat)
    requires Inv(c, s) && w < N(c) && ChildStep(c, s.workers[w]).Some?
    ensures Inv(c, SetWorker(s, w, ChildStep(c, s.workers[w]).value))
  {
    assert InputSide(c, s, w) && OutputSide(s, w) && ChildSide(c, s, w);
    ChildStepKeepsChild(c, s.workers[w], c.scripts[w]);
    ChildStepKeepsOthers(c, s.workers[w], Sent(c, s.main, s.pos, w), s.printed, w, s.mutex == Some(w));
    ChildStepKeepsThreads(c, s.workers[w]);
    hide InputOk, OutputOk, ChildOk, Sent, ChildStep, InputSide, OutputSide, ChildSide, MainSide;
    ReplaceKeepsInv(c, s, w, ChildStep(c, s.workers[w]).value);
  }

  lemma SharesOfPrinted(printed: seq<Printed>, p: Printed, v: nat)
    ensures Share(printed + [p], v) == Share(printed, v) + (if p.Whole? && p.worker == v then [p.text] else [])
    ensures Cuts(printed + [p], v) == Cuts(printed, v) + (if p.Cut? && p.worker == v then [p.text] else [])
  {
    assert (printed + [p])[..|printed|] == printed;
  }

  lemma UnlockKeepsItself(s: State, w: nat)
    requires w < |s.workers| && OutputterStep(s, Unlock(w)).Some? && OutputSide(s, w)
    ensures var t := OutputterStep(s, Unlock(w)).value; |t.workers| == |s.workers| && OutputSide(t, w)
  {
    SharesOfPrinted(s.printed, Whole(w, s.workers[w].outputter.line), w);
    hide Share, Cuts;
  }

  lemma DieKeepsItself(s: State, w: nat)
    requires w < |s.workers| && OutputterStep(s, Die(w)).Some? && OutputSide(s, w)
    ensures var t := OutputterStep(s, Die(w)).value; |t.workers| == |s.workers| && OutputSide(t, w)
  {
    var x, t := s.workers[w], OutputterStep(s, Die(w)).value;
    SharesOfPrinted(s.printed, Cut(w, x.outputter.line[..x.outputter.sent]), w);
    assert t.workers[w].outputter == Dead(x.outputter.line, x.outputter.sent) && t.workers[w].read == x.read;
    assert t.workers[w].emitted == x.emitted && t.mutex == None;
    hide Share, Cuts, OutputterStep;
    assert Cuts(s.printed, w) == [] && [] + [CutText(t.workers[w])] == [CutText(t.workers[w])];
  }

  lemma ReadingKeepsItself(s: State, l: Label)
    requires (l.ReadLine? || l.Eof? || l.Lock? || l.WriteChar?) && l.w < |s.workers|
    requires OutputterStep(s, l).Some? && OutputSide(s, l.w)
    ensures var t := OutputterStep(s, l).value; |t.workers| == |s.workers| && OutputSide(t, l.w)
  {
    var x := s.workers[l.w];
    hide Share, Cuts;
    if l.ReadLine? {
      assert x.emitted[..x.read + 1] == x.emitted[..x.read] + [x.emitted[x.read]];
    }
  }

  lemma OutputterStepKeepsOthers(s: State, l: Label, v: nat)
    requires IsOutputter(l) && l.w < |s.workers| && v < |s.workers| && v != l.w
    requires OutputterStep(s, l).Some? && OutputSide(s, l.w) && OutputSide(s, v)
    ensures var t := OutputterStep(s, l).value; |t.workers| == |s.workers| && OutputSide(t, v)
  {
    var t, x := OutputterStep(s, l).value, s.workers[l.w];
    assert t.workers[v] == s.workers[v];
    if l.Unlock? { SharesOfPrinted(s.printed, Whole(l.w, x.outputter.line), v); }
    if l.Die? { SharesOfPrinted(s.printed, Cut(l.w, x.outputter.line[..x.outputter.sent]), v); }
  }

  lemma WriteKeepsStdout(s: State, w: nat)
    requires w < |s.workers| && OutputterStep(s, WriteChar(w)).Some? && s.mutex == Some(w)
    ensures var t := OutputterStep(s, WriteChar(w)).value;
      && t.printed == s.printed
      && (s.stdout == Concat(s.printed) + Partial(s) ==> t.stdout == Concat(t.printed) + Partial(t))
  {
    var t, x := OutputterStep(s, WriteChar(w)).value, s.workers[w];
    var c := x.outputter.line[x.outputter.sent];
    assert Partial(t) == Partial(s) + [c];
    hide Concat, Partial;
    assert (Concat(s.printed) + Partial(s)) + [c] == Concat(s.printed) + (Partial(s) + [c]);
  }

  lemma PrintKeepsStdout(s: State, l: Label)
    requires (l.Unlock? || l.Die?) && l.w < |s.workers| && OutputterStep(s, l).Some? && s.mutex == Some(l.w)
    ensures var t := OutputterStep(s, l).value; Concat(t.printed) + Partial(t) == Concat(s.printed) + Partial(s)
  {
    var t, x := OutputterStep(s, l).value, s.workers[l.w];
    var text := if l.Unlock? then x.outputter.line else x.outputter.line[..x.outputter.sent];
    assert x.outputter.line[..|x.outputter.line|] == x.outputter.line;
    assert t.printed[|s.printed|].text == text && t.printed[..|t.printed| - 1] == s.printed;
    assert Partial(s) == text && Partial(t) == "";
    hide Partial;
    assert Concat(t.printed) == Concat(s.printed) + text;
  }

  lemma OutputterStepKeepsStdout(c: Config, s: State, l: Label)
    requires Inv(c, s) && IsOutputter(l) && l.w < N(c) && OutputterStep(s, l).Some?
    ensures var t := OutputterStep(s, l).value; t.stdout == Concat(t.printed) + Partial(t)
  {
    assert OutputSide(s, l.w);
    hide InputSide, ChildSide, MainSide, Share, Cuts, Concat;
    if l.WriteChar? {
      WriteKeepsStdout(s, l.w);
    } else if l.Unlock? || l.Die? {
      PrintKeepsStdout(s, l);
    } else {
      assert Partial(OutputterStep(s, l).value) == Partial(s);
    }
  }

  /** The part of a worker that an outputter can change. */
  ghost predicate OutputOnly(x: Worker, y: Worker) {
    y == x.(read := y.read, outputter := y.outputter) && x.read <= y.read
        && (IsOver(x.outputter) ==> y.outputter == x.outputter)
  }

  lemma OutputOnlyKeeps(c: Config, x: Worker, y: Worker, sent: seq<Item>, script: seq<Action>)
    requires OutputOnly(x, y) && InputOk(x, sent, c.maxsize) && ChildOk(c, x, script)
    ensures InputOk(y, sent, c.maxsize) && ChildOk(c, y, script)
    ensures (Done(x) ==> Done(y)) && y.unfinished == x.unfinished && y.inputter == x.inputter
  {
  }

  lemma OutputterStepIsOutputOnly(s: State, l: Label)
    requires IsOutputter(l) && l.w < |s.workers| && OutputterStep(s, l).Some?
    ensures var t := OutputterStep(s, l).value;
      && |t.workers| == |s.workers| && OutputOnly(s.workers[l.w], t.workers[l.w])
      && (forall v | 0 <= v < |s.workers| && v != l.w :: t.workers[v] == s.workers[v])
      && t.main == s.main && t.pos == s.pos && t.aborted == s.aborted
      && (t.mutex.Some? ==> t.mutex == s.mutex || t.mutex == Some(l.w))
  {
  }

  lemma OutputterStepKeepsSides(c: Config, s: State, l: Label, v: nat)
    requires Inv(c, s) && IsOutputter(l) && l.w < N(c) && OutputterStep(s, l).Some? && v < N(c)
    ensures var t := OutputterStep(s, l).value;
      && |t.workers| == N(c) && t.pos <= |c.lines|
      && InputSide(c, t, v) && OutputSide(t, v) && ChildSide(c, t, v)
      && (Done(s.workers[v]) ==> Done(t.workers[v]))
      && t.workers[v].unfinished == s.workers[v].unfinished && t.workers[v].inputter == s.workers[v].inputter
  {
    assert OutputSide(s, l.w) && InputSide(c, s, v) && OutputSide(s, v) && ChildSide(c, s, v);
    hide OutputOk, InputOk, ChildOk, Sent, Concat, Partial, MainSide, ValidConfig;
    OutputterStepIsOutputOnly(s, l);
    if v != l.w {
      OutputterStepKeepsOthers(s, l, v);
    } else if l.Unlock? {
      UnlockKeepsItself(s, v);
    } else if l.Die? {
      DieKeepsItself(s, v);
    } else {
      ReadingKeepsItself(s, l);
    }
    hide OutputterStep;
    var y := OutputterStep(s, l).value.workers[v];
    if v == l.w { OutputOnlyKeeps(c, s.workers[v], y, Sent(c, s.main, s.pos, v), c.scripts[v]); }
  }

  lemma OutputterStepKeepsInv(c: Config, s: State, l: Label)
    requires Inv(c, s) && IsOutputter(l) && l.w < N(c) && OutputterStep(s, l).Some?
    ensures Inv(c, OutputterStep(s, l).value)
  {
    hide OutputterStep, OutputSide, InputSide, ChildSide, Concat, Partial, Done, OutputOnly;
    OutputterStepKeepsStdout(c, s, l);
    OutputterStepIsOutputOnly(s, l);
    var t := OutputterStep(s, l).value;
    forall v | 0 <= v < N(c)
      ensures InputSide(c, t, v) && OutputSide(t, v) && ChildSide(c, t, v)
      ensures Done(s.workers[v]) ==> Done(t.workers[v])
      ensures t.workers[v].unfinished == s.workers[v].unfinished && t.workers[v].inputter == s.workers[v].inputter
    {
      OutputterStepKeepsSides(c, s, l, v);
    }
    assert MainSide(c, t);
  }

  lemma StepKeepsInv(c: Config, s: State, l: Label)
    requires Inv(c, s) && Step(c, s, l).Some?
    ensures Inv(c, Step(c, s, l).value)
  {
    hide InputOk, OutputOk, ChildOk, Sent, Concat, MainStep, InputterStep, ChildStep, OutputterStep, MainSide;
    if l.Main? {
      MainStepKeepsInv(c, s);
    } else if l.InputterIoError? {
      AbortKeepsInv(c, s);
    } else if IsInputter(l) {
      InputterStepKeepsInv(c, s, l);
    } else if l.Child? {
      ChildStepKeepsInv(c, s, l.w);
    } else {
      OutputterStepKeepsInv(c, s, l);
    }
  }

  lemma AbortKeepsInv(c: Config, s: State)
    requires Inv(c, s)
    ensures Inv(c, s.(aborted := true))
  {
    var t := s.(aborted := true);
    hide InputOk, OutputOk, ChildOk, Sent, Concat;
    forall v | 0 <= v < N(c)
      ensures InputSide(c, t, v) && OutputSide(t, v) && ChildSide(c, t, v)
    {
      assert InputSide(c, s, v) && OutputSide(s, v) && ChildSide(c, s, v);
    }
  }

  lemma InitInv(c: Config)
    requires ValidConfig(c)
    ensures Inv(c, Init(c))
  {
    var s := Init(c);
    forall w | 0 <= w < N(c)
      ensures InputSide(c, s, w) && OutputSide(s, w) && ChildSide(c, s, w)
    {
      assert s.workers[w] == Worker([], 0, Getting, [], 0, c.scripts[w], [], 0, Reading);
    }
  }

  /** The invariant holds in every state of every interleaving. */
  lemma {:induction false} InvAlways(c: Config, labels: seq<Label>)
    requires ValidConfig(c) && Run(c, labels).Some?
    ensures Inv(c, Run(c, labels).value)
    decreases |labels|
  {
    if labels == [] {
      InitInv(c);
    } else {
      var before := labels[..|labels| - 1];
      InvAlways(c, before);
      StepKeepsInv(c, Run(c, before).value, labels[|labels| - 1]);
    }
  }

  // ---------------------------------------------------------------- order and conservation

  /** In every interleaving, what worker `w` was given is its own share of the input, in input order. */
  lemma WorkerGetsItsShareInOrder(c: Config, labels: seq<Label>, w: nat)
    requires ValidConfig(c) && Run(c, labels).Some? && w < N(c)
    ensures var s := Run(c, labels).value; var x := s.workers[w];
      && s.pos <= |c.lines|
      && x.delivered + InFlight(x) + x.queue
         == Assigned(c, s.pos, w) + (if Terminated(s.main, w) then [Stop] else [])
      && x.unfinished == |x.queue| + (if x.inputter.Holding? || x.inputter.Handed? then 1 else 0)
      && (c.maxsize > 0 ==> |x.queue| <= c.maxsize)
  {
    InvAlways(c, labels);
    assert InputSide(c, Run(c, labels).value, w);
  }

  /** Stdout is made of whole child lines, of what the one mutex holder has written so far,
      and of one cut line for each outputter whose write failed: the beginning of the line
      that comes after those it printed whole. */
  lemma StdoutIsWholeLines(c: Config, labels: seq<Label>, w: nat)
    requires ValidConfig(c) && Run(c, labels).Some? && w < N(c)
    ensures var s := Run(c, labels).value; var x := s.workers[w];
      && s.stdout == Concat(s.printed) + Partial(s)
      && Share(s.printed, w) <= x.emitted
      && (s.mutex == None ==> s.stdout == Concat(s.printed))
      && (x.outputter.Writing? <==> s.mutex == Some(w))
      && (if x.outputter.Dead? then
            && |Share(s.printed, w)| < |x.emitted| && x.outputter.line == x.emitted[|Share(s.printed, w)|]
            && x.outputter.sent < |x.outputter.line| && Cuts(s.printed, w) == [x.outputter.line[..x.outputter.sent]]
          else Cuts(s.printed, w) == [])
  {
    InvAlways(c, labels);
    var s := Run(c, labels).value;
    assert OutputSide(s, w);
    ReadSoFar(s.workers[w], s.printed, w, s.mutex == Some(w));
  }

  lemma ReadSoFar(x: Worker, printed: seq<Printed>, w: nat, holdsMutex: bool)
    requires OutputOk(x, printed, w, holdsMutex)
    ensures Share(printed, w) <= x.emitted && x.read == |Share(printed, w)| + |Pending(x)|
    ensures x.outputter.Dead? ==>
      x.read == |Share(printed, w)| + 1 && x.outputter.line == x.emitted[|Share(printed, w)|]
  {
    var share := Share(printed, w);
    hide Share, Cuts;
    assert x.emitted[..x.read] <= x.emitted;
    if x.outputter.Dead? { assert (share + [x.outputter.line])[|share|] == x.emitted[..x.read][|share|]; }
  }

  /** The lines that have to reach some worker. */
  ghost function Wanted(c: Config, k: nat): seq<Item>
    requires k <= |c.lines|
    decreases k
  {
    if k == 0 then []
    else
      Wanted(c, k - 1)
        + if c.lines[k - 1] != "" && c.key(c.lines[k - 1]).Some? then [Text(c.lines[k - 1])] else []
  }

  ghost function Count(items: seq<Item>, e: Item): nat {
    if items == [] then 0 else Count(items[..|items| - 1], e) + if items[|items| - 1] == e then 1 else 0
  }

  lemma CountOfAppend(items: seq<Item>, last: Item, e: Item)
    ensures Count(items + [last], e) == Count(items, e) + if last == e then 1 else 0
  {
    assert (items + [last])[..|items|] == items;
  }

  /** How often `e` occurs in the shares of the first `m` workers together. */
  ghost function Deliveries(c: Config, k: nat, m: nat, e: Item): nat
    requires ValidConfig(c) && k <= |c.lines|
    decreases m
  {
    if m == 0 then 0 else Deliveries(c, k, m - 1, e) + Count(Assigned(c, k, m - 1), e)
  }

  ghost predicate GoesBelow(c: Config, line: Line, m: nat, e: Item)
    requires ValidConfig(c)
  {
    line != "" && c.key(line).Some? && Target(c, line) < m && e == Text(line)
  }

  lemma AssignedStep(c: Config, k: nat, w: nat)
    requires ValidConfig(c) && 0 < k <= |c.lines|
    ensures var line := c.lines[k - 1];
      if line != "" && c.key(line).Some? && Target(c, line) == w
      then Assigned(c, k, w) == Assigned(c, k - 1, w) + [Text(line)]
      else Assigned(c, k, w) == Assigned(c, k - 1, w)
  {
  }

  lemma ShareOfNextLine(c: Config, k: nat, w: nat, e: Item)
    requires ValidConfig(c) && 0 < k <= |c.lines|
    ensures Count(Assigned(c, k, w), e) + (if GoesBelow(c, c.lines[k - 1], w, e) then 1 else 0)
         == Count(Assigned(c, k - 1, w), e) + (if GoesBelow(c, c.lines[k - 1], w + 1, e) then 1 else 0)
  {
    AssignedStep(c, k, w);
    CountOfAppend(Assigned(c, k - 1, w), Text(c.lines[k - 1]), e);
  }

  lemma {:induction false} NextLineGoesToOneWorker(c: Config, k: nat, m: nat, e: Item)
    requires ValidConfig(c) && 0 < k <= |c.lines|
    ensures Deliveries(c, k, m, e)
         == Deliveries(c, k - 1, m, e) + if GoesBelow(c, c.lines[k - 1], m, e) then 1 else 0
    decreases m
  {
    hide ValidChildren, Assigned, Count;
    if m > 0 {
      NextLineGoesToOneWorker(c, k, m - 1, e);
      ShareOfNextLine(c, k, m - 1, e);
    }
  }

  lemma WantedStep(c: Config, k: nat, e: Item)
    requires ValidConfig(c) && 0 < k <= |c.lines|
    ensures Count(Wanted(c, k), e)
         == Count(Wanted(c, k - 1), e) + if GoesBelow(c, c.lines[k - 1], N(c), e) then 1 else 0
  {
    var line := c.lines[k - 1];
    if line != "" && c.key(line).Some? {
      CountOfAppend(Wanted(c, k - 1), Text(line), e);
    } else {
      assert Wanted(c, k) == Wanted(c, k - 1);
    }
  }

  lemma SharesPartitionStep(c: Config, k: nat, e: Item)
    requires ValidConfig(c) && 0 < k <= |c.lines|
    requires Deliveries(c, k - 1, N(c), e) == Count(Wanted(c, k - 1), e)
    ensures Deliveries(c, k, N(c), e) == Count(Wanted(c, k), e)
  {
    NextLineGoesToOneWorker(c, k, N(c), e);
    WantedStep(c, k, e);
  }

  /** Sharding loses nothing and duplicates nothing. */
  lemma {:induction false} SharesPartitionTheInput(c: Config, k: nat, e: Item)
    requires ValidConfig(c) && k <= |c.lines|
    ensures Deliveries(c, k, N(c), e) == Count(Wanted(c, k), e)
    decreases k
  {
    hide ValidChildren, Deliveries;
    if k == 0 {
      NothingAssigned(c, N(c), e);
    } else {
      SharesPartitionTheInput(c, k - 1, e);
      SharesPartitionStep(c, k, e);
    }
  }

  lemma {:induction false} NothingAssigned(c: Config, m: nat, e: Item)
    requires ValidConfig(c)
    ensures Deliveries(c, 0, m, e) == 0
    decreases m
  {
    if m > 0 { NothingAssigned(c, m - 1, e); }
  }

  lemma {:induction false} AssignedGrows(c: Config, i: nat, j: nat, w: nat)
    requires ValidConfig(c) && i <= j <= |c.lines|
    ensures Assigned(c, i, w) <= Assigned(c, j, w)
    decreases j
  {
    if i < j { AssignedGrows(c, i, j - 1, w); }
  }

  lemma AssignedAt(c: Config, i: nat, w: nat)
    requires ValidConfig(c) && i < |c.lines| && c.lines[i] != "" && c.key(c.lines[i]).Some?
    requires Target(c, c.lines[i]) == w
    ensures |Assigned(c, i + 1, w)| == |Assigned(c, i, w)| + 1 <= |Assigned(c, |c.lines|, w)|
    ensures Assigned(c, |c.lines|, w)[|Assigned(c, i, w)|] == Text(c.lines[i])
  {
    AssignedStep(c, i + 1, w);
    AssignedGrows(c, i + 1, |c.lines|, w);
  }

  lemma EqualKeysHaveOneTarget(c: Config, x: Line, y: Line)
    requires ValidConfig(c) && c.key(x).Some? && c.key(x) == c.key(y)
    ensures Target(c, x) == Target(c, y)
  {
  }

  /** Lines with equal keys go to one worker, the earlier line first. */
  lemma EqualKeysShareAWorkerInOrder(c: Config, i: nat, j: nat)
    requires ValidConfig(c) && i < j < |c.lines| && c.lines[i] != "" && c.lines[j] != ""
    requires c.key(c.lines[i]).Some? && c.key(c.lines[i]) == c.key(c.lines[j])
    ensures Target(c, c.lines[i]) == Target(c, c.lines[j])
    ensures var w := Target(c, c.lines[i]); var all := Assigned(c, |c.lines|, w);
      var p, q := |Assigned(c, i, w)|, |Assigned(c, j, w)|;
      p < q < |all| && all[p] == Text(c.lines[i]) && all[q] == Text(c.lines[j])
  {
    hide *;
    var w := Target(c, c.lines[i]);
    EqualKeysHaveOneTarget(c, c.lines[i], c.lines[j]);
    AssignedAt(c, i, w);
    AssignedAt(c, j, w);
    AssignedGrows(c, i + 1, j, w);
  }

  // ---------------------------------------------------------------- termination

  ghost function OutputterWork(o: Outputter): nat {
    match o
    case Reading => 1
    case Waiting(line) => |line| + 3
    case Writing(line, sent) => (if sent <= |line| then |line| - sent else 0) + 2
    case Ended => 0
    case Dead(_, _) => 0
  }

  ghost function PipeWork(lines: seq<Line>): nat {
    if lines == [] then 0 else |lines[0]| + 3 + PipeWork(lines[1..])
  }

  ghost function ScriptWork(script: seq<Action>): nat {
    if script == [] then 0
    else (match script[0] case Take => 1 case Say(line) => |line| + 4) + ScriptWork(script[1..])
  }

  ghost function InputterWork(i: Inputter): nat {
    match i
    case Holding(_) => 2
    case Handed(_) => 1
    case _ => 0
  }

  ghost function WorkerWork(x: Worker): nat {
    3 * |x.queue| + InputterWork(x.inputter) + ScriptWork(x.script) + OutputterWork(x.outputter)
    + if x.read <= |x.emitted| then PipeWork(x.emitted[x.read..]) else 0
  }

  ghost function TotalWork(workers: seq<Worker>): nat {
    if workers == [] then 0
    else TotalWork(workers[..|workers| - 1]) + WorkerWork(workers[|workers| - 1])
  }

  ghost function MainWork(c: Config, main: MainThread, pos: nat): int {
    var n := N(c);
    match main
    case Dispatching => 4 * (|c.lines| - pos) + 7 * n + 3
    case Stopping(k) => 4 * (n - k) + 3 * n + 2
    case JoinQueue(w) => 3 * (n - w) + 1
    case JoinInputter(w) => 3 * (n - w)
    case JoinOutputter(w) => 3 * (n - w) - 1
    case Exited => 0
    case Died => 0
  }

  /** The most steps that can still be taken. */
  ghost function Measure(c: Config, s: State): int {
    MainWork(c, s.main, s.pos) + TotalWork(s.workers) + if s.aborted then 0 else 1
  }

  lemma {:induction false} TotalWorkOfUpdate(workers: seq<Worker>, w: nat, y: Worker)
    requires w < |workers|
    ensures TotalWork(workers[w := y]) == TotalWork(workers) - WorkerWork(workers[w]) + WorkerWork(y)
  {
    hide WorkerWork;
    var n := |workers| - 1;
    if w == n {
      assert workers[w := y][..n] == workers[..n];
    } else {
      assert workers[w := y][..n] == workers[..n][w := y];
      TotalWorkOfUpdate(workers[..n], w, y);
    }
  }

  lemma PutCostsThree(workers: seq<Worker>, w: nat, item: Item)
    requires w < |workers|
    ensures TotalWork(workers[w := Put(workers[w], item)]) == TotalWork(workers) + 3
  {
    TotalWorkOfUpdate(workers, w, Put(workers[w], item));
  }

  lemma MainStepDecreases(c: Config, s: State)
    requires ValidConfig(c) && |s.workers| == N(c) && s.pos <= |c.lines| && MainStep(c, s).Some?
    requires s.main.Stopping? ==> s.main.next <= N(c)
    requires s.main.JoinQueue? ==> s.main.w <= N(c)
    ensures Measure(c, MainStep(c, s).value) < Measure(c, s)
  {
    if s.main.Dispatching? && s.pos < |c.lines| {
      var line := c.lines[s.pos];
      if line != "" && c.key(line).Some? {
        PutCostsThree(s.workers, Target(c, line), Text(line));
      }
    } else if s.main.Stopping? && s.main.next < N(c) {
      PutCostsThree(s.workers, s.main.next, Stop);
    }
    hide ValidChildren, TotalWork;
  }

  lemma {:induction false} PipeWorkOfAppend(lines: seq<Line>, line: Line)
    ensures PipeWork(lines + [line]) == PipeWork(lines) + |line| + 3
    decreases |lines|
  {
    if lines != [] {
      PipeWorkOfAppend(lines[1..], line);
      assert (lines + [line])[1..] == lines[1..] + [line];
    }
  }

  lemma ChildStepDecreases(c: Config, x: Worker)
    requires ChildStep(c, x).Some? && x.read <= |x.emitted|
    ensures WorkerWork(ChildStep(c, x).value) < WorkerWork(x)
  {
    if x.script[0].Say? {
      PipeWorkOfAppend(x.emitted[x.read..], x.script[0].line);
      assert (x.emitted + [x.script[0].line])[x.read..] == x.emitted[x.read..] + [x.script[0].line];
    }
  }

  lemma InputterStepDecreases(c: Config, x: Worker, l: Label)
    requires IsInputter(l) && InputterStep(c, x, l).Some?
    ensures WorkerWork(InputterStep(c, x, l).value) < WorkerWork(x)
  {
    hide ScriptWork, PipeWork, OutputterWork;
  }

  lemma OutputterStepDecreases(s: State, l: Label)
    requires IsOutputter(l) && l.w < |s.workers| && OutputterStep(s, l).Some?
    requires s.workers[l.w].read <= |s.workers[l.w].emitted|
    ensures OutputterStep(s, l).value.workers == s.workers[l.w := OutputterStep(s, l).value.workers[l.w]]
    ensures WorkerWork(OutputterStep(s, l).value.workers[l.w]) < WorkerWork(s.workers[l.w])
  {
    var x := s.workers[l.w];
    if l.ReadLine? { assert x.emitted[x.read..][1..] == x.emitted[x.read + 1..]; }
    hide ScriptWork;
  }

  lemma StepDecreases(c: Config, s: State, l: Label)
    requires Inv(c, s) && Step(c, s, l).Some?
    ensures Measure(c, Step(c, s, l).value) < Measure(c, s)
  {
    hide MainStep, InputterStep, ChildStep, OutputterStep, WorkerWork, TotalWork, MainWork, InputSide, ChildSide,
        Concat, Partial;
    if l.Main? {
      MainStepDecreases(c, s);
    } else if !l.InputterIoError? {
      assert OutputSide(s, l.w);
      var x := s.workers[l.w];
      var t := Step(c, s, l).value;
      if IsInputter(l) {
        InputterStepDecreases(c, x, l);
        TotalWorkOfUpdate(s.workers, l.w, InputterStep(c, x, l).value);
      } else if l.Child? {
        ChildStepDecreases(c, x);
        TotalWorkOfUpdate(s.workers, l.w, ChildStep(c, x).value);
      } else {
        OutputterStepDecreases(s, l);
        OutputterStepIsOutputOnly(s, l);
        TotalWorkOfUpdate(s.workers, l.w, t.workers[l.w]);
      }
    }
  }

  lemma MeasureIsNatural(c: Config, s: State)
    requires Inv(c, s)
    ensures Measure(c, s) >= 0
  {
  }

  /** Every run ends: an interleaving has at most as many steps as the initial measure. */
  lemma {:induction false} EveryRunIsFinite(c: Config, labels: seq<Label>)
    requires ValidConfig(c) && Run(c, labels).Some?
    ensures |labels| + Measure(c, Run(c, labels).value) <= Measure(c, Init(c))
    ensures |labels| <= Measure(c, Init(c))
    decreases |labels|
  {
    hide Inv, Step, Measure;
    InvAlways(c, labels);
    MeasureIsNatural(c, Run(c, labels).value);
    if labels != [] {
      var before := labels[..|labels| - 1];
      EveryRunIsFinite(c, before);
      InvAlways(c, before);
      StepDecreases(c, Run(c, before).value, labels[|labels| - 1]);
    }
  }
}
