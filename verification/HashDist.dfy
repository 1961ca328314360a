/**
 The line distributor of scripts/hashdist.py as a state machine.

 One main thread shards the lines of stdin over bounded queues.  Each queue has an
 inputter thread that feeds a child process, and each child has an outputter thread
 that copies the child's lines to the shared stdout under one mutex.  A label names
 the thread that moves next, so a sequence of labels is one interleaving.
 */
module HashDist {
  import opened Wrappers

  type Line = string

  /** What travels through a queue: a line of input, or the `None` terminator. */
  datatype Item = Text(line: Line) | Stop

  /** `Holding`: fetched, not yet handed to the child.  `Handed`: written and flushed
      (or stdin closed, for `Stop`), `task_done` not yet called. */
  datatype Inputter = Getting | Holding(item: Item) | Handed(item: Item) | Finished

  /** `Writing(line, sent)`: holds the stdout mutex and has written `sent` characters.
      `Dead(line, sent)`: the write failed there, and the handler raised. */
  datatype Outputter =
    | Reading
    | Waiting(line: Line)
    | Writing(line: Line, sent: nat)
    | Ended
    | Dead(line: Line, sent: nat)

  /** What a child does next: read an item of its stdin, or print a line. */
  datatype Action = Take | Say(line: Line)

  /** One child process with its queue, its two pipes and its two threads.  `delivered` is
      what was written to the child's stdin (`Stop` stands for its being closed), of which
      the child has read the first `taken`; `emitted` is what the child has printed, of
      which the outputter has read the first `read`; `script` is what the child has yet to
      do, and it ends when nothing is left. */
  datatype Worker = Worker(
    queue: seq<Item>, unfinished: nat, inputter: Inputter, delivered: seq<Item>,
    taken: nat, script: seq<Action>, emitted: seq<Line>, read: nat, outputter: Outputter)

  /** `Died`: the main thread ended with an exception and the other threads live on. */
  datatype MainThread =
    | Dispatching
    | Stopping(next: nat)
    | JoinQueue(w: nat)
    | JoinInputter(w: nat)
    | JoinOutputter(w: nat)
    | Exited
    | Died

  /** A whole child line on stdout, or the beginning of one that a failed write left there. */
  datatype Printed = Whole(worker: nat, text: string) | Cut(worker: nat, text: string)

  /** `pos` lines have been taken from stdin; `printed` lists the writes to stdout that are over. */
  datatype State = State(
    main: MainThread, pos: nat, workers: seq<Worker>, mutex: Option<nat>,
    stdout: string, printed: seq<Printed>, aborted: bool)

  /** `maxsize <= 0` makes the queues unbounded, as Python's Queue does.  `key` is the
      first-field regular expression and `select` the choice of a process for a key.  A
      child's pipes hold `inRoom` unread items and `outRoom` unread lines. */
  datatype Config = Config(
    lines: seq<Line>, maxsize: int, key: Line -> Option<string>, select: string -> nat,
    scripts: seq<seq<Action>>, inRoom: nat, outRoom: nat)

  /** `InputterIoError` and `Die` are the failing writes of the two thread classes. */
  datatype Label =
    | Main
    | Get(w: nat)
    | Hand(w: nat)
    | TaskDone(w: nat)
    | InputterIoError(w: nat)
    | Child(w: nat)
    | ReadLine(w: nat)
    | Eof(w: nat)
    | Lock(w: nat)
    | WriteChar(w: nat)
    | Unlock(w: nat)
    | Die(w: nat)

  predicate IsInputter(l: Label) { l.Get? || l.Hand? || l.TaskDone? }

  predicate IsOutputter(l: Label) { l.ReadLine? || l.Eof? || l.Lock? || l.WriteChar? || l.Unlock? || l.Die? }

  predicate IsFailure(l: Label) { l.InputterIoError? || l.Die? }

  // ---------------------------------------------------------------- the program

  function Takes(script: seq<Action>): nat
    decreases |script|
  {
    if script == [] then 0 else Takes(script[..|script| - 1]) + if script[|script| - 1].Take? then 1 else 0
  }

  function Says(script: seq<Action>): seq<Line>
    decreases |script|
  {
    if script == [] then []
    else Says(script[..|script| - 1]) + if script[|script| - 1].Say? then [script[|script| - 1].line] else []
  }

  /** Children keep consuming: each goes on reading until it has met the end of its input. */
  ghost predicate ValidChildren(lines: seq<Line>, scripts: seq<seq<Action>>, inRoom: nat, outRoom: nat) {
    |scripts| >= 1 && inRoom >= 1 && outRoom >= 1 && forall w | 0 <= w < |scripts| :: ReadsAll(scripts[w], |lines|)
  }

  ghost predicate ReadsAll(script: seq<Action>, n: nat) {
    Takes(script) > n && forall a | a in script && a.Say? :: a.line != ""
  }

  ghost predicate ValidConfig(c: Config) {
    ValidChildren(c.lines, c.scripts, c.inRoom, c.outRoom) && forall key :: c.select(key) < |c.scripts|
  }

  ghost function N(c: Config): nat { |c.scripts| }

  /** Python's `%` with a positive right operand is never negative, like Dafny's. */
  function HashSelect(hash: string -> int, key: string, n: nat): (w: nat)
    requires n > 0
    ensures w < n && exists q: int :: hash(key) == q * n + w
  {
    assert hash(key) == (hash(key) / n) * n + hash(key) % n;
    hash(key) % n
  }

  /** The configuration of a default run: the first field decides, through Python's `hash`. */
  ghost function DefaultConfig(
    lines: seq<Line>, maxsize: int, separators: string, hash: string -> int,
    scripts: seq<seq<Action>>, inRoom: nat, outRoom: nat): (c: Config)
    requires ValidChildren(lines, scripts, inRoom, outRoom)
    ensures ValidConfig(c)
  {
    Config(lines, maxsize, line => FirstField(line, separators), key => HashSelect(hash, key, |scripts|),
           scripts, inRoom, outRoom)
  }

  /** The default key: the longest prefix without a separator character; no match when empty. */
  function FirstField(line: Line, separators: string): (r: Option<string>)
    ensures r == None <==> line == "" || line[0] in separators
    ensures r.Some? ==> r.value <= line && (forall c | c in r.value :: c !in separators)
    ensures r.Some? && |r.value| < |line| ==> line[|r.value|] in separators
  {
    if line == "" || line[0] in separators then None
    else match FirstField(line[1..], separators)
      case None => Some(line[..1])
      case Some(rest) => Some(line[..1] + rest)
  }

  ghost predicate Dispatchable(c: Config, line: Line) {
    line == "" || c.key(line).Some?
  }

  ghost function Target(c: Config, line: Line): (w: nat)
    requires ValidConfig(c) && c.key(line).Some?
    ensures w < N(c)
  {
    c.select(c.key(line).value)
  }

  ghost predicate HasRoom(c: Config, w: Worker) {
    c.maxsize <= 0 || |w.queue| < c.maxsize
  }

  ghost function Put(w: Worker, item: Item): Worker {
    w.(queue := w.queue + [item], unfinished := w.unfinished + 1)
  }

  ghost function Init(c: Config): State {
    State(Dispatching, 0,
          seq(N(c), i requires 0 <= i < N(c) => Worker([], 0, Getting, [], 0, c.scripts[i], [], 0, Reading)),
          None, "", [], false)
  }

  ghost function SetWorker(s: State, w: nat, x: Worker): State
    requires w < |s.workers|
  {
    s.(workers := s.workers[w := x])
  }

  /** The thread is no longer alive. */
  predicate IsOver(o: Outputter) { o.Ended? || o.Dead? }

  /** The next statement of `_main`; None when the thread is blocked or over. */
  ghost function MainStep(c: Config, s: State): Option<State>
    requires ValidConfig(c) && |s.workers| == N(c)
  {
    match s.main
    case Dispatching =>
      if s.pos >= |c.lines| then Some(s.(main := Stopping(0)))
      else
        var line := c.lines[s.pos];
        if line == "" then Some(s.(pos := s.pos + 1))
        else if c.key(line).None? then Some(s.(main := Died))
        else
          var w := Target(c, line);
          if HasRoom(c, s.workers[w])
          then Some(SetWorker(s, w, Put(s.workers[w], Text(line))).(pos := s.pos + 1))
          else None
    case Stopping(k) =>
      if k >= N(c) then Some(s.(main := JoinQueue(0)))
      else if HasRoom(c, s.workers[k])
      then Some(SetWorker(s, k, Put(s.workers[k], Stop)).(main := Stopping(k + 1)))
      else None
    case JoinQueue(w) =>
      if w >= N(c) then Some(s.(main := Exited))
      else if s.workers[w].unfinished == 0 then Some(s.(main := JoinInputter(w))) else None
    case JoinInputter(w) =>
      if w < N(c) && s.workers[w].inputter == Finished then Some(s.(main := JoinOutputter(w))) else None
    case JoinOutputter(w) =>
      if w < N(c) && IsOver(s.workers[w].outputter) then Some(s.(main := JoinQueue(w + 1))) else None
    case Exited => None
    case Died => None
  }

  /** The loop of `JobInputter.run`; a write blocks while the pipe is full. */
  ghost function InputterStep(c: Config, x: Worker, l: Label): Option<Worker>
    requires IsInputter(l)
  {
    match l
    case Get(_) =>
      if x.inputter == Getting && x.queue != []
      then Some(x.(queue := x.queue[1..], inputter := Holding(x.queue[0]))) else None
    case Hand(_) =>
      if x.inputter.Holding? && (x.inputter.item == Stop || InboxHasRoom(c, x))
      then Some(x.(delivered := x.delivered + [x.inputter.item], inputter := Handed(x.inputter.item))) else None
    case TaskDone(_) =>
      if x.inputter.Handed? && x.unfinished > 0
      then Some(x.(unfinished := x.unfinished - 1,
                   inputter := if x.inputter.item == Stop then Finished else Getting))
      else None
  }

  ghost predicate InboxHasRoom(c: Config, x: Worker) { |x.delivered| < x.taken + c.inRoom }

  ghost predicate PipeHasRoom(c: Config, x: Worker) { |x.emitted| < x.read + c.outRoom }

  /** The child process; reading at the end of its input finds nothing, printing blocks
      while the pipe is full. */
  ghost function ChildStep(c: Config, x: Worker): Option<Worker> {
    if x.script == [] then None
    else match x.script[0]
      case Take =>
        if x.taken < |x.delivered| then Some(x.(script := x.script[1..], taken := x.taken + 1))
        else if Stop in x.delivered then Some(x.(script := x.script[1..]))
        else None
      case Say(line) =>
        if PipeHasRoom(c, x) then Some(x.(script := x.script[1..], emitted := x.emitted + [line])) else None
  }

  /** The loop of `JobOutputter.run`; writing a line takes one step per character.  When a
      write fails the handler evaluates a name that is not defined: the exception leaves
      the `with` block, which frees the mutex, and ends the thread. */
  ghost function OutputterStep(s: State, l: Label): Option<State>
    requires IsOutputter(l) && l.w < |s.workers|
  {
    var x := s.workers[l.w];
    match l
    case ReadLine(w) =>
      if x.outputter == Reading && x.read < |x.emitted|
      then Some(SetWorker(s, w, x.(read := x.read + 1, outputter := Waiting(x.emitted[x.read])))) else None
    case Eof(w) =>
      if x.outputter == Reading && x.script == [] && x.read == |x.emitted|
      then Some(SetWorker(s, w, x.(outputter := Ended))) else None
    case Lock(w) =>
      if x.outputter.Waiting? && s.mutex == None
      then Some(SetWorker(s, w, x.(outputter := Writing(x.outputter.line, 0))).(mutex := Some(w))) else None
    case WriteChar(w) =>
      if x.outputter.Writing? && x.outputter.sent < |x.outputter.line|
      then Some(SetWorker(s, w, x.(outputter := Writing(x.outputter.line, x.outputter.sent + 1)))
                .(stdout := s.stdout + [x.outputter.line[x.outputter.sent]])) else None
    case Unlock(w) =>
      if x.outputter.Writing? && x.outputter.sent == |x.outputter.line|
      then Some(SetWorker(s, w, x.(outputter := Reading))
                .(mutex := None, printed := s.printed + [Whole(w, x.outputter.line)])) else None
    case Die(w) =>
      if x.outputter.Writing? && x.outputter.sent < |x.outputter.line|
      then Some(SetWorker(s, w, x.(outputter := Dead(x.outputter.line, x.outputter.sent)))
                .(mutex := None, printed := s.printed + [Cut(w, x.outputter.line[..x.outputter.sent])])) else None
  }

  ghost function Lift(s: State, w: nat, r: Option<Worker>): Option<State>
    requires w < |s.workers|
  {
    match r
    case None => None
    case Some(y) => Some(SetWorker(s, w, y))
  }

  /** One atomic step; None when the named thread cannot move.  A failed write of an
      inputter is the `os._exit(1)` of its handler. */
  ghost function Step(c: Config, s: State, l: Label): Option<State>
    requires ValidConfig(c) && |s.workers| == N(c)
  {
    if s.aborted || s.main == Exited then None
    else if l.Main? then MainStep(c, s)
    else if l.w >= |s.workers| then None
    else if l.InputterIoError? then
      if s.workers[l.w].inputter.Holding? && s.workers[l.w].inputter.item.Text? then Some(s.(aborted := true)) else None
    else if IsInputter(l) then Lift(s, l.w, InputterStep(c, s.workers[l.w], l))
    else if l.Child? then Lift(s, l.w, ChildStep(c, s.workers[l.w]))
    else OutputterStep(s, l)
  }

  /** The state after an interleaving, or None when some label names a blocked thread. */
  ghost function Run(c: Config, labels: seq<Label>): (r: Option<State>)
    requires ValidConfig(c)
    ensures r.Some? ==> |r.value.workers| == N(c)
    decreases |labels|
  {
    if labels == [] then Some(Init(c))
    else
      match Run(c, labels[..|labels| - 1])
      case None => None
      case Some(s) => Step(c, s, labels[|labels| - 1])
  }

  // ---------------------------------------------------------------- what it should do

  /** The lines among the first `k` whose key hashes to worker `w`, in input order. */
  ghost function Assigned(c: Config, k: nat, w: nat): seq<Item>
    requires ValidConfig(c) && k <= |c.lines|
    decreases k
  {
    if k == 0 then []
    else
      var line := c.lines[k - 1];
      Assigned(c, k - 1, w)
        + if line != "" && c.key(line).Some? && Target(c, line) == w then [Text(line)] else []
  }

  ghost predicate Terminated(main: MainThread, w: nat) {
    match main
    case Dispatching => false
    case Died => false
    case Stopping(k) => w < k
    case _ => true
  }

  /** Everything that main has put into queue `w` so far. */
  ghost function Sent(c: Config, main: MainThread, pos: nat, w: nat): seq<Item>
    requires ValidConfig(c) && pos <= |c.lines|
  {
    Assigned(c, pos, w) + if Terminated(main, w) then [Stop] else []
  }

  ghost function InFlight(x: Worker): seq<Item> {
    if x.inputter.Holding? then [x.inputter.item] else []
  }

  /** The whole lines of worker `w`'s child among the writes to stdout. */
  ghost function Share(printed: seq<Printed>, w: nat): seq<Line> {
    if printed == [] then []
    else
      var last := printed[|printed| - 1];
      Share(printed[..|printed| - 1], w) + if last.Whole? && last.worker == w then [last.text] else []
  }

  /** The beginnings of lines that failed writes of outputter `w` left on stdout. */
  ghost function Cuts(printed: seq<Printed>, w: nat): seq<string> {
    if printed == [] then []
    else
      var last := printed[|printed| - 1];
      Cuts(printed[..|printed| - 1], w) + if last.Cut? && last.worker == w then [last.text] else []
  }

  /** The line that has been read and not printed whole. */
  ghost function Pending(x: Worker): seq<Line> {
    match x.outputter
    case Waiting(line) => [line]
    case Writing(line, _) => [line]
    case Dead(line, _) => [line]
    case _ => []
  }

  ghost function Concat(printed: seq<Printed>): string {
    if printed == [] then ""
    else Concat(printed[..|printed| - 1]) + printed[|printed| - 1].text
  }

  /** What the mutex holder has written of its current line. */
  ghost function Partial(s: State): string {
    match s.mutex
    case None => ""
    case Some(w) =>
      if w < |s.workers| && s.workers[w].outputter.Writing?
          && s.workers[w].outputter.sent <= |s.workers[w].outputter.line|
      then s.workers[w].outputter.line[..s.workers[w].outputter.sent] else ""
  }

  // ---------------------------------------------------------------- the invariant

  /** Delivered, in flight and queued items together are what main sent, in order. */
  ghost predicate InputOk(x: Worker, sent: seq<Item>, maxsize: int) {
    && x.delivered + InFlight(x) + x.queue == sent
    && x.unfinished == |x.queue| + (if x.inputter.Holding? || x.inputter.Handed? then 1 else 0)
    && (x.inputter == Finished || x.inputter == Handed(Stop) <==> Stop in x.delivered)
    && (maxsize > 0 ==> |x.queue| <= maxsize)
  }

  /** Printed and pending lines together are what the outputter has read, in order. */
  ghost predicate OutputOk(x: Worker, printed: seq<Printed>, w: nat, holdsMutex: bool) {
    && x.read <= |x.emitted| && Share(printed, w) + Pending(x) == x.emitted[..x.read]
    && Cuts(printed, w) == (if x.outputter.Dead? then [CutText(x)] else [])
    && (x.outputter.Writing? <==> holdsMutex)
    && (x.outputter.Writing? ==> x.outputter.sent <= |x.outputter.line|)
    && (x.outputter.Dead? ==> x.outputter.sent < |x.outputter.line|)
    && (x.outputter == Ended ==> x.script == [] && x.read == |x.emitted|)
  }

  ghost function CutText(x: Worker): string
    requires x.outputter.Dead?
  {
    if x.outputter.sent <= |x.outputter.line| then x.outputter.line[..x.outputter.sent] else ""
  }

  /** The child has done the first part `did` of its script, and its pipes are not overfull. */
  ghost predicate ChildOk(c: Config, x: Worker, script: seq<Action>) {
    && |x.script| <= |script| && x.script == script[|script| - |x.script|..]
    && var did := script[..|script| - |x.script|];
    && x.emitted == Says(did) && |x.emitted| <= x.read + c.outRoom
    && x.taken <= |x.delivered| <= x.taken + c.inRoom + (if Stop in x.delivered then 1 else 0)
    && x.taken <= Takes(did)
    && (x.taken < Takes(did) ==> Stop in x.delivered && x.taken == |x.delivered|)
  }

  ghost predicate InputSide(c: Config, s: State, w: nat)
    requires ValidConfig(c) && w < |s.workers| && s.pos <= |c.lines|
  {
    InputOk(s.workers[w], Sent(c, s.main, s.pos, w), c.maxsize)
  }

  ghost predicate ChildSide(c: Config, s: State, w: nat)
    requires w < |s.workers| && w < N(c)
  {
    ChildOk(c, s.workers[w], c.scripts[w])
  }

  ghost predicate OutputSide(s: State, w: nat)
    requires w < |s.workers|
  {
    OutputOk(s.workers[w], s.printed, w, s.mutex == Some(w))
  }

  ghost predicate Done(x: Worker) {
    x.unfinished == 0 && x.inputter == Finished && IsOver(x.outputter)
  }

  ghost predicate MainSide(c: Config, s: State)
    requires ValidConfig(c) && |s.workers| == N(c) && s.pos <= |c.lines|
  {
    && (forall i | 0 <= i < s.pos :: Dispatchable(c, c.lines[i]))
    && match s.main
       case Dispatching => true
       case Died => s.pos < |c.lines| && !Dispatchable(c, c.lines[s.pos])
       case Stopping(k) => s.pos == |c.lines| && k <= N(c)
       case JoinQueue(w) => s.pos == |c.lines| && w <= N(c) && forall v | 0 <= v < w :: Done(s.workers[v])
       case JoinInputter(w) =>
         s.pos == |c.lines| && w < N(c) && s.workers[w].unfinished == 0 && forall v | 0 <= v < w :: Done(s.workers[v])
       case JoinOutputter(w) =>
         && s.pos == |c.lines| && w < N(c) && s.workers[w].unfinished == 0 && s.workers[w].inputter == Finished
         && forall v | 0 <= v < w :: Done(s.workers[v])
       case Exited => s.pos == |c.lines| && forall v | 0 <= v < N(c) :: Done(s.workers[v])
  }

  ghost predicate Inv(c: Config, s: State) {
    && ValidConfig(c) && |s.workers| == N(c) && s.pos <= |c.lines|
    && MainSide(c, s)
    && (forall w | 0 <= w < N(c) :: InputSide(c, s, w))
    && (forall w | 0 <= w < N(c) :: ChildSide(c, s, w))
    && (forall w | 0 <= w < N(c) :: OutputSide(s, w))
    && (s.mutex.Some? ==> s.mutex.value < N(c))
    && s.stdout == Concat(s.printed) + Partial(s)
  }
}
