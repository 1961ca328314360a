/** Where each line of the input ends up: at the worker that its key selects, behind the
    earlier lines that select the same worker, and nowhere else. */
module HashDistDelivery {
  import opened Wrappers
  import opened HashDist
  import opened HashDistTheorems

  /** The line has a key that selects worker `w`. */
  ghost predicate Selects(c: Config, line: Line, w: nat) {
    line != "" && c.key(line).Some? && c.select(c.key(line).value) == w
  }

  /** How many of the first `k` lines select worker `w`. */
  ghost function Rank(c: Config, k: nat, w: nat): nat
    requires k <= |c.lines|
    decreases k
  {
    if k == 0 then 0 else Rank(c, k - 1, w) + if Selects(c, c.lines[k - 1], w) then 1 else 0
  }

  lemma {:induction false} AssignedByRank(c: Config, k: nat, w: nat, i: nat)
    requires ValidConfig(c) && i < k <= |c.lines| && Selects(c, c.lines[i], w)
    ensures Rank(c, i, w) < |Assigned(c, k, w)| && Assigned(c, k, w)[Rank(c, i, w)] == Text(c.lines[i])
    decreases k
  {
    AssignedHasRank(c, k - 1, w);
    if i < k - 1 { AssignedByRank(c, k - 1, w, i); }
  }

  lemma {:induction false} AssignedHasRank(c: Config, k: nat, w: nat)
    requires ValidConfig(c) && k <= |c.lines|
    ensures |Assigned(c, k, w)| == Rank(c, k, w)
    decreases k
  {
    if k > 0 { AssignedHasRank(c, k - 1, w); }
  }

  /** Each place below the rank belongs to one line. */
  lemma {:induction false} LineAtRank(c: Config, k: nat, w: nat, p: nat) returns (i: nat)
    requires k <= |c.lines| && p < Rank(c, k, w)
    ensures i < k && Selects(c, c.lines[i], w) && Rank(c, i, w) == p
    decreases k
  {
    if p < Rank(c, k - 1, w) { i := LineAtRank(c, k - 1, w, p); } else { i := k - 1; }
  }

  /** In every interleaving a line that has been dispatched stands, among everything that its
      worker has been given, has in hand or has queued, behind exactly the earlier lines that
      select the same worker. */
  lemma LineIsAtItsWorker(c: Config, labels: seq<Label>, i: nat)
    requires ValidConfig(c) && Run(c, labels).Some? && i < Run(c, labels).value.pos && i < |c.lines|
    requires c.lines[i] != ""
    ensures c.key(c.lines[i]).Some?
    ensures var s, w := Run(c, labels).value, c.select(c.key(c.lines[i]).value);
      && w < |s.workers|
      && var given := s.workers[w].delivered + InFlight(s.workers[w]) + s.workers[w].queue;
      Rank(c, i, w) < |given| && given[Rank(c, i, w)] == Text(c.lines[i])
  {
    InvAlways(c, labels);
    var s := Run(c, labels).value;
    assert Dispatchable(c, c.lines[i]);
    var w := c.select(c.key(c.lines[i]).value);
    WorkerGetsItsShareInOrder(c, labels, w);
    AssignedByRank(c, s.pos, w, i);
  }

  /** And a worker has been given nothing else, except for its terminator at the end. */
  lemma NothingElseIsGiven(c: Config, labels: seq<Label>, w: nat, p: nat)
    requires ValidConfig(c) && Run(c, labels).Some? && w < N(c)
    requires var x := Run(c, labels).value.workers[w]; p < |x.delivered + InFlight(x) + x.queue|
    ensures var s := Run(c, labels).value; var x := s.workers[w];
      var given := x.delivered + InFlight(x) + x.queue;
      || (exists i :: 0 <= i < s.pos <= |c.lines| && Selects(c, c.lines[i], w) && Rank(c, i, w) == p
            && given[p] == Text(c.lines[i]))
      || (given[p] == Stop && p == |given| - 1 && Terminated(s.main, w))
  {
    WorkerGetsItsShareInOrder(c, labels, w);
    var s := Run(c, labels).value;
    AssignedHasRank(c, s.pos, w);
    if p < Rank(c, s.pos, w) {
      var i := LineAtRank(c, s.pos, w, p);
      AssignedByRank(c, s.pos, w, i);
    }
  }

  /** By default the worker's number is congruent to the hash of the line's first field. */
  lemma DefaultWorker(lines: seq<Line>, maxsize: int, separators: string, hash: string -> int,
                      scripts: seq<seq<Action>>, inRoom: nat, outRoom: nat, line: Line)
    requires ValidChildren(lines, scripts, inRoom, outRoom) && line != "" && line[0] !in separators
    ensures var c := DefaultConfig(lines, maxsize, separators, hash, scripts, inRoom, outRoom);
      && c.lines == lines && FirstField(line, separators).Some? && c.key(line) == FirstField(line, separators)
      && var w := c.select(c.key(line).value);
      w < |scripts| && exists q: int :: hash(FirstField(line, separators).value) == q * |scripts| + w
  {
  }
}
