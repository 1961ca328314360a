/**
 Simultaneous deletes of one comment (`POST_del` in r2/r2/controllers/api.py): each
 request remembers whether the comment it loaded was deleted, commits the deletion, and
 takes a 60 second cache entry before it lowers the link's comment count.
 */
module CommentDelete {
  import opened Wrappers

  const LOCK_SECONDS: nat := 60

  datatype Pc = Loading | Loaded(wasDeleted: bool) | AtLock | AtDecrement | Finished

  /** `lockUntil` is when the cache entry expires.  `attempts` and `wins` are history:
      the times of all `add` calls and of the successful ones. */
  datatype State = State(
    now: nat, deleted: bool, lockUntil: Option<nat>, count: int, pcs: seq<Pc>,
    attempts: seq<nat>, wins: seq<nat>)

  datatype Label = Tick | Request(r: nat)

  function Init(count: int, n: nat): State {
    State(0, false, None, count, seq(n, _ => Loading), [], [])
  }

  predicate LockFree(s: State) {
    s.lockUntil == None || s.lockUntil.value <= s.now
  }

  function Step(s: State, l: Label): Option<State> {
    match l
    case Tick => Some(s.(now := s.now + 1))
    case Request(r) =>
      if r >= |s.pcs| then None
      else match s.pcs[r]
        case Loading => Some(s.(pcs := s.pcs[r := Loaded(s.deleted)]))
        case Loaded(was) => Some(s.(deleted := true, pcs := s.pcs[r := if was then Finished else AtLock]))
        case AtLock =>
          if LockFree(s) then
            Some(s.(lockUntil := Some(s.now + LOCK_SECONDS), pcs := s.pcs[r := AtDecrement],
                    attempts := s.attempts + [s.now], wins := s.wins + [s.now]))
          else
            Some(s.(pcs := s.pcs[r := Finished], attempts := s.attempts + [s.now]))
        case AtDecrement => Some(s.(count := s.count - 1, pcs := s.pcs[r := Finished]))
        case Finished => None
  }

  function Run(count: int, n: nat, labels: seq<Label>): (r: Option<State>)
    ensures r.Some? ==> |r.value.pcs| == n
    decreases |labels|
  {
    if labels == [] then Some(Init(count, n))
    else match Run(count, n, labels[..|labels| - 1])
      case None => None
      case Some(s) => Step(s, labels[|labels| - 1])
  }

  /** Requests that hold the entry and have not lowered the count yet. */
  function Owing(pcs: seq<Pc>): nat {
    if pcs == [] then 0
    else Owing(pcs[..|pcs| - 1]) + if pcs[|pcs| - 1] == AtDecrement then 1 else 0
  }

  lemma {:induction false} OwingOfUpdate(pcs: seq<Pc>, r: nat, pc: Pc)
    requires r < |pcs|
    ensures Owing(pcs[r := pc])
         == Owing(pcs) - (if pcs[r] == AtDecrement then 1 else 0) + (if pc == AtDecrement then 1 else 0)
    decreases |pcs|
  {
    var m := |pcs| - 1;
    if r == m {
      assert pcs[r := pc][..m] == pcs[..m];
    } else {
      assert pcs[r := pc][..m] == pcs[..m][r := pc];
      OwingOfUpdate(pcs[..m], r, pc);
    }
  }

  lemma {:induction false} NobodyOwes(pcs: seq<Pc>)
    requires forall r | 0 <= r < |pcs| :: pcs[r] != AtDecrement
    ensures Owing(pcs) == 0
    decreases |pcs|
  {
    if pcs != [] { NobodyOwes(pcs[..|pcs| - 1]); }
  }

  ghost predicate HistoryInv(s: State) {
    && (s.attempts == [] <==> s.wins == [])
    && (s.attempts == [] <==> s.lockUntil == None)
    && (s.attempts != [] ==>
         && s.wins[0] == s.attempts[0]
         && s.attempts[|s.attempts| - 1] <= s.now
         && s.wins[|s.wins| - 1] >= s.attempts[0]
         && s.lockUntil == Some(s.wins[|s.wins| - 1] + LOCK_SECONDS)
         && (|s.wins| == 1 <==> s.attempts[|s.attempts| - 1] < s.attempts[0] + LOCK_SECONDS))
  }

  ghost predicate Inv(count: int, s: State) {
    && HistoryInv(s)
    && s.count + |s.wins| - Owing(s.pcs) == count
    && (s.deleted ==> s.attempts != [] || exists r :: 0 <= r < |s.pcs| && s.pcs[r] == AtLock)
    && (forall r | 0 <= r < |s.pcs| :: s.pcs[r] != Loading && s.pcs[r] != Loaded(false) ==> s.deleted)
  }

  lemma StepKeepsHistory(s: State, l: Label)
    requires HistoryInv(s) && Step(s, l).Some?
    ensures HistoryInv(Step(s, l).value)
  {
  }

  lemma StepKeepsPending(s: State, l: Label)
    requires s.deleted ==> s.attempts != [] || exists r :: 0 <= r < |s.pcs| && s.pcs[r] == AtLock
    requires forall r | 0 <= r < |s.pcs| :: s.pcs[r] != Loading && s.pcs[r] != Loaded(false) ==> s.deleted
    requires Step(s, l).Some?
    ensures var t := Step(s, l).value;
      t.deleted ==> t.attempts != [] || exists r :: 0 <= r < |t.pcs| && t.pcs[r] == AtLock
  {
    var t := Step(s, l).value;
    if t.deleted && t.attempts == [] && l.Request? {
      if s.deleted {
        var r :| 0 <= r < |s.pcs| && s.pcs[r] == AtLock;
        assert t.pcs[r] == AtLock;
      } else {
        assert t.pcs[l.r] == AtLock;
      }
    }
  }

  lemma StepKeepsInv(count: int, s: State, l: Label)
    requires Inv(count, s) && Step(s, l).Some?
    ensures Inv(count, Step(s, l).value)
  {
    StepKeepsHistory(s, l);
    StepKeepsPending(s, l);
    if l.Request? { OwingOfUpdate(s.pcs, l.r, Step(s, l).value.pcs[l.r]); }
  }

  lemma {:induction false} InvAlways(count: int, n: nat, labels: seq<Label>)
    requires Run(count, n, labels).Some?
    ensures Inv(count, Run(count, n, labels).value)
    decreases |labels|
  {
    if labels == [] {
      NobodyOwes(Init(count, n).pcs);
    } else {
      InvAlways(count, n, labels[..|labels| - 1]);
      StepKeepsInv(count, Run(count, n, labels[..|labels| - 1]).value, labels[|labels| - 1]);
    }
  }

  ghost predicate AllFinished(s: State) {
    forall r | 0 <= r < |s.pcs| :: s.pcs[r] == Finished
  }

  /** Once all requests are over the count has dropped, and by exactly one if and only if
      every request that found the comment undeleted reached the lock before the entry
      taken by the first of them expired. */
  lemma CountDropsByOneIffLockNeverExpires(count: int, n: nat, labels: seq<Label>)
    requires n > 0 && Run(count, n, labels).Some? && AllFinished(Run(count, n, labels).value)
    ensures var s := Run(count, n, labels).value;
      && s.deleted && s.attempts != [] && s.count == count - |s.wins| < count
      && (s.count == count - 1 <==> s.attempts[|s.attempts| - 1] < s.attempts[0] + LOCK_SECONDS)
  {
    InvAlways(count, n, labels);
    var s := Run(count, n, labels).value;
    assert s.pcs[0] == Finished;
    NobodyOwes(s.pcs);
  }

  /** At every moment, before any entry has expired, at most one decrement has happened or is owed. */
  lemma AtMostOneDecrementPerLockPeriod(count: int, n: nat, labels: seq<Label>)
    requires Run(count, n, labels).Some?
    requires var s := Run(count, n, labels).value; s.attempts != [] ==> s.now < s.attempts[0] + LOCK_SECONDS
    ensures count - 1 <= Run(count, n, labels).value.count <= count
  {
    InvAlways(count, n, labels);
    OwingIsBounded(count, n, labels);
  }

  lemma {:induction false} OwingIsBounded(count: int, n: nat, labels: seq<Label>)
    requires Run(count, n, labels).Some?
    ensures var s := Run(count, n, labels).value; Owing(s.pcs) <= |s.wins|
    decreases |labels|
  {
    if labels == [] {
      NobodyOwes(Init(count, n).pcs);
    } else {
      OwingIsBounded(count, n, labels[..|labels| - 1]);
      var s, l := Run(count, n, labels[..|labels| - 1]).value, labels[|labels| - 1];
      if l.Request? { OwingOfUpdate(s.pcs, l.r, Step(s, l).value.pcs[l.r]); }
    }
  }

  // ---------------------------------------------------------------- who tries the lock

  predicate WillTry(pc: Pc) { pc == Loaded(false) || pc == AtLock }

  function Trying(pcs: seq<Pc>): nat
    decreases |pcs|
  {
    if pcs == [] then 0 else Trying(pcs[..|pcs| - 1]) + if WillTry(pcs[|pcs| - 1]) then 1 else 0
  }

  lemma {:induction false} TryingOfUpdate(pcs: seq<Pc>, r: nat, pc: Pc)
    requires r < |pcs|
    ensures Trying(pcs[r := pc])
         == Trying(pcs) - (if WillTry(pcs[r]) then 1 else 0) + (if WillTry(pc) then 1 else 0)
    decreases |pcs|
  {
    var n := |pcs| - 1;
    if r == n {
      assert pcs[r := pc][..n] == pcs[..n];
    } else {
      assert pcs[r := pc][..n] == pcs[..n][r := pc];
      TryingOfUpdate(pcs[..n], r, pc);
    }
  }

  lemma {:induction false} NobodyTries(pcs: seq<Pc>)
    requires forall r | 0 <= r < |pcs| :: !WillTry(pcs[r])
    ensures Trying(pcs) == 0
    decreases |pcs|
  {
    if pcs != [] { NobodyTries(pcs[..|pcs| - 1]); }
  }

  /** How many requests have loaded the comment while it was not deleted. */
  function LoadedInTime(count: int, n: nat, labels: seq<Label>): nat
    requires Run(count, n, labels).Some?
    decreases |labels|
  {
    if labels == [] then 0
    else
      var before, l := labels[..|labels| - 1], labels[|labels| - 1];
      var s := Run(count, n, before).value;
      LoadedInTime(count, n, before)
        + if l.Request? && l.r < |s.pcs| && s.pcs[l.r] == Loading && !s.deleted then 1 else 0
  }

  lemma {:induction false} AttemptsSoFar(count: int, n: nat, labels: seq<Label>)
    requires Run(count, n, labels).Some?
    ensures var s := Run(count, n, labels).value;
      |s.attempts| + Trying(s.pcs) == LoadedInTime(count, n, labels)
    decreases |labels|
  {
    if labels == [] {
      NobodyTries(Init(count, n).pcs);
    } else {
      AttemptsSoFar(count, n, labels[..|labels| - 1]);
      var s, l := Run(count, n, labels[..|labels| - 1]).value, labels[|labels| - 1];
      if l.Request? { TryingOfUpdate(s.pcs, l.r, Step(s, l).value.pcs[l.r]); }
    }
  }

  /** Exactly the requests that loaded the comment before its deletion try the lock; one that
      found it deleted changes nothing. */
  lemma AttemptsAreLoadsInTime(count: int, n: nat, labels: seq<Label>)
    requires Run(count, n, labels).Some? && AllFinished(Run(count, n, labels).value)
    ensures |Run(count, n, labels).value.attempts| == LoadedInTime(count, n, labels)
  {
    AttemptsSoFar(count, n, labels);
    NobodyTries(Run(count, n, labels).value.pcs);
  }

  // ---------------------------------------------------------------- a run that counts twice

  lemma OneMore(count: int, n: nat, labels: seq<Label>, s: State, l: Label, t: State)
    requires Run(count, n, labels) == Some(s) && Step(s, l) == Some(t)
    ensures Run(count, n, labels + [l]) == Some(t)
  {
    assert (labels + [l])[..|labels|] == labels;
  }

  /** Time passes while the requests rest. */
  lemma {:induction false} Wait(count: int, n: nat, labels: seq<Label>, s: State, k: nat) returns (later: seq<Label>)
    requires Run(count, n, labels) == Some(s)
    ensures Run(count, n, later) == Some(s.(now := s.now + k))
    decreases k
  {
    if k == 0 {
      later := labels;
    } else {
      OneMore(count, n, labels, s, Tick, s.(now := s.now + 1));
      later := Wait(count, n, labels + [Tick], s.(now := s.now + 1), k - 1);
    }
  }

  /** With these two requests, at this time, and with these attempts at the lock, all of them won. */
  function Two(count: int, now: nat, first: Pc, second: Pc, wins: seq<nat>): State {
    State(now, first.AtLock? || first.AtDecrement? || first.Finished?,
          if wins == [] then None else Some(wins[|wins| - 1] + LOCK_SECONDS), count, [first, second], wins, wins)
  }

  lemma PairUpdates()
    ensures forall a: Pc, b: Pc, c: Pc :: [a, b][0 := c] == [c, b]
    ensures forall a: Pc, b: Pc, c: Pc :: [a, b][1 := c] == [a, c]
  {
  }

  /** Both requests load the comment before it is deleted, and both delete it. */
  lemma BothDelete(count: int) returns (labels: seq<Label>)
    ensures Run(count, 2, labels) == Some(Two(count, 0, AtLock, AtLock, []))
  {
    labels := [];
    PairUpdates();
    assert seq(2, _ => Loading) == [Loading, Loading];
    assert Run(count, 2, []) == Some(Two(count, 0, Loading, Loading, []));
    var s1, s2 := Two(count, 0, Loaded(false), Loading, []), Two(count, 0, Loaded(false), Loaded(false), []);
    var s3 := Two(count, 0, AtLock, Loaded(false), []);
    hide Run;
    OneMore(count, 2, labels, Two(count, 0, Loading, Loading, []), Request(0), s1);
    OneMore(count, 2, labels + [Request(0)], s1, Request(1), s2);
    OneMore(count, 2, labels + [Request(0)] + [Request(1)], s2, Request(0), s3);
    labels := labels + [Request(0)] + [Request(1)] + [Request(0)];
    OneMore(count, 2, labels, s3, Request(1), Two(count, 0, AtLock, AtLock, []));
    labels := labels + [Request(1)];
  }

  /** The second reaches the lock only when the entry of the first has expired: two requests
      delete one comment, and the count drops by two. */
  lemma TwoDecrements(count: int) returns (labels: seq<Label>)
    ensures Run(count, 2, labels).Some? && AllFinished(Run(count, 2, labels).value)
    ensures Run(count, 2, labels).value.count == count - 2
  {
    labels := BothDelete(count);
    PairUpdates();
    hide Run;
    var won := Two(count, 0, AtDecrement, AtLock, [0]);
    var done := Two(count - 1, 0, Finished, AtLock, [0]);
    assert [] + [0] == [0] && [0] + [60] == [0, 60];
    OneMore(count, 2, labels, Two(count, 0, AtLock, AtLock, []), Request(0), won);
    OneMore(count, 2, labels + [Request(0)], won, Request(0), done);
    labels := Wait(count, 2, labels + [Request(0)] + [Request(0)], done, LOCK_SECONDS);
    var again := Two(count - 1, 60, Finished, AtDecrement, [0, 60]);
    OneMore(count, 2, labels, done.(now := 60), Request(1), again);
    OneMore(count, 2, labels + [Request(1)], again, Request(1), Two(count - 2, 60, Finished, Finished, [0, 60]));
    labels := labels + [Request(1)] + [Request(1)];
  }
}
