/** `parse_query_param` of scripts/traffic/utils.c, which cuts the line buffer up in place. */
module TrafficQuery {
  import opened Wrappers
  import opened CStrings

  const AMP: byte := '&' as int
  const EQUALS: byte := '=' as int

  /** Where the first `x` is, or the length if there is none. */
  function Find(t: seq<byte>, x: byte): (n: nat)
    ensures n <= |t|
    decreases |t|
  {
    if t == [] || t[0] == x then 0 else 1 + Find(t[1..], x)
  }

  lemma {:induction false} FindIs(t: seq<byte>, x: byte, n: nat)
    ensures Find(t, x) == n <==> n <= |t| && (n < |t| ==> t[n] == x) && x !in t[..n]
    decreases |t|
  {
    if t != [] && n <= |t| {
      if n > 0 {
        FindIs(t[1..], x, n - 1);
        assert t[..n] == [t[0]] + t[1..][..n - 1];
      } else if Find(t, x) == 0 {
        assert t[0] == x;
      }
    }
  }

  /** The string before the first `x`, and what comes after it, if there is one. */
  function Before(t: seq<byte>, x: byte): (p: seq<byte>)
    ensures |p| <= |t|
  {
    t[..Find(t, x)]
  }

  function After(t: seq<byte>, x: byte): (rest: Option<seq<byte>>)
    ensures |Before(t, x)| + (if rest.Some? then 1 + |rest.value| else 0) == |t|
  {
    var n := Find(t, x);
    if n < |t| then Some(t[n + 1..]) else None
  }

  /** A string is cut at the first `x`, and nothing of it is lost. */
  lemma CutIsReadBack(t: seq<byte>, x: byte)
    ensures t == Before(t, x) + if After(t, x).Some? then [x] + After(t, x).value else []
    ensures x !in Before(t, x) && (After(t, x) == None <==> x !in t)
  {
    FindIs(t, x, Find(t, x));
  }

  /** The first parameter of a query string, and the rest of the string. */
  function Head(t: seq<byte>): (p: seq<byte>)
    ensures |p| <= |t|
  {
    Before(t, AMP)
  }

  function Tail(t: seq<byte>): (rest: Option<seq<byte>>)
    ensures |Head(t)| + (if rest.Some? then 1 + |rest.value| else 0) == |t|
  {
    After(t, AMP)
  }

  function Key(p: seq<byte>): (key: seq<byte>)
    ensures |key| <= |p|
  {
    Before(p, EQUALS)
  }

  function Value(p: seq<byte>): (value: Option<seq<byte>>)
    ensures |Key(p)| + (if value.Some? then 1 + |value.value| else 0) == |p|
  {
    After(p, EQUALS)
  }

  /** Where the tail of the string at `at` starts, if there is one. */
  function Next(at: nat, t: seq<byte>): Option<nat> {
    if Tail(t).Some? then Some(at + |Head(t)| + 1) else None
  }

  /** The buffer after one parameter has been taken from the string `t` at `at`. */
  function Parsed(b: seq<byte>, at: nat, t: seq<byte>): (r: seq<byte>)
    requires at + |t| < |b|
    ensures |r| == |b|
  {
    b[at + |Key(Head(t))| := NUL][at + |Head(t)| := NUL]
  }

  lemma FindInLonger(s: seq<byte>, y: byte, x: byte)
    ensures Find(s + [y], x) == if Find(s, x) < |s| || y == x then Find(s, x) else |s| + 1
  {
    var n := Find(s, x);
    FindIs(s, x, n);
    assert (s + [y])[..n] == s[..n];
    if n < |s| || y == x {
      FindIs(s + [y], x, n);
    } else {
      FindIs(s + [y], x, n + 1);
    }
  }

  /** In the middle of a parameter: the string `t` at `at` has been read up to `c`. */
  ghost predicate Reading(before: seq<byte>, now: seq<byte>, at: nat, t: seq<byte>,
                          c: int, value: Option<nat>, length: int)
  {
    && Holds(before, at, t) && at <= c <= at + |t| && AMP !in t[..c - at]
    && var n := Find(t[..c - at], EQUALS);
    if n < c - at then value == Some(at + n + 1) && length == c - at - n - 1 && now == before[at + n := NUL]
    else value == None && length == -1 && now == before
  }

  lemma AtCurrent(before: seq<byte>, now: seq<byte>, at: nat, t: seq<byte>, c: int, value: Option<nat>, length: int)
    requires Reading(before, now, at, t, c, value, length)
    ensures 0 <= c < |now| == |before| && now[c] == (if c < at + |t| then t[c - at] else NUL)
    ensures c < at + |t| ==> now[c] != NUL
  {
  }

  lemma ReadOne(before: seq<byte>, now: seq<byte>, at: nat, t: seq<byte>, c: int, value: Option<nat>, length: int)
    requires Reading(before, now, at, t, c, value, length)
    requires 0 <= c < |now| && now[c] != AMP && now[c] != NUL
    ensures var found := value == None && now[c] == EQUALS;
      Reading(before, if found then now[c := NUL] else now, at, t, c + 1,
              if found then Some(c + 1) else value, if found || value.Some? then length + 1 else length)
  {
    AtCurrent(before, now, at, t, c, value, length);
    assert t[..c + 1 - at] == t[..c - at] + [now[c]];
    FindInLonger(t[..c - at], now[c], EQUALS);
  }

  /** One parameter has been taken from the string at `at`: where it is, and what the buffer
      has become. */
  predicate ParsedFrom(before: seq<byte>, now: seq<byte>, at: nat,
                       length: int, next: Option<nat>, key: nat, value: Option<nat>)
    requires Terminated(before, at)
  {
    var t := Text(before, at);
    var p := Head(t);
    && at + |t| < |before|
    && now == Parsed(before, at, t)
    && key == at
    && next == Next(at, t)
    && value == (if Value(p).Some? then Some(at + |Key(p)| + 1) else None)
    && length == (if Value(p).Some? then |Value(p).value| else -1)
  }

  lemma EndOfParam(before: seq<byte>, now: seq<byte>, at: nat, c: nat, value: Option<nat>, length: int)
    requires Terminated(before, at) && Reading(before, now, at, Text(before, at), c, value, length)
    requires c < |now| && (now[c] == AMP || now[c] == NUL)
    ensures var next := if now[c] == AMP then Some(c + 1) else None;
      ParsedFrom(before, now[c := NUL], at, length, next, at, value)
  {
    var t := Text(before, at);
    AtCurrent(before, now, at, t, c, value, length);
    FindIs(t, AMP, c - at);
    hide Text, Find;
  }

  lemma StartReading(before: seq<byte>, at: nat)
    requires Terminated(before, at)
    ensures Reading(before, before, at, Text(before, at), at, None, -1)
  {
    HoldsText(before, at);
  }

  /** `parse_query_param`; an absent `query` is the NULL pointer. */
  method ParseQueryParam(b: array<byte>, query: Option<nat>)
    returns (length: int, next: Option<nat>, key: nat, value: Option<nat>)
    requires query.Some? ==> Terminated(b[..], query.value)
    modifies b
    ensures query == None ==> length == -1 && next == None && b[..] == old(b[..])
    ensures query.Some? ==> ParsedFrom(old(b[..]), b[..], query.value, length, next, key, value)
  {
    if query == None {
      return -1, None, 0, None;
    }
    var at := query.value;
    ghost var before, t := b[..], Text(b[..], at);
    StartReading(before, at);
    key, value, length := at, None, -1;
    var stringEnded := false;
    var c := at;
    hide *;
    AtCurrent(before, b[..], at, t, c, value, length);
    while b[c] != AMP
      invariant 0 <= c < b.Length && !stringEnded
      invariant Reading(before, b[..], at, t, c, value, length)
      decreases b.Length - c
    {
      ghost var now := b[..];
      if b[c] == NUL {
        stringEnded := true;
        break;
      }
      ReadOne(before, now, at, t, c, value, length);
      if value == None && b[c] == EQUALS {
        b[c] := NUL;
        value := Some(c + 1);
        assert b[..] == now[c := NUL];
      }
      if value.Some? {
        length := length + 1;
      }
      c := c + 1;
      AtCurrent(before, b[..], at, t, c, value, length);
    }
    ghost var now := b[..];
    EndOfParam(before, now, at, c, value, length);
    b[c] := NUL;
    assert b[..] == now[c := NUL];
    next := if stringEnded then None else Some(c + 1);
  }
}
