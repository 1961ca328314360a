/** NUL-terminated strings inside a byte buffer, named by the offset at which they start. */
module CStrings {

  type byte = x: int | 0 <= x < 256

  const NUL: byte := 0

  predicate Terminated(b: seq<byte>, at: int) {
    0 <= at < |b| && NUL in b[at..]
  }

  function Length(b: seq<byte>, at: nat): (n: nat)
    requires Terminated(b, at)
    ensures at + n < |b|
    decreases |b| - at
  {
    if b[at] == NUL then 0
    else
      assert b[at..] == [b[at]] + b[at + 1..];
      1 + Length(b, at + 1)
  }

  /** The string that starts at this offset. */
  function Text(b: seq<byte>, at: nat): seq<byte>
    requires Terminated(b, at)
  {
    b[at..at + Length(b, at)]
  }

  /** The string at this offset is `t`. */
  predicate Holds(b: seq<byte>, at: int, t: seq<byte>) {
    && 0 <= at && at + |t| < |b|
    && (forall i | 0 <= i < |t| :: b[at + i] == t[i] && t[i] != NUL) && b[at + |t|] == NUL
  }

  lemma {:induction false} LengthIs(b: seq<byte>, at: nat, n: nat)
    requires at + n < |b| && b[at + n] == NUL && forall i | at <= i < at + n :: b[i] != NUL
    ensures Terminated(b, at) && Length(b, at) == n
    decreases n
  {
    assert b[at..][n] == NUL;
    if n > 0 { LengthIs(b, at + 1, n - 1); }
  }

  lemma {:induction false} HoldsText(b: seq<byte>, at: nat)
    requires Terminated(b, at)
    ensures Holds(b, at, Text(b, at))
    decreases |b| - at
  {
    if b[at] != NUL {
      assert b[at..] == [b[at]] + b[at + 1..];
      HoldsText(b, at + 1);
      var t := Text(b, at + 1);
      forall i | 0 <= i < |t| + 1 ensures Text(b, at)[i] != NUL {
        if i > 0 { assert t[i - 1] != NUL; }
      }
    }
  }

  lemma HoldsSuffix(b: seq<byte>, at: int, t: seq<byte>, k: nat)
    requires Holds(b, at, t) && k <= |t|
    ensures Holds(b, at + k, t[k..])
  {
    var rest := t[k..];
    forall i | 0 <= i < |rest| ensures b[(at + k) + i] == rest[i] && rest[i] != NUL {
      assert b[at + (k + i)] == t[k + i];
    }
  }

  /** A string stays where it is while its bytes do. */
  lemma HoldsStill(b: seq<byte>, now: seq<byte>, at: int, t: seq<byte>)
    requires Holds(b, at, t) && |now| == |b| && forall i | at <= i <= at + |t| :: now[i] == b[i]
    ensures Holds(now, at, t)
  {
  }

  lemma HoldsIsText(b: seq<byte>, at: int, t: seq<byte>)
    requires Holds(b, at, t)
    ensures Terminated(b, at) && Text(b, at) == t
  {
    assert forall i | at <= i < at + |t| :: b[i] == t[i - at];
    LengthIs(b, at, |t|);
  }

  /** The buffer after `w` has been written over it from offset `at`. */
  function Overwrite(b: seq<byte>, at: nat, w: seq<byte>): (r: seq<byte>)
    requires at + |w| <= |b|
    ensures |r| == |b|
  {
    b[..at] + w + b[at + |w|..]
  }

  lemma OverwriteIs(before: seq<byte>, after: seq<byte>, at: nat, w: seq<byte>)
    requires |after| == |before| && at + |w| <= |before|
    requires forall i | 0 <= i < |w| :: after[at + i] == w[i]
    requires forall i | 0 <= i < at || at + |w| <= i < |before| :: after[i] == before[i]
    ensures after == Overwrite(before, at, w)
  {
  }

  lemma OverwriteKeeps(b: seq<byte>, at: nat, w: seq<byte>, other: int, t: seq<byte>)
    requires at + |w| <= |b| && Holds(b, other, t) && (other + |t| < at || at + |w| <= other)
    ensures Holds(Overwrite(b, at, w), other, t)
  {
  }
}
