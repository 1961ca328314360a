/** `url_decode` of scripts/traffic/utils.c: percent-decoding a string in place. */
module UrlDecode {
  import opened CStrings

  const PERCENT: byte := '%' as int

  predicate IsHex(x: byte) {
    || '0' as int <= x <= '9' as int
    || 'a' as int <= x <= 'f' as int
    || 'A' as int <= x <= 'F' as int
  }

  function HexValue(x: byte): (v: nat)
    requires IsHex(x)
    ensures v < 16
  {
    if x <= '9' as int then x - '0' as int
    else if x <= 'F' as int then x - 'A' as int + 10
    else x - 'a' as int + 10
  }

  /** `sscanf` with "%2hhx" fails at once on this byte: not a digit, a sign or white space. */
  predicate Refused(x: byte) {
    !IsHex(x) && x != '+' as int && x != '-' as int && x != ' ' as int && !(9 <= x <= 13)
  }

  predicate StartsWithEscape(t: seq<byte>) {
    |t| >= 3 && t[0] == PERCENT && IsHex(t[1]) && IsHex(t[2])
  }

  predicate StartsBadly(t: seq<byte>) {
    t != [] && t[0] == PERCENT && !StartsWithEscape(t)
  }

  /** How many characters stand for the first byte, and that byte. */
  function Width(t: seq<byte>): nat {
    if StartsWithEscape(t) then 3 else 1
  }

  function First(t: seq<byte>): byte
    requires t != []
  {
    if StartsWithEscape(t) then HexValue(t[1]) * 16 + HexValue(t[2]) else t[0]
  }

  /** Every '%' starts an escape with two digits, up to the first one (if any) that `sscanf`
      is sure to refuse. */
  predicate Scannable(t: seq<byte>)
    decreases |t|
  {
    if t == [] then true
    else if StartsBadly(t) then |t| == 1 || Refused(t[1])
    else Scannable(t[Width(t)..])
  }

  /** The bytes decoded before the end, or before the first bad escape. */
  datatype Decoded = Decoded(bytes: seq<byte>, ok: bool)

  function Decode(t: seq<byte>): Decoded
    decreases |t|
  {
    if t == [] then Decoded([], true)
    else if StartsBadly(t) then Decoded([], false)
    else
      var d := Decode(t[Width(t)..]);
      d.(bytes := [First(t)] + d.bytes)
  }

  /** What ends up in the buffer: no terminator is written after a failure, nor for an
      empty string, which has one already. */
  function Written(t: seq<byte>): seq<byte> {
    var d := Decode(t);
    d.bytes + if d.ok && d.bytes != [] then [NUL] else []
  }

  lemma {:induction false} DecodedFits(t: seq<byte>)
    ensures |Decode(t).bytes| <= |t|
    decreases |t|
  {
    if t != [] && !StartsBadly(t) { DecodedFits(t[Width(t)..]); }
  }

  /** Decoding `t` yields `done` and whatever the rest of the text yields. */
  predicate SoFar(t: seq<byte>, done: seq<byte>, rest: seq<byte>) {
    Scannable(rest) && Decode(t) == Decode(rest).(bytes := done + Decode(rest).bytes)
  }

  lemma NothingYet(t: seq<byte>)
    requires Scannable(t)
    ensures SoFar(t, [], t)
  {
    assert [] + Decode(t).bytes == Decode(t).bytes;
  }

  lemma OneByteOn(t: seq<byte>, done: seq<byte>, rest: seq<byte>)
    requires rest != [] && !StartsBadly(rest) && SoFar(t, done, rest)
    ensures SoFar(t, done + [First(rest)], rest[Width(rest)..])
  {
    var d := Decode(rest[Width(rest)..]);
    assert done + ([First(rest)] + d.bytes) == (done + [First(rest)]) + d.bytes;
  }

  /** When the text ends or a bad escape comes up, what has been decoded is the result. */
  lemma AllDone(t: seq<byte>, done: seq<byte>, rest: seq<byte>)
    requires SoFar(t, done, rest) && (rest == [] || StartsBadly(rest))
    ensures Decode(t) == Decoded(done, rest == [])
  {
    assert done + [] == done;
  }

  /** The first digit is there, or `sscanf` refuses what is. */
  predicate IsSureToScan(rest: seq<byte>) {
    rest != [] && rest[0] == PERCENT && (|rest| == 1 || Refused(rest[1]) || StartsWithEscape(rest))
  }

  lemma ScannableIsSure(t: seq<byte>, done: seq<byte>, rest: seq<byte>)
    requires rest != [] && rest[0] == PERCENT && SoFar(t, done, rest)
    ensures IsSureToScan(rest)
  {
  }

  lemma LiteralStart(rest: seq<byte>)
    requires rest != [] && rest[0] != PERCENT
    ensures !StartsBadly(rest) && Width(rest) == 1 && First(rest) == rest[0]
  {
  }

  /** In the middle of decoding `t` in place: `rest` is still to be read from `c`, and
      `done` has been written from `start` up to `o`, never past `c`. */
  ghost predicate Midway(before: seq<byte>, now: seq<byte>, start: nat, c: int, o: int,
                   t: seq<byte>, done: seq<byte>, rest: seq<byte>)
  {
    && |now| == |before| && start <= o == start + |done| <= c && c + |rest| == start + |t|
    && Holds(now, c, rest)
    && (forall i | 0 <= i < |done| :: now[start + i] == done[i])
    && (forall i | 0 <= i < start || o <= i < |now| :: now[i] == before[i])
    && SoFar(t, done, rest)
  }

  lemma StartMidway(before: seq<byte>, start: nat, t: seq<byte>)
    requires Holds(before, start, t) && Scannable(t)
    ensures Midway(before, before, start, start, start, t, [], t)
  {
    NothingYet(t);
    hide SoFar;
  }

  lemma WriteByte(before: seq<byte>, now: seq<byte>, start: nat, c: int, o: int,
                  t: seq<byte>, done: seq<byte>, rest: seq<byte>)
    requires Midway(before, now, start, c, o, t, done, rest) && rest != [] && !StartsBadly(rest)
    ensures Width(rest) <= |rest| && 0 <= o < c + Width(rest) < |now|
    ensures Midway(before, now[o := First(rest)], start, c + Width(rest), o + 1,
                   t, done + [First(rest)], rest[Width(rest)..])
  {
    OneByteOn(t, done, rest);
    hide SoFar, First, StartsBadly;
  }

  lemma FinishDecoding(before: seq<byte>, now: seq<byte>, start: nat, c: int, o: int,
                       t: seq<byte>, done: seq<byte>, rest: seq<byte>)
    requires Midway(before, now, start, c, o, t, done, rest) && (rest == [] || StartsBadly(rest))
    ensures Decode(t) == Decoded(done, rest == []) && o < |now| && start + |Written(t)| <= |now|
    ensures Overwrite(before, start, Written(t)) == if rest == [] && done != [] then now[o := NUL] else now
  {
    AllDone(t, done, rest);
    var after := if rest == [] && done != [] then now[o := NUL] else now;
    hide SoFar;
    OverwriteIs(before, after, start, Written(t));
  }

  lemma MidwayHolds(before: seq<byte>, now: seq<byte>, start: nat, c: int, o: int,
                    t: seq<byte>, done: seq<byte>, rest: seq<byte>)
    requires Midway(before, now, start, c, o, t, done, rest)
    ensures Holds(now, c, rest) && SoFar(t, done, rest) && 0 <= c < |now| && 0 <= o < |now|
    ensures now[c] == NUL <==> rest == []
    ensures rest != [] ==> now[c] == rest[0]
  {
    if rest != [] { assert now[c + 0] == rest[0]; }
  }

  /** `sscanf(c + 1, "%2hhx", o)`, with the '%' at `at`. */
  method ScanEscape(b: array<byte>, at: nat, ghost rest: seq<byte>) returns (count: int, x: byte)
    requires IsSureToScan(rest) && Holds(b[..], at, rest)
    ensures count == 1 <==> !StartsBadly(rest)
    ensures count == 1 ==> Width(rest) == 3 && x == First(rest)
  {
    if IsHex(b[at + 1]) && IsHex(b[at + 2]) {
      return 1, HexValue(b[at + 1]) * 16 + HexValue(b[at + 2]);
    }
    return 0, 0;
  }

  method DecodeInPlace(b: array<byte>, start: nat) returns (size: int)
    requires Terminated(b[..], start) && Scannable(Text(b[..], start))
    modifies b
    ensures var t := Text(old(b[..]), start); var d := Decode(t);
      && size == (if d.ok then |d.bytes| else -1)
      && start + |Written(t)| <= b.Length
      && b[..] == Overwrite(old(b[..]), start, Written(t))
  {
    ghost var before := b[..];
    ghost var t := Text(before, start);
    HoldsText(before, start);
    StartMidway(before, start, t);
    var c, o := start, start;
    size := 0;
    ghost var rest, done := t, [];
    hide *;
    while b[c] != NUL
      invariant 0 <= o <= c < b.Length && size == |done|
      invariant Midway(before, b[..], start, c, o, t, done, rest)
      decreases b.Length - c
    {
      MidwayHolds(before, b[..], start, c, o, t, done, rest);
      ghost var now, c0 := b[..], c;
      if b[c] == PERCENT {
        ScannableIsSure(t, done, rest);
        var count, x := ScanEscape(b, c, rest);
        if count != 1 {
          size := -1;
          break;
        }
        b[o] := x;
        c := c + 3;
      } else {
        LiteralStart(rest);
        b[o] := b[c];
        c := c + 1;
      }
      WriteByte(before, now, start, c0, o, t, done, rest);
      assert b[..] == now[o := First(rest)];
      done, rest := done + [First(rest)], rest[Width(rest)..];
      o := o + 1;
      size := size + 1;
    }
    MidwayHolds(before, b[..], start, c, o, t, done, rest);
    FinishDecoding(before, b[..], start, c, o, t, done, rest);
    if size > 0 {
      b[o] := NUL;
    }
  }
}
