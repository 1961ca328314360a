/**
 What scripts/traffic/verify.c does with the parameters it has picked out: it decodes them in
 place, skips the line if one is missing or malformed, and splits the id at its first '-'.
 */
module TrafficCheck {
  import opened Wrappers
  import opened SplitJoin
  import opened CStrings
  import opened TrafficQuery
  import opened TrafficVerify
  import opened UrlDecode
  import opened UrlCodec

  const DASH: byte := '-' as int
  const SHA1_HASH_LENGTH: int := 40

  /** The bytes `d`, which may contain NULs, with a terminator behind them. */
  predicate Stored(b: seq<byte>, at: int, d: seq<byte>) {
    0 <= at && at + |d| < |b| && b[at..at + |d|] == d && b[at + |d|] == NUL
  }

  lemma DecodedIsStored(b: seq<byte>, at: nat, v: seq<byte>)
    requires Holds(b, at, v) && Decode(v).ok
    ensures at + |Written(v)| <= |b| && Stored(Overwrite(b, at, Written(v)), at, Decode(v).bytes)
  {
    DecodedFits(v);
    EmptyOnlyFromEmpty(v);
    var d := Decode(v).bytes;
    var now := Overwrite(b, at, Written(v));
    hide Decode;
    assert d == [] ==> now[at] == NUL;
  }

  lemma EmptyOnlyFromEmpty(v: seq<byte>)
    ensures Decode(v) == Decoded([], true) ==> v == []
  {
  }

  lemma WrittenFits(v: seq<byte>)
    ensures |Written(v)| <= |v| + 1
  {
    DecodedFits(v);
  }

  lemma StoredElsewhere(b: seq<byte>, at: nat, w: seq<byte>, other: int, d: seq<byte>)
    requires at + |w| <= |b| && Stored(b, other, d) && (other + |d| < at || at + |w| <= other)
    ensures Stored(Overwrite(b, at, w), other, d)
  {
  }

  lemma WrittenOutside(before: seq<byte>, b: seq<byte>, start: nat, high: int, at: nat, v: seq<byte>)
    requires SameOutside(before, b, start, high) && start <= at && at + |v| <= high && at + |v| < |b|
    ensures at + |Written(v)| <= |b| && SameOutside(before, Overwrite(b, at, Written(v)), start, high)
  {
    WrittenFits(v);
    hide Written;
  }

  ghost predicate ScannableLast(fields: seq<Field>, key: seq<byte>) {
    Last(fields, key).Some? ==> Scannable(Last(fields, key).value.value)
  }

  /** The value of the last field with this key is well encoded. */
  predicate WellEncoded(fields: seq<Field>, key: seq<byte>) {
    Last(fields, key).Some? && Decode(Last(fields, key).value.value).ok
  }

  function DecodedValue(fields: seq<Field>, key: seq<byte>): seq<byte> {
    if Last(fields, key).Some? then Decode(Last(fields, key).value.value).bytes else []
  }

  /** The line is not skipped for its parameters: there are an id and a hash of the right
      length, and no parameter that is looked at is badly encoded. */
  predicate Accepted(fields: seq<Field>) {
    && WellEncoded(fields, ID())
    && WellEncoded(fields, HASH()) && |DecodedValue(fields, HASH())| == SHA1_HASH_LENGTH
    && (Last(fields, URL()).Some? ==> WellEncoded(fields, URL()))
  }

  /** A string of ASCII characters in bytes. */
  function Ascii(s: string): seq<byte>
    requires forall i | 0 <= i < |s| :: s[i] < 128 as char
  {
    seq(|s|, i requires 0 <= i < |s| => s[i] as int)
  }

  /** The value of the last field with this key is an encoding of `d`. */
  ghost predicate Says(fields: seq<Field>, key: seq<byte>, d: seq<byte>) {
    exists i :: IsLastAt(fields, key, i) && Encodes(fields[i].value, d)
  }

  lemma {:induction false} OnlyOneLast(fields: seq<Field>, key: seq<byte>, i: int)
    requires IsLastAt(fields, key, i)
    ensures Last(fields, key) == Some(fields[i])
    decreases |fields|
  {
    if i < |fields| - 1 {
      assert IsLastAt(fields[..|fields| - 1], key, i);
      OnlyOneLast(fields[..|fields| - 1], key, i);
    }
  }

  lemma SaysIff(fields: seq<Field>, key: seq<byte>, d: seq<byte>)
    ensures Says(fields, key, d) <==> WellEncoded(fields, key) && DecodedValue(fields, key) == d
  {
    LastIsThere(fields, key);
    forall i | IsLastAt(fields, key, i) ensures Last(fields, key) == Some(fields[i]) { OnlyOneLast(fields, key, i); }
    if Last(fields, key).Some? { DecodeIff(Last(fields, key).value.value, d); }
    hide Last, IsLastAt, Encodes, Decode;
  }

  /** A line is not skipped for its parameters if and only if the last `id` is an encoding of
      something, the last `hash` is one of forty bytes, and the last `url`, if there is one, is
      one of something. */
  lemma AcceptedIff(fields: seq<Field>)
    ensures Accepted(fields) <==>
      && (exists d :: Says(fields, Ascii("id"), d))
      && (exists d :: Says(fields, Ascii("hash"), d) && |d| == 40)
      && ((exists i :: IsLastAt(fields, Ascii("url"), i)) ==> exists d :: Says(fields, Ascii("url"), d))
  {
    KeysAreNames();
    KeySays(fields, ID());
    KeySays(fields, HASH());
    KeySays(fields, URL());
    hide Says, WellEncoded, IsLastAt, Last, DecodedValue, Ascii, ID, HASH, URL;
  }

  lemma KeysAreNames()
    ensures ID() == Ascii("id") && HASH() == Ascii("hash") && URL() == Ascii("url")
  {
  }

  lemma KeySays(fields: seq<Field>, key: seq<byte>)
    ensures forall d :: Says(fields, key, d) <==> WellEncoded(fields, key) && DecodedValue(fields, key) == d
    ensures WellEncoded(fields, key) ==> Says(fields, key, DecodedValue(fields, key))
    ensures (exists i :: IsLastAt(fields, key, i)) <==> Last(fields, key).Some?
  {
    forall d ensures Says(fields, key, d) <==> WellEncoded(fields, key) && DecodedValue(fields, key) == d {
      SaysIff(fields, key, d);
    }
    LastIsThere(fields, key);
    forall i | IsLastAt(fields, key, i) ensures Last(fields, key).Some? { OnlyOneLast(fields, key, i); }
  }

  // ---------------------------------------------------------------- decoding in the buffer

  /** A field is in the buffer, between `start` and `high`: as it came, or decoded. */
  ghost predicate InBuffer(b: seq<byte>, f: Field, decoded: bool, start: nat, high: int) {
    && start <= f.at && f.at + |f.value| <= high < |b|
    && if decoded then Decode(f.value).ok && Stored(b, f.at, Decode(f.value).bytes) else Holds(b, f.at, f.value)
  }

  predicate ApartFrom(f: Field, g: Field) {
    f.at + |f.value| < g.at || g.at + |g.value| < f.at
  }

  lemma LastIsInBuffer(b: seq<byte>, t: seq<byte>, start: nat, key: seq<byte>)
    requires AllHeld(b, Fields(t, start), start + |t| + 1) && start + |t| < |b| && Last(Fields(t, start), key).Some?
    ensures InBuffer(b, Last(Fields(t, start), key).value, false, start, start + |t|)
  {
    LastIsOne(Fields(t, start), key);
    TakenAreApart(Split(t, AMP), start);
    hide Taken, Split, Last, Holds;
  }

  lemma LastAreApart(t: seq<byte>, start: nat, key: seq<byte>, other: seq<byte>)
    requires key != other && Last(Fields(t, start), key).Some? && Last(Fields(t, start), other).Some?
    ensures ApartFrom(Last(Fields(t, start), key).value, Last(Fields(t, start), other).value)
  {
    hide Taken, Split, Last;
    LastIsOne(Fields(t, start), key);
    LastIsOne(Fields(t, start), other);
    TakenAreApart(Split(t, AMP), start);
  }

  /** Decoding one field in place leaves the others alone, decoded or not. */
  lemma DecodingKeeps(b: seq<byte>, f: Field, g: Field, decoded: bool, start: nat, high: int)
    requires InBuffer(b, f, false, start, high) && InBuffer(b, g, decoded, start, high) && ApartFrom(f, g)
    ensures f.at + |Written(f.value)| <= |b|
    ensures InBuffer(Overwrite(b, f.at, Written(f.value)), g, decoded, start, high)
  {
    WrittenFits(f.value);
    DecodedFits(g.value);
    var w := Written(f.value);
    hide Written, Holds, Stored, Overwrite, Decode;
    if decoded {
      StoredElsewhere(b, f.at, w, g.at, Decode(g.value).bytes);
    } else {
      OverwriteKeeps(b, f.at, w, g.at, g.value);
    }
  }

  lemma DecodedIsInBuffer(b: seq<byte>, f: Field, start: nat, high: int)
    requires InBuffer(b, f, false, start, high) && Decode(f.value).ok
    ensures f.at + |Written(f.value)| <= |b|
    ensures InBuffer(Overwrite(b, f.at, Written(f.value)), f, true, start, high)
  {
    DecodedIsStored(b, f.at, f.value);
    hide Written, Stored, Overwrite, Decode, Holds;
  }

  /** `url_decode` on a chosen value. */
  method DecodeAt(b: array<byte>, at: nat, ghost f: Field, ghost before: seq<byte>, ghost start: nat, ghost high: int)
    returns (size: int)
    requires InBuffer(b[..], f, false, start, high) && at == f.at && Scannable(f.value)
    requires SameOutside(before, b[..], start, high)
    modifies b
    ensures size == if Decode(f.value).ok then |Decode(f.value).bytes| else -1
    ensures SameOutside(before, b[..], start, high)
    ensures Decode(f.value).ok ==> InBuffer(b[..], f, true, start, high)
    ensures forall g: Field, decoded: bool ::
      ApartFrom(f, g) && InBuffer(old(b[..]), g, decoded, start, high) ==> InBuffer(b[..], g, decoded, start, high)
  {
    ghost var now := b[..];
    HoldsIsText(now, at, f.value);
    WrittenOutside(before, now, start, high, at, f.value);
    hide *;
    size := DecodeInPlace(b, at);
    if Decode(f.value).ok { DecodedIsInBuffer(now, f, start, high); }
    forall g: Field, decoded: bool | ApartFrom(f, g) && InBuffer(now, g, decoded, start, high)
      ensures InBuffer(b[..], g, decoded, start, high)
    {
      DecodingKeeps(now, f, g, decoded, start, high);
    }
  }

  /** The decoded value is at its place, with a terminator behind it. */
  lemma InBufferIsStored(b: seq<byte>, f: Field, start: nat, high: int)
    requires InBuffer(b, f, true, start, high)
    ensures Stored(b, f.at, Decode(f.value).bytes)
  {
  }

  /** From the query string to the decoded id and hash; a line that is skipped is not accepted. */
  method DecodeParams(b: array<byte>, start: nat) returns (accepted: bool, id: nat, idLength: int, hash: nat)
    requires Terminated(b[..], start)
    requires var fields := Fields(Text(b[..], start), start);
      ScannableLast(fields, ID()) && ScannableLast(fields, HASH()) && ScannableLast(fields, URL())
    modifies b
    ensures var fields := Fields(Text(old(b[..]), start), start);
      && (accepted <==> Accepted(fields))
      && (accepted ==>
            && Stored(b[..], id, DecodedValue(fields, ID())) && idLength == |DecodedValue(fields, ID())|
            && Stored(b[..], hash, DecodedValue(fields, HASH())))
    ensures SameOutside(old(b[..]), b[..], start, start + |Text(old(b[..]), start)|)
  {
    ghost var before, t := b[..], Text(b[..], start);
    ghost var fields, high := Fields(t, start), start + |t|;
    NamesDiffer();
    assert high < b.Length;
    hide ID, HASH, URL, Fields, Text, Terminated, SameOutside, AllHeld, Last, InBuffer, ApartFrom, Stored;
    hide Decode, Scannable;
    id, idLength, hash := 0, 0, 0;
    var idAt, hashAt, urlAt := SelectParams(b, start);
    if idAt == None || hashAt == None {
      return false, id, idLength, hash;
    }
    id, hash := idAt.value, hashAt.value;
    ghost var i, h := Last(fields, ID()).value, Last(fields, HASH()).value;
    LastIsInBuffer(b[..], t, start, ID());
    LastIsInBuffer(b[..], t, start, HASH());
    LastAreApart(t, start, ID(), HASH());
    LastAreApart(t, start, HASH(), ID());
    if urlAt.Some? {
      LastIsInBuffer(b[..], t, start, URL());
      LastAreApart(t, start, ID(), URL());
      LastAreApart(t, start, HASH(), URL());
      LastAreApart(t, start, URL(), ID());
      LastAreApart(t, start, URL(), HASH());
    }

    idLength := DecodeAt(b, id, i, before, start, high);
    if idLength < 0 {
      return false, id, idLength, hash;
    }
    var hashLength := DecodeAt(b, hash, h, before, start, high);
    if hashLength != SHA1_HASH_LENGTH {
      return false, id, idLength, hash;
    }
    if urlAt.Some? {
      var urlLength := DecodeAt(b, urlAt.value, Last(fields, URL()).value, before, start, high);
      if urlLength < 0 {
        return false, id, idLength, hash;
      }
    }
    InBufferIsStored(b[..], i, start, high);
    InBufferIsStored(b[..], h, start, high);
    accepted := true;
  }

  lemma CutInPlace(b: seq<byte>, at: nat, t: seq<byte>, n: nat)
    requires Holds(b, at, t) && n <= |t| && at + |t| < |b| && DASH !in t[..n] && (n < |t| ==> t[n] == DASH)
    ensures Before(t, DASH) == t[..n] && (After(t, DASH).Some? <==> n < |t|)
    ensures n < |t| ==>
      Holds(b[at + n := NUL], at, Before(t, DASH)) && Holds(b[at + n := NUL], at + n + 1, After(t, DASH).value)
    ensures n == |t| ==> Before(t, DASH) == t
  {
    FindIs(t, DASH, n);
    if n < |t| { HoldsSuffix(b, at, t, n + 1); }
    hide Find;
  }

  lemma CharOf(b: seq<byte>, at: nat, t: seq<byte>, n: nat)
    requires Holds(b, at, t) && n <= |t|
    ensures at + n < |b| && b[at + n] == (if n < |t| then t[n] else NUL) && (b[at + n] == NUL <==> n == |t|)
  {
  }

  /** The id is the full name up to its first '-', and the subreddit after it. */
  method SplitId(b: array<byte>, id: nat) returns (subreddit: Option<nat>)
    requires Terminated(b[..], id)
    modifies b
    ensures var t := Text(old(b[..]), id);
      && (subreddit.Some? <==> After(t, DASH).Some?)
      && Holds(b[..], id, Before(t, DASH))
      && (subreddit.Some? ==> subreddit.value == id + |Before(t, DASH)| + 1
                              && Holds(b[..], subreddit.value, After(t, DASH).value)
                              && b[..] == old(b[..])[subreddit.value - 1 := NUL])
      && (subreddit == None ==> b[..] == old(b[..]))
  {
    ghost var before, t := b[..], Text(b[..], id);
    HoldsText(before, id);
    hide *;
    subreddit := None;
    var c := id;
    CharOf(before, id, t, 0);
    while b[c] != NUL
      invariant id <= c <= id + |t| && c < b.Length && subreddit == None
      invariant b[..] == before && DASH !in t[..c - id]
      invariant c - id < |t| <==> b[c] != NUL
      decreases id + |t| - c
    {
      CharOf(before, id, t, c - id);
      if b[c] == DASH {
        CutInPlace(before, id, t, c - id);
        subreddit := Some(c + 1);
        b[c] := NUL;
        assert b[..] == before[c := NUL];
        break;
      }
      assert t[..c - id + 1] == t[..c - id] + [t[c - id]];
      c := c + 1;
      CharOf(before, id, t, c - id);
    }
    if subreddit == None { CutInPlace(before, id, t, c - id); }
  }
}
