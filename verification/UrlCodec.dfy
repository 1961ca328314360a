/** What `url_decode` promises: it undoes every percent-encoding (section 2.1 of RFC 3986). */
module UrlCodec {
  import opened CStrings
  import opened UrlDecode

  // ---------------------------------------------------------------- all encodings

  /** A byte is written as itself, unless it is '%', or as '%' and two hexadecimal digits. */
  predicate Represents(piece: seq<byte>, x: byte) {
    || (piece == [x] && x != PERCENT)
    || (|piece| == 3 && StartsWithEscape(piece) && HexValue(piece[1]) * 16 + HexValue(piece[2]) == x)
  }

  function Concat(pieces: seq<seq<byte>>): seq<byte>
    decreases |pieces|
  {
    if pieces == [] then [] else pieces[0] + Concat(pieces[1..])
  }

  ghost predicate AreFor(pieces: seq<seq<byte>>, d: seq<byte>) {
    |pieces| == |d| && forall i | 0 <= i < |d| :: Represents(pieces[i], d[i])
  }

  /** `e` is one of the percent-encodings of `d`. */
  ghost predicate Encodes(e: seq<byte>, d: seq<byte>) {
    exists pieces :: AreFor(pieces, d) && Concat(pieces) == e
  }

  lemma DecodeFirst(piece: seq<byte>, x: byte, rest: seq<byte>)
    requires Represents(piece, x)
    ensures var t := piece + rest; Decode(t) == Decode(rest).(bytes := [x] + Decode(rest).bytes)
  {
    var t := piece + rest;
    assert t[Width(t)..] == rest;
  }

  lemma {:induction false} DecodePieces(pieces: seq<seq<byte>>, d: seq<byte>)
    requires AreFor(pieces, d)
    ensures Decode(Concat(pieces)) == Decoded(d, true)
    decreases |d|
  {
    if d != [] {
      DecodePieces(pieces[1..], d[1..]);
      DecodeFirst(pieces[0], d[0], Concat(pieces[1..]));
      assert [d[0]] + d[1..] == d;
    }
  }

  /** The way the decoder cuts up its input. */
  function Cut(e: seq<byte>): seq<seq<byte>>
    decreases |e|
  {
    if e == [] || StartsBadly(e) then [] else [e[..Width(e)]] + Cut(e[Width(e)..])
  }

  lemma OneMorePiece(piece: seq<byte>, x: byte, pieces: seq<seq<byte>>, d: seq<byte>)
    requires AreFor(pieces, d) && Represents(piece, x)
    ensures AreFor([piece] + pieces, [x] + d) && Concat([piece] + pieces) == piece + Concat(pieces)
  {
    assert ([piece] + pieces)[1..] == pieces;
    hide Represents;
  }

  lemma CutUnfolds(e: seq<byte>)
    requires e != [] && Decode(e).ok
    ensures !StartsBadly(e) && 0 < Width(e) <= |e|
    ensures var rest := e[Width(e)..];
      && Cut(e) == [e[..Width(e)]] + Cut(rest) && Decode(e) == Decoded([First(e)] + Decode(rest).bytes, Decode(rest).ok)
  {
  }

  lemma NothingToCut()
    ensures AreFor(Cut([]), Decode([]).bytes) && Concat(Cut([])) == []
  {
  }

  lemma {:induction false} CutIsRight(e: seq<byte>)
    requires Decode(e).ok
    ensures AreFor(Cut(e), Decode(e).bytes) && Concat(Cut(e)) == e
    decreases |e|
  {
    hide *;
    if e == [] {
      NothingToCut();
    } else {
      CutUnfolds(e);
      var piece, rest := e[..Width(e)], e[Width(e)..];
      CutIsRight(rest);
      FirstPiece(e);
      OneMorePiece(piece, First(e), Cut(rest), Decode(rest).bytes);
      assert piece + rest == e;
    }
  }

  lemma FirstPiece(e: seq<byte>)
    requires e != [] && !StartsBadly(e)
    ensures Represents(e[..Width(e)], First(e))
  {
  }

  /** The decoder accepts exactly the percent-encodings, and gives back what was encoded. */
  lemma DecodeIff(e: seq<byte>, d: seq<byte>)
    ensures Decode(e) == Decoded(d, true) <==> Encodes(e, d)
  {
    if Decode(e) == Decoded(d, true) {
      CutIsRight(e);
    }
    if Encodes(e, d) {
      var pieces :| AreFor(pieces, d) && Concat(pieces) == e;
      DecodePieces(pieces, d);
    }
  }

  // ---------------------------------------------------------------- the usual encoders

  function HexDigit(v: nat, upper: bool): (x: byte)
    requires v < 16
    ensures IsHex(x) && HexValue(x) == v
  {
    if v < 10 then '0' as int + v else if upper then 'A' as int + v - 10 else 'a' as int + v - 10
  }

  /** The decoder's digits are these, in both cases, and no others. */
  lemma DigitsAreHex(x: byte)
    ensures IsHex(x) <==> exists v: nat, upper: bool :: v < 16 && HexDigit(v, upper) == x
    ensures IsHex(x) <==> exists i: nat :: i < 22 && "0123456789abcdefABCDEF"[i] as int == x
  {
    var digits := "0123456789abcdefABCDEF";
    if IsHex(x) {
      var v := HexValue(x);
      var i: nat := if x <= '9' as int then v else if x <= 'F' as int then v + 6 else v;
      assert HexDigit(v, x <= 'F' as int) == x;
      assert digits[i] as int == x;
    }
  }

  function EncodeByte(x: byte, plain: set<byte>, upper: bool): (piece: seq<byte>)
    ensures PERCENT !in plain ==> Represents(piece, x)
  {
    if x in plain then [x] else [PERCENT, HexDigit(x / 16, upper), HexDigit(x % 16, upper)]
  }

  /** Leaves the bytes in `plain` as they are, with digits in either case. */
  function Encode(d: seq<byte>, plain: set<byte>, upper: bool): seq<byte>
    decreases |d|
  {
    if d == [] then [] else EncodeByte(d[0], plain, upper) + Encode(d[1..], plain, upper)
  }

  lemma ScannableFirst(piece: seq<byte>, x: byte, rest: seq<byte>)
    requires Represents(piece, x) && Scannable(rest)
    ensures Scannable(piece + rest)
  {
    var t := piece + rest;
    assert t[Width(t)..] == rest;
  }

  /** Decoding undoes encoding for every byte string, and the encoded text is a proper
      C string on which the decoder's behaviour is fixed. */
  lemma {:induction false} RoundTrip(d: seq<byte>, plain: set<byte>, upper: bool)
    requires PERCENT !in plain && NUL !in plain
    ensures var e := Encode(d, plain, upper); Decode(e) == Decoded(d, true) && Scannable(e) && NUL !in e
    decreases |d|
  {
    if d != [] {
      RoundTrip(d[1..], plain, upper);
      var piece, rest := EncodeByte(d[0], plain, upper), Encode(d[1..], plain, upper);
      DecodeFirst(piece, d[0], rest);
      ScannableFirst(piece, d[0], rest);
      assert [d[0]] + d[1..] == d;
    }
  }

  /** In the buffer: an encoded string without encoded NULs is replaced by the string
      itself. */
  lemma InPlaceRoundTrip(b: seq<byte>, at: nat, d: seq<byte>, plain: set<byte>, upper: bool)
    requires PERCENT !in plain && NUL !in plain && NUL !in d
    requires Holds(b, at, Encode(d, plain, upper))
    ensures var w := Written(Encode(d, plain, upper));
      at + |w| <= |b| && Holds(Overwrite(b, at, w), at, d)
  {
    var e := Encode(d, plain, upper);
    RoundTrip(d, plain, upper);
    DecodedFits(e);
    assert Written(e) == d + if d != [] then [NUL] else [];
  }
}
