/** All parameters of a query string: calling `parse_query_param` until the query is NULL. */
module TrafficParams {
  import opened Wrappers
  import opened SplitJoin
  import opened CStrings
  import opened TrafficQuery
  import opened TrafficVerify

  /** What one call hands out: where the key and the value are. */
  datatype Param = Param(key: nat, value: Option<nat>)

  /** A piece that starts at `at`. */
  function ParamOf(piece: seq<byte>, at: nat): Param {
    Param(at, if Value(piece).Some? then Some(at + |Key(piece)| + 1) else None)
  }

  /** The strings at these places are the key and the value of the piece. */
  predicate PieceHeld(b: seq<byte>, piece: seq<byte>, p: Param) {
    && Holds(b, p.key, Key(piece))
    && (p.value.Some? <==> Value(piece).Some?)
    && (p.value.Some? ==> Holds(b, p.value.value, Value(piece).value))
  }

  /** So for all pieces, and they end before `limit`. */
  ghost predicate PiecesHeld(b: seq<byte>, pieces: seq<seq<byte>>, params: seq<Param>, limit: int) {
    |params| == |pieces| && forall i | 0 <= i < |pieces| ::
      PieceHeld(b, pieces[i], params[i]) && params[i] == ParamOf(pieces[i], params[i].key)
          && params[i].key + |pieces[i]| < limit
  }

  lemma OnePieceStill(b: seq<byte>, now: seq<byte>, piece: seq<byte>, p: Param, low: int)
    requires PieceHeld(b, piece, p) && p == ParamOf(piece, p.key) && p.key + |piece| < low
    requires |now| == |b| && forall i | 0 <= i < low && i < |b| :: now[i] == b[i]
    ensures PieceHeld(now, piece, p)
  {
    hide Key, Value;
  }

  lemma PiecesStill(b: seq<byte>, now: seq<byte>, pieces: seq<seq<byte>>, params: seq<Param>, low: int, limit: int)
    requires PiecesHeld(b, pieces, params, low) && low <= limit
    requires |now| == |b| && forall i | 0 <= i < low && i < |b| :: now[i] == b[i]
    ensures PiecesHeld(now, pieces, params, limit)
  {
    hide PieceHeld, ParamOf;
    forall i | 0 <= i < |pieces| ensures PieceHeld(now, pieces[i], params[i]) {
      OnePieceStill(b, now, pieces[i], params[i], low);
    }
  }

  lemma ParsedPiece(b: seq<byte>, at: nat, t: seq<byte>)
    requires at + |t| < |b| && Holds(b, at, t)
    ensures PieceHeld(Parsed(b, at, t), Head(t), ParamOf(Head(t), at))
  {
    ParsedKey(b, at, t);
    if Value(Head(t)).Some? { ParsedValue(b, at, t); }
    hide Holds, Parsed, Head, Key, Value;
  }

  lemma OneMorePiece(b: seq<byte>, pieces: seq<seq<byte>>, params: seq<Param>, piece: seq<byte>, at: nat, limit: int)
    requires PiecesHeld(b, pieces, params, limit) && PieceHeld(b, piece, ParamOf(piece, at)) && at + |piece| < limit
    ensures PiecesHeld(b, pieces + [piece], params + [ParamOf(piece, at)], limit)
  {
    assert ParamOf(piece, at).key == at;
    hide PieceHeld, ParamOf;
  }

  /** The pieces of what is left of the query string. */
  function PiecesFrom(t: Option<seq<byte>>): seq<seq<byte>> {
    if t.Some? then Split(t.value, AMP) else []
  }

  /** In the middle: of the pieces `all`, those in `done` have been handed out as `params`. */
  ghost predicate Parsing(before: seq<byte>, now: seq<byte>, start: nat, high: int, all: seq<seq<byte>>,
                          done: seq<seq<byte>>, params: seq<Param>, query: Option<nat>, t: Option<seq<byte>>)
  {
    && SameOutside(before, now, start, high)
    && all == done + PiecesFrom(t)
    && PiecesHeld(now, done, params, if query.Some? then query.value else high + 1)
    && (query.Some? <==> t.Some?)
    && (query.Some? ==>
         && start <= query.value && query.value + |t.value| == high < |now|
         && Holds(now, query.value, t.value))
  }

  lemma NextPiece(done: seq<seq<byte>>, t: seq<byte>)
    ensures done + PiecesFrom(Some(t)) == done + [Head(t)] + PiecesFrom(Tail(t))
  {
    FirstPiece(t);
    hide Split, Head, Tail;
    assert done + ([Head(t)] + PiecesFrom(Tail(t))) == (done + [Head(t)]) + PiecesFrom(Tail(t));
  }

  lemma ParseOne(before: seq<byte>, now: seq<byte>, start: nat, high: int, all: seq<seq<byte>>,
                 done: seq<seq<byte>>, params: seq<Param>, at: nat, t: seq<byte>)
    requires Parsing(before, now, start, high, all, done, params, Some(at), Some(t)) && at + |t| < |now|
    ensures Parsing(before, Parsed(now, at, t), start, high, all, done + [Head(t)],
                    params + [ParamOf(Head(t), at)], Next(at, t), Tail(t))
  {
    hide Parsed, Holds, Head, Tail, PiecesFrom, SameOutside, PiecesHeld, ParamOf, PieceHeld;
    var limit := at + |Head(t)| + 1;
    ParsedOutside(before, now, start, high, at, t);
    ParsedElsewhere(now, at, t);
    ParsedPiece(now, at, t);
    PiecesStill(now, Parsed(now, at, t), done, params, at, limit);
    OneMorePiece(Parsed(now, at, t), done, params, Head(t), at, limit);
    NextPiece(done, t);
    if Tail(t).Some? { ParsedRest(now, at, t); }
  }

  lemma StartParsing(b: seq<byte>, at: nat)
    requires Terminated(b, at)
    ensures var t := Text(b, at);
      Parsing(b, b, at, at + |t|, Split(t, AMP), [], [], Some(at), Some(t)) && at + |t| < |b|
  {
    HoldsText(b, at);
    hide Split, Holds;
    assert [] + Split(Text(b, at), AMP) == Split(Text(b, at), AMP);
  }

  lemma ReadyForNext(before: seq<byte>, now: seq<byte>, start: nat, high: int, all: seq<seq<byte>>,
                     done: seq<seq<byte>>, params: seq<Param>, query: Option<nat>, t: Option<seq<byte>>)
    requires Parsing(before, now, start, high, all, done, params, query, t)
    ensures query.Some? ==>
      && t.Some? && Terminated(now, query.value) && Text(now, query.value) == t.value && query.value + |t.value| < |now|
    ensures query == None ==>
      all == done && PiecesHeld(now, all, params, high + 1) && SameOutside(before, now, start, high)
  {
    if query.Some? { HoldsIsText(now, query.value, t.value); }
    hide PiecesHeld, SameOutside;
    assert done + [] == done;
  }

  /** Iterating until the query is NULL yields the pieces between the ampersands, in order,
      those without a value included, each split at its first '='. */
  method ParseAll(b: array<byte>, start: nat) returns (params: seq<Param>)
    requires Terminated(b[..], start)
    modifies b
    ensures var t := Text(old(b[..]), start);
      && PiecesHeld(b[..], Split(t, AMP), params, start + |t| + 1)
      && SameOutside(old(b[..]), b[..], start, start + |t|)
  {
    hide *;
    ghost var before, t := b[..], Text(b[..], start);
    ghost var all, done, rest := Split(t, AMP), [], Some(t);
    StartParsing(before, start);
    var query: Option<nat> := Some(start);
    params := [];
    while query != None
      invariant Parsing(before, b[..], start, start + |t|, all, done, params, query, rest)
      decreases rest.Some?, if rest.Some? then |rest.value| else 0
    {
      ghost var now, at := b[..], query.value;
      ReadyForNext(before, now, start, start + |t|, all, done, params, query, rest);
      ParseOne(before, now, start, start + |t|, all, done, params, at, rest.value);
      var length, next, key, value := ParseQueryParam(b, query);
      HandedOut(now, b[..], at, rest.value, length, next, key, value);
      query := next;
      params := params + [Param(key, value)];
      done, rest := done + [Head(rest.value)], Tail(rest.value);
    }
    ReadyForNext(before, b[..], start, start + |t|, all, done, params, query, rest);
  }

  lemma HandedOut(before: seq<byte>, now: seq<byte>, at: nat, t: seq<byte>,
                  length: int, next: Option<nat>, key: nat, value: Option<nat>)
    requires Terminated(before, at) && Text(before, at) == t && at + |t| < |before|
    requires ParsedFrom(before, now, at, length, next, key, value)
    ensures now == Parsed(before, at, t) && next == Next(at, t) && Param(key, value) == ParamOf(Head(t), at)
  {
    hide Text, Parsed, Head, Key, Value, Next;
  }

  function Printed(key: seq<byte>, value: Option<seq<byte>>): seq<byte> {
    key + if value.Some? then [EQUALS] + value.value else []
  }

  /** Printed with '=' and joined with '&', the parameters give the query string back; no key
      contains a '=', and no part of a parameter a '&'. */
  lemma ParamsRejoin(t: seq<byte>)
    ensures Join(Split(t, AMP), AMP) == t
    ensures forall piece | piece in Split(t, AMP) ::
      Printed(Key(piece), Value(piece)) == piece && EQUALS !in Key(piece) && AMP !in piece
  {
    JoinOfSplit(t, AMP);
    forall piece | piece in Split(t, AMP)
      ensures Printed(Key(piece), Value(piece)) == piece && EQUALS !in Key(piece) && AMP !in piece
    {
      CutIsReadBack(piece, EQUALS);
    }
  }
}
