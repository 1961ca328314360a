/** The loop of scripts/traffic/verify.c that picks the parameters to check out of the query string. */
module TrafficVerify {
  import opened Wrappers
  import opened SplitJoin
  import opened CStrings
  import opened TrafficQuery

  function ID(): seq<byte> { ['i' as int, 'd' as int] }
  function HASH(): seq<byte> { ['h' as int, 'a' as int, 's' as int, 'h' as int] }
  function URL(): seq<byte> { ['u' as int, 'r' as int, 'l' as int] }

  // ---------------------------------------------------------------- all parameters

  /** The first parameter is the first of the pieces between the ampersands. */
  lemma FirstPiece(t: seq<byte>)
    ensures Split(t, AMP) == [Head(t)] + if Tail(t).Some? then Split(Tail(t).value, AMP) else []
  {
    CutIsReadBack(t, AMP);
    SplitWithoutSeparator(Head(t), AMP);
    if Tail(t).Some? {
      hide Split, Find;
      SplitAcross(Head(t), Tail(t).value, AMP);
      assert t == Head(t) + [AMP] + Tail(t).value;
    } else {
      assert t == Head(t);
    }
  }

  // ---------------------------------------------------------------- the selection loop

  /** A parameter with a value, and where in the buffer the value is. */
  datatype Field = Field(key: seq<byte>, value: seq<byte>, at: nat)

  function FieldOf(piece: seq<byte>, at: nat): Field
    requires Value(piece).Some?
  {
    Field(Key(piece), Value(piece).value, at + |Key(piece)| + 1)
  }

  /** The parameters before the first one without a value, when the first piece is at `at`. */
  function Taken(pieces: seq<seq<byte>>, at: nat): seq<Field>
    decreases |pieces|
  {
    if pieces == [] || Value(pieces[0]) == None then []
    else [FieldOf(pieces[0], at)] + Taken(pieces[1..], at + |pieces[0]| + 1)
  }

  /** The fields of the query string `t` at `start` that the loop gets to see. */
  function Fields(t: seq<byte>, start: nat): seq<Field> {
    Taken(Split(t, AMP), start)
  }

  /** The last field with this key. */
  function Last(fields: seq<Field>, key: seq<byte>): Option<Field>
    decreases |fields|
  {
    if fields == [] then None
    else if fields[|fields| - 1].key == key then Some(fields[|fields| - 1])
    else Last(fields[..|fields| - 1], key)
  }

  function Where(f: Option<Field>): Option<nat> {
    if f.Some? then Some(f.value.at) else None
  }

  /** The three pointers of the loop, after these fields. */
  predicate Chosen(fields: seq<Field>, id: Option<nat>, hash: Option<nat>, url: Option<nat>) {
    id == Where(Last(fields, ID())) && hash == Where(Last(fields, HASH())) && url == Where(Last(fields, URL()))
  }

  lemma ChosenStep(fields: seq<Field>, f: Field, id: Option<nat>, hash: Option<nat>, url: Option<nat>)
    requires Chosen(fields, id, hash, url)
    ensures Chosen(fields + [f],
                   if f.key == ID() then Some(f.at) else id,
                   if f.key == HASH() then Some(f.at) else hash,
                   if f.key == URL() then Some(f.at) else url)
  {
    LastStep(fields, f, ID());
    LastStep(fields, f, HASH());
    LastStep(fields, f, URL());
    hide Last;
  }

  lemma NamesDiffer()
    ensures ID() != HASH() && ID() != URL() && HASH() != URL()
  {
    assert ID()[0] != HASH()[0] && ID()[0] != URL()[0] && HASH()[0] != URL()[0];
  }

  ghost predicate IsLastAt(fields: seq<Field>, key: seq<byte>, i: int) {
    0 <= i < |fields| && fields[i].key == key && forall j | i < j < |fields| :: fields[j].key != key
  }

  /** The one found has the key, and none after it does. */
  lemma {:induction false} LastIsThere(fields: seq<Field>, key: seq<byte>)
    ensures Last(fields, key) == None <==> forall i | 0 <= i < |fields| :: fields[i].key != key
    ensures Last(fields, key).Some? ==> exists i :: IsLastAt(fields, key, i) && fields[i] == Last(fields, key).value
    decreases |fields|
  {
    if fields != [] {
      var front := fields[..|fields| - 1];
      LastIsThere(front, key);
      if fields[|fields| - 1].key == key {
        assert IsLastAt(fields, key, |fields| - 1);
      } else if Last(fields, key).Some? {
        var i :| IsLastAt(front, key, i) && front[i] == Last(fields, key).value;
        assert forall j | i < j < |front| :: fields[j] == front[j];
        assert IsLastAt(fields, key, i);
      }
    }
  }

  lemma LastIsOne(fields: seq<Field>, key: seq<byte>)
    ensures var f := Last(fields, key); f.Some? ==> f.value in fields && f.value.key == key
  {
    LastIsThere(fields, key);
  }

  lemma LastStep(fields: seq<Field>, f: Field, key: seq<byte>)
    ensures Last(fields + [f], key) == if f.key == key then Some(f) else Last(fields, key)
  {
    assert (fields + [f])[..|fields|] == fields;
  }

  /** Fields are taken exactly up to the first parameter that has no value. */
  lemma {:induction false} TakenAreTheParams(pieces: seq<seq<byte>>, at: nat)
    ensures var fs := Taken(pieces, at);
      && |fs| <= |pieces|
      && (forall i | 0 <= i < |fs| :: Key(pieces[i]) == fs[i].key && Value(pieces[i]) == Some(fs[i].value))
      && (|fs| < |pieces| ==> Value(pieces[|fs|]) == None)
    decreases |pieces|
  {
    if pieces != [] {
      hide Value, Key;
      TakenAreTheParams(pieces[1..], at + |pieces[0]| + 1);
    }
  }

  function Extent(pieces: seq<seq<byte>>): nat
    decreases |pieces|
  {
    if pieces == [] then 0 else |pieces[0]| + 1 + Extent(pieces[1..])
  }

  /** The values lie one after the other, from `low` to `high`, with a terminator each. */
  ghost predicate Apart(fs: seq<Field>, low: int, high: int) {
    && (forall i | 0 <= i < |fs| :: low < fs[i].at && fs[i].at + |fs[i].value| < high)
    && (forall i, j | 0 <= i < j < |fs| :: fs[i].at + |fs[i].value| < fs[j].at)
  }

  lemma {:induction false} TakenAreApart(pieces: seq<seq<byte>>, at: nat)
    ensures Apart(Taken(pieces, at), at, at + Extent(pieces))
    decreases |pieces|
  {
    if pieces != [] {
      TakenAreApart(pieces[1..], at + |pieces[0]| + 1);
      hide Key, Value, Find;
    }
  }

  // ---------------------------------------------------------------- one parameter in the buffer

  lemma ParsedKey(b: seq<byte>, at: nat, t: seq<byte>)
    requires at + |t| < |b| && Holds(b, at, t)
    ensures Holds(Parsed(b, at, t), at, Key(Head(t)))
  {
    hide Find;
  }

  lemma ParsedValue(b: seq<byte>, at: nat, t: seq<byte>)
    requires at + |t| < |b| && Holds(b, at, t) && Value(Head(t)).Some?
    ensures var f := FieldOf(Head(t), at);
      Holds(Parsed(b, at, t), f.at, f.value) && f.at + |f.value| == at + |Head(t)|
  {
    hide Find;
  }

  /** Parsing one parameter leaves what comes before and after it alone. */
  lemma ParsedElsewhere(b: seq<byte>, at: nat, t: seq<byte>)
    requires at + |t| < |b|
    ensures var now := Parsed(b, at, t);
      && (forall i | 0 <= i < at :: now[i] == b[i])
      && (forall i | at + |Head(t)| < i < |b| :: now[i] == b[i])
  {
    hide Find, Head;
  }

  lemma TailIsHeld(b: seq<byte>, at: nat, t: seq<byte>)
    requires at + |t| < |b| && Holds(b, at, t) && Tail(t).Some?
    ensures Holds(b, at + |Head(t)| + 1, Tail(t).value)
  {
    HoldsSuffix(b, at, t, Find(t, AMP) + 1);
    hide Find, Holds;
  }

  lemma ParsedRest(b: seq<byte>, at: nat, t: seq<byte>)
    requires at + |t| < |b| && Holds(b, at, t) && Tail(t).Some?
    ensures Holds(Parsed(b, at, t), at + |Head(t)| + 1, Tail(t).value)
  {
    hide *;
    ParsedElsewhere(b, at, t);
    TailIsHeld(b, at, t);
    HoldsStill(b, Parsed(b, at, t), at + |Head(t)| + 1, Tail(t).value);
  }

  /** What the loop compares and stores for one parameter. */
  lemma KeyIsRead(b: seq<byte>, at: nat, t: seq<byte>)
    requires at + |t| < |b| && Holds(b, at, t)
    ensures Terminated(Parsed(b, at, t), at) && Text(Parsed(b, at, t), at) == Key(Head(t))
    ensures Value(Head(t)).Some? ==>
      FieldOf(Head(t), at).key == Key(Head(t)) && FieldOf(Head(t), at).at == at + |Key(Head(t))| + 1
  {
    ParsedKey(b, at, t);
    HoldsIsText(Parsed(b, at, t), at, Key(Head(t)));
  }

  // ---------------------------------------------------------------- the fields in the buffer

  /** The buffers agree outside `low..high`. */
  ghost predicate SameOutside(before: seq<byte>, now: seq<byte>, low: int, high: int) {
    && |now| == |before|
    && (forall i | 0 <= i < low && i < |now| :: now[i] == before[i])
    && (forall i | 0 <= i && high < i < |now| :: now[i] == before[i])
  }

  lemma ParsedOutside(before: seq<byte>, b: seq<byte>, start: nat, high: int, at: nat, t: seq<byte>)
    requires SameOutside(before, b, start, high) && start <= at && at + |t| <= high && at + |t| < |b|
    ensures SameOutside(before, Parsed(b, at, t), start, high)
  {
    ParsedElsewhere(b, at, t);
    hide Head, Parsed;
  }

  /** Every field is in the buffer, and ends before `limit`. */
  ghost predicate AllHeld(b: seq<byte>, fields: seq<Field>, limit: int) {
    forall i | 0 <= i < |fields| ::
      Holds(b, fields[i].at, fields[i].value) && fields[i].at + |fields[i].value| < limit
  }

  lemma AllHeldStill(b: seq<byte>, now: seq<byte>, fields: seq<Field>, low: int, limit: int)
    requires AllHeld(b, fields, low) && low <= limit
    requires |now| == |b| && forall i | 0 <= i < low && i < |b| :: now[i] == b[i]
    ensures AllHeld(now, fields, limit)
  {
  }

  lemma AllHeldOneMore(b: seq<byte>, fields: seq<Field>, f: Field, limit: int)
    requires AllHeld(b, fields, limit) && Holds(b, f.at, f.value) && f.at + |f.value| < limit
    ensures AllHeld(b, fields + [f], limit)
  {
    hide Holds;
  }

  lemma HeldAfter(b: seq<byte>, at: nat, t: seq<byte>, done: seq<Field>)
    requires at + |t| < |b| && Holds(b, at, t) && AllHeld(b, done, at)
    ensures AllHeld(Parsed(b, at, t), done, at + |Head(t)| + 1)
    ensures Value(Head(t)).Some? ==> AllHeld(Parsed(b, at, t), done + [FieldOf(Head(t), at)], at + |Head(t)| + 1)
  {
    hide *;
    ParsedElsewhere(b, at, t);
    AllHeldStill(b, Parsed(b, at, t), done, at, at + |Head(t)| + 1);
    if Value(Head(t)).Some? {
      ParsedValue(b, at, t);
      AllHeldOneMore(Parsed(b, at, t), done, FieldOf(Head(t), at), at + |Head(t)| + 1);
    }
  }

  lemma TakenStep(p: seq<byte>, rest: seq<seq<byte>>, at: nat)
    ensures Taken([p] + rest, at)
         == if Value(p).Some? then [FieldOf(p, at)] + Taken(rest, at + |p| + 1) else []
  {
    assert ([p] + rest)[1..] == rest;
  }

  /** The fields in what is left of the query string. */
  function TakenFrom(query: Option<nat>, t: Option<seq<byte>>): seq<Field> {
    if query.Some? && t.Some? then Taken(Split(t.value, AMP), query.value) else []
  }

  lemma TakenFromStep(at: nat, t: seq<byte>)
    ensures TakenFrom(Some(at), Some(t))
         == if Value(Head(t)).Some? then [FieldOf(Head(t), at)] + TakenFrom(Next(at, t), Tail(t)) else []
  {
    hide Split, Find, Head, Value, Key;
    FirstPiece(t);
    TakenStep(Head(t), if Tail(t).Some? then Split(Tail(t).value, AMP) else [], at);
  }

  /** In the middle of the selection: of the fields `all`, those in `done` have been cut out
      of the buffer, and the string `t` at `query` has not been looked at. */
  ghost predicate Selecting(before: seq<byte>, now: seq<byte>, start: nat, high: int,
                            all: seq<Field>, done: seq<Field>, query: Option<nat>, t: Option<seq<byte>>)
  {
    && SameOutside(before, now, start, high)
    && all == done + TakenFrom(query, t)
    && AllHeld(now, done, if query.Some? then query.value else high + 1)
    && (query.Some? <==> t.Some?)
    && (query.Some? ==>
         && start <= query.value && query.value + |t.value| == high < |now|
         && Holds(now, query.value, t.value))
  }

  lemma Regroup(done: seq<Field>, f: Field, rest: seq<Field>)
    ensures done + ([f] + rest) == (done + [f]) + rest
  {
  }

  /** The next parameter has a value: it becomes the next field. */
  lemma TakeOne(before: seq<byte>, now: seq<byte>, start: nat, high: int,
                all: seq<Field>, done: seq<Field>, at: nat, t: seq<byte>)
    requires Selecting(before, now, start, high, all, done, Some(at), Some(t)) && at + |t| < |now|
    requires Value(Head(t)).Some?
    ensures Selecting(before, Parsed(now, at, t), start, high, all,
                      done + [FieldOf(Head(t), at)], Next(at, t), Tail(t))
  {
    hide Parsed, Holds, Value, Head, Tail, TakenFrom, SameOutside, AllHeld, FieldOf;
    ParsedOutside(before, now, start, high, at, t);
    TakenFromStep(at, t);
    HeldAfter(now, at, t, done);
    if Tail(t).Some? { ParsedRest(now, at, t); }
    Regroup(done, FieldOf(Head(t), at), TakenFrom(Next(at, t), Tail(t)));
  }

  /** The next parameter has no value: the selection is over. */
  lemma StopHere(before: seq<byte>, now: seq<byte>, start: nat, high: int,
                 all: seq<Field>, done: seq<Field>, at: nat, t: seq<byte>)
    requires Selecting(before, now, start, high, all, done, Some(at), Some(t)) && at + |t| < |now|
    requires Value(Head(t)) == None
    ensures all == done && AllHeld(Parsed(now, at, t), all, high + 1)
    ensures SameOutside(before, Parsed(now, at, t), start, high)
  {
    hide Parsed, Holds, Value, Head, Tail, TakenFrom, SameOutside, AllHeld;
    ParsedOutside(before, now, start, high, at, t);
    TakenFromStep(at, t);
    HeldAfter(now, at, t, done);
    assert done + [] == done;
    AllHeldStill(Parsed(now, at, t), Parsed(now, at, t), done, at + |Head(t)| + 1, high + 1);
  }

  /** The query has become NULL. */
  lemma NoneLeft(before: seq<byte>, now: seq<byte>, start: nat, high: int, all: seq<Field>, done: seq<Field>)
    requires Selecting(before, now, start, high, all, done, None, None)
    ensures all == done && AllHeld(now, all, high + 1) && SameOutside(before, now, start, high)
  {
    hide SameOutside, AllHeld;
    assert done + [] == done;
  }

  lemma StartSelecting(b: seq<byte>, at: nat)
    requires Terminated(b, at)
    ensures var t := Text(b, at); Selecting(b, b, at, at + |t|, Fields(t, at), [], Some(at), Some(t))
    ensures Chosen([], None, None, None)
  {
    var t := Text(b, at);
    HoldsText(b, at);
    hide Taken, Split, Holds;
    assert [] + Fields(t, at) == Fields(t, at);
  }

  lemma ReadyToParse(before: seq<byte>, now: seq<byte>, start: nat, high: int,
                     all: seq<Field>, done: seq<Field>, query: Option<nat>, t: Option<seq<byte>>)
    requires Selecting(before, now, start, high, all, done, query, t)
    ensures query.Some? <==> t.Some?
    ensures query.Some? ==>
      && Terminated(now, query.value) && Text(now, query.value) == t.value
      && Holds(now, query.value, t.value) && query.value + |t.value| < |now|
  {
    if query.Some? { HoldsIsText(now, query.value, t.value); }
  }

  /** The field that the string left over at `query` starts with. */
  function NextField(query: Option<nat>, rest: Option<seq<byte>>): Option<Field> {
    if query.Some? && rest.Some? && Value(Head(rest.value)).Some? then Some(FieldOf(Head(rest.value), query.value))
    else None
  }

  /** The condition of the selection loop: one call of `parse_query_param`. */
  method ParseNext(b: array<byte>, query: Option<nat>, ghost before: seq<byte>, ghost start: nat, ghost high: int,
                   ghost all: seq<Field>, ghost done: seq<Field>, ghost rest: Option<seq<byte>>)
    returns (length: int, next: Option<nat>, key: nat, value: Option<nat>)
    requires Selecting(before, b[..], start, high, all, done, query, rest)
    modifies b
    ensures length >= 0 <==> NextField(query, rest).Some?
    ensures length >= 0 ==> rest.Some?
    ensures length < 0 ==> all == done && AllHeld(b[..], all, high + 1) && SameOutside(before, b[..], start, high)
    ensures length >= 0 ==>
      var f := NextField(query, rest).value;
      && Selecting(before, b[..], start, high, all, done + [f], next, Tail(rest.value))
      && Terminated(b[..], key) && Text(b[..], key) == f.key && value == Some(f.at)
  {
    hide Selecting, Terminated, Text, Holds, Parsed, Head, Tail, Value, Key, FieldOf, AllHeld, SameOutside, Find;
    ghost var now := b[..];
    ReadyToParse(before, now, start, high, all, done, query, rest);
    length, next, key, value := ParseQueryParam(b, query);
    if query == None {
      NoneLeft(before, now, start, high, all, done);
    } else if length < 0 {
      StopHere(before, now, start, high, all, done, query.value, rest.value);
    } else {
      TakeOne(before, now, start, high, all, done, query.value, rest.value);
      KeyIsRead(now, query.value, rest.value);
    }
  }

  /** The `strcmp` chain in the body of the loop. */
  method Keep(b: array<byte>, key: nat, value: Option<nat>, id: Option<nat>, hash: Option<nat>, url: Option<nat>,
              ghost done: seq<Field>, ghost f: Field)
    returns (newId: Option<nat>, newHash: Option<nat>, newUrl: Option<nat>)
    requires Terminated(b[..], key) && Text(b[..], key) == f.key && value == Some(f.at)
    requires Chosen(done, id, hash, url)
    ensures Chosen(done + [f], newId, newHash, newUrl)
  {
    ChosenStep(done, f, id, hash, url);
    NamesDiffer();
    hide *;
    newId, newHash, newUrl := id, hash, url;
    if Text(b[..], key) == ID() {
      newId := value;
    } else if Text(b[..], key) == HASH() {
      newHash := value;
    } else if Text(b[..], key) == URL() {
      newUrl := value;
    }
  }

  /** The loop that picks the parameters out of the query string at `start`. */
  method SelectParams(b: array<byte>, start: nat) returns (id: Option<nat>, hash: Option<nat>, url: Option<nat>)
    requires Terminated(b[..], start)
    modifies b
    ensures var t := Text(old(b[..]), start);
      var fields := Fields(t, start);
      && Chosen(fields, id, hash, url)
      && AllHeld(b[..], fields, start + |t| + 1)
      && SameOutside(old(b[..]), b[..], start, start + |t|)
  {
    hide *;
    ghost var before, t := b[..], Text(b[..], start);
    ghost var all, done, rest := Fields(t, start), [], Some(t);
    StartSelecting(before, start);
    var query: Option<nat> := Some(start);
    id, hash, url := None, None, None;
    while true
      invariant Selecting(before, b[..], start, start + |t|, all, done, query, rest)
      invariant Chosen(done, id, hash, url)
      decreases rest.Some?, if rest.Some? then |rest.value| else 0
    {
      ghost var f := NextField(query, rest);
      var length, next, key, value := ParseNext(b, query, before, start, start + |t|, all, done, rest);
      if length < 0 {
        break;
      }
      query := next;
      id, hash, url := Keep(b, key, value, id, hash, url, done, f.value);
      done, rest := done + [f.value], Tail(rest.value);
    }
  }
}
