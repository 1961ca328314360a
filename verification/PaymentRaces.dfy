/** Runs in which the unlocked reads of `update_blob` and of the spender's own account do
    harm, and one in which a refund does. */
module PaymentRaces {
  import opened Wrappers
  import opened GoldSecret
  import opened Payments
  import opened PaymentTheorems

  // ---------------------------------------------------------------- two spends at once

  const ALICE: User := "alice"

  function Open(t: GoldType): Blob {
    Blob(Initialized, t, ALICE, "", false)
  }

  function Held(t: GoldType): Blob {
    Open(t).(status := Locked)
  }

  function Two(a: Blob, b: Blob): map<Token, Blob> {
    map["a" := a, "b" := b]
  }

  function Balance(n: int): map<User, int> {
    map[ALICE := n]
  }

  /** The days the spender has got: none for gift codes. */
  function Days(t: GoldType, n: int): map<User, int> {
    if t == Code || n == 0 then map[] else map[ALICE := n]
  }

  /** Two spends of five months by one user, each with a blob of its own, and the refund of
      the five creddits the user has. */
  function TwoSpends(reload: bool): seq<Request> {
    [Spend(ALICE, "a", 5, false, true, Works, reload), Spend(ALICE, "b", 5, false, true, Works, reload),
     Refund(ALICE, "c", 5)]
  }

  function FromFive(t: GoldType, reload: bool): Setting {
    Setting(TwoSpends(reload), Two(Open(t), Open(t)), Balance(5))
  }

  /** The run of the two spends, from a balance of five, has reached this state. */
  ghost predicate At(t: GoldType, reload: bool, labels: seq<nat>, db: Db, first: Pc, second: Pc) {
    var s := Run(FromFive(t, reload), labels);
    s.Some? && s.value.db == db && s.value.pcs[0] == first && s.value.pcs[1] == second && s.value.pcs[2] == Start
  }

  lemma StepByAct(g: Setting, labels: seq<nat>, s: State, r: nat, db: Db, pc: Pc)
    requires Run(g, labels) == Some(s) && r < |g.qs| && r < |s.pcs| && Act(g.qs[r], s.db, s.pcs[r], r) == Some((db, pc))
    ensures Run(g, labels + [r]) == Some(State(db, s.pcs[r := pc]))
  {
    assert (labels + [r])[..|labels|] == labels;
    hide Act;
  }

  lemma MoveFirst(t: GoldType, reload: bool, labels: seq<nat>, db: Db, pc: Pc, other: Pc, db': Db, pc': Pc)
      returns (next: seq<nat>)
    requires At(t, reload, labels, db, pc, other) && Act(TwoSpends(reload)[0], db, pc, 0) == Some((db', pc'))
    ensures At(t, reload, next, db', pc', other)
  {
    next := labels + [0];
    assert |TwoSpends(reload)| == 3 && FromFive(t, reload).qs == TwoSpends(reload);
    hide Run, Step, Act, TwoSpends, FromFive;
    StepByAct(FromFive(t, reload), labels, Run(FromFive(t, reload), labels).value, 0, db', pc');
  }

  lemma MoveSecond(t: GoldType, reload: bool, labels: seq<nat>, db: Db, pc: Pc, other: Pc, db': Db, pc': Pc)
      returns (next: seq<nat>)
    requires At(t, reload, labels, db, other, pc) && Act(TwoSpends(reload)[1], db, pc, 1) == Some((db', pc'))
    ensures At(t, reload, next, db', other, pc')
  {
    next := labels + [1];
    assert |TwoSpends(reload)| == 3 && FromFive(t, reload).qs == TwoSpends(reload);
    hide Run, Step, Act, TwoSpends, FromFive;
    StepByAct(FromFive(t, reload), labels, Run(FromFive(t, reload), labels).value, 1, db', pc');
  }

  /** Updates of the small maps of this run, spelled out. */
  lemma MapUpdates()
    ensures forall x, y, z :: Two(x, y)["a" := z] == Two(z, y)
    ensures forall x, y, z :: Two(x, y)["b" := z] == Two(x, z)
    ensures forall n, m :: Balance(n)[ALICE := m] == Balance(m)
    ensures forall r: nat :: map[ALICE := r] - {ALICE} == map[]
  {
  }

  lemma NothingDoneYet(t: GoldType, reload: bool)
    ensures At(t, reload, [], Db(Two(Open(t), Open(t)), Balance(5), map[], map[], map[]), Start, Start)
  {
    assert Run(FromFive(t, reload), []) == Some(Init(FromFive(t, reload)));
  }

  /** Both spends load a balance of five; the first one then spends it. */
  lemma FirstSpendGoesThrough(t: GoldType, reload: bool) returns (labels: seq<nat>)
    requires t == Onetime || t == Code
    ensures At(t, reload, labels, Db(Two(Held(t), Open(t)), Balance(0), Days(t, 155), map[], map[]),
        Paid(Held(t), 0), Loaded(5))
  {
    NothingDoneYet(t, reload);
    MapUpdates();
    hide At;
    var none, five := map[], Balance(5);
    var blobs, taken := Two(Open(t), Open(t)), Two(Held(t), Open(t));
    var db0, db1 := Db(blobs, five, none, none, none), Db(taken, five, none, none, none);
    var db2, db3 := Db(taken, five, none, map[ALICE := 0], none), Db(taken, five, Days(t, 155), map[ALICE := 0], none);
    labels := MoveFirst(t, reload, [], db0, Start, Start, db0, Loaded(5));
    labels := MoveSecond(t, reload, labels, db0, Start, Loaded(5), db0, Loaded(5));
    labels := MoveFirst(t, reload, labels, db0, Loaded(5), Loaded(5), db1, Taken(5, Held(t)));
    labels := MoveFirst(t, reload, labels, db1, Taken(5, Held(t)), Loaded(5), db2, InLock(5, Held(t)));
    labels := MoveFirst(t, reload, labels, db2, InLock(5, Held(t)), Loaded(5), db2, Checked(5, Held(t)));
    labels := MoveFirst(t, reload, labels, db2, Checked(5, Held(t)), Loaded(5), db3, Delivered(5, Held(t), 0));
    labels := MoveFirst(t, reload, labels, db3, Delivered(5, Held(t), 0), Loaded(5),
      Db(taken, Balance(0), Days(t, 155), none, none), Paid(Held(t), 0));
  }

  /** The tables once the second spend has its blob, with these days and locks. */
  function Later(t: GoldType, balance: int, days: int, locks: map<User, nat>): Db {
    Db(Two(Held(t), Held(t)), Balance(balance), Days(t, days), locks, map[])
  }

  lemma SecondDelivers(t: GoldType, reload: bool)
    requires t == Onetime || t == Code
    ensures Act(TwoSpends(reload)[1], Later(t, 0, 155, map[ALICE := 1]), Checked(5, Held(t)), 1)
         == Some((Later(t, 0, 310, map[ALICE := 1]), Delivered(if reload then 0 else 5, Held(t), 0)))
  {
    if t == Onetime { assert Days(t, 155)[ALICE := 310] == Days(t, 310); }
  }

  lemma SecondCommits(t: GoldType, reload: bool, copy: int)
    ensures Act(TwoSpends(reload)[1], Later(t, 0, 310, map[ALICE := 1]), Delivered(copy, Held(t), 0), 1)
         == Some((Later(t, copy - 5, 310, map[]), Paid(Held(t), 0 - copy)))
  {
    MapUpdates();
  }

  lemma SecondTakesItsBlob(t: GoldType, reload: bool)
    requires t == Onetime || t == Code
    ensures var db := Db(Two(Held(t), Open(t)), Balance(0), Days(t, 155), map[], map[]);
      Act(TwoSpends(reload)[1], db, Loaded(5), 1) == Some((Later(t, 0, 155, map[]), Taken(5, Held(t))))
  {
    MapUpdates();
  }

  lemma SecondLocks(t: GoldType, reload: bool)
    requires t == Onetime || t == Code
    ensures var db := Later(t, 0, 155, map[ALICE := 1]);
      && Act(TwoSpends(reload)[1], Later(t, 0, 155, map[]), Taken(5, Held(t)), 1) == Some((db, InLock(5, Held(t))))
      && Act(TwoSpends(reload)[1], db, InLock(5, Held(t)), 1) == Some((db, Checked(5, Held(t))))
  {
  }

  /** The second passes its check against the copy it loaded. */
  lemma SecondIsChecked(t: GoldType, reload: bool) returns (labels: seq<nat>)
    requires t == Onetime || t == Code
    ensures At(t, reload, labels, Later(t, 0, 155, map[ALICE := 1]), Paid(Held(t), 0), Checked(5, Held(t)))
  {
    hide *;
    labels := FirstSpendGoesThrough(t, reload);
    var db0 := Db(Two(Held(t), Open(t)), Balance(0), Days(t, 155), map[], map[]);
    var db1, db2 := Later(t, 0, 155, map[]), Later(t, 0, 155, map[ALICE := 1]);
    SecondTakesItsBlob(t, reload);
    SecondLocks(t, reload);
    labels := MoveSecond(t, reload, labels, db0, Loaded(5), Paid(Held(t), 0), db1, Taken(5, Held(t)));
    labels := MoveSecond(t, reload, labels, db1, Taken(5, Held(t)), Paid(Held(t), 0), db2, InLock(5, Held(t)));
    labels := MoveSecond(t, reload, labels, db2, InLock(5, Held(t)), Paid(Held(t), 0), db2, Checked(5, Held(t)));
  }

  /** When the delivery reloads the account the commit overdraws it; when it does not, the
      commit writes the stale copy back, and ten months have been had for five creddits.
      This is so for gold and for gift codes. */
  lemma ConcurrentSpends(t: GoldType, reload: bool) returns (labels: seq<nat>)
    requires t == Onetime || t == Code
    ensures At(t, reload, labels, Later(t, if reload then -5 else 0, 310, map[]),
               Paid(Held(t), 0), Paid(Held(t), if reload then 0 else -5))
  {
    hide *;
    labels := SecondIsChecked(t, reload);
    var copy := if reload then 0 else 5;
    SecondDelivers(t, reload);
    labels := MoveSecond(t, reload, labels, Later(t, 0, 155, map[ALICE := 1]), Checked(5, Held(t)), Paid(Held(t), 0),
      Later(t, 0, 310, map[ALICE := 1]), Delivered(copy, Held(t), 0));
    SecondCommits(t, reload, copy);
    labels := MoveSecond(t, reload, labels, Later(t, 0, 310, map[ALICE := 1]), Delivered(copy, Held(t), 0),
        Paid(Held(t), 0),
      Later(t, copy - 5, 310, map[]), Paid(Held(t), 0 - copy));
  }

  /** Five creddits bought, spent and refunded leave a debt of five, with no other spend
      beyond loading the account. */
  lemma RefundAfterSpend(t: GoldType, reload: bool) returns (labels: seq<nat>)
    requires t == Onetime || t == Code
    ensures Run(FromFive(t, reload), labels).Some?
    ensures var s := Run(FromFive(t, reload), labels).value;
      s.db.balance == Balance(-5) && s.pcs == [Paid(Held(t), 0), Loaded(5), Refunded]
  {
    var before := FirstSpendGoesThrough(t, reload);
    labels := before + [2];
    assert labels[..|labels| - 1] == before;
    var s := Run(FromFive(t, reload), before).value;
    MapUpdates();
    assert s.pcs == [s.pcs[0], s.pcs[1], s.pcs[2]];
    hide Run;
  }

  // ---------------------------------------------------------------- a blob handed out twice

  /** A blob edit and two deliveries of one payment. */
  function EditAndTwoPayments(): seq<Request> {
    [Update(ALICE, "a", true), Ipn("a", 1, 31), Ipn("a", 1, 31)]
  }

  function Edited(): Setting {
    Setting(EditAndTwoPayments(), map["a" := Open(Onetime)], map[])
  }

  /** With the blob as given. */
  function DbWith(b: Blob): Db {
    Db(map["a" := b], map[], map[], map[], map[])
  }

  lemma StoreBlob(b: Blob, c: Blob)
    ensures SetBlob(DbWith(b), "a", c) == DbWith(c)
  {
    assert map["a" := b]["a" := c] == map["a" := c];
  }

  lemma WriteCopy(b: Blob, copy: Blob)
    ensures var c := copy.(signed := true);
      UpdateAct(EditAndTwoPayments()[0], DbWith(b), HoldsCopy(copy)) == Some((DbWith(c), Finished(copy, 0)))
  {
    StoreBlob(b, copy.(signed := true));
  }

  /** The run of the three has reached this state, with the blob handed out `n` times. */
  ghost predicate HandedOut(labels: seq<nat>, b: Blob, edit: Pc, first: Pc, second: Pc, n: nat) {
    && Run(Edited(), labels) == Some(State(DbWith(b), [edit, first, second]))
    && HandOuts(Edited(), labels, "a") == n
  }

  /** One more step of the run, whatever it does. */
  lemma OneMoreStep(labels: seq<nat>, s: State, n: nat, r: nat, t: State, handed: bool) returns (next: seq<nat>)
    requires Run(Edited(), labels) == Some(s)
    requires HandOuts(Edited(), labels, "a") == n
    requires Step(EditAndTwoPayments(), s, r) == Some(t) && (handed <==> HandsOut(EditAndTwoPayments(), s, r, "a"))
    ensures next == labels + [r] && Run(Edited(), next) == Some(t)
    ensures HandOuts(Edited(), next, "a") == n + if handed then 1 else 0
  {
    next := labels + [r];
    assert next[..|next| - 1] == labels;
    hide Step, HandsOut, EditAndTwoPayments, Edited;
  }

  lemma EditStep(b: Blob, pc: Pc, first: Pc, second: Pc, c: Blob, pc': Pc)
    requires UpdateAct(EditAndTwoPayments()[0], DbWith(b), pc) == Some((DbWith(c), pc'))
    ensures var s := State(DbWith(b), [pc, first, second]);
      && Step(EditAndTwoPayments(), s, 0) == Some(State(DbWith(c), [pc', first, second]))
      && !HandsOut(EditAndTwoPayments(), s, 0, "a")
  {
    assert [pc, first, second][0 := pc'] == [pc', first, second];
    hide UpdateAct, DbWith;
  }

  lemma PaymentAct(b: Blob, r: nat)
    requires (r == 1 || r == 2) && b.status == Initialized
    ensures var c := b.(status := Locked);
      Act(EditAndTwoPayments()[r], DbWith(b), Start, r) == Some((DbWith(c), Taken(0, c)))
    ensures GetBlob(DbWith(b), "a").Some?
  {
    StoreBlob(b, b.(status := Locked));
    hide SetBlob;
  }

  lemma PaymentStep(b: Blob, pcs: seq<Pc>, r: nat)
    requires |pcs| == 3 && (r == 1 || r == 2) && pcs[r] == Start && b.status == Initialized
    ensures var s, c := State(DbWith(b), pcs), b.(status := Locked);
      && Step(EditAndTwoPayments(), s, r) == Some(State(DbWith(c), pcs[r := Taken(0, c)]))
      && HandsOut(EditAndTwoPayments(), s, r, "a")
  {
    PaymentAct(b, r);
    hide Act, GetBlob, DbWith;
  }

  lemma MoveEdit(labels: seq<nat>, b: Blob, pc: Pc, first: Pc, second: Pc, n: nat, c: Blob, pc': Pc)
    returns (next: seq<nat>)
    requires HandedOut(labels, b, pc, first, second, n)
    requires UpdateAct(EditAndTwoPayments()[0], DbWith(b), pc) == Some((DbWith(c), pc'))
    ensures next == labels + [0] && HandedOut(next, c, pc', first, second, n)
  {
    EditStep(b, pc, first, second, c, pc');
    hide Step, HandsOut, EditAndTwoPayments, Edited, DbWith, Run, HandOuts;
    next := OneMoreStep(labels, State(DbWith(b), [pc, first, second]), n, 0,
        State(DbWith(c), [pc', first, second]), false);
  }

  lemma MovePayment(labels: seq<nat>, b: Blob, pcs: seq<Pc>, n: nat, r: nat) returns (next: seq<nat>)
    requires |pcs| == 3 && HandedOut(labels, b, pcs[0], pcs[1], pcs[2], n)
    requires (r == 1 || r == 2) && pcs[r] == Start && b.status == Initialized
    ensures next == labels + [r]
    ensures var c := b.(status := Locked); var after := pcs[r := Taken(0, c)];
      HandedOut(next, c, after[0], after[1], after[2], n + 1)
  {
    PaymentStep(b, pcs, r);
    hide Step, HandsOut, EditAndTwoPayments, Edited, DbWith, Run, HandOuts;
    var c := b.(status := Locked);
    var after := pcs[r := Taken(0, c)];
    assert pcs == [pcs[0], pcs[1], pcs[2]] && after == [after[0], after[1], after[2]];
    next := OneMoreStep(labels, State(DbWith(b), pcs), n, r, State(DbWith(c), after), true);
  }

  lemma NoneHandedOut()
    ensures HandedOut([], Open(Onetime), Start, Start, Start, 0)
    ensures UpdateAct(EditAndTwoPayments()[0], DbWith(Open(Onetime)), Start)
        == Some((DbWith(Open(Onetime)), HoldsCopy(Open(Onetime))))
    ensures Open(Onetime).status == Initialized
  {
    assert Init(Edited()) == State(DbWith(Open(Onetime)), [Start, Start, Start]);
  }

  /** An edit that reads the blob before it is locked and writes it afterwards makes it
      available again, and both deliveries are honoured. */
  lemma StaleEditHandsOutTwice() returns (labels: seq<nat>, b: Blob, edit: Pc, first: Pc, second: Pc)
    ensures HandedOut(labels, b, edit, first, second, 2) && |labels| == 4
  {
    hide *;
    var open, held, signed := Open(Onetime), Open(Onetime).(status := Locked), Open(Onetime).(signed := true);
    NoneHandedOut();
    labels := MoveEdit([], open, Start, Start, Start, 0, open, HoldsCopy(open));
    labels := MovePayment(labels, open, [HoldsCopy(open), Start, Start], 0, 1);
    WriteCopy(held, open);
    labels := MoveEdit(labels, held, HoldsCopy(open), Taken(0, held), Start, 1, signed, Finished(open, 0));
    labels := MovePayment(labels, signed, [Finished(open, 0), Taken(0, held), Start], 1, 2);
    b, edit, first, second := signed.(status := Locked), Finished(open, 0), Taken(0, held),
        Taken(0, signed.(status := Locked));
  }
}
