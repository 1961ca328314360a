/** Safety of payment blobs and creddit spending over all interleavings. */
module PaymentTheorems {
  import opened Wrappers
  import opened GoldSecret
  import opened Payments

  // ---------------------------------------------------------------- prefixes of runs

  lemma {:induction false} PrefixRuns(g: Setting, labels: seq<nat>, k: nat)
    requires Run(g, labels).Some? && k <= |labels|
    ensures Run(g, labels[..k]).Some?
    decreases |labels|
  {
    if k < |labels| {
      var before := labels[..|labels| - 1];
      PrefixRuns(g, before, k);
      assert before[..k] == labels[..k];
    } else {
      assert labels[..k] == labels;
    }
  }

  // ---------------------------------------------------------------- blob status

  /** An `update_blob` write whose copy no longer has the stored status. */
  ghost predicate StaleWrite(qs: seq<Request>, s: State, r: nat) {
    && r < |qs| && r < |s.pcs| && qs[r].Update? && s.pcs[r].HoldsCopy?
    && qs[r].token in s.db.blobs && s.db.blobs[qs[r].token].status != s.pcs[r].blob.status
  }

  /** No update wrote back a status that had changed since it was read. */
  ghost predicate Clean(g: Setting, labels: seq<nat>)
    decreases |labels|
  {
    labels == [] ||
    (var before := Run(g, labels[..|labels| - 1]);
     Clean(g, labels[..|labels| - 1]) && before.Some? && !StaleWrite(g.qs, before.value, labels[|labels| - 1]))
  }

  /** The request has been handed a blob and has not marked it processed. */
  predicate Holding(pc: Pc) {
    pc.Taken? || pc.InLock? || pc.Checked? || pc.Delivered? || pc.Paid?
  }

  ghost predicate Holds(qs: seq<Request>, s: State, r: nat, token: Token) {
    r < |qs| && r < |s.pcs| && qs[r].token == token && Holding(s.pcs[r])
  }

  ghost predicate BlobInv(qs: seq<Request>, s: State) {
    && |s.pcs| == |qs|
    && (forall r, token | Holds(qs, s, r, token) :: token in s.db.blobs && s.db.blobs[token].status == Locked)
    && (forall r, q, token | Holds(qs, s, r, token) && Holds(qs, s, q, token) :: r == q)
    && (forall r | 0 <= r < |qs| && s.pcs[r].HoldsCopy? :: qs[r].Update? && qs[r].token in s.db.blobs)
    && (forall r | 0 <= r < |qs| && qs[r].Update? :: !Holding(s.pcs[r]))
  }

  /** `get_blob` hands `token` to request `r` in this step. */
  ghost predicate HandsOut(qs: seq<Request>, s: State, r: nat, token: Token) {
    && r < |qs| && r < |s.pcs| && qs[r].token == token && GetBlob(s.db, token).Some?
    && ((qs[r].Spend? && s.pcs[r].Loaded?) || (qs[r].Ipn? && s.pcs[r].Start?))
  }

  /** In a clean step a status stays, or is locked by the one hand-out, or is marked processed by its holder. */
  ghost predicate StatusMove(qs: seq<Request>, s: State, r: nat, t: State, token: Token)
    requires token in s.db.blobs && token in t.db.blobs
  {
    var before, after := s.db.blobs[token].status, t.db.blobs[token].status;
    || (before == after && !HandsOut(qs, s, r, token))
    || (before == Initialized && after == Locked && HandsOut(qs, s, r, token))
    || (before == Locked && after == Processed && Holds(qs, s, r, token) && !HandsOut(qs, s, r, token))
  }

  /** What one statement of a request does to the status of `token`. */
  lemma ActStatus(q: Request, db: Db, pc: Pc, r: nat, token: Token)
    requires Act(q, db, pc, r).Some? && token in db.blobs
    ensures token in Act(q, db, pc, r).value.0.blobs
    ensures var (db', pc') := Act(q, db, pc, r).value;
      var before, after := db.blobs[token].status, db'.blobs[token].status;
      var hands := q.token == token && GetBlob(db, token).Some? && ((q.Spend? && pc.Loaded?) || (q.Ipn? && pc.Start?));
      && (hands ==> before == Initialized && after == Locked && pc'.Taken?)
      && (!hands && q.token == token && !q.Update? && pc.Paid? ==> after == Processed)
      && (!hands && q.token == token && q.Update? && pc.HoldsCopy? ==> after == pc.blob.status)
      && (!hands && !(q.token == token && ((pc.Paid? && !q.Update?) || (q.Update? && pc.HoldsCopy?)))
          ==> after == before)
  {
  }

  /** A request holds a blob only from its hand-out until it is marked processed. */
  lemma ActHolding(q: Request, db: Db, pc: Pc, r: nat)
    requires Act(q, db, pc, r).Some? && (q.Update? ==> !Holding(pc))
    ensures var (db', pc') := Act(q, db, pc, r).value;
      && (Holding(pc') ==> !q.Update?)
      && (Holding(pc') ==>
            Holding(pc) || (GetBlob(db, q.token).Some? && ((q.Spend? && pc.Loaded?) || (q.Ipn? && pc.Start?))))
      && (pc.Paid? ==> !Holding(pc'))
      && (pc'.HoldsCopy? ==> q.Update? && q.token in db.blobs)
  {
  }

  lemma CleanStepStatus(qs: seq<Request>, s: State, r: nat, token: Token)
    requires BlobInv(qs, s) && Step(qs, s, r).Some? && !StaleWrite(qs, s, r) && token in s.db.blobs
    ensures token in Step(qs, s, r).value.db.blobs && StatusMove(qs, s, r, Step(qs, s, r).value, token)
  {
    ActStatus(qs[r], s.db, s.pcs[r], r, token);
    hide Act;
    assert Holding(s.pcs[r]) ==> Holds(qs, s, r, qs[r].token);
  }

  /** The step leaves other requests alone and only ever starts holding through a hand-out. */
  lemma StepHolding(qs: seq<Request>, s: State, r: nat, q: nat, token: Token)
    requires BlobInv(qs, s) && Step(qs, s, r).Some? && Holds(qs, Step(qs, s, r).value, q, token)
    ensures (Holds(qs, s, q, token) && !(q == r && s.pcs[r].Paid?)) || (q == r && HandsOut(qs, s, r, token))
  {
    ActHolding(qs[r], s.db, s.pcs[r], r);
    hide Act;
  }

  lemma HeldStaysLocked(qs: seq<Request>, s: State, r: nat, q: nat, token: Token)
    requires BlobInv(qs, s) && Step(qs, s, r).Some? && !StaleWrite(qs, s, r)
    requires Holds(qs, Step(qs, s, r).value, q, token)
    ensures var t := Step(qs, s, r).value; token in t.db.blobs && t.db.blobs[token].status == Locked
  {
    StepHolding(qs, s, r, q, token);
    ActStatus(qs[r], s.db, s.pcs[r], r, token);
    hide Act;
    assert Holding(s.pcs[r]) ==> Holds(qs, s, r, qs[r].token);
  }

  lemma OneHolder(qs: seq<Request>, s: State, r: nat, p: nat, q: nat, token: Token)
    requires BlobInv(qs, s) && Step(qs, s, r).Some?
    requires Holds(qs, Step(qs, s, r).value, p, token) && Holds(qs, Step(qs, s, r).value, q, token)
    ensures p == q
  {
    StepHolding(qs, s, r, p, token);
    StepHolding(qs, s, r, q, token);
    hide Act, Step;
  }

  lemma StepKeepsBlobInv(qs: seq<Request>, s: State, r: nat)
    requires BlobInv(qs, s) && Step(qs, s, r).Some? && !StaleWrite(qs, s, r)
    ensures BlobInv(qs, Step(qs, s, r).value)
  {
    var t := Step(qs, s, r).value;
    ActHolding(qs[r], s.db, s.pcs[r], r);
    forall q, token | Holds(qs, t, q, token)
      ensures token in t.db.blobs && t.db.blobs[token].status == Locked
    {
      HeldStaysLocked(qs, s, r, q, token);
    }
    forall p, q, token | Holds(qs, t, p, token) && Holds(qs, t, q, token)
      ensures p == q
    {
      OneHolder(qs, s, r, p, q, token);
    }
    forall q | 0 <= q < |qs| && t.pcs[q].HoldsCopy?
      ensures qs[q].Update? && qs[q].token in t.db.blobs
    {
      ActStatus(qs[r], s.db, s.pcs[r], r, qs[q].token);
    }
    hide Act;
  }

  lemma {:induction false} BlobInvAlways(g: Setting, labels: seq<nat>)
    requires Run(g, labels).Some? && Clean(g, labels)
    ensures BlobInv(g.qs, Run(g, labels).value)
    decreases |labels|
  {
    if labels != [] {
      BlobInvAlways(g, labels[..|labels| - 1]);
      StepKeepsBlobInv(g.qs, Run(g, labels[..|labels| - 1]).value, labels[|labels| - 1]);
    }
  }

  /** How often `get_blob` handed out `token` in the run. */
  ghost function HandOuts(g: Setting, labels: seq<nat>, token: Token): nat
    requires Run(g, labels).Some?
    decreases |labels|
  {
    if labels == [] then 0
    else
      var before := labels[..|labels| - 1];
      HandOuts(g, before, token)
        + if HandsOut(g.qs, Run(g, before).value, labels[|labels| - 1], token) then 1 else 0
  }

  /** The step makes `token` available a second time. */
  ghost predicate Reopens(s: State, t: State, token: Token) {
    && token in s.db.blobs && s.db.blobs[token].status != Initialized
    && token in t.db.blobs && t.db.blobs[token].status == Initialized
  }

  ghost function Reopenings(g: Setting, labels: seq<nat>, token: Token): nat
    requires Run(g, labels).Some?
    decreases |labels|
  {
    if labels == [] then 0
    else
      var before := labels[..|labels| - 1];
      Reopenings(g, before, token)
        + if Reopens(Run(g, before).value, Run(g, labels).value, token) then 1 else 0
  }

  /** Without stale writes a blob is handed out at most once, in every interleaving, and
      not at all while it is still initialized. */
  lemma {:induction false} HandedOutAtMostOnce(
    g: Setting, labels: seq<nat>, token: Token)
    requires Run(g, labels).Some? && Clean(g, labels)
    requires token in g.blobs && g.blobs[token].status == Initialized
    ensures var s := Run(g, labels).value;
      token in s.db.blobs
      && HandOuts(g, labels, token) == if s.db.blobs[token].status == Initialized then 0 else 1
    decreases |labels|
  {
    if labels != [] {
      var before, r := labels[..|labels| - 1], labels[|labels| - 1];
      HandedOutAtMostOnce(g, before, token);
      BlobInvAlways(g, before);
      CleanStepStatus(g.qs, Run(g, before).value, r, token);
    }
  }

  /** With stale writes allowed, a second hand-out needs a write that re-opened the blob;
      such a write is exactly a stale `update_blob` write of an initialized copy. */
  lemma {:induction false} HandOutsAreBoundedByReopenings(
    g: Setting, labels: seq<nat>, token: Token)
    requires Run(g, labels).Some? && token in g.blobs && g.blobs[token].status == Initialized
    ensures var s := Run(g, labels).value;
      token in s.db.blobs
      && HandOuts(g, labels, token) + (if s.db.blobs[token].status == Initialized then 1 else 0)
         <= 1 + Reopenings(g, labels, token)
    decreases |labels|
  {
    if labels != [] {
      var before, r := labels[..|labels| - 1], labels[|labels| - 1];
      HandOutsAreBoundedByReopenings(g, before, token);
      StepOpening(g.qs, Run(g, before).value, r, token);
    }
  }

  lemma StepOpening(qs: seq<Request>, s: State, r: nat, token: Token)
    requires |s.pcs| == |qs| && Step(qs, s, r).Some? && token in s.db.blobs
    ensures token in Step(qs, s, r).value.db.blobs
    ensures HandsOut(qs, s, r, token) ==>
      s.db.blobs[token].status == Initialized && Step(qs, s, r).value.db.blobs[token].status == Locked
  {
    ActStatus(qs[r], s.db, s.pcs[r], r, token);
    hide Act;
  }

  lemma ReopeningIsStaleUpdate(qs: seq<Request>, s: State, r: nat, token: Token)
    requires |s.pcs| == |qs| && Step(qs, s, r).Some? && token in s.db.blobs
    ensures Reopens(s, Step(qs, s, r).value, token)
       <==> StaleWrite(qs, s, r) && qs[r].token == token && s.pcs[r].blob.status == Initialized
  {
    ActStatus(qs[r], s.db, s.pcs[r], r, token);
    hide Act;
  }

  // ---------------------------------------------------------------- what a spend delivers and costs

  /** The change in account `w`'s gold days made by the steps of request `r`. */
  ghost function DaysGiven(g: Setting, labels: seq<nat>, r: nat, w: User): int
    requires Run(g, labels).Some?
    decreases |labels|
  {
    if labels == [] then 0
    else
      var before := labels[..|labels| - 1];
      DaysGiven(g, before, r, w)
        + if labels[|labels| - 1] != r then 0
          else Lookup(Run(g, labels).value.db.days, w) - Lookup(Run(g, before).value.db.days, w)
  }

  /** The creddits that the steps of request `r` took from account `w`. */
  ghost function Deducted(g: Setting, labels: seq<nat>, r: nat, w: User): int
    requires Run(g, labels).Some?
    decreases |labels|
  {
    if labels == [] then 0
    else
      var before := labels[..|labels| - 1];
      Deducted(g, before, r, w)
        + if labels[|labels| - 1] != r then 0
          else Lookup(Run(g, before).value.db.balance, w) - Lookup(Run(g, labels).value.db.balance, w)
  }

  /** A spend that has entered the lock pays for a blob of its own user, of a type that can
      be paid in creddits, and for at least a month. */
  predicate Entitled(q: Request, b: Blob)
    requires q.Spend?
  {
    && b.account == q.user && q.months >= 1
    && (b.goldtype == Code || b.goldtype == Onetime || (b.goldtype == Gift && q.recipientOk))
  }

  /** 31 days per month for the recipient of a gift, and for the spender otherwise; a code
      gives days to nobody yet. */
  function OwedDays(q: Request, b: Blob, w: User): int
    requires q.Spend?
  {
    if (b.goldtype == Gift && w == b.recipient) || (b.goldtype == Onetime && w == q.user) then 31 * q.months else 0
  }

  /** What a spend has given to `w` and taken from `w`, read off its position. */
  ghost predicate SpendInv(q: Request, pc: Pc, given: int, deducted: int, w: User)
    requires q.Spend?
  {
    match pc
    case InLock(_, b) => Entitled(q, b) && given == 0 && deducted == 0
    case Checked(_, b) => Entitled(q, b) && given == 0 && deducted == 0
    case Delivered(_, b, _) => Entitled(q, b) && given == OwedDays(q, b, w) && deducted == 0
    case Paid(b, overwritten) => Entitled(q, b) && given == OwedDays(q, b, w) && deducted == Cost(q, overwritten, w)
    case Finished(b, overwritten) => Entitled(q, b) && given == OwedDays(q, b, w) && deducted == Cost(q, overwritten, w)
    case Failed(Some(b)) => Entitled(q, b) && given == OwedDays(q, b, w) && deducted == 0
    case Failed(None) => given == 0 && deducted == 0
    case _ => (pc.Start? || q.months >= 1) && given == 0 && deducted == 0
  }

  function Cost(q: Request, overwritten: int, w: User): int
    requires q.Spend?
  {
    if q.employee || w != q.user then 0 else q.months + overwritten
  }

  lemma LookupOfAdd(m: map<User, int>, who: User, n: int, w: User)
    ensures Lookup(Add(m, who, n), w) == Lookup(m, w) + if w == who then n else 0
  {
  }

  lemma DeliveryEffect(q: Request, db: Db, pc: Pc, r: nat, w: User)
    requires q.Spend? && SpendAct(q, db, pc, r).Some? && pc.Checked? && Entitled(q, pc.blob)
    ensures var (db', pc') := SpendAct(q, db, pc, r).value;
      && SpendInv(q, pc', Lookup(db'.days, w) - Lookup(db.days, w), 0, w)
      && db'.balance == db.balance
  {
    LookupOfAdd(db.days, SpendTarget(q, pc.blob), q.months * 31, w);
    hide Lookup, Add;
  }

  lemma SpendActEffect(q: Request, db: Db, pc: Pc, r: nat, given: int, deducted: int, w: User)
    requires q.Spend? && SpendAct(q, db, pc, r).Some? && SpendInv(q, pc, given, deducted, w)
    ensures var (db', pc') := SpendAct(q, db, pc, r).value;
      SpendInv(q, pc', given + Lookup(db'.days, w) - Lookup(db.days, w),
               deducted + Lookup(db.balance, w) - Lookup(db'.balance, w), w)
  {
    if pc.Checked? {
      DeliveryEffect(q, db, pc, r, w);
    } else {
      hide Add, OwedDays;
    }
  }

  /** In every interleaving: a spend that went through gave its target 31 days per
      creddit and nobody else anything, and lowered the balance by its months plus what
      its commit overwrote; a spend that failed took nothing, and gave nothing either
      unless the exception came after its delivery. */
  lemma {:induction false} SpendDeliversAndDeducts(
    g: Setting, labels: seq<nat>, r: nat, w: User)
    requires Run(g, labels).Some? && r < |g.qs| && g.qs[r].Spend?
    ensures SpendInv(g.qs[r], Run(g, labels).value.pcs[r],
                     DaysGiven(g, labels, r, w), Deducted(g, labels, r, w), w)
    decreases |labels|
  {
    if labels != [] {
      var before := labels[..|labels| - 1];
      SpendDeliversAndDeducts(g, before, r, w);
      if labels[|labels| - 1] == r {
        var s := Run(g, before).value;
        SpendActEffect(g.qs[r], s.db, s.pcs[r], r, DaysGiven(g, before, r, w),
                       Deducted(g, before, r, w), w);
      }
    }
  }

  // ---------------------------------------------------------------- the creddits lock

  predicate InSection(pc: Pc) {
    pc.InLock? || pc.Checked? || pc.Delivered?
  }

  /** The lock of a user is held by the one spend inside the section.  A spend that
      reloaded the account has a copy that lags behind by what was bought, less what was refunded, since. */
  ghost predicate LockInv(qs: seq<Request>, s: State) {
    && |s.pcs| == |qs|
    && (forall r | 0 <= r < |qs| && InSection(s.pcs[r]) ::
          qs[r].Spend? && qs[r].user in s.db.locks && s.db.locks[qs[r].user] == r)
    && (forall r | 0 <= r < |qs| && s.pcs[r].Delivered? && qs[r].Spend? :: CopyLag(qs[r], s.db, s.pcs[r]))
  }

  ghost predicate CopyLag(q: Request, db: Db, pc: Pc)
    requires q.Spend? && pc.Delivered?
  {
    q.refreshes ==>
      Lookup(db.balance, q.user) - pc.snapshot == Lookup(db.bought, q.user) - pc.boughtAt
  }

  lemma ActLocks(q: Request, db: Db, pc: Pc, r: nat)
    requires Act(q, db, pc, r).Some? && (InSection(pc) ==> q.Spend? && q.user in db.locks && db.locks[q.user] == r)
    ensures var (db', pc') := Act(q, db, pc, r).value;
      && (InSection(pc') ==> q.Spend? && q.user in db'.locks && db'.locks[q.user] == r)
      && (forall u | u in db.locks && db.locks[u] != r :: u in db'.locks && db'.locks[u] == db.locks[u])
      && (q.Spend? && pc'.Delivered? ==> CopyLag(q, db', pc'))
  {
  }

  /** Other requests move a balance only by buying or refunding creddits, or from inside the section. */
  lemma ActBalance(q: Request, db: Db, pc: Pc, r: nat, u: User)
    requires Act(q, db, pc, r).Some? && !(q.Spend? && q.user == u && pc.Delivered?)
    ensures var (db', pc') := Act(q, db, pc, r).value;
      Lookup(db'.balance, u) - Lookup(db.balance, u) == Lookup(db'.bought, u) - Lookup(db.bought, u)
  {
  }

  lemma StepKeepsLockInv(qs: seq<Request>, s: State, r: nat)
    requires LockInv(qs, s) && Step(qs, s, r).Some?
    ensures LockInv(qs, Step(qs, s, r).value)
  {
    ActLocks(qs[r], s.db, s.pcs[r], r);
    forall q | 0 <= q < |qs| && q != r && s.pcs[q].Delivered?
      ensures CopyLag(qs[q], Step(qs, s, r).value.db, s.pcs[q])
    {
      assert InSection(s.pcs[q]);
      if s.pcs[r].Delivered? { assert InSection(s.pcs[r]); }
      ActBalance(qs[r], s.db, s.pcs[r], r, qs[q].user);
    }
    hide Act;
  }

  lemma {:induction false} LockInvAlways(g: Setting, labels: seq<nat>)
    requires Run(g, labels).Some?
    ensures LockInv(g.qs, Run(g, labels).value)
    decreases |labels|
  {
    if labels != [] {
      LockInvAlways(g, labels[..|labels| - 1]);
      StepKeepsLockInv(g.qs, Run(g, labels[..|labels| - 1]).value, labels[|labels| - 1]);
    }
  }

  /** The commit of a spend that reloaded the account lowers the stored balance by its months
      plus exactly the creddits bought less those refunded since the reload: it costs its
      months, no more and no less, if and only if those were as many. */
  lemma ReloadedCommitIsExactIffNetUnchanged(
    g: Setting, labels: seq<nat>, r: nat)
    requires Run(g, labels).Some? && r < |g.qs| && g.qs[r].Spend? && g.qs[r].refreshes && !g.qs[r].employee
    requires Run(g, labels).value.pcs[r].Delivered?
    ensures var s := Run(g, labels).value; Step(g.qs, s, r).Some?
    ensures var s := Run(g, labels).value; var t, u := Step(g.qs, s, r).value, g.qs[r].user;
      var cost := Lookup(s.db.balance, u) - Lookup(t.db.balance, u);
      && cost == g.qs[r].months + (Lookup(s.db.bought, u) - s.pcs[r].boughtAt)
      && (cost == g.qs[r].months <==> Lookup(s.db.bought, u) == s.pcs[r].boughtAt)
  {
    LockInvAlways(g, labels);
  }
}
