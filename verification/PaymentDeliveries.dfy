/** What the requests do to the payment blobs, and what `finish` delivers. */
module PaymentDeliveries {
  import opened Wrappers
  import opened GoldSecret
  import opened Payments
  import opened PaymentTheorems
  import opened PaymentBalances

  // ---------------------------------------------------------------- what `finish` delivers

  /** The days that a notice gives to account `w`. */
  function PaidDays(q: Request, b: Blob, w: User): int
    requires q.Ipn?
  {
    if b.goldtype == Gift && w == b.recipient then q.days
    else if (b.goldtype == Onetime || b.goldtype == Autorenew) && w == b.account then q.days
    else 0
  }

  function PaidCreddits(q: Request, b: Blob, w: User): int
    requires q.Ipn?
  {
    if b.goldtype == Creddits && w == b.account then q.months else 0
  }

  /** What a notice has given to `w`, read off its position. */
  ghost predicate IpnInv(q: Request, pc: Pc, given: int, raised: int, w: User)
    requires q.Ipn?
  {
    match pc
    case Paid(b, _) => given == PaidDays(q, b, w) && raised == PaidCreddits(q, b, w)
    case Finished(b, _) => given == PaidDays(q, b, w) && raised == PaidCreddits(q, b, w)
    case _ => given == 0 && raised == 0
  }

  lemma IpnActEffect(q: Request, db: Db, pc: Pc, given: int, raised: int, w: User)
    requires q.Ipn? && IpnAct(q, db, pc).Some? && IpnInv(q, pc, given, raised, w)
    requires pc.Start? || pc.Taken? || pc.Paid?
    ensures var (db', pc') := IpnAct(q, db, pc).value;
      IpnInv(q, pc', given + Lookup(db'.days, w) - Lookup(db.days, w),
             raised + Lookup(db'.balance, w) - Lookup(db.balance, w), w)
  {
    if pc.Taken? {
      LookupOfAdd(db.days, pc.blob.account, q.days, w);
      LookupOfAdd(db.days, pc.blob.recipient, q.days, w);
      LookupOfAdd(db.balance, pc.blob.account, q.months, w);
    }
    hide Lookup, Add;
  }

  /** In every interleaving: a notice gives its days to the recipient of a gift, or to the
      account of a onetime or autorenew purchase, and its months to the creddits of the
      account that bought creddits; to nobody else, and nothing before it is paid. */
  lemma {:induction false} IpnDelivers(g: Setting, labels: seq<nat>, r: nat, w: User)
    requires Run(g, labels).Some? && r < |g.qs| && g.qs[r].Ipn?
    ensures IpnInv(g.qs[r], Run(g, labels).value.pcs[r],
                   DaysGiven(g, labels, r, w), -Deducted(g, labels, r, w), w)
    decreases |labels|
  {
    if labels != [] {
      var before := labels[..|labels| - 1];
      IpnDelivers(g, before, r, w);
      if labels[|labels| - 1] == r {
        var s := Run(g, before).value;
        IpnActEffect(g.qs[r], s.db, s.pcs[r], DaysGiven(g, before, r, w), -Deducted(g, before, r, w), w);
      }
    }
  }

  // ---------------------------------------------------------------- which blob it is

  /** The blob that a request has been handed, or has read to update it. */
  function BlobOf(pc: Pc): Option<Blob> {
    match pc
    case Taken(_, b) => Some(b)
    case InLock(_, b) => Some(b)
    case Checked(_, b) => Some(b)
    case Delivered(_, b, _) => Some(b)
    case Paid(b, _) => Some(b)
    case HoldsCopy(b) => Some(b)
    case Finished(b, _) => Some(b)
    case Failed(b) => b
    case _ => None
  }

  /** After `k` steps this blob was stored for the token of the request; to be handed out it
      was still initialized, and it comes locked; to be updated it belonged to the user. */
  ghost predicate FoundAt(g: Setting, labels: seq<nat>, r: nat, b: Blob, k: nat)
    requires Run(g, labels).Some? && k < |labels| && r < |g.qs|
  {
    var blobs, q := After(g, labels, k).db.blobs, g.qs[r];
    && labels[k] == r && q.token in blobs
    && if q.Update? then b == blobs[q.token] && b.account == q.user
       else blobs[q.token].status == Initialized && b == blobs[q.token].(status := Locked)
  }

  lemma ActFindsBlob(q: Request, db: Db, pc: Pc, r: nat)
    requires Act(q, db, pc, r).Some? && BlobOf(Act(q, db, pc, r).value.1).Some?
    ensures var b := BlobOf(Act(q, db, pc, r).value.1).value;
      || BlobOf(pc) == Some(b)
      || (q.token in db.blobs
          && if q.Update? then b == db.blobs[q.token] && b.account == q.user
             else db.blobs[q.token].status == Initialized && b == db.blobs[q.token].(status := Locked))
  {
  }

  /** In every interleaving a request works on a blob that it found in the cache under its
      own token, unchanged but for its status. */
  lemma {:induction false} BlobWasFound(g: Setting, labels: seq<nat>, r: nat) returns (k: nat)
    requires Run(g, labels).Some? && r < |g.qs| && BlobOf(Run(g, labels).value.pcs[r]).Some?
    ensures k < |labels| && FoundAt(g, labels, r, BlobOf(Run(g, labels).value.pcs[r]).value, k)
    decreases |labels|
  {
    k := 0;
    if labels != [] {
      var n, q := |labels| - 1, labels[|labels| - 1];
      var before := labels[..n];
      var s := Run(g, before).value;
      if q == r { ActFindsBlob(g.qs[r], s.db, s.pcs[r], r); }
      hide Act, BlobOf;
      if BlobOf(s.pcs[r]) == BlobOf(Run(g, labels).value.pcs[r]) {
        k := BlobWasFound(g, before, r);
        AfterPrefix(g, labels, n, k);
      } else {
        k := n;
      }
    }
  }

  /** What a statement leaves in the cache: a hand-out marks the blob locked, the end of a
      purchase marks the request's blob processed, an update stores its copy with the new
      signature, and nothing else is written. */
  lemma BlobWrites(q: Request, db: Db, pc: Pc, r: nat)
    requires Act(q, db, pc, r).Some?
    ensures var blobs' := Act(q, db, pc, r).value.0.blobs;
      if ((q.Spend? && pc.Loaded?) || (q.Ipn? && pc.Start?)) && q.token in db.blobs
         && db.blobs[q.token].status == Initialized
      then blobs' == db.blobs[q.token := db.blobs[q.token].(status := Locked)]
      else if (q.Spend? || q.Ipn?) && pc.Paid? then blobs' == db.blobs[q.token := pc.blob.(status := Processed)]
      else if q.Update? && pc.HoldsCopy? then blobs' == db.blobs[q.token := pc.blob.(signed := q.signed)]
      else blobs' == db.blobs
  {
  }

  // ---------------------------------------------------------------- when a spend is refused

  /** A step of a spend ends it without a delivery exactly for these reasons. */
  lemma SpendRefusedIff(g: Setting, labels: seq<nat>, r: nat)
    requires Run(g, labels).Some? && r < |g.qs| && g.qs[r].Spend?
    requires Step(g.qs, Run(g, labels).value, r).Some?
    ensures var s, q := Run(g, labels).value, g.qs[r];
      Step(g.qs, s, r).value.pcs[r] == Failed(None) <==>
        match s.pcs[r]
        case Start => q.months < 1
        case Loaded(_) => q.token !in s.db.blobs || s.db.blobs[q.token].status != Initialized
        case Taken(_, b) => b.account != q.user || b.goldtype == Creddits || b.goldtype == Autorenew
                            || (b.goldtype == Gift && !q.recipientOk)
        case InLock(copied, _) => !q.employee && copied < q.months
        case Checked(_, _) => q.delivery == RaisesBefore
        case _ => false
  {
    hide Run;
  }

  // ---------------------------------------------------------------- what a request waits for

  predicate IsOver(pc: Pc) { pc.Finished? || pc.Failed? || pc.Refunded? }

  /** The position fits the kind of request. */
  predicate Fits(q: Request, pc: Pc) {
    match q
    case Spend(_, _, _, _, _, _, _) => !pc.HoldsCopy? && !pc.Refunded?
    case Ipn(_, _, _) => pc.Start? || pc.Taken? || pc.Paid? || pc.Finished? || pc.Failed?
    case Update(_, _, _) => pc.Start? || pc.HoldsCopy? || pc.Finished? || pc.Failed?
    case Refund(_, _, _) => pc.Start? || pc.Refunded?
  }

  /** Every creddit lock belongs to a spend of that user that is inside the lock. */
  ghost predicate LocksInv(g: Setting, s: State) {
    && |s.pcs| == |g.qs| && (forall r | 0 <= r < |g.qs| :: Fits(g.qs[r], s.pcs[r]))
    && forall u | u in s.db.locks :: HeldBy(g, s, u, s.db.locks[u])
  }

  ghost predicate HeldBy(g: Setting, s: State, u: User, r: nat) {
    r < |g.qs| && r < |s.pcs| && g.qs[r].Spend? && g.qs[r].user == u && InSection(s.pcs[r])
  }

  lemma ActKeepsLocks(q: Request, db: Db, pc: Pc, r: nat)
    requires Act(q, db, pc, r).Some? && Fits(q, pc)
    ensures var (db', pc') := Act(q, db, pc, r).value;
      && Fits(q, pc')
      && (forall u | u in db'.locks ::
            || (u in db.locks && db'.locks[u] == db.locks[u]
                && (q.Spend? && q.user == u ==> !InSection(pc) || InSection(pc')))
            || (db'.locks[u] == r && q.Spend? && q.user == u && InSection(pc')))
  {
  }

  lemma {:induction false} LocksAlwaysHeld(g: Setting, labels: seq<nat>)
    requires Run(g, labels).Some?
    ensures LocksInv(g, Run(g, labels).value)
    decreases |labels|
  {
    if labels != [] {
      var before, r := labels[..|labels| - 1], labels[|labels| - 1];
      LocksAlwaysHeld(g, before);
      var s, t := Run(g, before).value, Run(g, labels).value;
      ActKeepsLocks(g.qs[r], s.db, s.pcs[r], r);
      hide Act, Fits, InSection;
      forall u | u in t.db.locks ensures HeldBy(g, t, u, t.db.locks[u]) {
        if u in s.db.locks { assert HeldBy(g, s, u, s.db.locks[u]); }
      }
    }
  }

  /** In every interleaving a request that is not over can go on, unless it is a spend that
      waits for another spend of the same user to leave the lock. */
  lemma WaitsIff(g: Setting, labels: seq<nat>, r: nat)
    requires Run(g, labels).Some? && r < |g.qs|
    ensures var s := Run(g, labels).value;
      Step(g.qs, s, r) == None <==>
        || IsOver(s.pcs[r])
        || (g.qs[r].Spend? && s.pcs[r].Taken? && Acceptable(g.qs[r], s.pcs[r].blob)
            && exists q: nat :: q != r && HeldBy(g, s, g.qs[r].user, q))
  {
    LocksAlwaysHeld(g, labels);
    LockInvAlways(g, labels);
    var s := Run(g, labels).value;
    ActIsBlocked(g.qs[r], s.db, s.pcs[r], r);
    hide Act, Run, CopyLag, Acceptable;
    if g.qs[r].Spend? && g.qs[r].user in s.db.locks {
      assert HeldBy(g, s, g.qs[r].user, s.db.locks[g.qs[r].user]);
    }
  }

  lemma ActIsBlocked(q: Request, db: Db, pc: Pc, r: nat)
    requires Fits(q, pc)
    ensures Act(q, db, pc, r) == None <==>
      IsOver(pc) || (q.Spend? && pc.Taken? && Acceptable(q, pc.blob) && q.user in db.locks)
  {
  }
}
