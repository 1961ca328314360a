/** What a single delivery does, case by case, and when a transaction gets its row. */
module GoldCases {
  import opened Wrappers
  import opened GoldSecret
  import opened GoldPrices
  import opened GoldWebhook
  import opened GoldLedger

  /** The changes that this purchase, made `n` times, makes to account `u`. */
  function BoughtDays(p: Purchase, n: int, u: User): int
    requires ValidPurchase(p)
  {
    if p.goldtype == Gift then (if Some(u) == p.recipient then n * DaysOf(p) else 0)
    else if p.goldtype == Creddits || u != p.buyer then 0
    else n * DaysOf(p)
  }

  function CodeOf(p: Purchase, txn: string): string {
    if p.passthrough != "" then p.passthrough else txn
  }

  function PrintedSecret(p: Purchase, txn: string): string {
    Secret(p.goldtype, if p.recipient.Some? then p.recipient.value else "", CodeOf(p, txn))
  }

  /** Somebody has already paid for this subscription. */
  ghost predicate PaidBefore(s: Store, subscrId: Option<string>) {
    exists txn :: txn in s.rows && s.rows[txn].subscrId == subscrId
  }

  /** The row that the purchase leaves behind in full. */
  ghost function PaidRow(s: Store, p: Purchase, txn: string): Row
    requires ValidPurchase(p)
  {
    Row(Processed, DaysOf(p), p.subscrId,
        if p.goldtype == Autorenew && PaidBefore(s, p.subscrId) then None else Some(PrintedSecret(p, txn)),
        Some(p.buyer))
  }

  /** The balances of `t` are those of `s` plus this. */
  ghost predicate Moved(s: Store, t: Store, p: Purchase, n: int, creddits: int)
    requires ValidPurchase(p)
  {
    && (forall u :: Lookup(t.days, u) == Lookup(s.days, u) + BoughtDays(p, n, u))
    && (forall u :: Lookup(t.creddits, u) == Lookup(s.creddits, u)
                      + if p.goldtype == Creddits && u == p.buyer then creddits else 0)
  }

  lemma PayMoves(s: Store, p: Purchase, n: int, days: int, creddits: int)
    requires ValidPurchase(p) && days == n * DaysOf(p)
    ensures Moved(s, Pay(s, p.goldtype, Beneficiary(p), days, creddits), p, n, creddits)
  {
    var t := Pay(s, p.goldtype, Beneficiary(p), days, creddits);
    forall u ensures Lookup(t.days, u) == Lookup(s.days, u) + BoughtDays(p, n, u) {
      LookupOfAdd(s.days, Beneficiary(p), days, u);
    }
    forall u
      ensures Lookup(t.creddits, u)
           == Lookup(s.creddits, u) + if p.goldtype == Creddits && u == p.buyer then creddits else 0
    {
      LookupOfAdd(s.creddits, p.buyer, creddits, u);
    }
  }

  /** A success for a transaction without a row applies the purchase if and only if it comes
      direct or its blob is there. */
  lemma SuccessIsApplied(s: Store, d: Delivery, p: Purchase)
    requires ValidPurchase(p) && d.event == Succeeded && IsSuccessFor(d, p) && d.webhook.txn !in s.rows
    ensures var (t, o) := Process(s, d.event, d.webhook, d.blob); var txn := d.webhook.txn;
      if !p.viaBlob || d.blob.Some? then
        o == Done && t.rows == s.rows[txn := PaidRow(s, p, txn)] && Moved(s, t, p, 1, p.months)
      else t == s && o == Forbidden
  {
    PayMoves(s, p, 1, DaysOf(p), p.months);
  }

  /** A refund of a processed purchase, or its cancellation at any time, takes back exactly the
      days, or the creddits they stand for, if and only if the row can be read: it names a
      subscription, or its secret was kept and is not that of a gift with a dash in it. */
  lemma ReversalTakesBackIff(s: Store, d: Delivery, p: Purchase, code: string)
    requires ValidPurchase(p) && d.webhook.txn in s.rows
    requires var r := s.rows[d.webhook.txn];
      && r.days == DaysOf(p) && r.subscrId == p.subscrId && r.account == Some(p.buyer)
      && (r.secret == None
          || r.secret == Some(Secret(p.goldtype, if p.recipient.Some? then p.recipient.value else "", code)))
    requires d.event == Cancelled || (d.event == Refunded && s.rows[d.webhook.txn].status == Processed)
    ensures var (t, o) := Process(s, d.event, d.webhook, d.blob); var txn := d.webhook.txn; var r := s.rows[txn];
      if p.subscrId.Some? || (r.secret.Some? && (p.goldtype == Gift ==> '-' !in p.recipient.value && '-' !in code)) then
        && o == Done && t.rows == s.rows[txn := r.(status := Reversed)]
        && Moved(s, t, p, -1, -(DaysOf(p) / 31))
      else t == s && o == Crashed
  {
    if p.goldtype == Gift {
      GiftSecretRoundTripIff(p.recipient.value, code);
    } else {
      BuyerSecretRoundTrip(p.goldtype, code);
    }
    PayMoves(s, p, -1, -DaysOf(p), -(DaysOf(p) / 31));
    hide Secret, Read, Moved;
  }

  /** Everything else leaves the tables alone: a success for a row that is not reversed, a
      refund of a row that is not processed, and the other events. */
  lemma OthersChangeNothing(s: Store, d: Delivery)
    requires
      || (d.event == Succeeded && d.webhook.txn in s.rows && s.rows[d.webhook.txn].status != Reversed)
      || (d.event == Refunded && (d.webhook.txn in s.rows ==> s.rows[d.webhook.txn].status != Processed))
      || (d.event == Cancelled && d.webhook.txn !in s.rows)
      || d.event == Noop || d.event == Failed || d.event == DeletedSubscription
    ensures Process(s, d.event, d.webhook, d.blob).0 == s
  {
  }

  /** A gift code that has been paid gets a row of its own, unclaimed, with its days, and no
      account changes. */
  lemma CodeIsSold(s: Store, d: Delivery)
    requires d.event == Succeeded && d.webhook.txn !in s.rows && DaysFromMonths(d.webhook.months).Some?
    requires if d.webhook.passthrough == "" then d.webhook.goldtype == Some(Code)
             else d.blob.Some? && d.blob.value.goldtype == Code
    ensures var (t, o) := Process(s, d.event, d.webhook, d.blob); var txn := d.webhook.txn;
      && o == Done && t.days == s.days && t.creddits == s.creddits
      && t.rows.Keys == s.rows.Keys + {txn} && (forall other | other in s.rows :: t.rows[other] == s.rows[other])
      && t.rows[txn].status == Unclaimed && t.rows[txn].account == None
      && t.rows[txn].days == DaysFromMonths(d.webhook.months).value
  {
  }

  // ---------------------------------------------------------------- over runs

  /** Delivery `i` is a success for `txn` that can be carried out. */
  ghost predicate CanApply(ds: seq<Delivery>, txn: string, p: Purchase, i: int)
    requires 0 <= i < |ds|
  {
    ds[i].webhook.txn == txn && ds[i].event == Succeeded && (!p.viaBlob || ds[i].blob.Some?)
  }

  lemma RowsStay(s: Store, d: Delivery, txn: string)
    requires txn in s.rows
    ensures txn in Deliver(s, d).rows
  {
  }

  lemma NoRowWithoutSuccess(s: Store, d: Delivery, txn: string)
    requires txn !in s.rows && (d.webhook.txn != txn || d.event != Succeeded)
    ensures txn !in Deliver(s, d).rows
  {
  }

  /** After any deliveries the transaction has a row if and only if some success for it came
      direct, or with its blob. */
  lemma {:induction false} RowExistsIff(s: Store, ds: seq<Delivery>, txn: string, p: Purchase)
    requires ValidPurchase(p) && txn !in s.rows && AllFor(ds, txn, p)
    ensures txn in Run(s, ds).rows <==> exists i :: 0 <= i < |ds| && CanApply(ds, txn, p, i)
    decreases |ds|
  {
    if ds != [] {
      var n := |ds| - 1;
      var before, d := ds[..n], ds[n];
      AllForPrefix(ds, txn, p);
      RowExistsIff(s, before, txn, p);
      var from := Run(s, before);
      if txn in from.rows {
        RowsStay(from, d, txn);
      } else if d.webhook.txn == txn && d.event == Succeeded {
        SuccessIsApplied(from, d, p);
      } else {
        NoRowWithoutSuccess(from, d, txn);
      }
      assert CanApply(ds, txn, p, n) <==> d.webhook.txn == txn && d.event == Succeeded && (!p.viaBlob || d.blob.Some?);
      assert Deliver(from, d) == Process(from, d.event, d.webhook, d.blob).0;
      hide Process, Moved, PaidRow, AllFor, ValidPurchase, IsSuccessFor;
      assert forall i | 0 <= i < n :: CanApply(before, txn, p, i) <==> CanApply(ds, txn, p, i);
    }
  }
}
