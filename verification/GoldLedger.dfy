/** What any sequence of webhook deliveries does to the accounts, one transaction at a time. */
module GoldLedger {
  import opened Wrappers
  import opened GoldSecret
  import opened GoldPrices
  import opened GoldWebhook

  datatype Delivery = Delivery(event: Event, webhook: Webhook, blob: Option<Blob>)

  function Deliver(s: Store, d: Delivery): Store {
    Process(s, d.event, d.webhook, d.blob).0
  }

  /** The store after a sequence of deliveries, for any mix of transactions. */
  function Run(s: Store, ds: seq<Delivery>): Store
    decreases |ds|
  {
    if ds == [] then s else Deliver(Run(s, ds[..|ds| - 1]), ds[|ds| - 1])
  }

  /** This delivery applies gold (or creddits). */
  predicate Completes(s: Store, d: Delivery) {
    var action := Decide(s, d.event, d.webhook, d.blob);
    action.Complete? && CompletePurchase(s, action.w).Some?
  }

  /** This delivery takes gold (or creddits) back. */
  predicate Reverses(s: Store, d: Delivery) {
    d.webhook.txn in s.rows && Decide(s, d.event, d.webhook, d.blob).Reverse?
    && ReversePurchase(s, d.webhook.txn).Some?
  }

  function Completions(s: Store, ds: seq<Delivery>, txn: string): nat
    decreases |ds|
  {
    if ds == [] then 0
    else
      var before, d := ds[..|ds| - 1], ds[|ds| - 1];
      Completions(s, before, txn) + if d.webhook.txn == txn && Completes(Run(s, before), d) then 1 else 0
  }

  function Reversals(s: Store, ds: seq<Delivery>, txn: string): nat
    decreases |ds|
  {
    if ds == [] then 0
    else
      var before, d := ds[..|ds| - 1], ds[|ds| - 1];
      Reversals(s, before, txn) + if d.webhook.txn == txn && Reverses(Run(s, before), d) then 1 else 0
  }

  /** The change in `u`'s days brought about by the deliveries of transaction `txn`. */
  function NetDays(s: Store, ds: seq<Delivery>, txn: string, u: User): int
    decreases |ds|
  {
    if ds == [] then 0
    else
      var before, d := ds[..|ds| - 1], ds[|ds| - 1];
      var from := Run(s, before);
      NetDays(s, before, txn, u)
        + if d.webhook.txn == txn then Lookup(Deliver(from, d).days, u) - Lookup(from.days, u) else 0
  }

  function NetCreddits(s: Store, ds: seq<Delivery>, txn: string, u: User): int
    decreases |ds|
  {
    if ds == [] then 0
    else
      var before, d := ds[..|ds| - 1], ds[|ds| - 1];
      var from := Run(s, before);
      NetCreddits(s, before, txn, u)
        + if d.webhook.txn == txn then Lookup(Deliver(from, d).creddits, u) - Lookup(from.creddits, u) else 0
  }

  // ---------------------------------------------------------------- one purchase

  /** A purchase other than a gift code.  `viaBlob` purchases name a payment blob that is
      looked up on delivery; the others (Stripe invoices) carry their data in the webhook. */
  datatype Purchase = Purchase(
    goldtype: GoldType, buyer: User, recipient: Option<User>, months: int,
    subscrId: Option<string>, viaBlob: bool, passthrough: string)

  ghost predicate ValidPurchase(p: Purchase) {
    && p.goldtype != Code
    && (p.recipient.Some? <==> p.goldtype == Gift)
    && DaysFromMonths(p.months).Some?
    && (p.subscrId.Some? ==> p.goldtype == Autorenew && p.subscrId.value != "" && !p.viaBlob)
    && (p.passthrough != "" <==> p.viaBlob)
  }

  function DaysOf(p: Purchase): int
    requires ValidPurchase(p)
  {
    DaysFromMonths(p.months).value
  }

  function Beneficiary(p: Purchase): User {
    if p.recipient.Some? then p.recipient.value else p.buyer
  }

  /** A success notice for the purchase; the blob may have expired in the meantime. */
  ghost predicate IsSuccessFor(d: Delivery, p: Purchase) {
    && d.webhook.months == p.months && d.webhook.subscrId == p.subscrId && d.webhook.passthrough == p.passthrough
    && if p.viaBlob then
         && d.webhook.goldtype == None && d.webhook.buyer == None && d.webhook.recipient == None
         && (d.blob.Some? ==> d.blob.value == Blob(p.goldtype, Some(p.buyer), p.recipient))
       else
         && d.webhook.goldtype == Some(p.goldtype) && d.webhook.buyer == Some(p.buyer)
         && d.webhook.recipient == p.recipient
  }

  /** Every success notice for `txn` is about purchase `p`; nothing is said of the others. */
  ghost predicate AllFor(ds: seq<Delivery>, txn: string, p: Purchase) {
    forall i | 0 <= i < |ds| :: ds[i].webhook.txn == txn && ds[i].event == Succeeded ==> IsSuccessFor(ds[i], p)
  }

  ghost predicate NoCancellations(ds: seq<Delivery>, txn: string) {
    forall i | 0 <= i < |ds| :: ds[i].webhook.txn == txn ==> ds[i].event != Cancelled
  }

  /** The row that the purchase leaves behind. */
  ghost predicate RowFor(r: Row, p: Purchase)
    requires ValidPurchase(p)
  {
    && r.days == DaysOf(p)
    && (ReadRow(r) == None || ReadRow(r) == Some((p.goldtype, Beneficiary(p))))
    && (r.status == Processed || r.status == Reversed)
  }

  ghost predicate LedgerInv(s: Store, txn: string, p: Purchase, completions: nat, reversals: nat)
    requires ValidPurchase(p)
  {
    && (txn !in s.rows ==> completions == 0 && reversals == 0)
    && (txn in s.rows ==>
         && RowFor(s.rows[txn], p)
         && (s.rows[txn].status == Processed ==> completions == 1 && reversals == 0)
         && (s.rows[txn].status == Reversed ==> completions >= 1 && reversals >= 1)
         && (p.viaBlob ==> completions == 1))
  }

  /** What was printed into the row is what the reversal reads, or it reads nothing. */
  lemma NewRowIsReadable(s: Store, w: Webhook, p: Purchase)
    requires ValidPurchase(p) && w.months == p.months && w.subscrId == p.subscrId
    requires w.goldtype == Some(p.goldtype) && w.buyer == Some(p.buyer) && w.recipient == p.recipient
    ensures RowFor(NewRow(s, w, p.goldtype, DaysOf(p)), p)
  {
    var code := if w.passthrough != "" then w.passthrough else w.txn;
    if p.goldtype.Gift? {
      GiftSecretRoundTripIff(p.recipient.value, code);
      SplitOfSecret(Gift, p.recipient.value, code);
    } else {
      BuyerSecretRoundTrip(p.goldtype, code);
    }
  }

  lemma OtherTransactionsKeepTheRow(s: Store, d: Delivery, txn: string)
    requires d.webhook.txn != txn
    ensures txn in Deliver(s, d).rows <==> txn in s.rows
    ensures txn in s.rows ==> Deliver(s, d).rows[txn] == s.rows[txn]
  {
  }

  lemma LoadedPurchase(s: Store, d: Delivery, p: Purchase)
    requires ValidPurchase(p) && IsSuccessFor(d, p) && d.event == Succeeded && Completes(s, d)
    ensures !p.viaBlob || d.webhook.txn !in s.rows
    ensures var w := Decide(s, d.event, d.webhook, d.blob).w;
      && w.goldtype == Some(p.goldtype) && w.buyer == Some(p.buyer) && w.recipient == p.recipient
      && w.months == p.months && w.subscrId == p.subscrId && w.txn == d.webhook.txn
    ensures d.webhook.txn in s.rows ==> s.rows[d.webhook.txn].status == Reversed
  {
  }

  lemma CompletionEffect(s: Store, d: Delivery, p: Purchase)
    requires ValidPurchase(p) && d.event == Succeeded && IsSuccessFor(d, p) && Completes(s, d)
    ensures var t := Deliver(s, d); var txn := d.webhook.txn;
      && Pay(s, p.goldtype, Beneficiary(p), DaysOf(p), p.months) == t.(rows := s.rows)
      && txn in t.rows && (txn in s.rows ==> t.rows == s.rows)
      && (txn !in s.rows ==> RowFor(t.rows[txn], p) && t.rows[txn].status == Processed)
  {
    LoadedPurchase(s, d, p);
    NewRowIsReadable(s, Decide(s, d.event, d.webhook, d.blob).w, p);
  }

  lemma ReversalEffect(s: Store, d: Delivery, p: Purchase)
    requires ValidPurchase(p) && Reverses(s, d) && RowFor(s.rows[d.webhook.txn], p)
    ensures var t := Deliver(s, d); var txn := d.webhook.txn;
      && Pay(s, p.goldtype, Beneficiary(p), -DaysOf(p), -ReversedMonths(DaysOf(p))) == t.(rows := s.rows)
      && txn in t.rows && t.rows[txn] == s.rows[txn].(status := Reversed)
  {
  }

  lemma OtherwiseNothing(s: Store, d: Delivery, p: Purchase)
    requires ValidPurchase(p) && (d.event == Succeeded ==> IsSuccessFor(d, p))
    requires !Completes(s, d) && !Reverses(s, d)
    ensures Deliver(s, d) == s
  {
  }

  lemma DeliverKeepsInv(s: Store, d: Delivery, txn: string, p: Purchase, c: nat, r: nat)
    requires ValidPurchase(p) && LedgerInv(s, txn, p, c, r)
    requires d.webhook.txn == txn && d.event == Succeeded ==> IsSuccessFor(d, p)
    ensures var mine := d.webhook.txn == txn;
      LedgerInv(Deliver(s, d), txn, p,
                c + (if mine && Completes(s, d) then 1 else 0), r + (if mine && Reverses(s, d) then 1 else 0))
  {
    if d.webhook.txn != txn {
      OtherTransactionsKeepTheRow(s, d, txn);
    } else if Completes(s, d) {
      LoadedPurchase(s, d, p);
      CompletionEffect(s, d, p);
    } else if Reverses(s, d) {
      ReversalEffect(s, d, p);
      assert ReadRow(s.rows[txn].(status := Reversed)) == ReadRow(s.rows[txn]);
    } else {
      OtherwiseNothing(s, d, p);
    }
  }

  lemma {:induction false} InvAlways(s: Store, ds: seq<Delivery>, txn: string, p: Purchase)
    requires ValidPurchase(p) && txn !in s.rows && AllFor(ds, txn, p)
    ensures LedgerInv(Run(s, ds), txn, p, Completions(s, ds, txn), Reversals(s, ds, txn))
    decreases |ds|
  {
    if ds != [] {
      var before, d := ds[..|ds| - 1], ds[|ds| - 1];
      InvAlways(s, before, txn, p);
      DeliverKeepsInv(Run(s, before), d, txn, p, Completions(s, before, txn), Reversals(s, before, txn));
    }
  }

  // ---------------------------------------------------------------- the ledger

  lemma LookupOfAdd(m: map<User, int>, who: User, n: int, u: User)
    ensures Lookup(Add(m, who, n), u) == Lookup(m, u) + if u == who then n else 0
  {
  }

  /** The days that `completions` and `reversals` of a purchase leave with account `u`. */
  function ExpectedDays(p: Purchase, completions: int, reversals: int, u: User): int
    requires ValidPurchase(p)
  {
    if p.goldtype != Creddits && u == Beneficiary(p) then completions * DaysOf(p) - reversals * DaysOf(p) else 0
  }

  function ExpectedCreddits(p: Purchase, completions: int, reversals: int, u: User): int
    requires ValidPurchase(p)
  {
    if p.goldtype == Creddits && u == p.buyer
    then completions * p.months - reversals * ReversedMonths(DaysOf(p)) else 0
  }

  lemma Distribute(a: int, b: int, n: int)
    ensures (a + b) * n == a * n + b * n
  {
  }

  lemma ExpectationsAdd(p: Purchase, c: int, r: int, dc: int, dr: int, u: User)
    requires ValidPurchase(p)
    ensures ExpectedDays(p, c + dc, r + dr, u) == ExpectedDays(p, c, r, u) + ExpectedDays(p, dc, dr, u)
    ensures ExpectedCreddits(p, c + dc, r + dr, u) == ExpectedCreddits(p, c, r, u) + ExpectedCreddits(p, dc, dr, u)
  {
    Distribute(c, dc, DaysOf(p));
    Distribute(r, dr, DaysOf(p));
    Distribute(c, dc, p.months);
    Distribute(r, dr, ReversedMonths(DaysOf(p)));
  }

  /** The change one delivery makes to one account. */
  lemma DeliveryEffect(s: Store, d: Delivery, txn: string, p: Purchase, c: nat, r: nat, u: User)
    requires ValidPurchase(p) && LedgerInv(s, txn, p, c, r) && d.webhook.txn == txn
    requires d.event == Succeeded ==> IsSuccessFor(d, p)
    ensures var dc, dr := if Completes(s, d) then 1 else 0, if Reverses(s, d) then 1 else 0;
      && Lookup(Deliver(s, d).days, u) - Lookup(s.days, u) == ExpectedDays(p, dc, dr, u)
      && Lookup(Deliver(s, d).creddits, u) - Lookup(s.creddits, u) == ExpectedCreddits(p, dc, dr, u)
  {
    var who := Beneficiary(p);
    if Completes(s, d) {
      LoadedPurchase(s, d, p);
      CompletionEffect(s, d, p);
      LookupOfAdd(s.days, who, DaysOf(p), u);
      LookupOfAdd(s.creddits, who, p.months, u);
    } else if Reverses(s, d) {
      ReversalEffect(s, d, p);
      LookupOfAdd(s.days, who, -DaysOf(p), u);
      LookupOfAdd(s.creddits, who, -ReversedMonths(DaysOf(p)), u);
    } else {
      OtherwiseNothing(s, d, p);
    }
  }

  lemma CountsStep(s: Store, ds: seq<Delivery>, txn: string)
    requires |ds| > 0
    ensures var before, d := ds[..|ds| - 1], ds[|ds| - 1]; var mine := d.webhook.txn == txn;
      && Completions(s, ds, txn)
         == Completions(s, before, txn) + (if mine && Completes(Run(s, before), d) then 1 else 0)
      && Reversals(s, ds, txn) == Reversals(s, before, txn) + (if mine && Reverses(Run(s, before), d) then 1 else 0)
  {
  }

  lemma NetStep(s: Store, ds: seq<Delivery>, txn: string, u: User)
    requires |ds| > 0
    ensures var before, d := ds[..|ds| - 1], ds[|ds| - 1]; var from := Run(s, before);
      && NetDays(s, ds, txn, u) == NetDays(s, before, txn, u)
           + (if d.webhook.txn == txn then Lookup(Deliver(from, d).days, u) - Lookup(from.days, u) else 0)
      && NetCreddits(s, ds, txn, u) == NetCreddits(s, before, txn, u)
           + (if d.webhook.txn == txn then Lookup(Deliver(from, d).creddits, u) - Lookup(from.creddits, u) else 0)
  {
  }

  lemma AllForPrefix(ds: seq<Delivery>, txn: string, p: Purchase)
    requires |ds| > 0 && AllFor(ds, txn, p)
    ensures AllFor(ds[..|ds| - 1], txn, p)
    ensures var d := ds[|ds| - 1]; d.webhook.txn == txn && d.event == Succeeded ==> IsSuccessFor(d, p)
  {
  }

  ghost predicate NetIsExpected(s: Store, ds: seq<Delivery>, txn: string, p: Purchase, u: User)
    requires ValidPurchase(p)
  {
    var c, r := Completions(s, ds, txn), Reversals(s, ds, txn);
    NetDays(s, ds, txn, u) == ExpectedDays(p, c, r, u) && NetCreddits(s, ds, txn, u) == ExpectedCreddits(p, c, r, u)
  }

  /** The last delivery of a run moves what the change in the two counts calls for. */
  lemma NetChange(s: Store, ds: seq<Delivery>, txn: string, p: Purchase, u: User)
    requires ValidPurchase(p) && |ds| > 0
    requires var before := ds[..|ds| - 1];
      LedgerInv(Run(s, before), txn, p, Completions(s, before, txn), Reversals(s, before, txn))
    requires var d := ds[|ds| - 1]; d.webhook.txn == txn && d.event == Succeeded ==> IsSuccessFor(d, p)
    ensures var before := ds[..|ds| - 1];
      var dc := Completions(s, ds, txn) - Completions(s, before, txn);
      var dr := Reversals(s, ds, txn) - Reversals(s, before, txn);
      && NetDays(s, ds, txn, u) - NetDays(s, before, txn, u) == ExpectedDays(p, dc, dr, u)
      && NetCreddits(s, ds, txn, u) - NetCreddits(s, before, txn, u) == ExpectedCreddits(p, dc, dr, u)
  {
    hide *;
    CountsStep(s, ds, txn);
    NetStep(s, ds, txn, u);
    NothingExpected(p, u);
    var before, d := ds[..|ds| - 1], ds[|ds| - 1];
    if d.webhook.txn == txn {
      DeliveryEffect(Run(s, before), d, txn, p, Completions(s, before, txn), Reversals(s, before, txn), u);
    }
  }

  lemma NothingExpected(p: Purchase, u: User)
    requires ValidPurchase(p)
    ensures ExpectedDays(p, 0, 0, u) == 0 && ExpectedCreddits(p, 0, 0, u) == 0
  {
  }

  lemma NetStepIsExpected(s: Store, ds: seq<Delivery>, txn: string, p: Purchase, u: User)
    requires ValidPurchase(p) && |ds| > 0 && NetIsExpected(s, ds[..|ds| - 1], txn, p, u)
    requires var before := ds[..|ds| - 1];
      LedgerInv(Run(s, before), txn, p, Completions(s, before, txn), Reversals(s, before, txn))
    requires var d := ds[|ds| - 1]; d.webhook.txn == txn && d.event == Succeeded ==> IsSuccessFor(d, p)
    ensures NetIsExpected(s, ds, txn, p, u)
  {
    hide Run, Completions, Reversals, NetDays, NetCreddits, ValidPurchase, LedgerInv;
    hide ExpectedDays, ExpectedCreddits, IsSuccessFor;
    NetChange(s, ds, txn, p, u);
    var before := ds[..|ds| - 1];
    var c, r := Completions(s, before, txn), Reversals(s, before, txn);
    ExpectationsAdd(p, c, r, Completions(s, ds, txn) - c, Reversals(s, ds, txn) - r, u);
  }

  /** For any deliveries in any order, mixed with other transactions: a transaction has
      moved its days once per completion minus once per reversal, and nothing else. */
  lemma {:induction false} NetFollowsTheCounts(s: Store, ds: seq<Delivery>, txn: string, p: Purchase, u: User)
    requires ValidPurchase(p) && txn !in s.rows && AllFor(ds, txn, p)
    ensures NetIsExpected(s, ds, txn, p, u)
    decreases |ds|
  {
    if ds != [] {
      var before := ds[..|ds| - 1];
      AllForPrefix(ds, txn, p);
      NetFollowsTheCounts(s, before, txn, p, u);
      InvAlways(s, before, txn, p);
      NetStepIsExpected(s, ds, txn, p, u);
    }
  }

  lemma NetDaysAre(s: Store, ds: seq<Delivery>, txn: string, p: Purchase)
    requires ValidPurchase(p) && p.goldtype != Creddits && txn !in s.rows && AllFor(ds, txn, p)
    ensures NetDays(s, ds, txn, Beneficiary(p))
         == Completions(s, ds, txn) * DaysOf(p) - Reversals(s, ds, txn) * DaysOf(p)
  {
    NetFollowsTheCounts(s, ds, txn, p, Beneficiary(p));
  }

  lemma NetCredditsAre(s: Store, ds: seq<Delivery>, txn: string, p: Purchase)
    requires ValidPurchase(p) && p.goldtype == Creddits && txn !in s.rows && AllFor(ds, txn, p)
    ensures NetCreddits(s, ds, txn, p.buyer)
         == Completions(s, ds, txn) * p.months - Reversals(s, ds, txn) * ReversedMonths(DaysOf(p))
  {
    NetFollowsTheCounts(s, ds, txn, p, p.buyer);
  }

  /** The counts as they can be read off the row. */
  lemma CountsFromRow(s: Store, ds: seq<Delivery>, txn: string, p: Purchase)
    requires ValidPurchase(p) && txn !in s.rows && AllFor(ds, txn, p)
    ensures var t, c, r := Run(s, ds), Completions(s, ds, txn), Reversals(s, ds, txn);
      && (txn !in t.rows ==> c == 0 && r == 0)
      && (txn in t.rows ==> t.rows[txn].status == Processed || t.rows[txn].status == Reversed)
      && (txn in t.rows && t.rows[txn].status == Processed ==> c == 1 && r == 0)
      && (txn in t.rows && t.rows[txn].status == Reversed ==> c >= 1 && r >= 1)
      && (txn in t.rows && p.viaBlob ==> c == 1)
  {
    InvAlways(s, ds, txn, p);
  }

  /** Without cancellations a transaction is reversed at most once: exactly when its row says so. */
  lemma {:induction false} ReversedAtMostOnce(s: Store, ds: seq<Delivery>, txn: string, p: Purchase)
    requires ValidPurchase(p) && txn !in s.rows && AllFor(ds, txn, p) && NoCancellations(ds, txn)
    ensures var t := Run(s, ds);
      Reversals(s, ds, txn) == if txn in t.rows && t.rows[txn].status == Reversed then 1 else 0
    decreases |ds|
  {
    if ds != [] {
      var before, d := ds[..|ds| - 1], ds[|ds| - 1];
      ReversedAtMostOnce(s, before, txn, p);
      InvAlways(s, before, txn, p);
      InvAlways(s, ds, txn, p);
      if d.webhook.txn != txn { OtherTransactionsKeepTheRow(Run(s, before), d, txn); }
      else if !Completes(Run(s, before), d) && !Reverses(Run(s, before), d) { OtherwiseNothing(Run(s, before), d, p); }
      else if Completes(Run(s, before), d) { CompletionEffect(Run(s, before), d, p); }
      else { ReversalEffect(Run(s, before), d, p); }
    }
  }

  /** Onetime and gift purchases paid through a blob: for any deliveries in any order,
      duplicated and late ones included, the beneficiary has exactly the days bought while
      the row is processed, and none otherwise. */
  lemma BlobPurchaseCreditsExactlyOnce(s: Store, ds: seq<Delivery>, txn: string, p: Purchase)
    requires ValidPurchase(p) && p.viaBlob && p.goldtype != Creddits
    requires txn !in s.rows && AllFor(ds, txn, p) && NoCancellations(ds, txn)
    ensures var t := Run(s, ds);
      NetDays(s, ds, txn, Beneficiary(p)) == if txn in t.rows && t.rows[txn].status == Processed then DaysOf(p) else 0
    ensures Completions(s, ds, txn) <= 1 && Reversals(s, ds, txn) <= Completions(s, ds, txn)
  {
    hide *;
    CountsFromRow(s, ds, txn, p);
    NetDaysAre(s, ds, txn, p);
    ReversedAtMostOnce(s, ds, txn, p);
  }

  /** Invoice purchases carry their data, so a success delivered after the refund pays
      again: with days to give, the account agrees with the row if and only if that never
      happened, that is if and only if gold was applied at most once. */
  lemma DirectPurchaseExactIffAppliedOnce(s: Store, ds: seq<Delivery>, txn: string, p: Purchase)
    requires ValidPurchase(p) && !p.viaBlob && p.goldtype != Creddits && p.months > 0
    requires txn !in s.rows && AllFor(ds, txn, p) && NoCancellations(ds, txn)
    ensures var t := Run(s, ds);
      NetDays(s, ds, txn, Beneficiary(p)) == (if txn in t.rows && t.rows[txn].status == Processed then DaysOf(p) else 0)
      <==> !exists i :: 0 <= i < |ds| && LateSuccess(s, ds, txn, i)
  {
    assert DaysOf(p) > 0;
    hide *;
    CountsFromRow(s, ds, txn, p);
    NetDaysAre(s, ds, txn, p);
    ReversedAtMostOnce(s, ds, txn, p);
    CompletionsCountLateSuccesses(s, ds, txn, p);
    var t := Run(s, ds);
    BalanceAgreesIff(DaysOf(p), Completions(s, ds, txn), Reversals(s, ds, txn),
                     txn in t.rows && t.rows[txn].status == Processed);
  }

  lemma BalanceAgreesIff(n: int, c: int, r: int, processed: bool)
    requires n > 0 && if processed then c == 1 && r == 0 else (c == 0 && r == 0) || (c >= 1 && r == 1)
    ensures c * n - r * n == (if processed then n else 0) <==> c <= 1
  {
    if c > 1 {
      Distribute(c - 1, 1, n);
      assert (c - 1) * n > 0;
    }
  }

  /** Delivery `i` is a success notice that finds the row already reversed. */
  ghost predicate LateSuccess(s: Store, ds: seq<Delivery>, txn: string, i: int)
    requires 0 <= i < |ds|
  {
    var from := Run(s, ds[..i]);
    ds[i].webhook.txn == txn && ds[i].event == Succeeded && txn in from.rows && from.rows[txn].status == Reversed
  }

  lemma SecondCompletionIsLate(s: Store, d: Delivery, txn: string, p: Purchase, c: nat, r: nat)
    requires ValidPurchase(p) && !p.viaBlob && LedgerInv(s, txn, p, c, r) && d.webhook.txn == txn
    requires d.event == Succeeded ==> IsSuccessFor(d, p)
    ensures Completes(s, d) && c >= 1 <==> d.event == Succeeded && txn in s.rows && s.rows[txn].status == Reversed
  {
    if Completes(s, d) { LoadedPurchase(s, d, p); }
  }

  lemma LateSuccessPrefix(s: Store, ds: seq<Delivery>, txn: string, i: int)
    requires 0 <= i < |ds| - 1
    ensures LateSuccess(s, ds[..|ds| - 1], txn, i) <==> LateSuccess(s, ds, txn, i)
  {
    assert ds[..|ds| - 1][..i] == ds[..i];
  }

  lemma {:induction false} CompletionsCountLateSuccesses(s: Store, ds: seq<Delivery>, txn: string, p: Purchase)
    requires ValidPurchase(p) && !p.viaBlob && txn !in s.rows && AllFor(ds, txn, p)
    ensures Completions(s, ds, txn) > 1 <==> exists i :: 0 <= i < |ds| && LateSuccess(s, ds, txn, i)
    decreases |ds|
  {
    if ds != [] {
      var m := |ds| - 1;
      var before, d := ds[..m], ds[m];
      AllForPrefix(ds, txn, p);
      CompletionsCountLateSuccesses(s, before, txn, p);
      InvAlways(s, before, txn, p);
      CountsStep(s, ds, txn);
      var c := Completions(s, before, txn);
      if d.webhook.txn == txn {
        SecondCompletionIsLate(Run(s, before), d, txn, p, c, Reversals(s, before, txn));
      }
      assert LateSuccess(s, ds, txn, m) <==> d.webhook.txn == txn && Completes(Run(s, before), d) && c >= 1;
      hide *;
      forall i | 0 <= i < m
        ensures LateSuccess(s, before, txn, i) <==> LateSuccess(s, ds, txn, i)
      {
        LateSuccessPrefix(s, ds, txn, i);
      }
      if c > 1 {
        var i :| 0 <= i < m && LateSuccess(s, before, txn, i);
        assert LateSuccess(s, ds, txn, i);
      }
    }
  }

  lemma OnceAndBack(gain: int, loss: int, c: int, r: int)
    ensures c == 0 && r == 0 ==> c * gain - r * loss == 0
    ensures c == 1 && r == 0 ==> c * gain - r * loss == gain
    ensures c == 1 && r == 1 ==> c * gain - r * loss == gain - loss
  {
  }

  /** Creddits bought and then refunded: all are taken back when fewer than twelve months
      were bought, and ceil(6y/31) stay behind for `y` years. */
  lemma CredditsAfterRefund(s: Store, ds: seq<Delivery>, txn: string, p: Purchase)
    requires ValidPurchase(p) && p.viaBlob && p.goldtype == Creddits && p.months >= 0
    requires txn !in s.rows && AllFor(ds, txn, p) && NoCancellations(ds, txn)
    ensures var t := Run(s, ds); var net := NetCreddits(s, ds, txn, p.buyer);
      if txn !in t.rows then net == 0
      else if t.rows[txn].status == Processed then net == p.months
      else net == if p.months < 12 then 0 else (6 * (p.months / 12) + 30) / 31
  {
    CredditsLeftAfterReversal(p.months);
    assert DaysOf(p) == DaysFromMonths(p.months).value;
    hide *;
    CountsFromRow(s, ds, txn, p);
    NetCredditsAre(s, ds, txn, p);
    ReversedAtMostOnce(s, ds, txn, p);
    OnceAndBack(p.months, ReversedMonths(DaysOf(p)), Completions(s, ds, txn), Reversals(s, ds, txn));
  }

  /** A refund of a processed gift is carried out if and only if neither the recipient's
      name nor the payment code contains a dash; otherwise it raises and changes nothing. */
  lemma GiftRefundWorksIff(s: Store, paid: Delivery, refund: Delivery, p: Purchase)
    requires ValidPurchase(p) && p.goldtype == Gift
    requires paid.event == Succeeded && IsSuccessFor(paid, p) && Completes(s, paid) && paid.webhook.txn !in s.rows
    requires refund.event == Refunded && refund.webhook.txn == paid.webhook.txn
    ensures var t := Deliver(s, paid);
      var code := if p.passthrough != "" then p.passthrough else paid.webhook.txn;
      && (Reverses(t, refund) <==> '-' !in p.recipient.value && '-' !in code)
      && (!Reverses(t, refund) ==>
            Deliver(t, refund) == t && Process(t, refund.event, refund.webhook, refund.blob).1 == Crashed)
  {
    LoadedPurchase(s, paid, p);
    CompletionEffect(s, paid, p);
    var t, txn := Deliver(s, paid), paid.webhook.txn;
    var code := if p.passthrough != "" then p.passthrough else txn;
    assert t.rows[txn] == NewRow(s, Decide(s, paid.event, paid.webhook, paid.blob).w, Gift, DaysOf(p));
    GiftSecretRoundTripIff(p.recipient.value, code);
    SplitOfSecret(Gift, p.recipient.value, code);
    assert Loaded(t, refund.webhook, refund.blob).Some?;
  }

  // ---------------------------------------------------------------- an invoice paid twice

  /** A monthly subscription. */
  function Monthly(): Purchase {
    Purchase(Autorenew, "buyer", None, 1, Some("customer"), false, "")
  }

  function Invoice(event: Event): Delivery {
    Delivery(event, Webhook("", "charge", Some("customer"), 1, Some(Autorenew), Some("buyer"), None), None)
  }

  function PaidRefundedPaid(): seq<Delivery> {
    [Invoice(Succeeded), Invoice(Refunded), Invoice(Succeeded)]
  }

  lemma FirstTwoDeliveries()
    ensures var t := Run(Store(map[], map[], map[]), PaidRefundedPaid()[..2]);
      "charge" in t.rows && t.rows["charge"].status == Reversed
  {
    var s, ds := Store(map[], map[], map[]), PaidRefundedPaid();
    assert ds[..2] == [ds[0], ds[1]] && ds[..2][..1] == [ds[0]] && [ds[0]][..0] == [];
    var one := Deliver(s, ds[0]);
    assert Run(s, []) == s && Run(s, [ds[0]]) == one;
    assert "charge" in one.rows && one.rows["charge"].status == Processed;
    assert one.rows["charge"].account == Some("buyer") && one.rows["charge"].subscrId == Some("customer");
    assert Run(s, ds[..2]) == Deliver(one, ds[1]);
  }

  /** The success that comes after the refund pays again, and the row does not say so. */
  lemma SuccessAfterRefundPaysAgain()
    ensures var s, ds := Store(map[], map[], map[]), PaidRefundedPaid(); var t := Run(s, ds);
      && LateSuccess(s, ds, "charge", 2)
      && NetDays(s, ds, "charge", "buyer")
         != if "charge" in t.rows && t.rows["charge"].status == Processed then DaysOf(Monthly()) else 0
  {
    var s, ds := Store(map[], map[], map[]), PaidRefundedPaid();
    FirstTwoDeliveries();
    assert LateSuccess(s, ds, "charge", 2);
    assert Beneficiary(Monthly()) == "buyer";
    DirectPurchaseExactIffAppliedOnce(s, ds, "charge", Monthly());
    hide *;
  }
}
