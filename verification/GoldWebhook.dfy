/**
 Webhook processing of r2/r2/controllers/ipn.py: `process_webhook`,
 `complete_gold_purchase` and `reverse_gold_purchase` over the gold table, the ledger of
 gold days and the creddit balances.  One delivery is atomic.
 */
module GoldWebhook {
  import opened SplitJoin
  import opened Wrappers
  import opened GoldSecret
  import opened GoldPrices

  type User = string

  datatype Status = Processed | Unclaimed | Claimed | Reversed

  datatype Row = Row(status: Status, days: int, subscrId: Option<string>, secret: Option<string>, account: Option<User>)

  datatype Event = Noop | Cancelled | Succeeded | Failed | DeletedSubscription | Refunded

  /** The fields of a Webhook that reach the tables. */
  datatype Webhook = Webhook(
    passthrough: string, txn: string, subscrId: Option<string>, months: int,
    goldtype: Option<GoldType>, buyer: Option<User>, recipient: Option<User>)

  /** What `validate_blob` returns for a payment blob. */
  datatype Blob = Blob(goldtype: GoldType, buyer: Option<User>, recipient: Option<User>)

  /** `Forbidden` answers 403 (or logs, for Coinbase); `Crashed` is an uncaught exception. */
  datatype Outcome = Done | Forbidden | Crashed

  /** The tables as one value. */
  datatype Store = Store(rows: map<string, Row>, days: map<User, int>, creddits: map<User, int>)

  function Lookup(m: map<User, int>, u: User): int {
    if u in m then m[u] else 0
  }

  function Add(m: map<User, int>, u: User, n: int): map<User, int> {
    m[u := Lookup(m, u) + n]
  }

  // ---------------------------------------------------------------- specification

  /** Moving `days` gold days, or `months` creddits for that gold type, to (or from) an account. */
  function Pay(s: Store, t: GoldType, who: User, days: int, months: int): Store {
    match t
    case Creddits => s.(creddits := Add(s.creddits, who, months))
    case Code => s
    case _ => s.(days := Add(s.days, who, days))
  }

  /** `complete_gold_purchase`; None when it raises. */
  function CompletePurchase(s: Store, w: Webhook): Option<Store> {
    if DaysFromMonths(w.months).None? then None
    else
      var days := DaysFromMonths(w.months).value;
      if w.goldtype == Some(Code) then
        if w.txn in s.rows then None
        else Some(s.(rows := s.rows[w.txn := Row(Unclaimed, days, None, Some(w.txn), None)]))
      else if w.goldtype.None? || w.buyer.None? || (w.goldtype.value.Gift? && w.recipient.None?) then None
      else
        var t, who := w.goldtype.value, if w.goldtype.value.Gift? then w.recipient.value else w.buyer.value;
        var paid := Pay(s, t, who, days, w.months);
        if w.txn in s.rows then Some(paid)
        else Some(paid.(rows := s.rows[w.txn := NewRow(s, w, t, days)]))
  }

  /** What `complete_gold_purchase` leaves behind when it raises: a gift without a buyer's
      account has been delivered by the time the missing buyer is noticed. */
  function AfterRaise(s: Store, w: Webhook): Store {
    if DaysFromMonths(w.months).Some? && w.goldtype == Some(Gift) && w.buyer.None? && w.recipient.Some?
    then Pay(s, Gift, w.recipient.value, DaysFromMonths(w.months).value, w.months)
    else s
  }

  predicate HasPayments(rows: map<string, Row>, subscrId: Option<string>) {
    exists txn :: txn in rows && rows[txn].subscrId == subscrId
  }

  function NewRow(s: Store, w: Webhook, t: GoldType, days: int): Row {
    var code := if w.passthrough != "" then w.passthrough else w.txn;
    var secret := Secret(t, if w.recipient.Some? then w.recipient.value else "", code);
    Row(Processed, days, w.subscrId,
        if t.Autorenew? && HasPayments(s.rows, w.subscrId) then None else Some(secret), w.buyer)
  }

  /** What a row says has to be undone; None when the row cannot be read. */
  function ReadRow(r: Row): Option<(GoldType, User)> {
    if r.account.None? then None
    else if r.subscrId.Some? && r.subscrId.value != "" then Some((Autorenew, r.account.value))
    else if r.secret.None? then None
    else match Read(r.secret.value)
      case ForRecipient(recipient, _) => Some((Gift, recipient))
      case Unreadable => None
      case ForBuyer(name) =>
        Some((if name == Name(Onetime) then Onetime else if name == Name(Autorenew) then Autorenew
              else if name == Name(Creddits) then Creddits else Code, r.account.value))
  }

  /** `reverse_gold_purchase` for an existing row; None when it raises. */
  function ReversePurchase(s: Store, txn: string): Option<Store>
    requires txn in s.rows
  {
    var r := s.rows[txn];
    match ReadRow(r)
    case None => None
    case Some((t, who)) =>
      Some(Pay(s, t, who, -r.days, -ReversedMonths(r.days)).(rows := s.rows[txn := r.(status := Reversed)]))
  }

  /** The webhook after `load_blob`, which only runs for a transaction not seen before. */
  function Loaded(s: Store, w: Webhook, blob: Option<Blob>): Option<Webhook> {
    if w.txn in s.rows || w.passthrough == "" then Some(w)
    else match blob
      case None => None
      case Some(b) => Some(w.(goldtype := Some(b.goldtype), buyer := b.buyer, recipient := b.recipient))
  }

  datatype Action = Ignore | Refuse | Complete(w: Webhook) | Reverse

  /** Which purchase operation a delivery asks for. */
  function Decide(s: Store, e: Event, w: Webhook, blob: Option<Blob>): Action {
    if e.Noop? then Ignore
    else if Loaded(s, w, blob).None? then Refuse
    else match e
      case Cancelled => if w.txn in s.rows then Reverse else Ignore
      case Succeeded =>
        if w.txn in s.rows && s.rows[w.txn].status != Reversed then Ignore
        else Complete(Loaded(s, w, blob).value)
      case Refunded => if w.txn in s.rows && s.rows[w.txn].status == Processed then Reverse else Ignore
      case _ => Ignore
  }

  function Process(s: Store, e: Event, w: Webhook, blob: Option<Blob>): (Store, Outcome) {
    match Decide(s, e, w, blob)
    case Ignore => (s, Done)
    case Refuse => (s, Forbidden)
    case Complete(loaded) =>
      var r := CompletePurchase(s, loaded);
      if r.Some? then (r.value, Done) else (AfterRaise(s, loaded), Crashed)
    case Reverse =>
      var r := if w.txn in s.rows then ReversePurchase(s, w.txn) else None;
      if r.Some? then (r.value, Done) else (s, Crashed)
  }

  /** The statuses for which a repeated success is skipped. */
  predicate Settled(status: Status) {
    status.Processed? || status.Unclaimed? || status.Claimed?
  }

  // ---------------------------------------------------------------- the controller

  /** The tables as the handlers change them. */
  class GoldStore {
    var rows: map<string, Row>
    var days: map<User, int>
    var creddits: map<User, int>

    ghost function View(): Store
      reads this
    {
      Store(rows, days, creddits)
    }

    constructor ()
      ensures View() == Store(map[], map[], map[])
    {
      rows, days, creddits := map[], map[], map[];
    }

    /** `admintools.adjust_gold_expiration` and `subtract_gold_days`, as a ledger of days. */
    method AdjustDays(user: User, n: int)
      modifies this`days
      ensures days == Add(old(days), user, n)
    {
      days := days[user := Lookup(days, user) + n];
    }

    method IncrCreddits(user: User, n: int)
      modifies this`creddits
      ensures creddits == Add(old(creddits), user, n)
    {
      creddits := creddits[user := Lookup(creddits, user) + n];
    }

    /** The insert under the unique transaction id; false is IntegrityError. */
    method CreateClaimedGold(txn: string, row: Row) returns (inserted: bool)
      modifies this`rows
      ensures inserted == (txn !in old(rows))
      ensures rows == if inserted then old(rows)[txn := row] else old(rows)
    {
      inserted := txn !in rows;
      if inserted { rows := rows[txn := row]; }
    }

    method CompleteGoldPurchase(w: Webhook) returns (raised: bool)
      modifies this
      ensures raised == CompletePurchase(old(View()), w).None?
      ensures View() == if raised then AfterRaise(old(View()), w) else CompletePurchase(old(View()), w).value
    {
      var months := DaysFromMonths(w.months);
      if months.None? { return true; }
      var d := months.value;
      if w.goldtype == Some(Code) {
        var inserted := CreateClaimedGold(w.txn, Row(Unclaimed, d, None, Some(w.txn), None));
        return !inserted;
      }
      if w.goldtype.None? || (w.recipient.None? && (w.buyer.None? || w.goldtype == Some(Gift))) { return true; }
      var t := w.goldtype.value;
      var code := if w.passthrough != "" then w.passthrough else w.txn;
      var secret := Some(Secret(t, if w.recipient.Some? then w.recipient.value else "", code));
      match t {
        case Onetime =>
          if w.buyer.None? { return true; }
          AdjustDays(w.buyer.value, d);
        case Autorenew =>
          if w.buyer.None? { return true; }
          AdjustDays(w.buyer.value, d);
          if HasPayments(rows, w.subscrId) { secret := None; }
        case Creddits =>
          if w.buyer.None? { return true; }
          IncrCreddits(w.buyer.value, w.months);
        case Gift =>
          AdjustDays(w.recipient.value, d);
          if w.buyer.None? { return true; }
      }
      var inserted := CreateClaimedGold(w.txn, Row(Processed, d, w.subscrId, secret, w.buyer));
      return false;
    }

    method ReverseGoldPurchase(txn: string) returns (raised: bool)
      requires txn in rows
      modifies this
      ensures raised == ReversePurchase(old(View()), txn).None?
      ensures View() == if raised then old(View()) else ReversePurchase(old(View()), txn).value
    {
      var transaction := rows[txn];
      if transaction.account.None? { return true; }
      var buyer := transaction.account.value;
      var d := transaction.days;
      var months := d / DAYS_PER_MONTH;
      var goldtype, recipient := Name(Autorenew), buyer;
      if transaction.subscrId.None? || transaction.subscrId.value == "" {
        if transaction.secret.None? { return true; }
        var pieces := Split(transaction.secret.value, '-');
        goldtype := pieces[0];
        if goldtype == Name(Gift) {
          if |pieces| != 3 { return true; }
          recipient := pieces[1];
        }
      }
      if goldtype == Name(Onetime) || goldtype == Name(Autorenew) {
        AdjustDays(buyer, -d);
      } else if goldtype == Name(Creddits) {
        IncrCreddits(buyer, -months);
      } else if goldtype == Name(Gift) {
        AdjustDays(recipient, -d);
      }
      rows := rows[txn := transaction.(status := Reversed)];
      return false;
    }

    method ProcessWebhook(e: Event, w: Webhook, blob: Option<Blob>) returns (o: Outcome)
      modifies this
      ensures o == Process(old(View()), e, w, blob).1
      ensures View() == Process(old(View()), e, w, blob).0
    {
      if e.Noop? { return Done; }
      var existing := if w.txn in rows then Some(rows[w.txn]) else None;
      var webhook := w;
      if existing.None? && w.passthrough != "" {
        if blob.None? { return Forbidden; }
        webhook := w.(goldtype := Some(blob.value.goldtype), buyer := blob.value.buyer,
            recipient := blob.value.recipient);
      }
      var raised := false;
      match e {
        case Cancelled =>
          if existing.Some? { raised := ReverseGoldPurchase(w.txn); }
        case Succeeded =>
          if existing.Some? && Settled(existing.value.status) { return Done; }
          raised := CompleteGoldPurchase(webhook);
        case Refunded =>
          if existing.None? || existing.value.status != Processed { return Done; }
          raised := ReverseGoldPurchase(w.txn);
        case _ =>
      }
      return if raised then Crashed else Done;
    }
  }
}
