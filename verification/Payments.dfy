/**
 Payment blobs and creddit spending of r2/r2/controllers/ipn.py as interleaved requests:
 `POST_spendcreddits`, the PayPal `finish`, `update_blob`, and the refund of creddits.  `get_blob` runs under a
 lock per blob and spending under a lock per user; `update_blob` reads and writes without one.
 */
module Payments {
  import opened Wrappers
  import opened GoldSecret

  type User = string
  type Token = string

  datatype Status = Initialized | Locked | Processed

  datatype Blob = Blob(status: Status, goldtype: GoldType, account: User, recipient: User, signed: bool)

  /** How the delivery of the gold ends; an exception may come before or after the days were added. */
  datatype Delivery = Works | RaisesBefore | RaisesAfter

  /** One incoming request.  `refreshes` tells whether delivering the gold reloads the
      spender's account.  All three deliveries increment or commit some account, and that
      replaces the copy when it is the spender's own and the account is in the cache: the
      expiration for a onetime purchase, the gildings of somebody who gives to another, the
      inbox count of somebody who is sent a code.  A refund takes back the creddits bought
      through a blob, by an increment of the stored balance that has no floor; a purchase
      that a webhook confirms is the same increment, with the months negated. */
  datatype Request =
    | Spend(user: User, token: Token, months: int, employee: bool, recipientOk: bool, delivery: Delivery,
        refreshes: bool)
    | Ipn(token: Token, months: int, days: int)
    | Update(user: User, token: Token, signed: bool)
    | Refund(user: User, token: Token, months: int)

  /** `snapshot` is the creddit balance of the request's own copy of the account.
      `boughtAt`, `overwritten` and `delivered` are history: the creddits bought by the user,
      less those refunded, up to the reload, the stored balance minus the copy at the moment the copy was
      committed, and the blob whose gold was delivered before the request failed. */
  datatype Pc =
    | Start
    | Loaded(snapshot: int)
    | Taken(snapshot: int, blob: Blob)
    | InLock(snapshot: int, blob: Blob)
    | Checked(snapshot: int, blob: Blob)
    | Delivered(snapshot: int, blob: Blob, boughtAt: int)
    | Paid(blob: Blob, overwritten: int)
    | HoldsCopy(blob: Blob)
    | Refunded
    | Finished(blob: Blob, overwritten: int)
    | Failed(delivered: Option<Blob>)

  /** What the requests share: the blob cache, the accounts and the creddit locks.
      `bought` is history: the creddits each account bought so far, less those refunded. */
  datatype Db = Db(
    blobs: map<Token, Blob>, balance: map<User, int>, days: map<User, int>, locks: map<User, nat>,
    bought: map<User, int>)

  datatype State = State(db: Db, pcs: seq<Pc>)

  /** What a run starts from: the requests, the blobs in the cache and the creddit balances. */
  datatype Setting = Setting(qs: seq<Request>, blobs: map<Token, Blob>, balance: map<User, int>)

  function Lookup(m: map<User, int>, u: User): int {
    if u in m then m[u] else 0
  }

  function Add(m: map<User, int>, u: User, n: int): map<User, int> {
    m[u := Lookup(m, u) + n]
  }

  function Init(g: Setting): State {
    State(Db(g.blobs, g.balance, map[], map[], map[]), seq(|g.qs|, _ => Start))
  }

  /** `get_blob`: hands out an initialized blob once it has marked it locked. */
  function GetBlob(db: Db, token: Token): Option<Blob> {
    if token in db.blobs && db.blobs[token].status == Initialized
    then Some(db.blobs[token].(status := Locked)) else None
  }

  function SetBlob(db: Db, token: Token, b: Blob): Db {
    db.(blobs := db.blobs[token := b])
  }

  function Release(db: Db, u: User): Db {
    db.(locks := db.locks - {u})
  }

  /** Whom a direct spend gives its days to. */
  function SpendTarget(q: Request, b: Blob): User
    requires q.Spend?
  {
    if b.goldtype == Gift then b.recipient else q.user
  }

  predicate Acceptable(q: Request, b: Blob)
    requires q.Spend?
  {
    && (b.goldtype == Gift || b.goldtype == Code || b.goldtype == Onetime)
    && b.account == q.user
    && (b.goldtype == Gift ==> q.recipientOk)
  }

  /** The statement of `POST_spendcreddits` at `pc`, run by request number `r`. */
  function SpendAct(q: Request, db: Db, pc: Pc, r: nat): Option<(Db, Pc)>
    requires q.Spend?
  {
    match pc
    case Start => Some((db, if q.months < 1 then Failed(None) else Loaded(Lookup(db.balance, q.user))))
    case Loaded(snapshot) =>
      (match GetBlob(db, q.token)
       case None => Some((db, Failed(None)))
       case Some(b) => Some((SetBlob(db, q.token, b), Taken(snapshot, b))))
    case Taken(snapshot, b) =>
      if !Acceptable(q, b) then Some((db, Failed(None)))
      else if q.user in db.locks then None
      else Some((db.(locks := db.locks[q.user := r]), InLock(snapshot, b)))
    case InLock(snapshot, b) =>
      if !q.employee && snapshot < q.months then Some((Release(db, q.user), Failed(None)))
      else Some((db, Checked(snapshot, b)))
    case Checked(snapshot, b) =>
      if q.delivery.RaisesBefore? then Some((Release(db, q.user), Failed(None)))
      else
        var given := if b.goldtype == Code then db else db.(days := Add(db.days, SpendTarget(q, b), q.months * 31));
        if q.delivery.RaisesAfter? then Some((Release(given, q.user), Failed(Some(b))))
        else
          var copy := if q.refreshes then Lookup(db.balance, q.user) else snapshot;
          Some((given, Delivered(copy, b, Lookup(db.bought, q.user))))
    case Delivered(snapshot, b, _) =>
      Some(if q.employee then (Release(db, q.user), Paid(b, 0))
           else (Release(db.(balance := db.balance[q.user := snapshot - q.months]), q.user),
                 Paid(b, Lookup(db.balance, q.user) - snapshot)))
    case Paid(b, overwritten) => Some((SetBlob(db, q.token, b.(status := Processed)), Finished(b, overwritten)))
    case _ => None
  }

  /** The statement of `finish` at `pc`. */
  function IpnAct(q: Request, db: Db, pc: Pc): Option<(Db, Pc)>
    requires q.Ipn?
  {
    match pc
    case Start =>
      (match GetBlob(db, q.token)
       case None => Some((db, Failed(None)))
       case Some(b) => Some((SetBlob(db, q.token, b), Taken(0, b))))
    case Taken(_, b) =>
      Some((match b.goldtype
            case Creddits => db.(balance := Add(db.balance, b.account, q.months),
                bought := Add(db.bought, b.account, q.months))
            case Code => db
            case Gift => db.(days := Add(db.days, b.recipient, q.days))
            case _ => db.(days := Add(db.days, b.account, q.days)),
            Paid(b, 0)))
    case Paid(b, overwritten) => Some((SetBlob(db, q.token, b.(status := Processed)), Finished(b, overwritten)))
    case _ => None
  }

  /** The statement of `update_blob` at `pc`: an unlocked read, then an unlocked write. */
  function UpdateAct(q: Request, db: Db, pc: Pc): Option<(Db, Pc)>
    requires q.Update?
  {
    match pc
    case Start =>
      if q.token in db.blobs && db.blobs[q.token].account == q.user then Some((db, HoldsCopy(db.blobs[q.token])))
      else Some((db, Failed(None)))
    case HoldsCopy(b) => Some((SetBlob(db, q.token, b.(signed := q.signed)), Finished(b, 0)))
    case _ => None
  }

  /** `subtract_gold_creddits`, one increment by a negative number. */
  function RefundAct(q: Request, db: Db, pc: Pc): Option<(Db, Pc)>
    requires q.Refund?
  {
    if pc != Start then None
    else Some((db.(balance := Add(db.balance, q.user, -q.months), bought := Add(db.bought, q.user, -q.months)),
        Refunded))
  }

  function Act(q: Request, db: Db, pc: Pc, r: nat): Option<(Db, Pc)> {
    match q
    case Spend(_, _, _, _, _, _, _) => SpendAct(q, db, pc, r)
    case Ipn(_, _, _) => IpnAct(q, db, pc)
    case Update(_, _, _) => UpdateAct(q, db, pc)
    case Refund(_, _, _) => RefundAct(q, db, pc)
  }

  /** Request `r` takes its next step; None when it is blocked or over. */
  function Step(qs: seq<Request>, s: State, r: nat): (t: Option<State>)
    ensures t.Some? ==> |t.value.pcs| == |s.pcs|
  {
    if r >= |qs| || r >= |s.pcs| then None
    else match Act(qs[r], s.db, s.pcs[r], r)
      case None => None
      case Some((db, pc)) => Some(State(db, s.pcs[r := pc]))
  }

  function Run(g: Setting, labels: seq<nat>): (t: Option<State>)
    ensures t.Some? ==> |t.value.pcs| == |g.qs|
    decreases |labels|
  {
    if labels == [] then Some(Init(g))
    else match Run(g, labels[..|labels| - 1])
      case None => None
      case Some(s) => Step(g.qs, s, labels[|labels| - 1])
  }
}
