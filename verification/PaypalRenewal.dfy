/**
 Duplicate PayPal renewal notices (`POST_ipn` in r2/r2/controllers/ipn.py): each delivery
 first inserts a ledger row under a unique transaction id and only then credits the days.
 A delivery may die at any point.
 */
module PaypalRenewal {
  import opened Wrappers

  /** `Duplicate`: the insert raised IntegrityError and the request answered "Ok". */
  datatype Pc = AtInsert | AtCredit | Credited | Duplicate | Dead

  /** A notice names its transaction and the days its payment is worth. */
  datatype Notice = Notice(txn: string, days: int)

  /** `ledger` maps a transaction to the notice that inserted its row; `credited` is the
      list of notices whose days were added to the account. */
  datatype State = State(ledger: map<string, nat>, credited: seq<nat>, pcs: seq<Pc>)

  datatype Label = Move(n: nat) | Die(n: nat)

  function Init(notices: seq<Notice>): State {
    State(map[], [], seq(|notices|, _ => AtInsert))
  }

  function Step(notices: seq<Notice>, s: State, l: Label): Option<State>
    requires |s.pcs| == |notices|
  {
    var n := l.n;
    if n >= |notices| then None
    else match s.pcs[n]
      case AtInsert =>
        if l.Die? then Some(s.(pcs := s.pcs[n := Dead]))
        else if notices[n].txn in s.ledger then Some(s.(pcs := s.pcs[n := Duplicate]))
        else Some(s.(ledger := s.ledger[notices[n].txn := n], pcs := s.pcs[n := AtCredit]))
      case AtCredit =>
        if l.Die? then Some(s.(pcs := s.pcs[n := Dead]))
        else Some(s.(credited := s.credited + [n], pcs := s.pcs[n := Credited]))
      case _ => None
  }

  function Run(notices: seq<Notice>, labels: seq<Label>): (r: Option<State>)
    ensures r.Some? ==> |r.value.pcs| == |notices|
    decreases |labels|
  {
    if labels == [] then Some(Init(notices))
    else match Run(notices, labels[..|labels| - 1])
      case None => None
      case Some(s) => Step(notices, s, labels[|labels| - 1])
  }

  /** How many of the credits in `credited` belong to transaction `txn`. */
  function Credits(notices: seq<Notice>, credited: seq<nat>, txn: string): nat
    requires forall i | 0 <= i < |credited| :: credited[i] < |notices|
    decreases |credited|
  {
    if credited == [] then 0
    else
      Credits(notices, credited[..|credited| - 1], txn)
        + if notices[credited[|credited| - 1]].txn == txn then 1 else 0
  }

  /** The days that these credits add up to for transaction `txn`. */
  function DaysCredited(notices: seq<Notice>, credited: seq<nat>, txn: string): int
    requires forall i | 0 <= i < |credited| :: credited[i] < |notices|
    decreases |credited|
  {
    if credited == [] then 0
    else
      var last := notices[credited[|credited| - 1]];
      DaysCredited(notices, credited[..|credited| - 1], txn) + if last.txn == txn then last.days else 0
  }

  ghost predicate RowInv(notices: seq<Notice>, s: State, txn: string)
    requires |s.pcs| == |notices| && forall i | 0 <= i < |s.credited| :: s.credited[i] < |notices|
  {
    if txn !in s.ledger then
      Credits(notices, s.credited, txn) == 0 && DaysCredited(notices, s.credited, txn) == 0
    else
      var w := s.ledger[txn];
      && w < |notices| && notices[w].txn == txn
      && (s.pcs[w] == AtCredit || s.pcs[w] == Credited || s.pcs[w] == Dead)
      && Credits(notices, s.credited, txn) == (if s.pcs[w] == Credited then 1 else 0)
      && DaysCredited(notices, s.credited, txn) == (if s.pcs[w] == Credited then notices[w].days else 0)
  }

  ghost predicate Inv(notices: seq<Notice>, s: State) {
    && |s.pcs| == |notices|
    && (forall i | 0 <= i < |s.credited| :: s.credited[i] < |notices|)
    && (forall n | 0 <= n < |notices| :: s.pcs[n] == AtCredit || s.pcs[n] == Credited ==>
          notices[n].txn in s.ledger && s.ledger[notices[n].txn] == n)
    && (forall n | 0 <= n < |notices| :: s.pcs[n] == Duplicate ==> notices[n].txn in s.ledger)
    && (forall txn :: RowInv(notices, s, txn))
  }

  lemma StepKeepsInv(notices: seq<Notice>, s: State, l: Label)
    requires Inv(notices, s) && Step(notices, s, l).Some?
    ensures Inv(notices, Step(notices, s, l).value)
  {
    var t := Step(notices, s, l).value;
    var n := l.n;
    if t.credited != s.credited { assert t.credited[..|t.credited| - 1] == s.credited; }
    forall txn
      ensures RowInv(notices, t, txn)
    {
      assert RowInv(notices, s, txn);
      assert RowInv(notices, s, notices[n].txn);
    }
  }

  lemma {:induction false} InvAlways(notices: seq<Notice>, labels: seq<Label>)
    requires Run(notices, labels).Some?
    ensures Inv(notices, Run(notices, labels).value)
    decreases |labels|
  {
    if labels != [] {
      InvAlways(notices, labels[..|labels| - 1]);
      StepKeepsInv(notices, Run(notices, labels[..|labels| - 1]).value, labels[|labels| - 1]);
    }
  }

  /** A transaction is credited at most once in every interleaving, and it has been
      credited if and only if the delivery that inserted its row went on to credit it. */
  lemma CreditedAtMostOnce(notices: seq<Notice>, labels: seq<Label>, txn: string)
    requires Run(notices, labels).Some?
    ensures var s := Run(notices, labels).value;
      && (forall i | 0 <= i < |s.credited| :: s.credited[i] < |notices|)
      && Credits(notices, s.credited, txn) <= 1
      && (Credits(notices, s.credited, txn) == 1 <==>
            exists n :: 0 <= n < |notices| && notices[n].txn == txn && s.pcs[n] == Credited)
  {
    InvAlways(notices, labels);
    var s := Run(notices, labels).value;
    assert RowInv(notices, s, txn);
  }

  /** When every delivery is over and none died between its insert and its credit, each
      notified transaction that some delivery processed has been credited exactly once. */
  lemma CreditedExactlyOnce(notices: seq<Notice>, labels: seq<Label>, n: nat)
    requires Run(notices, labels).Some? && n < |notices|
    requires var s := Run(notices, labels).value; s.pcs[n] == Credited || s.pcs[n] == Duplicate
    requires forall m | 0 <= m < |notices| :: Run(notices, labels).value.pcs[m] != AtCredit
    ensures var s := Run(notices, labels).value; var txn := notices[n].txn;
      && txn in s.ledger && s.ledger[txn] < |notices|
      && (forall i | 0 <= i < |s.credited| :: s.credited[i] < |notices|)
      && (Credits(notices, s.credited, txn) == 1 <==> s.pcs[s.ledger[txn]] != Dead)
      && DaysCredited(notices, s.credited, txn)
         == (if s.pcs[s.ledger[txn]] == Dead then 0 else notices[s.ledger[txn]].days)
  {
    InvAlways(notices, labels);
    assert RowInv(notices, Run(notices, labels).value, notices[n].txn);
  }
}
