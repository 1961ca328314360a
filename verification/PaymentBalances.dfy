/** What a creddit spend costs, and exactly when balances become negative. */
module PaymentBalances {
  import opened Wrappers
  import opened Payments
  import opened PaymentTheorems

  // ---------------------------------------------------------------- the copy of the account

  /** From loading the account to committing it. */
  predicate Early(pc: Pc) { pc.Loaded? || pc.Taken? || pc.InLock? || pc.Checked? }

  predicate Active(pc: Pc) { Early(pc) || pc.Delivered? }

  /** The step taken at `pc` copies the stored balance: the load, or a delivery that reloads. */
  predicate Copies(q: Request, pc: Pc) {
    q.Spend? && (pc.Start? || (pc.Checked? && q.refreshes))
  }

  /** The number of the last step at which request `r` copied the stored balance. */
  ghost function CopyStep(g: Setting, labels: seq<nat>, r: nat): (k: nat)
    requires Run(g, labels).Some? && r < |g.qs|
    ensures k <= |labels|
    decreases |labels|
  {
    if labels == [] then 0
    else
      var before := labels[..|labels| - 1];
      if labels[|labels| - 1] == r && Copies(g.qs[r], Run(g, before).value.pcs[r]) then |before|
      else CopyStep(g, before, r)
  }

  ghost function After(g: Setting, labels: seq<nat>, k: nat): (s: State)
    requires Run(g, labels).Some? && k <= |labels|
    ensures |s.pcs| == |g.qs|
  {
    PrefixRuns(g, labels, k);
    Run(g, labels[..k]).value
  }

  /** The balance of account `u` after the first `k` steps. */
  ghost function StoredAt(g: Setting, labels: seq<nat>, k: nat, u: User): int
    requires Run(g, labels).Some? && k <= |labels|
  {
    Lookup(After(g, labels, k).db.balance, u)
  }

  lemma AfterPrefix(g: Setting, labels: seq<nat>, m: nat, k: nat)
    requires Run(g, labels).Some? && k <= m <= |labels|
    ensures Run(g, labels[..m]).Some?
    ensures After(g, labels[..m], k) == After(g, labels, k)
  {
    PrefixRuns(g, labels, m);
    assert labels[..m][..k] == labels[..k];
  }

  /** What one statement does to the copy. */
  lemma ActCopy(q: Request, db: Db, pc: Pc, r: nat)
    requires q.Spend? && Act(q, db, pc, r).Some?
    ensures var pc' := Act(q, db, pc, r).value.1;
      && (Active(pc') ==> if Copies(q, pc) then pc'.snapshot == Lookup(db.balance, q.user)
                          else Active(pc) && pc'.snapshot == pc.snapshot)
      && (Early(pc') ==> pc.Start? || Early(pc)) && (pc'.Delivered? ==> pc.Checked?)
      && (Early(pc') && pc.Start? ==> pc'.Loaded?) && (Early(pc') ==> !pc.Checked?)
  {
  }

  /** The copy is the balance that was stored when it was taken. */
  lemma {:induction false} CopyIsStored(g: Setting, labels: seq<nat>, r: nat)
    requires Run(g, labels).Some? && r < |g.qs| && g.qs[r].Spend?
    requires Active(Run(g, labels).value.pcs[r])
    ensures var k := CopyStep(g, labels, r);
      Run(g, labels).value.pcs[r].snapshot == StoredAt(g, labels, k, g.qs[r].user)
    decreases |labels|
  {
    if labels != [] {
      var m, q := |labels| - 1, labels[|labels| - 1];
      var before := labels[..m];
      var s := Run(g, before).value;
      if q == r { ActCopy(g.qs[r], s.db, s.pcs[r], r); }
      hide Act;
      if q != r || !Copies(g.qs[r], s.pcs[r]) {
        CopyIsStored(g, before, r);
        AfterPrefix(g, labels, m, CopyStep(g, before, r));
      }
    }
  }

  /** In every interleaving: a commit lowers the stored balance by its months plus whatever
      was added to the account since the copy was taken.  So it costs its months, no more
      and no less, if and only if the stored balance is what it was then. */
  lemma CommitIsExactIffUnchanged(g: Setting, labels: seq<nat>, r: nat)
    requires Run(g, labels).Some? && r < |g.qs| && g.qs[r].Spend? && !g.qs[r].employee
    requires Run(g, labels).value.pcs[r].Delivered?
    ensures var s := Run(g, labels).value; Step(g.qs, s, r).Some?
    ensures var s, u := Run(g, labels).value, g.qs[r].user;
      var cost := Lookup(s.db.balance, u) - Lookup(Step(g.qs, s, r).value.db.balance, u);
      var copied := StoredAt(g, labels, CopyStep(g, labels, r), u);
      && cost == g.qs[r].months + (Lookup(s.db.balance, u) - copied)
      && (cost == g.qs[r].months <==> Lookup(s.db.balance, u) == copied)
  {
    CopyIsStored(g, labels, r);
    hide CopyStep, StoredAt, Run;
  }

  // ---------------------------------------------------------------- negative balances

  ghost predicate NonNegative(s: State) {
    forall u :: Lookup(s.db.balance, u) >= 0
  }

  /** After the steps `labels`, request `r` is about to commit a spend that it has to pay. */
  ghost predicate Commits(g: Setting, labels: seq<nat>, r: nat)
    requires Run(g, labels).Some?
  {
    r < |g.qs| && g.qs[r].Spend? && !g.qs[r].employee && Run(g, labels).value.pcs[r].Delivered?
  }

  /** It is, and it found less than its months stored when it took its copy. */
  ghost predicate CommitsUnderfunded(g: Setting, labels: seq<nat>, r: nat)
    requires Run(g, labels).Some?
  {
    && Commits(g, labels, r)
    && StoredAt(g, labels, CopyStep(g, labels, r), g.qs[r].user) < g.qs[r].months
  }

  /** After the steps `labels`, request `r` is about to take back more than is stored. */
  ghost predicate RefundsTooMuch(g: Setting, labels: seq<nat>, r: nat)
    requires Run(g, labels).Some?
  {
    && r < |g.qs| && g.qs[r].Refund? && Run(g, labels).value.pcs[r].Start?
    && Lookup(Run(g, labels).value.db.balance, g.qs[r].user) < g.qs[r].months
  }

  /** Step `k` of the run is an underfunded commit, or a refund of more than is stored. */
  ghost predicate Underfunded(g: Setting, labels: seq<nat>, k: nat)
    requires Run(g, labels).Some? && k < |labels|
  {
    PrefixRuns(g, labels, k);
    CommitsUnderfunded(g, labels[..k], labels[k]) || ExcessiveRefund(g, labels, k)
  }

  ghost predicate ExcessiveRefund(g: Setting, labels: seq<nat>, k: nat)
    requires Run(g, labels).Some? && k < |labels|
  {
    PrefixRuns(g, labels, k);
    RefundsTooMuch(g, labels[..k], labels[k])
  }

  /** The statement leaves the account of its user with a debt. */
  predicate Indebts(q: Request, db: Db, pc: Pc) {
    || (q.Spend? && !q.employee && pc.Delivered? && pc.snapshot < q.months)
    || (q.Refund? && pc.Start? && Lookup(db.balance, q.user) < q.months)
  }

  lemma ActNonNegative(q: Request, db: Db, pc: Pc, r: nat, u: User)
    requires Act(q, db, pc, r).Some? && (q.Ipn? ==> q.months >= 0) && Lookup(db.balance, u) >= 0
    ensures Lookup(Act(q, db, pc, r).value.0.balance, u) < 0 <==> !q.Ipn? && u == q.user && Indebts(q, db, pc)
  {
  }

  lemma StepNonNegative(qs: seq<Request>, s: State, r: nat)
    requires |s.pcs| == |qs| && Step(qs, s, r).Some? && NonNegative(s) && (qs[r].Ipn? ==> qs[r].months >= 0)
    ensures NonNegative(Step(qs, s, r).value) <==> !Indebts(qs[r], s.db, s.pcs[r])
  {
    var t := Step(qs, s, r).value;
    forall u
      ensures Lookup(t.db.balance, u) < 0 <==> !qs[r].Ipn? && u == qs[r].user && Indebts(qs[r], s.db, s.pcs[r])
    {
      ActNonNegative(qs[r], s.db, s.pcs[r], r, u);
    }
    hide Act, Lookup;
    if !qs[r].Ipn? { assert NonNegative(t) ==> Lookup(t.db.balance, qs[r].user) >= 0; }
  }

  lemma LastStepNonNegative(g: Setting, before: seq<nat>, r: nat)
    requires Run(g, before).Some? && Step(g.qs, Run(g, before).value, r).Some?
    requires forall r | 0 <= r < |g.qs| && g.qs[r].Ipn? :: g.qs[r].months >= 0
    requires NonNegative(Run(g, before).value)
    ensures NonNegative(Step(g.qs, Run(g, before).value, r).value)
       <==> !CommitsUnderfunded(g, before, r) && !RefundsTooMuch(g, before, r)
  {
    var s := Run(g, before).value;
    StepNonNegative(g.qs, s, r);
    hide Run, Act, CopyStep, StoredAt, NonNegative;
    if Commits(g, before, r) { CopyIsStored(g, before, r); }
  }

  /** In every interleaving that starts without debts: no balance is negative at any time if
      and only if no spend commits that found less than its months when it took its copy. */
  lemma {:induction false} NeverNegativeIff(g: Setting, labels: seq<nat>)
    requires Run(g, labels).Some? && forall u :: Lookup(g.balance, u) >= 0
    requires forall r | 0 <= r < |g.qs| && g.qs[r].Ipn? :: g.qs[r].months >= 0
    ensures (forall m: nat | m <= |labels| :: NonNegative(After(g, labels, m)))
       <==> (forall k: nat | k < |labels| :: !Underfunded(g, labels, k))
    decreases |labels|
  {
    if labels == [] {
      assert After(g, labels, 0) == Init(g);
    } else {
      var m := |labels| - 1;
      var before := labels[..m];
      NeverNegativeIff(g, before);
      if NonNegative(Run(g, before).value) {
        LastStepNonNegative(g, before, labels[m]);
      }
      assert before[..m] == before;
      assert After(g, before, m) == Run(g, before).value;
      NeverNegativeStep(g, labels);
      hide NonNegative, Underfunded, CommitsUnderfunded, RefundsTooMuch, After;
    }
  }

  /** What the two sides of the equivalence gain with the last step. */
  lemma NeverNegativeStep(g: Setting, labels: seq<nat>)
    requires labels != [] && Run(g, labels).Some?
    ensures var before := labels[..|labels| - 1]; Run(g, before).Some?
    ensures var before := labels[..|labels| - 1];
      (forall m: nat | m <= |labels| :: NonNegative(After(g, labels, m)))
      <==> (forall m: nat | m <= |before| :: NonNegative(After(g, before, m)))
           && NonNegative(Run(g, labels).value)
    ensures var before := labels[..|labels| - 1];
      (forall k: nat | k < |labels| :: !Underfunded(g, labels, k))
      <==> (forall k: nat | k < |before| :: !Underfunded(g, before, k))
           && !CommitsUnderfunded(g, before, labels[|before|]) && !RefundsTooMuch(g, before, labels[|before|])
  {
    var n := |labels| - 1;
    var before := labels[..n];
    PrefixRuns(g, labels, n);
    assert labels[..n + 1] == labels;
    assert After(g, labels, n + 1) == Run(g, labels).value;
    forall m: nat | m <= n ensures After(g, before, m) == After(g, labels, m) {
      AfterPrefix(g, labels, n, m);
    }
    forall k: nat | k < n
      ensures Underfunded(g, before, k) <==> Underfunded(g, labels, k)
    {
      assert before[..k] == labels[..k] && before[k] == labels[k];
    }
    assert Underfunded(g, labels, n)
      <==> CommitsUnderfunded(g, before, labels[n]) || RefundsTooMuch(g, before, labels[n]);
    hide Run, NonNegative, Underfunded, CommitsUnderfunded, RefundsTooMuch, After;
  }

  // ---------------------------------------------------------------- how it comes to that

  /** The copy still covers the months, unless it was reloaded after the check. */
  predicate Covered(q: Request, pc: Pc)
    requires q.Spend?
  {
    !q.employee && (pc.Checked? || (pc.Delivered? && !q.refreshes)) ==> pc.snapshot >= q.months
  }

  lemma {:induction false} CoveredAlways(g: Setting, labels: seq<nat>, r: nat)
    requires Run(g, labels).Some? && r < |g.qs| && g.qs[r].Spend?
    ensures Covered(g.qs[r], Run(g, labels).value.pcs[r])
    decreases |labels|
  {
    if labels != [] {
      CoveredAlways(g, labels[..|labels| - 1], r);
    }
  }

  /** A spend that has reloaded the account did so in its delivery step. */
  lemma {:induction false} ReloadedAtDelivery(g: Setting, labels: seq<nat>, r: nat)
    requires Run(g, labels).Some? && r < |g.qs| && g.qs[r].Spend? && g.qs[r].refreshes
    requires Run(g, labels).value.pcs[r].Delivered?
    ensures var j := CopyStep(g, labels, r);
      j < |labels| && labels[j] == r && After(g, labels, j).pcs[r].Checked?
    decreases |labels|
  {
    if labels != [] {
      var m, q := |labels| - 1, labels[|labels| - 1];
      var before := labels[..m];
      var s := Run(g, before).value;
      if q == r { ActCopy(g.qs[r], s.db, s.pcs[r], r); }
      hide Act;
      if q != r {
        ReloadedAtDelivery(g, before, r);
        AfterPrefix(g, labels, m, CopyStep(g, before, r));
      }
    }
  }

  ghost predicate EarlyBetween(g: Setting, labels: seq<nat>, r: nat, low: nat, high: nat)
    requires Run(g, labels).Some? && r < |g.qs| && high <= |labels|
  {
    forall m: nat | low < m <= high :: Early(After(g, labels, m).pcs[r])
  }

  lemma EarlyOneMore(g: Setting, labels: seq<nat>, r: nat, low: nat)
    requires labels != [] && Run(g, labels).Some? && r < |g.qs| && low < |labels|
    requires Early(Run(g, labels).value.pcs[r])
    requires Run(g, labels[..|labels| - 1]).Some?
    requires EarlyBetween(g, labels[..|labels| - 1], r, low, |labels| - 1)
    ensures EarlyBetween(g, labels, r, low, |labels|)
  {
    var n := |labels| - 1;
    assert labels[..n + 1] == labels;
    forall m: nat | m <= n ensures After(g, labels[..n], m) == After(g, labels, m) {
      AfterPrefix(g, labels, n, m);
    }
    assert After(g, labels, n + 1) == Run(g, labels).value;
    hide Run, After, Early;
  }

  /** Before its delivery, a spend has been on its way ever since it loaded the account. */
  lemma {:induction false} EarlySinceLoad(g: Setting, labels: seq<nat>, r: nat)
    requires Run(g, labels).Some? && r < |g.qs| && g.qs[r].Spend?
    requires Early(Run(g, labels).value.pcs[r])
    ensures var i := CopyStep(g, labels, r);
      && i < |labels| && labels[i] == r && After(g, labels, i).pcs[r].Start?
      && EarlyBetween(g, labels, r, i, |labels|)
    decreases |labels|
  {
    if labels != [] {
      var n, q := |labels| - 1, labels[|labels| - 1];
      var before := labels[..n];
      var s := Run(g, before).value;
      if q == r { ActCopy(g.qs[r], s.db, s.pcs[r], r); }
      hide Act, EarlyBetween;
      var i := CopyStep(g, labels, r);
      if q == r && s.pcs[r].Start? {
        assert EarlyBetween(g, before, r, n, n) by { NoneBetween(g, before, r); }
      } else {
        EarlySinceLoad(g, before, r);
        AfterPrefix(g, labels, n, i);
      }
      EarlyOneMore(g, labels, r, i);
    }
  }

  lemma NoneBetween(g: Setting, labels: seq<nat>, r: nat)
    requires Run(g, labels).Some? && r < |g.qs|
    ensures EarlyBetween(g, labels, r, |labels|, |labels|)
  {
  }

  predicate TakesBack(q: Request) { q.Refund? && q.months > 0 }

  /** Step `m` is a refund for account `u`, or a commit for it by a spend other than `r`. */
  ghost predicate OtherDebit(g: Setting, labels: seq<nat>, r: nat, u: User, m: nat)
    requires Run(g, labels).Some? && m < |labels|
  {
    PrefixRuns(g, labels, m);
    var q := labels[m];
    q != r && q < |g.qs| && !g.qs[q].Ipn? && g.qs[q].user == u && (Commits(g, labels[..m], q) || TakesBack(g.qs[q]))
  }

  lemma ActLowers(q: Request, db: Db, pc: Pc, r: nat, u: User)
    requires Act(q, db, pc, r).Some? && (q.Ipn? ==> q.months >= 0)
    requires Lookup(Act(q, db, pc, r).value.0.balance, u) < Lookup(db.balance, u)
    ensures (TakesBack(q) || (q.Spend? && !q.employee && pc.Delivered?)) && q.user == u
  {
  }

  /** A balance only falls through a commit or a refund; a spend that is early does not commit. */
  lemma {:induction false} DropNeedsDebit(g: Setting, labels: seq<nat>, r: nat, u: User, i: nat, j: nat)
    returns (m: nat)
    requires Run(g, labels).Some? && r < |g.qs| && g.qs[r].Spend? && i < j <= |labels|
    requires forall q | 0 <= q < |g.qs| && g.qs[q].Ipn? :: g.qs[q].months >= 0
    requires StoredAt(g, labels, j, u) < StoredAt(g, labels, i, u)
    requires labels[i] == r && After(g, labels, i).pcs[r].Start?
    requires EarlyBetween(g, labels, r, i, j)
    ensures i < m < j && OtherDebit(g, labels, r, u, m)
    decreases j
  {
    var n := j - 1;
    StepBetween(g, labels, n);
    var s, q := After(g, labels, n), labels[n];
    if Lookup(Act(g.qs[q], s.db, s.pcs[q], q).value.0.balance, u) < Lookup(s.db.balance, u) {
      ActLowers(g.qs[q], s.db, s.pcs[q], q, u);
      hide Act;
      m := n;
    } else {
      hide Act;
      m := DropNeedsDebit(g, labels, r, u, i, n);
    }
  }

  lemma StepBetween(g: Setting, labels: seq<nat>, n: nat)
    requires Run(g, labels).Some? && n < |labels|
    ensures Step(g.qs, After(g, labels, n), labels[n]) == Some(After(g, labels, n + 1))
  {
    PrefixRuns(g, labels, n + 1);
    assert labels[..n + 1][..n] == labels[..n];
  }

  /** An underfunded commit needs a reload, and a refund or another commit for the same
      account between the load of the account and the delivery. */
  lemma OverdraftNeedsAnotherDebit(g: Setting, labels: seq<nat>, r: nat)
    returns (i: nat, m: nat, j: nat)
    requires Run(g, labels).Some? && CommitsUnderfunded(g, labels, r)
    requires forall q | 0 <= q < |g.qs| && g.qs[q].Ipn? :: g.qs[q].months >= 0
    ensures i < m < j < |labels| && g.qs[r].refreshes && labels[i] == r && labels[j] == r
    ensures After(g, labels, i).pcs[r].Start? && After(g, labels, j).pcs[r].Checked?
    ensures StoredAt(g, labels, j, g.qs[r].user) < g.qs[r].months
    ensures OtherDebit(g, labels, r, g.qs[r].user, m) && Early(After(g, labels, m).pcs[r])
  {
    var u := g.qs[r].user;
    CoveredAlways(g, labels, r);
    CopyIsStored(g, labels, r);
    ReloadedAtDelivery(g, labels, r);
    j := CopyStep(g, labels, r);
    PrefixRuns(g, labels, j);
    var before := labels[..j];
    CoveredAlways(g, before, r);
    CopyIsStored(g, before, r);
    EarlySinceLoad(g, before, r);
    i := CopyStep(g, before, r);
    hide Run, CopyStep, EarlyBetween, OtherDebit;
    EarlyInPrefix(g, labels, r, i, j);
    AfterPrefix(g, labels, j, i);
    m := DropNeedsDebit(g, labels, r, u, i, j);
    EarlyAt(g, labels, r, i, j, m);
  }

  lemma EarlyAt(g: Setting, labels: seq<nat>, r: nat, low: nat, high: nat, m: nat)
    requires Run(g, labels).Some? && r < |g.qs| && low < m <= high <= |labels|
    requires EarlyBetween(g, labels, r, low, high)
    ensures Early(After(g, labels, m).pcs[r])
  {
  }

  lemma EarlyInPrefix(g: Setting, labels: seq<nat>, r: nat, low: nat, high: nat)
    requires Run(g, labels).Some? && r < |g.qs| && high <= |labels|
    requires Run(g, labels[..high]).Some? && EarlyBetween(g, labels[..high], r, low, high)
    ensures EarlyBetween(g, labels, r, low, high)
  {
    forall m: nat | m <= high ensures After(g, labels[..high], m) == After(g, labels, m) {
      AfterPrefix(g, labels, high, m);
    }
    hide Run, After, Early;
  }

  // ---------------------------------------------------------------- spends one after the other

  /** While a spend is on its way to its delivery, nothing else is taken from the account of
      its user: no other spend of the user commits, and no refund is made. */
  ghost predicate OneAtATime(g: Setting, labels: seq<nat>)
    requires Run(g, labels).Some?
  {
    forall m: nat, r: nat | m < |labels| && r < |g.qs| && g.qs[r].Spend? ::
      OtherDebit(g, labels, r, g.qs[r].user, m) ==> !Early(After(g, labels, m).pcs[r])
  }

  /** What an underfunded commit in step `k` needs, seen from the whole run. */
  lemma DebitBefore(g: Setting, labels: seq<nat>, k: nat) returns (m: nat)
    requires Run(g, labels).Some? && k < |labels| && Run(g, labels[..k]).Some?
    requires CommitsUnderfunded(g, labels[..k], labels[k])
    requires forall q | 0 <= q < |g.qs| && g.qs[q].Ipn? :: g.qs[q].months >= 0
    ensures m < k
    ensures var r := labels[k]; OtherDebit(g, labels, r, g.qs[r].user, m) && Early(After(g, labels, m).pcs[r])
  {
    var i, n, j := OverdraftNeedsAnotherDebit(g, labels[..k], labels[k]);
    AfterPrefix(g, labels, k, n);
    assert labels[..k][..n] == labels[..n] && labels[..k][n] == labels[n];
    m := n;
  }

  /** So balances never become negative when spends are made one at a time and no refund takes
      back more than is stored. */
  lemma SerialSpendsNeverOverdraw(g: Setting, labels: seq<nat>)
    requires Run(g, labels).Some? && OneAtATime(g, labels) && forall u :: Lookup(g.balance, u) >= 0
    requires forall r | 0 <= r < |g.qs| && g.qs[r].Ipn? :: g.qs[r].months >= 0
    requires forall k: nat | k < |labels| :: !ExcessiveRefund(g, labels, k)
    ensures forall m: nat | m <= |labels| :: NonNegative(After(g, labels, m))
  {
    NeverNegativeIff(g, labels);
    forall k: nat | k < |labels| ensures !Underfunded(g, labels, k) {
      PrefixRuns(g, labels, k);
      if CommitsUnderfunded(g, labels[..k], labels[k]) {
        var m := DebitBefore(g, labels, k);
        assert false;
      }
    }
  }
}
