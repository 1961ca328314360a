/** Exactly when a payment blob is handed out more than once. */
module PaymentReopenings {
  import opened Wrappers
  import opened Payments
  import opened PaymentTheorems

  /** Before the first hand-out: the blob is initialized, nobody holds it, and every copy of
      it that an update has read is of that status too. */
  ghost predicate Untouched(qs: seq<Request>, s: State, token: Token) {
    && |s.pcs| == |qs| && token in s.db.blobs && s.db.blobs[token].status == Initialized
    && (forall r | 0 <= r < |qs| :: UntouchedBy(qs[r], s.pcs[r], token))
  }

  predicate UntouchedBy(q: Request, pc: Pc, token: Token) {
    && (q.token == token ==> !Holding(pc) && (pc.HoldsCopy? ==> pc.blob.status == Initialized))
    && (q.Update? ==> !Holding(pc)) && (pc.HoldsCopy? ==> q.Update?)
  }

  lemma ActKeepsUntouched(q: Request, db: Db, pc: Pc, r: nat, token: Token)
    requires Act(q, db, pc, r).Some? && UntouchedBy(q, pc, token)
    requires token in db.blobs && db.blobs[token].status == Initialized
    requires !(q.token == token && ((q.Spend? && pc.Loaded?) || (q.Ipn? && pc.Start?)))
    ensures var (db', pc') := Act(q, db, pc, r).value;
      UntouchedBy(q, pc', token) && token in db'.blobs && db'.blobs[token].status == Initialized
  {
    ActStatus(q, db, pc, r, token);
    ActHolding(q, db, pc, r);
    if q.Update? {
      assert Act(q, db, pc, r) == UpdateAct(q, db, pc);
    } else {
      NoNewCopies(q, db, pc, r);
    }
    hide Act, UpdateAct;
  }

  lemma NoNewCopies(q: Request, db: Db, pc: Pc, r: nat)
    requires Act(q, db, pc, r).Some? && !q.Update?
    ensures !Act(q, db, pc, r).value.1.HoldsCopy?
  {
  }

  lemma StepKeepsUntouched(qs: seq<Request>, s: State, r: nat, token: Token)
    requires Untouched(qs, s, token) && Step(qs, s, r).Some? && !HandsOut(qs, s, r, token)
    ensures Untouched(qs, Step(qs, s, r).value, token)
  {
    ActKeepsUntouched(qs[r], s.db, s.pcs[r], r, token);
    hide Act, UntouchedBy;
  }

  lemma {:induction false} UntouchedUntilHandedOut(
    g: Setting, labels: seq<nat>, token: Token)
    requires Run(g, labels).Some? && token in g.blobs && g.blobs[token].status == Initialized
    requires HandOuts(g, labels, token) == 0
    ensures Untouched(g.qs, Run(g, labels).value, token)
    ensures Reopenings(g, labels, token) == 0
    decreases |labels|
  {
    if labels != [] {
      var before, r := labels[..|labels| - 1], labels[|labels| - 1];
      UntouchedUntilHandedOut(g, before, token);
      StepKeepsUntouched(g.qs, Run(g, before).value, r, token);
    }
  }

  /** Step `k` hands the blob out after it has been made available again. */
  ghost predicate HandsOutReopened(
    g: Setting, labels: seq<nat>, token: Token, k: int)
    requires Run(g, labels).Some? && 0 <= k < |labels|
  {
    PrefixRuns(g, labels, k);
    && HandsOut(g.qs, Run(g, labels[..k]).value, labels[k], token)
    && Reopenings(g, labels[..k], token) > 0
  }

  lemma SamePrefix(g: Setting, labels: seq<nat>, token: Token, k: nat)
    requires Run(g, labels).Some? && k < |labels| - 1
    ensures Run(g, labels[..|labels| - 1]).Some?
    ensures HandsOutReopened(g, labels[..|labels| - 1], token, k)
       <==> HandsOutReopened(g, labels, token, k)
  {
    PrefixRuns(g, labels, |labels| - 1);
    assert labels[..|labels| - 1][..k] == labels[..k];
  }

  /** For the last step alone. */
  lemma LastHandOut(g: Setting, labels: seq<nat>, token: Token)
    requires labels != [] && Run(g, labels).Some? && token in g.blobs && g.blobs[token].status == Initialized
    ensures var m := |labels| - 1; var before := labels[..m];
      && Run(g, before).Some?
      && (HandsOutReopened(g, labels, token, m)
          <==> HandsOut(g.qs, Run(g, before).value, labels[m], token)
               && HandOuts(g, before, token) > 0)
  {
    var before := labels[..|labels| - 1];
    if HandOuts(g, before, token) == 0 {
      UntouchedUntilHandedOut(g, before, token);
    } else {
      HandOutsAreBoundedByReopenings(g, before, token);
    }
    hide Run, HandOuts, Reopenings;
  }

  /** In every interleaving a blob is handed out more than once if and only if some step
      hands it out after a stale update has made it available again. */
  lemma {:induction false} HandedOutTwiceIff(
    g: Setting, labels: seq<nat>, token: Token)
    requires Run(g, labels).Some? && token in g.blobs && g.blobs[token].status == Initialized
    ensures HandOuts(g, labels, token) > 1
       <==> exists k :: 0 <= k < |labels| && HandsOutReopened(g, labels, token, k)
    decreases |labels|
  {
    if labels != [] {
      var m := |labels| - 1;
      var before := labels[..m];
      HandedOutTwiceIff(g, before, token);
      LastHandOut(g, labels, token);
      assert HandOuts(g, labels, token) == HandOuts(g, before, token)
        + if HandsOut(g.qs, Run(g, before).value, labels[m], token) then 1 else 0;
      hide HandsOutReopened, HandsOut, HandOuts, Run;
      forall k | 0 <= k < m
        ensures HandsOutReopened(g, before, token, k) <==> HandsOutReopened(g, labels, token, k)
      {
        SamePrefix(g, labels, token, k);
      }
    }
  }
}
