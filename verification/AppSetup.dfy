/**
 The double-checked initialisation of r2/r2/config/middleware.py: concurrent first
 requests pass through `RedditApp.setup_app_env`, which reads two fields without the
 lock and loads controllers and registers hooks under it.  Loading, the CSRF check and
 registration may each raise.
 */
module AppSetup {
  import opened Wrappers

  /** Where one request stands; the states from `LoadCheck` to `Release` hold the lock. */
  datatype Pc =
    | ReadControllers | ReadHooks | Acquire
    | LoadCheck | Load | SetControllers | CsrfCheck
    | RegisterCheck | Register | SetHooks | Release
    | Left | Raised

  /** The two fields of the application.  `loads` and `registrations` count completed
      calls and the csrf flags record how the check ended; those four are history. */
  datatype App = App(
    controllers: bool, hooks: bool,
    loads: nat, registrations: nat, csrfPassed: bool, csrfFailed: bool)

  datatype State = State(app: App, lock: Option<nat>, pcs: seq<Pc>)

  datatype Label = Label(request: nat, raises: bool)

  predicate Locked(pc: Pc) {
    pc.LoadCheck? || pc.Load? || pc.SetControllers? || pc.CsrfCheck?
    || pc.RegisterCheck? || pc.Register? || pc.SetHooks? || pc.Release?
  }

  function Init(n: nat): State {
    State(App(false, false, 0, 0, false, false), None, seq(n, _ => ReadControllers))
  }

  /** The statement at `pc`; an exception leaves the `with` block. */
  function Advance(app: App, pc: Pc, raises: bool): (App, Pc)
    requires !pc.Left? && !pc.Raised?
  {
    match pc
    case ReadControllers => (app, if app.controllers then ReadHooks else Acquire)
    case ReadHooks => (app, if app.hooks then Left else Acquire)
    case Acquire => (app, LoadCheck)
    case LoadCheck => (app, if app.controllers then RegisterCheck else Load)
    case Load => if raises then (app, Raised) else (app.(loads := app.loads + 1), SetControllers)
    case SetControllers => (app.(controllers := true), CsrfCheck)
    case CsrfCheck =>
      if raises then (app.(csrfFailed := true), Raised) else (app.(csrfPassed := true), RegisterCheck)
    case RegisterCheck => (app, if app.hooks then Release else Register)
    case Register => if raises then (app, Raised) else (app.(registrations := app.registrations + 1), SetHooks)
    case SetHooks => (app.(hooks := true), Release)
    case Release => (app, Left)
  }

  /** Only `Acquire` can block; leaving the locked region releases the lock. */
  function Step(s: State, l: Label): Option<State> {
    var r := l.request;
    if r >= |s.pcs| || s.pcs[r].Left? || s.pcs[r].Raised? || (s.pcs[r].Acquire? && s.lock.Some?) then None
    else
      var (app, pc) := Advance(s.app, s.pcs[r], l.raises);
      Some(State(app, if Locked(pc) then Some(r) else if Locked(s.pcs[r]) then None else s.lock, s.pcs[r := pc]))
  }

  function Run(n: nat, labels: seq<Label>): (r: Option<State>)
    ensures r.Some? ==> |r.value.pcs| == n
    decreases |labels|
  {
    if labels == [] then Some(Init(n))
    else match Run(n, labels[..|labels| - 1])
      case None => None
      case Some(s) => Step(s, labels[|labels| - 1])
  }

  // ---------------------------------------------------------------- invariant

  /** `at` is the position of the lock holder, if there is one. */
  ghost predicate AppInv(app: App, at: Option<Pc>) {
    && app.loads == (if app.controllers || at == Some(SetControllers) then 1 else 0)
    && app.registrations == (if app.hooks || at == Some(SetHooks) then 1 else 0)
    && (at == Some(Load) || at == Some(SetControllers) ==> !app.controllers)
    && (at == Some(Register) || at == Some(SetHooks) ==> !app.hooks)
    && (app.hooks ==> app.controllers)
    && (at.Some? && !at.value.LoadCheck? && !at.value.Load? && !at.value.SetControllers? ==> app.controllers)
    && (at == Some(Release) ==> app.hooks)
    && !(app.csrfPassed && app.csrfFailed)
    && (app.csrfPassed || app.csrfFailed <==> app.controllers && at != Some(CsrfCheck))
  }

  ghost predicate Inv(s: State) {
    && (s.lock.Some? ==> s.lock.value < |s.pcs|)
    && (forall r | 0 <= r < |s.pcs| :: Locked(s.pcs[r]) <==> s.lock == Some(r))
    && (forall r | 0 <= r < |s.pcs| :: s.pcs[r] == Left ==> s.app.hooks)
    && AppInv(s.app, if s.lock.Some? then Some(s.pcs[s.lock.value]) else None)
  }

  lemma AdvanceKeepsAppInv(app: App, pc: Pc, raises: bool)
    requires Locked(pc) && AppInv(app, Some(pc))
    ensures var (app', pc') := Advance(app, pc, raises);
      AppInv(app', if Locked(pc') then Some(pc') else None) && (app.hooks ==> app'.hooks)
          && (pc' == Left ==> app'.hooks)
  {
  }

  lemma StepKeepsInv(s: State, l: Label)
    requires Inv(s) && Step(s, l).Some?
    ensures Inv(Step(s, l).value)
  {
    var pc := s.pcs[l.request];
    assert Locked(pc) <==> s.lock == Some(l.request);
    if Locked(pc) { AdvanceKeepsAppInv(s.app, pc, l.raises); }
  }

  lemma {:induction false} InvAlways(n: nat, labels: seq<Label>)
    requires Run(n, labels).Some?
    ensures Inv(Run(n, labels).value)
    decreases |labels|
  {
    if labels != [] {
      InvAlways(n, labels[..|labels| - 1]);
      StepKeepsInv(Run(n, labels[..|labels| - 1]).value, labels[|labels| - 1]);
    }
  }

  // ---------------------------------------------------------------- theorems

  /** In every interleaving, with exceptions anywhere: controllers load and hooks register
      at most once, nobody leaves before both are done, and the lock excludes. */
  lemma SetupRunsOnce(n: nat, labels: seq<Label>)
    requires Run(n, labels).Some?
    ensures var s := Run(n, labels).value;
      && s.app.loads <= 1 && s.app.registrations <= 1
      && (forall r | 0 <= r < n :: s.pcs[r] == Left ==>
            s.app.controllers && s.app.hooks && s.app.loads == 1 && s.app.registrations == 1)
      && (forall r, q | 0 <= r < n && 0 <= q < n :: Locked(s.pcs[r]) && Locked(s.pcs[q]) ==> r == q)
  {
    InvAlways(n, labels);
  }

  /** The CSRF check runs once in the life of the process: a request that leaves was
      preceded by a passed check if and only if no request failed the check. */
  lemma CsrfCheckedIffItDidNotRaise(n: nat, labels: seq<Label>, r: nat)
    requires Run(n, labels).Some? && r < n && Run(n, labels).value.pcs[r] == Left
    ensures Run(n, labels).value.app.csrfPassed <==>
            forall k | 0 < k <= |labels| :: !FailsCsrf(n, labels, k)
  {
    InvAlways(n, labels);
    FailureIsRemembered(n, labels);
    if !Run(n, labels).value.app.csrfFailed { RegisteredMeansChecked(n, labels); }
  }

  /** Step `k` of the run is a CSRF check that raises. */
  ghost predicate FailsCsrf(n: nat, labels: seq<Label>, k: nat)
    requires 0 < k <= |labels|
  {
    var before, l := Run(n, labels[..k - 1]), labels[k - 1];
    before.Some? && l.request < n && before.value.pcs[l.request] == CsrfCheck && l.raises
  }

  lemma {:induction false} FailureIsRemembered(n: nat, labels: seq<Label>)
    requires Run(n, labels).Some?
    ensures Run(n, labels).value.app.csrfFailed <==> exists k :: 0 < k <= |labels| && FailsCsrf(n, labels, k)
    decreases |labels|
  {
    if labels != [] {
      var m := |labels| - 1;
      FailureIsRemembered(n, labels[..m]);
      forall k | 0 < k <= m
        ensures FailsCsrf(n, labels[..m], k) <==> FailsCsrf(n, labels, k)
      {
        assert labels[..m][..k - 1] == labels[..k - 1];
      }
      var before, after := Run(n, labels[..m]).value, Run(n, labels).value;
      assert after.app.csrfFailed <==> before.app.csrfFailed || FailsCsrf(n, labels, |labels|);
      if before.app.csrfFailed {
        var k :| 0 < k <= m && FailsCsrf(n, labels[..m], k);
        assert FailsCsrf(n, labels, k);
      }
    }
  }

  /** Once hooks are registered no request can be at the check, so it has ended one way or the other. */
  lemma RegisteredMeansChecked(n: nat, labels: seq<Label>)
    requires Run(n, labels).Some? && Run(n, labels).value.app.hooks && !Run(n, labels).value.app.csrfFailed
    ensures Run(n, labels).value.app.csrfPassed
    decreases |labels|
  {
    InvAlways(n, labels);
    if labels != [] {
      var m := |labels| - 1;
      InvAlways(n, labels[..m]);
      if Run(n, labels[..m]).value.app.hooks { RegisteredMeansChecked(n, labels[..m]); }
    }
  }

  lemma Extend(n: nat, before: seq<Label>, l: Label) returns (labels: seq<Label>)
    requires Run(n, before).Some?
    ensures labels == before + [l] && Run(n, labels) == Step(Run(n, before).value, l)
  {
    labels := before + [l];
    assert labels[..|labels| - 1] == before;
  }

  ghost predicate At(labels: seq<Label>, first: Pc, second: Pc, lock: Option<nat>, app: App) {
    var r := Run(2, labels);
    r.Some? && r.value.app == app && r.value.lock == lock && r.value.pcs[0] == first && r.value.pcs[1] == second
  }

  predicate LockAfter(before: Option<nat>, r: nat, from: Pc, to: Pc, after: Option<nat>) {
    after == if Locked(to) then Some(r) else if Locked(from) then None else before
  }

  /** One step of the first request in a two-request run. */
  lemma MoveFirst(labels: seq<Label>, raises: bool, pc: Pc, other: Pc, lock: Option<nat>, app: App,
                  pc': Pc, lock': Option<nat>, app': App) returns (next: seq<Label>)
    requires At(labels, pc, other, lock, app)
    requires !pc.Left? && !pc.Raised? && (pc.Acquire? ==> lock == None)
    requires Advance(app, pc, raises) == (app', pc') && LockAfter(lock, 0, pc, pc', lock')
    ensures At(next, pc', other, lock', app')
  {
    next := Extend(2, labels, Label(0, raises));
  }

  /** One step of the second request. */
  lemma MoveSecond(labels: seq<Label>, pc: Pc, other: Pc, lock: Option<nat>, app: App,
                   pc': Pc, lock': Option<nat>, app': App) returns (next: seq<Label>)
    requires At(labels, other, pc, lock, app)
    requires !pc.Left? && !pc.Raised? && (pc.Acquire? ==> lock == None)
    requires Advance(app, pc, false) == (app', pc') && LockAfter(lock, 1, pc, pc', lock')
    ensures At(next, other, pc', lock', app')
  {
    next := Extend(2, labels, Label(1, false));
  }

  lemma Start()
    ensures At([], ReadControllers, ReadControllers, None, App(false, false, 0, 0, false, false))
  {
    assert Run(2, []) == Some(Init(2));
  }

  lemma FirstRequestFailsCsrf() returns (labels: seq<Label>)
    ensures At(labels, Raised, ReadControllers, None, App(true, false, 1, 0, false, true))
  {
    hide At;
    var untouched, loaded := App(false, false, 0, 0, false, false), App(false, false, 1, 0, false, false);
    var failed := App(true, false, 1, 0, false, true);
    Start();
    labels := [];
    labels := MoveFirst(labels, false, ReadControllers, ReadControllers, None, untouched,
      Acquire, None, untouched);
    labels := MoveFirst(labels, false, Acquire, ReadControllers, None, untouched,
      LoadCheck, Some(0), untouched);
    labels := MoveFirst(labels, false, LoadCheck, ReadControllers, Some(0), untouched,
      Load, Some(0), untouched);
    labels := MoveFirst(labels, false, Load, ReadControllers, Some(0), untouched,
      SetControllers, Some(0), loaded);
    labels := MoveFirst(labels, false, SetControllers, ReadControllers, Some(0), loaded,
      CsrfCheck, Some(0), loaded.(controllers := true));
    labels := MoveFirst(labels, true, CsrfCheck, ReadControllers, Some(0), loaded.(controllers := true),
      Raised, None, failed);
  }

  /** After one request failed the CSRF check, the next one is served unchecked. */
  lemma FailedCsrfCheckIsSkippedNextTime() returns (labels: seq<Label>)
    ensures At(labels, Raised, Left, None, App(true, true, 1, 1, false, true))
  {
    hide At;
    var failed, registered := App(true, false, 1, 0, false, true), App(true, false, 1, 1, false, true);
    var done := registered.(hooks := true);
    labels := FirstRequestFailsCsrf();
    labels := MoveSecond(labels, ReadControllers, Raised, None, failed,
      ReadHooks, None, failed);
    labels := MoveSecond(labels, ReadHooks, Raised, None, failed,
      Acquire, None, failed);
    labels := MoveSecond(labels, Acquire, Raised, None, failed,
      LoadCheck, Some(1), failed);
    labels := MoveSecond(labels, LoadCheck, Raised, Some(1), failed,
      RegisterCheck, Some(1), failed);
    labels := MoveSecond(labels, RegisterCheck, Raised, Some(1), failed,
      Register, Some(1), failed);
    labels := MoveSecond(labels, Register, Raised, Some(1), failed,
      SetHooks, Some(1), registered);
    labels := MoveSecond(labels, SetHooks, Raised, Some(1), registered,
      Release, Some(1), done);
    labels := MoveSecond(labels, Release, Raised, Some(1), done,
      Left, None, done);
  }

  function Rank(pc: Pc): nat {
    match pc
    case ReadControllers => 11 case ReadHooks => 10 case Acquire => 9
    case LoadCheck => 8 case Load => 7 case SetControllers => 6 case CsrfCheck => 5
    case RegisterCheck => 4 case Register => 3 case SetHooks => 2 case Release => 1
    case Left => 0 case Raised => 0
  }

  /** Every request ends: its own steps only move it forward, others leave it alone. */
  lemma RequestsMoveForward(s: State, l: Label, r: nat)
    requires Step(s, l).Some? && r < |s.pcs|
    ensures |Step(s, l).value.pcs| == |s.pcs|
    ensures r == l.request ==> Rank(Step(s, l).value.pcs[r]) < Rank(s.pcs[r])
    ensures r != l.request ==> Step(s, l).value.pcs[r] == s.pcs[r]
  {
  }

  /** No deadlock: while some request is under way, the lock holder or that request can move. */
  lemma SomeRequestCanMove(n: nat, labels: seq<Label>, r: nat) returns (l: Label)
    requires Run(n, labels).Some? && r < n
    requires !Run(n, labels).value.pcs[r].Left? && !Run(n, labels).value.pcs[r].Raised?
    ensures Step(Run(n, labels).value, l).Some?
  {
    InvAlways(n, labels);
    var s := Run(n, labels).value;
    l := Label(if s.lock.Some? then s.lock.value else r, false);
  }

  // ---------------------------------------------------------------- the check without the lock

  /** Both fields are set and the request has not turned to the lock. */
  predicate OnFastPath(s: State, r: nat) {
    && r < |s.pcs| && s.app.controllers && s.app.hooks
    && (s.pcs[r] == ReadControllers || s.pcs[r] == ReadHooks || s.pcs[r] == Left)
  }

  lemma FastPathStep(s: State, l: Label, r: nat)
    requires OnFastPath(s, r) && Step(s, l).Some?
    ensures OnFastPath(Step(s, l).value, r)
  {
  }

  /** A request that starts once the setup is complete leaves without ever taking the lock,
      and without raising. */
  lemma {:induction false} NoLockOnceSetUp(n: nat, start: seq<Label>, labels: seq<Label>, r: nat)
    requires Run(n, labels).Some? && start <= labels && r < n
    requires Run(n, start).Some? && OnFastPath(Run(n, start).value, r)
    ensures OnFastPath(Run(n, labels).value, r)
    decreases |labels|
  {
    if |start| < |labels| {
      NoLockOnceSetUp(n, start, labels[..|labels| - 1], r);
      FastPathStep(Run(n, labels[..|labels| - 1]).value, labels[|labels| - 1], r);
      hide OnFastPath, Step;
    } else {
      assert start == labels;
    }
  }
}
