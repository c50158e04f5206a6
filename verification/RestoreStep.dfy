/**
  The restore as it runs against Juju: atomic steps that can fail half way, the forward plan that
  stops at its first failure, the compensation that tries every step, and the restore of several
  targets in order.
 */
module RestoreStep {
  import opened Wrappers
  import opened RestoreSaga

  const PAUSE_ACTION := "pause"
  const RESUME_ACTION := "resume"

  class Juju {
    const apps: Topology
    const actions: map<App, set<string>>
    const leaders: set<App>
    var scale: map<App, nat>
    var paused: set<JujuUnit>

    constructor (apps: Topology, actions: map<App, set<string>>, leaders: set<App>, scale: map<App, nat>)
      ensures this.apps == apps && this.actions == actions && this.leaders == leaders
      ensures Now() == Cluster(scale, {})
    {
      this.apps, this.actions, this.leaders := apps, actions, leaders;
      this.scale, this.paused := scale, {};
    }

    ghost function Now(): Cluster
      reads this
    {
      Cluster(scale, paused)
    }

    /** Pause or resume one unit; a failed action may or may not have taken effect. */
    method RunAction(u: JujuUnit, pause: bool) returns (ok: bool)
      modifies this
      ensures scale == old(scale)
      ensures var done := if pause then old(paused) + {u} else old(paused) - {u};
              if ok then paused == done else paused == old(paused) || paused == done
    {
      ok := *;
      var effective: bool := *;
      if ok || effective {
        paused := if pause then paused + {u} else paused - {u};
      }
    }

    /** Run the action on every unit of the application, then wait for it to settle. */
    method RunActionStep(app: App, pause: bool) returns (ok: bool)
      modifies this
      ensures Does(if pause then Pause(app) else Resume(app), old(Now()), ok, Now())
    {
      if app !in scale {
        return false;
      }
      var units := scale[app];
      for i := 0 to units
        invariant scale == old(scale)
        invariant paused == if pause then old(paused) + UnitsOf(app, i) else old(paused) - UnitsOf(app, i)
      {
        ok := RunAction(JujuUnit(app, i), pause);
        if !ok {
          return false;
        }
      }
      ok := *;    // the wait can time out
    }

    /** Scale the application and wait; a failed wait leaves it anywhere on the way. */
    method RunScaleStep(app: App, n: nat) returns (ok: bool)
      modifies this
      ensures Does(Scale(app, n), old(Now()), ok, Now())
    {
      var refused: bool := *;
      if app !in scale || refused {
        return false;
      }
      ok := *;
      var reached: nat := n;
      if !ok {
        assert Between(scale[app], n, n);
        reached :| Between(scale[app], reached, n);
      }
      scale := scale[app := reached];
      paused := set u | u in paused && (u.app != app || u.index < reached);
    }

    method RunRestoreStep(app: App) returns (ok: bool)
      ensures Does(RunRestore(app), Now(), ok, Now()) && (ok ==> app in leaders)
    {
      if app !in leaders {
        return false;
      }
      ok := *;
    }

    method Run(step: Step) returns (ok: bool)
      modifies this
      ensures Does(step, old(Now()), ok, Now())
    {
      match step
      case Pause(app) => ok := RunActionStep(app, true);
      case Resume(app) => ok := RunActionStep(app, false);
      case Scale(app, n) => ok := RunScaleStep(app, n);
      case RunRestore(app) => ok := RunRestoreStep(app);
    }
  }

  lemma RanOneMore(plan: seq<Step>, states: seq<Cluster>, oks: seq<bool>, ok: bool, s: Cluster)
    requires Ran(plan, states, oks) && |oks| < |plan| && Does(plan[|oks|], states[|oks|], ok, s)
    ensures Ran(plan, states + [s], oks + [ok])
  {
    forall i | 0 <= i < |oks| + 1
      ensures Does(plan[i], (states + [s])[i], (oks + [ok])[i], (states + [s])[i + 1])
    {
    }
  }

  /** Run a plan up to its first failure. */
  method RunPlan(juju: Juju, plan: seq<Step>) returns (ok: bool, ghost states: seq<Cluster>, ghost oks: seq<bool>)
    modifies juju
    ensures RanForward(plan, states, oks) && states[0] == old(juju.Now()) && states[|oks|] == juju.Now()
    ensures ok <==> AllOk(plan, states, oks)
  {
    states, oks := [juju.Now()], [];
    for i := 0 to |plan|
      invariant |oks| == i && Ran(plan, states, oks) && forall j :: 0 <= j < i ==> oks[j]
      invariant states[0] == old(juju.Now()) && states[i] == juju.Now()
    {
      ok := juju.Run(plan[i]);
      RanOneMore(plan, states, oks, ok, juju.Now());
      states, oks := states + [juju.Now()], oks + [ok];
      if !ok {
        return;
      }
    }
    ok := true;
  }

  /** The steps that failed, in order. */
  function Failures(plan: seq<Step>, oks: seq<bool>): seq<Step>
    requires |oks| <= |plan|
  {
    if oks == [] then []
    else
      var n := |oks| - 1;
      if oks[n] then Failures(plan, oks[..n]) else Failures(plan, oks[..n]) + [plan[n]]
  }

  /** `at` lists, in order, where the steps failed. */
  ghost predicate FailedAt(oks: seq<bool>, at: seq<nat>) {
    && (forall i, j :: 0 <= i < j < |at| ==> at[i] < at[j])
    && (forall i :: 0 <= i < |at| ==> at[i] < |oks| && !oks[at[i]])
    && (forall n :: 0 <= n < |oks| && !oks[n] ==> exists i :: 0 <= i < |at| && at[i] == n)
  }

  lemma FailedAtLater(oks: seq<bool>, at: seq<nat>)
    requires oks != [] && FailedAt(oks[..|oks| - 1], at)
    ensures FailedAt(oks, if oks[|oks| - 1] then at else at + [|oks| - 1])
  {
    var n := |oks| - 1;
    var at' := if oks[n] then at else at + [n];
    forall m | 0 <= m < |oks| && !oks[m] ensures exists i :: 0 <= i < |at'| && at'[i] == m {
      if m < n {
        assert !oks[..n][m];
        var i :| 0 <= i < |at| && at[i] == m;
        assert at'[i] == m;
      } else {
        assert at'[|at|] == n;
      }
    }
  }

  ghost predicate Picks(plan: seq<Step>, at: seq<nat>, steps: seq<Step>) {
    |at| == |steps| && forall i :: 0 <= i < |at| ==> at[i] < |plan| && steps[i] == plan[at[i]]
  }

  lemma PicksLater(plan: seq<Step>, at: seq<nat>, steps: seq<Step>, n: nat)
    requires Picks(plan, at, steps) && n < |plan|
    ensures Picks(plan, at + [n], steps + [plan[n]])
  {
  }

  /** The failures are the steps of the plan there. */
  lemma {:induction false} FailuresAre(plan: seq<Step>, oks: seq<bool>) returns (at: seq<nat>)
    requires |oks| <= |plan|
    ensures FailedAt(oks, at) && Picks(plan, at, Failures(plan, oks))
  {
    if oks == [] {
      at := [];
    } else {
      var n := |oks| - 1;
      var before := FailuresAre(plan, oks[..n]);
      FailedAtLater(oks, before);
      PicksLater(plan, before, Failures(plan, oks[..n]), n);
      at := if oks[n] then before else before + [n];
    }
  }

  lemma {:induction false} NoFailures(plan: seq<Step>, oks: seq<bool>)
    requires |oks| <= |plan|
    ensures Failures(plan, oks) == [] <==> false !in oks
  {
    if oks != [] {
      NoFailures(plan, oks[..|oks| - 1]);
      assert oks == oks[..|oks| - 1] + [oks[|oks| - 1]];
    }
  }

  /** Try every step of the compensation and return those that failed. */
  method RunRevertPlan(juju: Juju, plan: seq<Step>)
    returns (errors: seq<Step>, ghost states: seq<Cluster>, ghost oks: seq<bool>)
    modifies juju
    ensures Ran(plan, states, oks) && |oks| == |plan| && states[0] == old(juju.Now()) && states[|oks|] == juju.Now()
    ensures errors == Failures(plan, oks)
    ensures errors == [] <==> AllOk(plan, states, oks)
  {
    errors, states, oks := [], [juju.Now()], [];
    for i := 0 to |plan|
      invariant |oks| == i && Ran(plan, states, oks)
      invariant states[0] == old(juju.Now()) && states[i] == juju.Now()
      invariant errors == Failures(plan, oks)
    {
      var ok := juju.Run(plan[i]);
      RanOneMore(plan, states, oks, ok, juju.Now());
      assert (oks + [ok])[..i] == oks;
      states, oks := states + [juju.Now()], oks + [ok];
      if !ok {
        errors := errors + [plan[i]];
      }
    }
    NoFailures(plan, oks);
  }

  datatype Component = MySQL | Vault

  datatype Target = Target(component: Component, app: App)

  /** The plans for a target, and the related applications that they were built for. */
  datatype PreparedRestore =
    PreparedRestore(target: Target, apis: seq<App>, routers: seq<App>, plan: seq<Step>, revertPlan: seq<Step>)

  /** The plans were built with the scales of `s`. */
  ghost predicate Prepared(p: PreparedRestore, apps: Topology, s: Cluster) {
    match p.target.component
    case MySQL =>
      && RestoreApps(apps, p.target.app) == Some(Related(AsSet(p.apis), AsSet(p.routers)))
      && p.plan == RestorePlan(p.apis, p.routers, p.target.app, s)
      && p.revertPlan == RevertPlan(p.apis, p.routers, p.target.app, s)
    case Vault =>
      p.apis == [] && p.plan == [RunRestore(p.target.app)] && p.revertPlan == []
  }

  /** The applications of a set, in some order (the source sorts them). */
  method InOrder(s: set<App>) returns (l: seq<App>)
    ensures AsSet(l) == s
  {
    l := [];
    var rest := s;
    while rest != {}
      invariant rest <= s && forall a :: a in l <==> a in s - rest
    {
      var x :| x in rest;
      l, rest := l + [x], rest - {x};
    }
  }

  /** The scales of the MySQL application and its routers can be read. */
  ghost predicate Measurable(apps: Topology, scale: map<App, nat>, target: Target) {
    && target.app in scale && RestoreApps(apps, target.app).Some?
    && RestoreApps(apps, target.app).value.routers <= scale.Keys
  }

  method PrepareRestore(juju: Juju, target: Target) returns (r: Option<PreparedRestore>)
    requires target.component == MySQL ==> RestoreApps(juju.apps, target.app).Some?
    ensures r.Some? <==> target.component == Vault || Measurable(juju.apps, juju.scale, target)
    ensures r.Some? ==> r.value.target == target && Prepared(r.value, juju.apps, juju.Now())
  {
    if target.component == Vault {
      return Some(PreparedRestore(target, [], [], [RunRestore(target.app)], []));
    }
    var related := RestoreApps(juju.apps, target.app);
    if target.app !in juju.scale || !(related.value.routers <= juju.scale.Keys) {
      return None;
    }
    var apis := InOrder(related.value.apis);
    var routers := InOrder(related.value.routers);
    var now := Cluster(juju.scale, juju.paused);
    r := Some(PreparedRestore(target, apis, routers,
      RestorePlan(apis, routers, target.app, now), RevertPlan(apis, routers, target.app, now)));
  }

  predicate Pausable(actions: map<App, set<string>>, app: App) {
    app in actions && PAUSE_ACTION in actions[app] && RESUME_ACTION in actions[app]
  }

  /** For MySQL: the related applications are known, and every control-plane one can be paused and resumed. */
  ghost predicate Restorable(apps: Topology, actions: map<App, set<string>>, target: Target) {
    target.component == MySQL ==>
      && RestoreApps(apps, target.app).Some?
      && forall a :: a in RestoreApps(apps, target.app).value.apis ==>
           a in actions && "pause" in actions[a] && "resume" in actions[a]
  }

  method Precheck(juju: Juju, target: Target) returns (ok: bool)
    ensures ok <==> Restorable(juju.apps, juju.actions, target)
  {
    if target.component == Vault {
      return true;
    }
    var related := RestoreApps(juju.apps, target.app);
    if related.None? {
      return false;
    }
    var apis := InOrder(related.value.apis);
    for i := 0 to |apis|
      invariant forall j :: 0 <= j < i ==> Pausable(juju.actions, apis[j])
    {
      if !Pausable(juju.actions, apis[i]) {
        assert apis[i] in AsSet(apis);
        return false;
      }
    }
    return true;
  }

  datatype RestoreResult =
    | Restored(app: App)
    | Reverted(app: App, rollbackErrors: seq<Step>)
    | NotAttempted(app: App)

  /** The compensation, if any was needed, completed. */
  predicate Settled(r: RestoreResult) {
    r.Reverted? ==> r.rollbackErrors == []
  }

  /** Plans depend on the captured scales only. */
  lemma PreparedByScales(p: PreparedRestore, apps: Topology, s: Cluster, s': Cluster)
    requires Prepared(p, apps, s) && s.scale == s'.scale
    ensures Prepared(p, apps, s')
  {
  }

  /** How a target was restored: the run of its plan, and that of its compensation if there was one. */
  datatype Log = Log(states: seq<Cluster>, oks: seq<bool>, revertStates: seq<Cluster>, revertOks: seq<bool>)

  /**
    The target's plan ran from `s0` up to its first failure; it was restored exactly when the plan
    completed.  Otherwise the whole compensation ran from there on, and what failed in it is reported.
   */
  ghost predicate Attempted(p: PreparedRestore, s0: Cluster, s1: Cluster, r: RestoreResult, log: Log) {
    && !r.NotAttempted? && r.app == p.target.app
    && RanForward(p.plan, log.states, log.oks) && log.states[0] == s0
    && (r.Restored? <==> AllOk(p.plan, log.states, log.oks))
    && (r.Restored? ==> s1 == log.states[|log.oks|])
    && (r.Reverted? ==>
          && Ran(p.revertPlan, log.revertStates, log.revertOks) && |log.revertOks| == |p.revertPlan|
          && log.revertStates[0] == log.states[|log.oks|] && log.revertStates[|log.revertOks|] == s1
          && r.rollbackErrors == Failures(p.revertPlan, log.revertOks))
  }

  /** The plan of every target runs its restore action once, and no other. */
  lemma PlanRestoresTarget(p: PreparedRestore, apps: Topology, s: Cluster) returns (at: nat)
    requires Prepared(p, apps, s)
    ensures at < |p.plan| && p.plan[at] == RunRestore(p.target.app)
    ensures forall n :: 0 <= n < |p.plan| && p.plan[n].RunRestore? ==> n == at
  {
    match p.target.component
    case MySQL =>
      at := |p.apis| + |p.routers| + 1;
      forall n | 0 <= n < |p.plan|
        ensures at < |p.plan| && (p.plan[n].RunRestore? <==> n == at) && (n == at ==> p.plan[n] == RunRestore(p.target.app))
      {
        RestoreRunsOnce(p.apis, p.routers, p.target.app, s, n);
      }
      assert |p.plan| > 0;
    case Vault =>
      at := 0;
  }

  /** A target is reported restored only when its restore action completed. */
  lemma RestoredMeansRestored(
      p: PreparedRestore, apps: Topology, s: Cluster, s0: Cluster, s1: Cluster, r: RestoreResult, log: Log)
    requires Prepared(p, apps, s) && Attempted(p, s0, s1, r, log) && r.Restored?
    ensures exists n :: 0 <= n < |p.plan| && p.plan[n] == RunRestore(p.target.app) && log.oks[n]
  {
    var at := PlanRestoresTarget(p, apps, s);
    assert log.oks[at];
  }

  method RestoreOne(juju: Juju, p: PreparedRestore) returns (r: RestoreResult, ghost log: Log)
    requires Prepared(p, juju.apps, juju.Now()) && Sound(juju.Now())
    modifies juju
    ensures Attempted(p, old(juju.Now()), juju.Now(), r, log)
    ensures Settled(r) ==> Recovered(old(juju.Now()), juju.Now(), AsSet(p.apis))
  {
    ghost var s0 := juju.Now();
    var ok;
    ghost var states, oks;
    ok, states, oks := RunPlan(juju, p.plan);
    log := Log(states, oks, [], []);
    if ok {
      if p.target.component == MySQL {
        CompletedRestoreRecovers(s0, p.apis, p.routers, p.target.app, states, oks);
      }
      return Restored(p.target.app), log;
    }
    if p.target.component == MySQL {
      RestoreDrifts(s0, p.apis, p.routers, p.target.app, states, oks);
    }
    var errors;
    ghost var revertStates, revertOks;
    errors, revertStates, revertOks := RunRevertPlan(juju, p.revertPlan);
    if errors == [] && p.target.component == MySQL {
      RevertRecovers(s0, p.apis, p.routers, p.target.app, revertStates, revertOks);
    }
    r := Reverted(p.target.app, errors);
    log := Log(states, oks, revertStates, revertOks);
  }

  datatype Report = Refused | Finished(results: seq<RestoreResult>)

  /** Restored one after the other; after the first that was reverted, the rest was not attempted. */
  predicate InSequence(results: seq<RestoreResult>, targets: seq<Target>) {
    && |results| == |targets|
    && (forall i :: 0 <= i < |results| ==> results[i].app == targets[i].app)
    && (forall i, j :: 0 <= i < j < |results| && !results[i].Restored? ==> results[j].NotAttempted?)
    && (results != [] ==> !results[0].NotAttempted?)
    && (forall j :: 0 < j < |results| && results[j].NotAttempted? ==> !results[j - 1].Restored?)
  }

  /** No unit of the control plane of an attempted MySQL target is paused. */
  ghost predicate ControlPlanesRun(apps: Topology, s: Cluster, targets: seq<Target>, results: seq<RestoreResult>)
    requires |results| <= |targets|
  {
    forall i, u :: 0 <= i < |results| && !results[i].NotAttempted? && targets[i].component == MySQL && u in s.paused ==>
      var related := RestoreApps(apps, targets[i].app);
      related.Some? && u.app !in related.value.apis
  }

  /** Every target has a leader, passes its prechecks, and can be prepared. */
  ghost predicate Admissible(juju: Juju, targets: seq<Target>)
    reads juju
  {
    forall i :: 0 <= i < |targets| ==>
      && targets[i].app in juju.leaders && Restorable(juju.apps, juju.actions, targets[i])
      && (targets[i].component == MySQL ==> Measurable(juju.apps, juju.scale, targets[i]))
  }

  /** Check and prepare every target before any of them is touched. */
  method Prepare(juju: Juju, targets: seq<Target>) returns (r: Option<seq<PreparedRestore>>)
    ensures r.Some? <==> Admissible(juju, targets)
    ensures r.Some? ==> |r.value| == |targets| && forall i :: 0 <= i < |targets| ==>
              r.value[i].target == targets[i] && Prepared(r.value[i], juju.apps, juju.Now())
  {
    for i := 0 to |targets|
      invariant forall j :: 0 <= j < i ==> targets[j].app in juju.leaders
    {
      if targets[i].app !in juju.leaders {
        return None;
      }
    }
    for i := 0 to |targets|
      invariant forall j :: 0 <= j < i ==> Restorable(juju.apps, juju.actions, targets[j])
    {
      var ok := Precheck(juju, targets[i]);
      if !ok {
        return None;
      }
    }
    var prepared: seq<PreparedRestore> := [];
    for i := 0 to |targets|
      invariant |prepared| == i && forall j :: 0 <= j < i ==>
                  prepared[j].target == targets[j] && Prepared(prepared[j], juju.apps, juju.Now())
      invariant forall j :: 0 <= j < i && targets[j].component == MySQL ==> Measurable(juju.apps, juju.scale, targets[j])
    {
      var p := PrepareRestore(juju, targets[i]);
      if p.None? {
        return None;
      }
      prepared := prepared + [p.value];
    }
    r := Some(prepared);
  }

  lemma ControlPlanesAfter(
      apps: Topology, s: Cluster, s': Cluster, targets: seq<Target>, results: seq<RestoreResult>, outcome: RestoreResult)
    requires |results| < |targets| && ControlPlanesRun(apps, s, targets, results) && s'.paused <= s.paused
    requires targets[|results|].component == MySQL ==>
               && RestoreApps(apps, targets[|results|].app).Some?
               && forall u <- s'.paused :: u.app !in RestoreApps(apps, targets[|results|].app).value.apis
    ensures ControlPlanesRun(apps, s', targets, results + [outcome])
  {
  }

  function Skipped(targets: seq<Target>): (results: seq<RestoreResult>)
    ensures |results| == |targets| && forall i :: 0 <= i < |targets| ==> results[i] == NotAttempted(targets[i].app)
  {
    seq(|targets|, i requires 0 <= i < |targets| => NotAttempted(targets[i].app))
  }

  lemma SkippedInSequence(targets: seq<Target>, done: seq<RestoreResult>, outcome: RestoreResult)
    requires |done| < |targets| && forall j :: 0 <= j < |done| ==> done[j] == Restored(targets[j].app)
    requires outcome.Reverted? && outcome.app == targets[|done|].app
    ensures InSequence(done + [outcome] + Skipped(targets[|done| + 1..]), targets)
  {
  }

  /** The targets were restored one after the other, each from where the one before left the cluster. */
  ghost predicate Chained(
      prepared: seq<PreparedRestore>, results: seq<RestoreResult>, moments: seq<Cluster>, logs: seq<Log>)
  {
    && |moments| == |logs| + 1 && |logs| <= |prepared| && |logs| <= |results|
    && forall i :: 0 <= i < |logs| ==> Attempted(prepared[i], moments[i], moments[i + 1], results[i], logs[i])
  }

  lemma ChainedOneMore(
      prepared: seq<PreparedRestore>, results: seq<RestoreResult>, moments: seq<Cluster>, logs: seq<Log>,
      s: Cluster, r: RestoreResult, log: Log, rest: seq<RestoreResult>)
    requires Chained(prepared, results, moments, logs) && |results| == |logs| < |prepared|
    requires Attempted(prepared[|logs|], moments[|logs|], s, r, log)
    ensures Chained(prepared, results + [r] + rest, moments + [s], logs + [log])
  {
  }

  /**
    A run is refused exactly when some target is not admissible, and then changed nothing.  Otherwise
    the plans of all targets were built from the state at the start, and the targets attempted one
    after the other up to the first that was not restored.  A finished run whose compensation completed
    leaves every application at its scale, pauses nothing, and leaves no control plane it touched paused.
   */
  method RunRestores(juju: Juju, targets: seq<Target>)
    returns (report: Report, ghost prepared: seq<PreparedRestore>, ghost moments: seq<Cluster>, ghost logs: seq<Log>)
    requires Sound(juju.Now())
    modifies juju
    ensures report.Refused? <==> !old(Admissible(juju, targets))
    ensures report.Refused? ==> juju.Now() == old(juju.Now())
    ensures report.Finished? ==> InSequence(report.results, targets)
    ensures report.Finished? ==>
              && |prepared| == |targets| && (forall i :: 0 <= i < |targets| ==>
                   prepared[i].target == targets[i] && Prepared(prepared[i], juju.apps, old(juju.Now())))
              && Chained(prepared, report.results, moments, logs)
              && moments[0] == old(juju.Now()) && moments[|logs|] == juju.Now()
              && (forall i :: |logs| <= i < |targets| ==> report.results[i].NotAttempted?)
    ensures report.Finished? && (forall i :: 0 <= i < |targets| ==> Settled(report.results[i])) ==>
              && juju.scale == old(juju.scale) && juju.paused <= old(juju.paused)
              && ControlPlanesRun(juju.apps, juju.Now(), targets, report.results)
  {
    ghost var s0 := juju.Now();
    prepared, moments, logs := [], [s0], [];
    var plans := Prepare(juju, targets);
    if plans.None? {
      return Refused, prepared, moments, logs;
    }
    prepared := plans.value;
    var results: seq<RestoreResult> := [];
    for i := 0 to |targets|
      invariant |results| == |logs| == i && juju.scale == s0.scale && juju.paused <= s0.paused && Sound(juju.Now())
      invariant forall j :: 0 <= j < i ==> results[j] == Restored(targets[j].app)
      invariant ControlPlanesRun(juju.apps, juju.Now(), targets, results)
      invariant Chained(prepared, results, moments, logs) && moments[0] == s0 && moments[i] == juju.Now()
    {
      ghost var before, done := juju.Now(), results;
      PreparedByScales(plans.value[i], juju.apps, s0, before);
      var outcome;
      ghost var log;
      outcome, log := RestoreOne(juju, plans.value[i]);
      if Settled(outcome) {
        ControlPlanesAfter(juju.apps, before, juju.Now(), targets, done, outcome);
      }
      var rest := if outcome.Restored? then [] else Skipped(targets[i + 1..]);
      ChainedOneMore(prepared, done, moments, logs, juju.Now(), outcome, log, rest);
      results := results + [outcome] + rest;
      moments, logs := moments + [juju.Now()], logs + [log];
      if !outcome.Restored? {
        SkippedInSequence(targets, done, outcome);
        assert results[i] == outcome;
        return Finished(results), prepared, moments, logs;
      }
      assert results == done + [outcome];
    }
    report := Finished(results);
  }
}
