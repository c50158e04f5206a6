/**
  Restoring MySQL and Vault applications: the plans, what each step may do to the cluster when it
  completes and when it fails half way, and what the compensation guarantees.
 */
module RestoreSaga {
  import opened Wrappers

  type App = string

  datatype JujuUnit = JujuUnit(app: App, index: nat)

  /** The number of units of each application, and the units whose services are paused. */
  datatype Cluster = Cluster(scale: map<App, nat>, paused: set<JujuUnit>)

  function UnitsOf(app: App, n: nat): (units: set<JujuUnit>)
    ensures forall u :: u in units <==> u.app == app && u.index < n
  {
    set i | 0 <= i < n :: JujuUnit(app, i)
  }

  function ScaleOf(s: Cluster, app: App): nat {
    if app in s.scale then s.scale[app] else 0
  }

  function Units(s: Cluster, app: App): set<JujuUnit> {
    UnitsOf(app, ScaleOf(s, app))
  }

  /** Scaling removes the units with the highest numbers; a unit that appears is not paused. */
  function Scaled(s: Cluster, app: App, n: nat): Cluster {
    Cluster(s.scale[app := n], set u | u in s.paused && (u.app != app || u.index < n))
  }

  datatype Step =
    | Pause(app: App)
    | Resume(app: App)
    | Scale(app: App, n: nat)
    | RunRestore(app: App)

  predicate Between(a: nat, x: nat, b: nat) {
    a <= x <= b || b <= x <= a
  }

  /** A completed step has its full effect; a failed step leaves any part of its own effect. */
  ghost predicate Does(step: Step, s: Cluster, ok: bool, s': Cluster) {
    match step
    case Pause(app) =>
      && s'.scale == s.scale
      && (if ok then app in s.scale && s'.paused == s.paused + Units(s, app)
          else s.paused <= s'.paused <= s.paused + Units(s, app))
    case Resume(app) =>
      && s'.scale == s.scale
      && (if ok then app in s.scale && s'.paused == s.paused - Units(s, app)
          else s.paused - Units(s, app) <= s'.paused <= s.paused)
    case Scale(app, n) =>
      if ok then app in s.scale && s' == Scaled(s, app, n)
      else s' == s || (app in s.scale && exists k :: Between(s.scale[app], k, n) && s' == Scaled(s, app, k))
    case RunRestore(_) =>
      s' == s
  }

  // ------------------------------------------------------------------ which applications, which plans

  datatype Relation = Relation(interface: string, related: App)

  /** Juju's status: the relations of every application. */
  type Topology = map<App, seq<Relation>>

  predicate EndsWith(s: string, suffix: string) {
    |suffix| <= |s| && s[|s| - |suffix|..] == suffix
  }

  const ROUTER_SUFFIX := "-mysql-router"
  const MYSQL_SUFFIX := "-mysql"

  function RelatedApps(relations: seq<Relation>, interface: string): set<App> {
    set r | r in relations && r.interface == interface :: r.related
  }

  function ApiAppsViaRouters(apps: Topology, mysql: App, routers: set<App>): set<App> {
    set r, a | r in routers && r in apps && a in RelatedApps(apps[r], "mysql_client")
      && a != mysql && !EndsWith(a, ROUTER_SUFFIX) && a in apps :: a
  }

  /** The control-plane applications and the routers in front of a MySQL application. */
  datatype Related = Related(apis: set<App>, routers: set<App>)

  function RestoreApps(apps: Topology, mysql: App): Option<Related> {
    if mysql !in apps then None
    else
      var routers := RelatedApps(apps[mysql], "mysql_client");
      var apis := ApiAppsViaRouters(apps, mysql, routers);
      if routers == {} then None
      else if apis != {} then Some(Related(apis, routers))
      else if EndsWith(mysql, MYSQL_SUFFIX) then Some(Related({mysql[..|mysql| - |MYSQL_SUFFIX|]}, routers))
      else None
  }

  /** Juju reports a database relation of `a` to `b`. */
  ghost predicate Reaches(apps: Topology, a: App, b: App) {
    a in apps && exists i :: 0 <= i < |apps[a]| && apps[a][i] == Relation("mysql_client", b)
  }

  /** An application of the model that a router of `mysql` reaches, neither `mysql` itself nor a router. */
  ghost predicate Behind(apps: Topology, mysql: App, a: App) {
    && a in apps && a != mysql && !(|a| >= 13 && a[|a| - 13..] == "-mysql-router")
    && exists r :: Reaches(apps, mysql, r) && Reaches(apps, r, a)
  }

  /** The applications that a restore of `mysql` stops: those it reaches, and those behind them or else its namesake. */
  lemma RestoreAppsAre(apps: Topology, mysql: App)
    ensures RestoreApps(apps, mysql).Some? <==>
            && (exists r :: Reaches(apps, mysql, r))
            && ((exists a :: Behind(apps, mysql, a)) || (|mysql| >= 6 && mysql[|mysql| - 6..] == "-mysql"))
    ensures RestoreApps(apps, mysql).Some? ==>
            var Related(apis, routers) := RestoreApps(apps, mysql).value;
            && (forall r :: r in routers <==> Reaches(apps, mysql, r))
            && ((exists a :: Behind(apps, mysql, a)) ==> forall a :: a in apis <==> Behind(apps, mysql, a))
            && ((forall a :: !Behind(apps, mysql, a)) ==> forall a :: a in apis <==> a + "-mysql" == mysql)
  {
    if mysql in apps {
      var routers := RelatedApps(apps[mysql], "mysql_client");
      var apis := ApiAppsViaRouters(apps, mysql, routers);
      RelatedAreReached(apps, mysql);
      forall a ensures a in apis <==> Behind(apps, mysql, a) {
        BehindIff(apps, mysql, a);
      }
      if apis == {} {
        forall a ensures EndsWith(mysql, MYSQL_SUFFIX) ==> (a == mysql[..|mysql| - 6] <==> a + "-mysql" == mysql) {
          assert (a + "-mysql")[..|a|] == a && |a + "-mysql"| == |a| + 6;
          assert EndsWith(mysql, MYSQL_SUFFIX) ==> mysql == mysql[..|mysql| - 6] + mysql[|mysql| - 6..];
        }
      }
    }
  }

  lemma RelatedAreReached(apps: Topology, a: App)
    requires a in apps
    ensures forall b :: b in RelatedApps(apps[a], "mysql_client") <==> Reaches(apps, a, b)
  {
    forall b | b in RelatedApps(apps[a], "mysql_client") ensures Reaches(apps, a, b) {
      var r :| r in apps[a] && r.interface == "mysql_client" && r.related == b;
      var i :| 0 <= i < |apps[a]| && apps[a][i] == r;
    }
    forall b | Reaches(apps, a, b) ensures b in RelatedApps(apps[a], "mysql_client") {
      var i :| 0 <= i < |apps[a]| && apps[a][i] == Relation("mysql_client", b);
      assert apps[a][i] in apps[a];
    }
  }

  lemma BehindIff(apps: Topology, mysql: App, a: App)
    requires mysql in apps
    ensures a in ApiAppsViaRouters(apps, mysql, RelatedApps(apps[mysql], "mysql_client")) <==> Behind(apps, mysql, a)
  {
    var routers := RelatedApps(apps[mysql], "mysql_client");
    RelatedAreReached(apps, mysql);
    if a in ApiAppsViaRouters(apps, mysql, routers) {
      var r :| r in routers && r in apps && a in RelatedApps(apps[r], "mysql_client");
      RelatedAreReached(apps, r);
      assert Reaches(apps, mysql, r) && Reaches(apps, r, a);
    }
    if Behind(apps, mysql, a) {
      var r :| Reaches(apps, mysql, r) && Reaches(apps, r, a);
      RelatedAreReached(apps, r);
      assert r in routers && a in RelatedApps(apps[r], "mysql_client");
    }
  }

  /** The resolution accepts an application as its own router exactly when Juju reports that relation. */
  lemma OwnRouterIff(apps: Topology, mysql: App)
    requires RestoreApps(apps, mysql).Some?
    ensures mysql in RestoreApps(apps, mysql).value.routers <==> Relation("mysql_client", mysql) in apps[mysql]
  {
  }

  /** Such a topology, for every application that is named after its control plane. */
  lemma OwnRouterIsAccepted(api: App)
    ensures var mysql := api + MYSQL_SUFFIX;
            RestoreApps(map[mysql := [Relation("mysql_client", mysql)]], mysql) == Some(Related({api}, {mysql}))
  {
    var mysql := api + MYSQL_SUFFIX;
    var apps: Topology := map[mysql := [Relation("mysql_client", mysql)]];
    assert RelatedApps(apps[mysql], "mysql_client") == {mysql} by {
      assert apps[mysql][0] in apps[mysql];
    }
    assert ApiAppsViaRouters(apps, mysql, {mysql}) == {};
    assert mysql[..|mysql| - |MYSQL_SUFFIX|] == api && mysql[|mysql| - |MYSQL_SUFFIX|..] == MYSQL_SUFFIX;
  }

  /** A MySQL application is not among its own control-plane applications. */
  lemma TargetIsNoApi(apps: Topology, mysql: App)
    requires RestoreApps(apps, mysql).Some?
    ensures mysql !in RestoreApps(apps, mysql).value.apis
  {
    if EndsWith(mysql, MYSQL_SUFFIX) {
      assert |mysql[..|mysql| - |MYSQL_SUFFIX|]| < |mysql|;
    }
  }

  function PauseAll(apis: seq<App>): seq<Step> { seq(|apis|, i requires 0 <= i < |apis| => Pause(apis[i])) }

  function ResumeAll(apis: seq<App>): seq<Step> { seq(|apis|, i requires 0 <= i < |apis| => Resume(apis[i])) }

  function StopAll(routers: seq<App>): seq<Step> { seq(|routers|, i requires 0 <= i < |routers| => Scale(routers[i], 0)) }

  function RescaleAll(routers: seq<App>, s: Cluster): seq<Step> {
    seq(|routers|, i requires 0 <= i < |routers| => Scale(routers[i], ScaleOf(s, routers[i])))
  }

  /** The compensation for a MySQL restore, with the scales captured in `s`. */
  function RevertPlan(apis: seq<App>, routers: seq<App>, target: App, s: Cluster): seq<Step> {
    [Scale(target, ScaleOf(s, target))] + RescaleAll(routers, s) + ResumeAll(apis)
  }

  /** A MySQL restore up to and including the restore action. */
  function ShutdownPlan(apis: seq<App>, routers: seq<App>, target: App): seq<Step> {
    PauseAll(apis) + StopAll(routers) + [Scale(target, 1), RunRestore(target)]
  }

  /** A MySQL restore, with the scales captured in `s`. */
  function RestorePlan(apis: seq<App>, routers: seq<App>, target: App, s: Cluster): seq<Step> {
    PauseAll(apis) + StopAll(routers) + [Scale(target, 1)] + [RunRestore(target)]
    + [Scale(target, ScaleOf(s, target))] + RescaleAll(routers, s) + ResumeAll(apis)
  }

  /** The way back of a restore is the compensation. */
  lemma RestoreEndsWithRevert(apis: seq<App>, routers: seq<App>, target: App, s: Cluster)
    ensures RestorePlan(apis, routers, target, s) == ShutdownPlan(apis, routers, target) + RevertPlan(apis, routers, target, s)
  {
  }

  /** The plan runs the restore action of the target once, after the shutdown, and no other. */
  lemma RestoreRunsOnce(apis: seq<App>, routers: seq<App>, target: App, s: Cluster, n: nat)
    requires n < |RestorePlan(apis, routers, target, s)|
    ensures |apis| + |routers| + 1 < |RestorePlan(apis, routers, target, s)|
    ensures RestorePlan(apis, routers, target, s)[n].RunRestore? <==> n == |apis| + |routers| + 1
    ensures n == |apis| + |routers| + 1 ==> RestorePlan(apis, routers, target, s)[n] == RunRestore(target)
  {
  }

  // ------------------------------------------------------------------ runs of a plan

  /** The states of a run: `states[i]` is the cluster before step `i`, the last one is the cluster after it. */
  ghost predicate Ran(plan: seq<Step>, states: seq<Cluster>, oks: seq<bool>) {
    && |oks| <= |plan| && |states| == |oks| + 1
    && forall i :: 0 <= i < |oks| ==> Does(plan[i], states[i], oks[i], states[i + 1])
  }

  /** A forward run stops at its first failure. */
  ghost predicate RanForward(plan: seq<Step>, states: seq<Cluster>, oks: seq<bool>) {
    && Ran(plan, states, oks)
    && (forall i :: 0 <= i < |oks| - 1 ==> oks[i])
    && (|oks| < |plan| ==> oks != [] && !oks[|oks| - 1])
  }

  ghost predicate AllOk(plan: seq<Step>, states: seq<Cluster>, oks: seq<bool>) {
    Ran(plan, states, oks) && |oks| == |plan| && forall i :: 0 <= i < |oks| ==> oks[i]
  }

  /** Paused units exist. */
  ghost predicate Sound(s: Cluster) {
    forall u :: u in s.paused ==> u in Units(s, u.app)
  }

  /** At most these applications were scaled, and at most those had units paused, since `s0`. */
  ghost predicate Drifted(s0: Cluster, s: Cluster, scaled: set<App>, apis: set<App>) {
    && Sound(s) && s.scale.Keys == s0.scale.Keys
    && (forall a :: a in s.scale && a !in scaled ==> s.scale[a] == s0.scale[a])
    && (forall u :: u in s.paused ==> u in s0.paused || u.app in apis)
  }

  predicate StepWithin(step: Step, scaled: set<App>, apis: set<App>) {
    match step
    case Pause(a) => a in apis
    case Resume(_) => true
    case Scale(a, _) => a in scaled
    case RunRestore(_) => true
  }

  lemma StepKeepsDrift(s0: Cluster, step: Step, s: Cluster, ok: bool, s': Cluster, scaled: set<App>, apis: set<App>)
    requires Drifted(s0, s, scaled, apis) && StepWithin(step, scaled, apis) && Does(step, s, ok, s')
    ensures Drifted(s0, s', scaled, apis)
  {
  }

  lemma {:induction false} RunKeepsDrift(
    s0: Cluster, plan: seq<Step>, states: seq<Cluster>, oks: seq<bool>, scaled: set<App>, apis: set<App>)
    requires Ran(plan, states, oks) && Drifted(s0, states[0], scaled, apis)
    requires forall i :: 0 <= i < |plan| ==> StepWithin(plan[i], scaled, apis)
    ensures Drifted(s0, states[|oks|], scaled, apis)
  {
    if oks != [] {
      var n := |oks| - 1;
      RunKeepsDrift(s0, plan, states[..n + 1], oks[..n], scaled, apis);
      StepKeepsDrift(s0, plan[n], states[n], oks[n], states[n + 1], scaled, apis);
    }
  }

  /** The steps of compensation: to the captured scale, or resume. */
  predicate Heals(step: Step, s0: Cluster) {
    step.Resume? || (step.Scale? && step.n == ScaleOf(s0, step.app))
  }

  /** What the first `n` completed steps of compensation have healed. */
  ghost predicate Healed(plan: seq<Step>, n: nat, s0: Cluster, s: Cluster)
    requires n <= |plan|
  {
    && (forall i :: 0 <= i < n && plan[i].Scale? ==> ScaleOf(s, plan[i].app) == ScaleOf(s0, plan[i].app))
    && (forall i, u :: 0 <= i < n && plan[i].Resume? && u in s.paused ==> u.app != plan[i].app)
  }

  lemma {:induction false} CompensationHeals(
    s0: Cluster, plan: seq<Step>, states: seq<Cluster>, oks: seq<bool>, scaled: set<App>, apis: set<App>, n: nat)
    requires Ran(plan, states, oks) && n <= |oks| && forall i :: 0 <= i < n ==> oks[i]
    requires Drifted(s0, states[0], scaled, apis)
    requires forall i :: 0 <= i < |plan| ==> Heals(plan[i], s0) && StepWithin(plan[i], scaled, apis)
    ensures Drifted(s0, states[n], scaled, apis) && Healed(plan, n, s0, states[n])
  {
    if n > 0 {
      CompensationHeals(s0, plan, states, oks, scaled, apis, n - 1);
      var step, s, s' := plan[n - 1], states[n - 1], states[n];
      assert Does(step, s, true, s');
      StepKeepsDrift(s0, step, s, true, s', scaled, apis);
      forall i, u | 0 <= i < n && plan[i].Resume? && u in s'.paused ensures u.app != plan[i].app {
        assert u in s.paused;
        if i == n - 1 {
          assert u in Units(s, u.app);
        }
      }
    }
  }

  /** Back where it was: the same scales, and nothing paused that was not, in particular no unit of `apis`. */
  ghost predicate Recovered(s0: Cluster, s: Cluster, apis: set<App>) {
    s.scale == s0.scale && s.paused <= s0.paused && Sound(s) && forall u :: u in s.paused ==> u.app !in apis
  }

  function AsSet(apps: seq<App>): set<App> { set a | a in apps }

  lemma RevertShape(apis: seq<App>, routers: seq<App>, target: App, s0: Cluster)
    ensures var plan := RevertPlan(apis, routers, target, s0);
            && (forall i :: 0 <= i < |plan| ==> Heals(plan[i], s0) && StepWithin(plan[i], {target} + AsSet(routers), AsSet(apis)))
            && (forall a :: a == target || a in routers ==> exists i :: 0 <= i < |plan| && plan[i] == Scale(a, ScaleOf(s0, a)))
            && (forall a :: a in apis ==> exists i :: 0 <= i < |plan| && plan[i] == Resume(a))
  {
    var plan := RevertPlan(apis, routers, target, s0);
    assert plan[0] == Scale(target, ScaleOf(s0, target));
    forall a | a in routers ensures exists i :: 0 <= i < |plan| && plan[i] == Scale(a, ScaleOf(s0, a)) {
      var j :| 0 <= j < |routers| && routers[j] == a;
      assert plan[1 + j] == Scale(a, ScaleOf(s0, a));
    }
    forall a | a in apis ensures exists i :: 0 <= i < |plan| && plan[i] == Resume(a) {
      var j :| 0 <= j < |apis| && apis[j] == a;
      assert plan[1 + |routers| + j] == Resume(a);
    }
  }

  /** Compensation whose steps all complete recovers from anything a MySQL restore may have left behind. */
  lemma RevertRecovers(
    s0: Cluster, apis: seq<App>, routers: seq<App>, target: App, states: seq<Cluster>, oks: seq<bool>)
    requires AllOk(RevertPlan(apis, routers, target, s0), states, oks)
    requires Drifted(s0, states[0], {target} + AsSet(routers), AsSet(apis))
    ensures Recovered(s0, states[|oks|], AsSet(apis))
  {
    var plan, scaled := RevertPlan(apis, routers, target, s0), {target} + AsSet(routers);
    RevertShape(apis, routers, target, s0);
    CompensationHeals(s0, plan, states, oks, scaled, AsSet(apis), |plan|);
    var s := states[|oks|];
    forall a | a in s.scale ensures s.scale[a] == s0.scale[a] {
      if a in scaled {
        var i :| 0 <= i < |plan| && plan[i] == Scale(a, ScaleOf(s0, a));
      }
    }
    forall u | u in s.paused ensures u.app !in AsSet(apis) {
      assert Healed(plan, |plan|, s0, s);
    }
  }

  lemma ShutdownShape(apis: seq<App>, routers: seq<App>, target: App)
    ensures forall i :: 0 <= i < |ShutdownPlan(apis, routers, target)| ==>
              StepWithin(ShutdownPlan(apis, routers, target)[i], {target} + AsSet(routers), AsSet(apis))
  {
  }

  /** Wherever a MySQL restore stops, it has only drifted. */
  lemma RestoreDrifts(s0: Cluster, apis: seq<App>, routers: seq<App>, target: App, states: seq<Cluster>, oks: seq<bool>)
    requires Ran(RestorePlan(apis, routers, target, s0), states, oks) && states[0] == s0 && Sound(s0)
    ensures Drifted(s0, states[|oks|], {target} + AsSet(routers), AsSet(apis))
  {
    RestoreEndsWithRevert(apis, routers, target, s0);
    ShutdownShape(apis, routers, target);
    RevertShape(apis, routers, target, s0);
    RunKeepsDrift(s0, RestorePlan(apis, routers, target, s0), states, oks, {target} + AsSet(routers), AsSet(apis));
  }

  /** A MySQL restore that completes recovers by itself. */
  lemma CompletedRestoreRecovers(
    s0: Cluster, apis: seq<App>, routers: seq<App>, target: App, states: seq<Cluster>, oks: seq<bool>)
    requires AllOk(RestorePlan(apis, routers, target, s0), states, oks) && states[0] == s0 && Sound(s0)
    ensures Recovered(s0, states[|oks|], AsSet(apis))
  {
    RestoreEndsWithRevert(apis, routers, target, s0);
    var shutdown, revert := ShutdownPlan(apis, routers, target), RevertPlan(apis, routers, target, s0);
    var n := |shutdown|;
    ShutdownShape(apis, routers, target);
    RunKeepsDrift(s0, shutdown, states[..n + 1], oks[..n], {target} + AsSet(routers), AsSet(apis));
    assert states[..n + 1][0] == s0 && states[..n + 1][n] == states[n];
    RevertRecovers(s0, apis, routers, target, states[n..], oks[n..]);
  }

  // ------------------------------------------------------------------ the moments that matter on the forward path

  ghost predicate AllPaused(s: Cluster, apis: set<App>) {
    forall a :: a in apis ==> Units(s, a) <= s.paused
  }

  lemma {:induction false} ShutdownProgress(
    s0: Cluster, apis: seq<App>, routers: seq<App>, target: App, states: seq<Cluster>, oks: seq<bool>, n: nat)
    requires target !in apis
    requires Ran(ShutdownPlan(apis, routers, target), states, oks) && n <= |oks| && n <= |apis| + |routers| + 1
    requires forall i :: 0 <= i < n ==> oks[i]
    ensures forall i :: 0 <= i < n && i < |apis| ==> Units(states[n], apis[i]) <= states[n].paused
    ensures forall j :: 0 <= j < |routers| && |apis| + j < n && routers[j] != target ==> ScaleOf(states[n], routers[j]) == 0
    ensures n > |apis| + |routers| ==> ScaleOf(states[n], target) == 1
  {
    if n > 0 {
      ShutdownProgress(s0, apis, routers, target, states, oks, n - 1);
      var plan := ShutdownPlan(apis, routers, target);
      assert Does(plan[n - 1], states[n - 1], true, states[n]);
    }
  }

  /**
    Whenever the MySQL restore action runs, every control-plane application is paused and the
    application is at scale 1.  Every router is at scale 0 exactly when the application is not
    related to itself as its own router.
   */
  lemma RestoreActionRunsAlone(
    s0: Cluster, apis: seq<App>, routers: seq<App>, target: App, states: seq<Cluster>, oks: seq<bool>, n: nat)
    requires target !in apis && states != [] && states[0] == s0
    requires RanForward(RestorePlan(apis, routers, target, s0), states, oks)
    requires n < |oks| && RestorePlan(apis, routers, target, s0)[n] == RunRestore(target)
    ensures AllPaused(states[n], AsSet(apis)) && ScaleOf(states[n], target) == 1
    ensures (forall r :: r in routers ==> ScaleOf(states[n], r) == 0) <==> target !in routers
  {
    RestoreEndsWithRevert(apis, routers, target, s0);
    assert n == |apis| + |routers| + 1;
    var shutdown := ShutdownPlan(apis, routers, target);
    ShutdownProgress(s0, apis, routers, target, states[..n + 1], oks[..n], n);
    forall a | a in apis ensures Units(states[n], a) <= states[n].paused {
      var i :| 0 <= i < |apis| && apis[i] == a;
    }
    forall r | r in routers && r != target ensures ScaleOf(states[n], r) == 0 {
      var j :| 0 <= j < |routers| && routers[j] == r;
    }
  }

  /** A run that is past the shutdown and the restore action runs the compensation from a drifted state. */
  lemma WayBack(s0: Cluster, apis: seq<App>, routers: seq<App>, target: App, states: seq<Cluster>, oks: seq<bool>)
    requires states != [] && states[0] == s0 && Sound(s0)
    requires Ran(RestorePlan(apis, routers, target, s0), states, oks) && |ShutdownPlan(apis, routers, target)| <= |oks|
    ensures var k := |ShutdownPlan(apis, routers, target)|;
            && Ran(RevertPlan(apis, routers, target, s0), states[k..], oks[k..])
            && Drifted(s0, states[k], {target} + AsSet(routers), AsSet(apis))
  {
    RestoreEndsWithRevert(apis, routers, target, s0);
    var shutdown := ShutdownPlan(apis, routers, target);
    var k := |shutdown|;
    ShutdownShape(apis, routers, target);
    RunKeepsDrift(s0, shutdown, states[..k + 1], oks[..k], {target} + AsSet(routers), AsSet(apis));
  }

  /** On the way forward nothing is resumed before MySQL and every router are back at their captured scales. */
  lemma ResumeComesLast(
    s0: Cluster, apis: seq<App>, routers: seq<App>, target: App, states: seq<Cluster>, oks: seq<bool>, n: nat)
    requires states != [] && states[0] == s0 && Sound(s0)
    requires RanForward(RestorePlan(apis, routers, target, s0), states, oks)
    requires n < |oks| && RestorePlan(apis, routers, target, s0)[n].Resume?
    ensures forall a :: a == target || a in routers ==> ScaleOf(states[n], a) == ScaleOf(s0, a)
  {
    RestoreEndsWithRevert(apis, routers, target, s0);
    var revert, k := RevertPlan(apis, routers, target, s0), |ShutdownPlan(apis, routers, target)|;
    assert n >= k + 1 + |routers|;
    WayBack(s0, apis, routers, target, states, oks);
    RevertShape(apis, routers, target, s0);
    CompensationHeals(s0, revert, states[k..], oks[k..], {target} + AsSet(routers), AsSet(apis), n - k);
    assert revert[0] == Scale(target, ScaleOf(s0, target));
    forall a | a in routers ensures ScaleOf(states[n], a) == ScaleOf(s0, a) {
      var j :| 0 <= j < |routers| && routers[j] == a;
      assert revert[1 + j] == Scale(a, ScaleOf(s0, a));
    }
  }
}
