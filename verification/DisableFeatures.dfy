/**
  Disabling every enabled feature with a retry queue: a feature that others still require goes
  back to the end of the queue.
 */
module DisableFeatures {
  import opened Wrappers

  type Feature = string

  type Group = string

  /** A requirement names a feature, and perhaps a group any member of which will do. */
  datatype Requirement = Requirement(name: Feature, group: Option<Group>)

  /** What each feature requires, and the group that it belongs to. */
  datatype Needs = Needs(requirements: map<Feature, seq<Requirement>>, groups: map<Feature, Group>)

  /** One of the requirements of `g` is for `f`, or for the group of `f`. */
  predicate Requires(needs: Needs, g: Feature, f: Feature) {
    g in needs.requirements && exists r :: r in needs.requirements[g] && IsFor(needs, r, f)
  }

  predicate IsFor(needs: Needs, r: Requirement, f: Feature) {
    r.name == f || (r.group.Some? && f in needs.groups && needs.groups[f] == r.group.value)
  }

  /** Some enabled feature requires `f`. */
  predicate HasRequirers(needs: Needs, enabled: set<Feature>, f: Feature) {
    exists g :: g in enabled && Requires(needs, g, f)
  }

  ghost function Elements(q: seq<Feature>): set<Feature> { set f | f in q }

  ghost predicate Distinct(q: seq<Feature>) {
    forall i, j :: 0 <= i < j < |q| ==> q[i] != q[j]
  }

  /** Each feature of the walk is required by the next one. */
  ghost predicate Walk(needs: Needs, walk: seq<Feature>) {
    forall i :: 0 <= i < |walk| - 1 ==> Requires(needs, walk[i + 1], walk[i])
  }

  ghost predicate Cycle(needs: Needs, among: set<Feature>, walk: seq<Feature>) {
    |walk| >= 2 && Walk(needs, walk) && walk[0] == walk[|walk| - 1] && Elements(walk) <= among
  }

  ghost predicate Acyclic(needs: Needs, among: set<Feature>) {
    forall walk :: !Cycle(needs, among, walk)
  }

  // ------------------------------------------------------------------ an acyclic graph always has a feature to disable

  lemma {:induction false} Pigeonhole(s: seq<Feature>, among: set<Feature>) returns (i: nat, j: nat)
    requires Elements(s) <= among && |s| > |among|
    ensures i < j < |s| && s[i] == s[j]
  {
    var last := s[|s| - 1];
    var front := s[..|s| - 1];
    assert last in Elements(s);
    if last in front {
      i :| 0 <= i < |front| && front[i] == last;
      j := |s| - 1;
    } else {
      forall f | f in Elements(front) ensures f in among - {last} {
        assert f in Elements(s);
      }
      i, j := Pigeonhole(front, among - {last});
    }
  }

  lemma WalkOneMore(needs: Needs, among: set<Feature>, walk: seq<Feature>, g: Feature)
    requires walk != [] && Walk(needs, walk) && Elements(walk) <= among
    requires g in among && Requires(needs, g, walk[|walk| - 1])
    ensures Walk(needs, walk + [g]) && Elements(walk + [g]) <= among
  {
    forall f | f in Elements(walk + [g]) ensures f in among {
      if f in walk {
        assert f in Elements(walk);
      }
    }
    var walk' := walk + [g];
    forall i | 0 <= i < |walk'| - 1 ensures Requires(needs, walk'[i + 1], walk'[i]) {
      if i < |walk| - 1 {
        assert Requires(needs, walk[i + 1], walk[i]);
      }
    }
  }

  lemma {:induction false} LongWalk(needs: Needs, among: set<Feature>, n: nat) returns (walk: seq<Feature>)
    requires among != {} && forall f :: f in among ==> HasRequirers(needs, among, f)
    ensures |walk| == n + 1 && Walk(needs, walk) && Elements(walk) <= among
  {
    if n == 0 {
      var f :| f in among;
      walk := [f];
    } else {
      var w := LongWalk(needs, among, n - 1);
      assert w[n - 1] in Elements(w);
      var g :| g in among && Requires(needs, g, w[n - 1]);
      WalkOneMore(needs, among, w, g);
      walk := w + [g];
    }
  }

  lemma FreeFeatureExists(needs: Needs, among: set<Feature>)
    requires among != {} && Acyclic(needs, among)
    ensures exists f :: f in among && !HasRequirers(needs, among, f)
  {
    if forall f :: f in among ==> HasRequirers(needs, among, f) {
      var walk := LongWalk(needs, among, |among|);
      var i, j := Pigeonhole(walk, among);
      var loop := walk[i..j + 1];
      forall f | f in Elements(loop) ensures f in among {
        assert f in Elements(walk);
      }
      assert Cycle(needs, among, loop);
      assert false;
    }
  }

  // ------------------------------------------------------------------ the queue

  /** Where the first feature is that nothing in the queue requires; the length when there is none. */
  function FirstFree(needs: Needs, enabled: set<Feature>, q: seq<Feature>): (d: nat)
    ensures d <= |q|
    ensures d < |q| ==> !HasRequirers(needs, enabled, q[d])
    ensures forall i :: 0 <= i < d ==> HasRequirers(needs, enabled, q[i])
  {
    if q == [] then 0
    else if !HasRequirers(needs, enabled, q[0]) then 0
    else 1 + FirstFree(needs, enabled, q[1..])
  }

  lemma FreeIsInQueue(needs: Needs, q: seq<Feature>)
    requires q != [] && Acyclic(needs, Elements(q))
    ensures FirstFree(needs, Elements(q), q) < |q|
  {
    assert q[0] in Elements(q);
    FreeFeatureExists(needs, Elements(q));
  }

  lemma RotationApproachesFree(needs: Needs, enabled: set<Feature>, q: seq<Feature>)
    requires q != [] && HasRequirers(needs, enabled, q[0]) && FirstFree(needs, enabled, q) < |q|
    ensures FirstFree(needs, enabled, q[1..] + [q[0]]) == FirstFree(needs, enabled, q) - 1
  {
    var d, r := FirstFree(needs, enabled, q), q[1..] + [q[0]];
    var e := FirstFree(needs, enabled, r);
    assert forall i :: 0 <= i < |q| - 1 ==> r[i] == q[i + 1];
    assert r[d - 1] == q[d];
  }

  lemma SmallerIsAcyclic(needs: Needs, among: set<Feature>, fewer: set<Feature>)
    requires Acyclic(needs, among) && fewer <= among
    ensures Acyclic(needs, fewer)
  {
    forall walk ensures !Cycle(needs, fewer, walk) {
      assert !Cycle(needs, among, walk);
    }
  }

  // ------------------------------------------------------------------ the step

  datatype Outcome = Disabled | Required | ModelNotFound | OtherError

  datatype Result = Completed | Failed(feature: Feature)

  /** What can go wrong with a call besides requirers. */
  datatype Trouble = ModelMissing | Broken

  /** How a call to disable `f` goes, among these enabled features and with this trouble if any. */
  ghost predicate GoesAs(needs: Needs, enabled: set<Feature>, f: Feature, trouble: Option<Trouble>, outcome: Outcome) {
    match trouble
    case Some(ModelMissing) => outcome == ModelNotFound
    case Some(Broken) => outcome == OtherError
    case None => outcome == if HasRequirers(needs, enabled, f) then Required else Disabled
  }

  class DisableEnabledFeatures {
    const needs: Needs
    const troubles: nat -> Option<Trouble>    // of each call to disable a feature
    var callsMade: nat
    var enabled: set<Feature>              // the enabled features of the deployment
    var enabledFeatures: seq<Feature>      // the queue

    constructor (needs: Needs, troubles: nat -> Option<Trouble>, enabled: set<Feature>)
      ensures this.needs == needs && this.troubles == troubles && this.enabled == enabled
      ensures callsMade == 0 && enabledFeatures == []
    {
      this.needs, this.troubles, this.enabled := needs, troubles, enabled;
      callsMade, enabledFeatures := 0, [];
    }

    /** Put every enabled feature into the queue; skip when there is none, or the cluster service cannot tell. */
    method IsSkip(available: bool) returns (skip: bool)
      modifies this`enabledFeatures
      ensures skip <==> !available || enabled == {}
      ensures skip ==> enabledFeatures == old(enabledFeatures)
      ensures !skip ==> Distinct(enabledFeatures) && Elements(enabledFeatures) == enabled
    {
      if !available {
        return true;
      }
      if enabled == {} {
        return true;
      }
      enabledFeatures := [];
      var rest := enabled;
      while rest != {}
        invariant rest <= enabled && Distinct(enabledFeatures)
        invariant forall f :: f in enabledFeatures <==> f in enabled - rest
      {
        var f :| f in rest;
        assert f !in enabledFeatures;
        enabledFeatures, rest := enabledFeatures + [f], rest - {f};
      }
      skip := false;
    }

    /**
      Disable one feature.  Without trouble it is refused because of requirers exactly when an enabled
      feature requires it, and is disabled otherwise.
     */
    method DisableFeature(feature: Feature) returns (outcome: Outcome)
      modifies this`enabled, this`callsMade
      ensures callsMade == old(callsMade) + 1
      ensures GoesAs(needs, old(enabled), feature, troubles(old(callsMade)), outcome)
      ensures enabled == if outcome.Disabled? then old(enabled) - {feature} else old(enabled)
    {
      var trouble := troubles(callsMade);
      callsMade := callsMade + 1;
      match trouble {
        case Some(ModelMissing) => return ModelNotFound;
        case Some(Broken) => return OtherError;
        case None =>
      }
      if exists g :: g in enabled && Requires(needs, g, feature) {
        return Required;
      }
      enabled := enabled - {feature};
      return Disabled;
    }

    /**
      On an acyclic graph the step ends.  Its calls are for the heads of the queue, which turns at
      every call without trouble; it fails exactly at the first call with trouble, if the queue is not
      empty before.  Whatever was disabled was disabled once and only after all the features that
      require it; when the step completes, that is every queued feature.
     */
    method Run() returns (result: Result, ghost order: seq<Feature>, ghost n: nat)
      requires Distinct(enabledFeatures) && Elements(enabledFeatures) == enabled && Acyclic(needs, enabled)
      modifies this
      ensures InOrder(needs, old(enabled), order, enabled)
      ensures callsMade == old(callsMade) + n
      ensures Ended(needs, troubles, old(callsMade), old(enabledFeatures), n, result)
      ensures result.Completed? ==> enabled == {} && enabledFeatures == []
    {
      order, n := [], 0;
      ghost var q0, first := enabledFeatures, callsMade;
      while enabledFeatures != []
        invariant Queued() && InOrder(needs, old(enabled), order, enabled) && callsMade == first + n
        invariant Untroubled(troubles, first, n) && IsAfter(needs, q0, n, enabledFeatures)
        decreases |enabledFeatures|, FirstFree(needs, enabled, enabledFeatures)
      {
        OnceMore(needs, troubles, first, q0, n, enabledFeatures);
        n := n + 1;
        var feature, outcome;
        feature, outcome, order := Take(old(enabled), order);
        if outcome == ModelNotFound || outcome == OtherError {
          return Failed(feature), order, n;
        }
      }
      result := Completed;
    }

    ghost predicate Queued()
      reads this
    {
      Distinct(enabledFeatures) && Elements(enabledFeatures) == enabled && Acyclic(needs, enabled)
    }

    /** Take the head of the queue, try to disable it, and put it back when it has requirers. */
    method Take(ghost all: set<Feature>, ghost order: seq<Feature>)
      returns (feature: Feature, outcome: Outcome, ghost order': seq<Feature>)
      requires enabledFeatures != [] && Queued() && InOrder(needs, all, order, enabled)
      modifies this
      ensures callsMade == old(callsMade) + 1 && feature == old(enabledFeatures)[0]
      ensures GoesAs(needs, old(enabled), feature, troubles(old(callsMade)), outcome)
      ensures InOrder(needs, all, order', enabled)
      ensures outcome == Disabled || outcome == Required ==>
                Queued() && enabledFeatures == Turn(needs, old(enabledFeatures))
      ensures outcome == Disabled || outcome == Required ==>
                || |enabledFeatures| < |old(enabledFeatures)|
                || (|enabledFeatures| == |old(enabledFeatures)|
                    && FirstFree(needs, enabled, enabledFeatures) < old(FirstFree(needs, enabled, enabledFeatures)))
    {
      ghost var queue := enabledFeatures;
      FreeIsInQueue(needs, queue);
      feature := enabledFeatures[0];
      enabledFeatures := enabledFeatures[1..];
      order' := order;
      outcome := DisableFeature(feature);
      if outcome == Required {
        enabledFeatures := enabledFeatures + [feature];
        RotationApproachesFree(needs, enabled, queue);
        RotationKeepsElements(queue);
      } else if outcome.Disabled? {
        TailElements(queue);
        SmallerIsAcyclic(needs, Elements(queue), enabled);
        ExtendOrder(needs, all, order, Elements(queue), feature);
        order' := order + [feature];
      }
    }
  }

  ghost predicate IsAfter(needs: Needs, q: seq<Feature>, n: nat, queue: seq<Feature>) {
    queue == Turns(needs, q, n)
  }

  /** The `n` calls from number `first` on meet no trouble. */
  ghost predicate Untroubled(troubles: nat -> Option<Trouble>, first: nat, n: nat) {
    forall c: nat :: first <= c < first + n ==> troubles(c) == None
  }

  /**
    After `n` calls: the step completes when they met no trouble and have emptied the queue, and fails
    with the feature at the head of the queue at the first call that meets trouble.
   */
  ghost predicate Ended(
      needs: Needs, troubles: nat -> Option<Trouble>, first: nat, q: seq<Feature>, n: nat, result: Result)
  {
    match result
    case Completed => Untroubled(troubles, first, n) && IsAfter(needs, q, n, [])
    case Failed(feature) =>
      && n > 0 && Untroubled(troubles, first, n - 1) && troubles(first + n - 1).Some?
      && Turns(needs, q, n - 1) != [] && Turns(needs, q, n - 1)[0] == feature
  }

  lemma OnceMore(
      needs: Needs, troubles: nat -> Option<Trouble>, first: nat, q: seq<Feature>, n: nat, queue: seq<Feature>)
    requires Untroubled(troubles, first, n) && IsAfter(needs, q, n, queue) && queue != []
    ensures troubles(first + n) == None ==> Untroubled(troubles, first, n + 1) && IsAfter(needs, q, n + 1, Turn(needs, queue))
    ensures troubles(first + n).Some? ==> Ended(needs, troubles, first, q, n + 1, Failed(queue[0]))
  {
    TurnsOneMore(needs, q, n);
  }

  lemma {:induction false} TurnsOneMore(needs: Needs, q: seq<Feature>, n: nat)
    requires Turns(needs, q, n) != []
    ensures Turns(needs, q, n + 1) == Turn(needs, Turns(needs, q, n))
    decreases n
  {
    if n > 0 && q != [] {
      TurnsOneMore(needs, Turn(needs, q), n - 1);
    } else {
      assert Turns(needs, Turn(needs, q), 0) == Turn(needs, q);
    }
  }

  /** `order` lists once each feature disabled so far, each after all the features that require it. */
  ghost predicate InOrder(needs: Needs, all: set<Feature>, order: seq<Feature>, enabled: set<Feature>) {
    && Distinct(order) && Elements(order) + enabled == all && Elements(order) !! enabled
    && (forall i, j :: 0 <= i <= j < |order| ==> !Requires(needs, order[j], order[i]))
    && (forall i, g :: 0 <= i < |order| && g in enabled ==> !Requires(needs, g, order[i]))
  }

  lemma ExtendOrder(needs: Needs, all: set<Feature>, order: seq<Feature>, enabled: set<Feature>, f: Feature)
    requires InOrder(needs, all, order, enabled) && f in enabled && !HasRequirers(needs, enabled, f)
    ensures InOrder(needs, all, order + [f], enabled - {f})
  {
    assert forall g :: g in order + [f] <==> g in order || g == f;
    forall i | 0 <= i < |order| ensures order[i] != f {
      assert order[i] in Elements(order);
    }
  }

  lemma RotationKeepsElements(q: seq<Feature>)
    requires q != [] && Distinct(q)
    ensures Elements(q[1..] + [q[0]]) == Elements(q) && Distinct(q[1..] + [q[0]])
  {
    assert forall f :: f in q[1..] + [q[0]] <==> f in q;
  }

  lemma TailElements(q: seq<Feature>)
    requires q != [] && Distinct(q)
    ensures Elements(q[1..]) == Elements(q) - {q[0]} && q[0] in Elements(q)
  {
    assert forall f :: f in q <==> f in q[1..] || f == q[0];
  }

  // ------------------------------------------------------------------ exactly when it ends

  /** One turn of the loop when nothing fails. */
  ghost function Turn(needs: Needs, q: seq<Feature>): seq<Feature>
    requires q != []
  {
    if HasRequirers(needs, Elements(q), q[0]) then q[1..] + [q[0]] else q[1..]
  }

  ghost function Turns(needs: Needs, q: seq<Feature>, n: nat): seq<Feature>
    decreases n
  {
    if n == 0 || q == [] then q else Turns(needs, Turn(needs, q), n - 1)
  }

  lemma TurnKeeps(needs: Needs, q: seq<Feature>, walk: seq<Feature>)
    requires q != [] && Cycle(needs, Elements(q), walk)
    ensures Cycle(needs, Elements(Turn(needs, q)), walk)
  {
    var q' := Turn(needs, q);
    forall f | f in Elements(walk) ensures f in Elements(q') {
      if f == q[0] {
        var i :| 0 <= i < |walk| && walk[i] == f;
        var k := if i < |walk| - 1 then i else 0;
        assert walk[k + 1] in Elements(walk) && Requires(needs, walk[k + 1], f);
      }
    }
  }

  lemma {:induction false} CycleNeverDrains(needs: Needs, q: seq<Feature>, walk: seq<Feature>, n: nat)
    requires Cycle(needs, Elements(q), walk)
    ensures Turns(needs, q, n) != []
    decreases n
  {
    assert walk[0] in Elements(walk);
    if n > 0 {
      TurnKeeps(needs, q, walk);
      CycleNeverDrains(needs, Turn(needs, q), walk, n - 1);
    }
  }

  lemma {:induction false} AcyclicDrains(needs: Needs, q: seq<Feature>) returns (n: nat)
    requires Acyclic(needs, Elements(q))
    ensures Turns(needs, q, n) == []
    decreases |q|, FirstFree(needs, Elements(q), q)
  {
    if q == [] {
      n := 0;
    } else {
      FreeIsInQueue(needs, q);
      var q' := Turn(needs, q);
      if HasRequirers(needs, Elements(q), q[0]) {
        RotationApproachesFree(needs, Elements(q), q);
        assert Elements(q') == Elements(q);
      }
      SmallerIsAcyclic(needs, Elements(q), Elements(q'));
      var m := AcyclicDrains(needs, q');
      n := m + 1;
    }
  }

  /** The worklist drains exactly when the enabled features do not require each other in a circle. */
  lemma DrainsIffAcyclic(needs: Needs, q: seq<Feature>)
    ensures (exists n :: Turns(needs, q, n) == []) <==> Acyclic(needs, Elements(q))
  {
    if Acyclic(needs, Elements(q)) {
      var n := AcyclicDrains(needs, q);
    } else {
      var walk :| Cycle(needs, Elements(q), walk);
      forall n: nat ensures Turns(needs, q, n) != [] {
        CycleNeverDrains(needs, q, walk, n);
      }
    }
  }
}
