/**
  The feature gates of any number of nodes over whole runs: the table changes, nodes sync with
  calls that may fail, syncers restart, and something else may write the snap options.
 */
module GateRuns {
  import opened Wrappers
  import opened FeatureGates

  /** A node: what its syncer last saw, its snap options, and the options of all the gates its syncer has seen. */
  datatype Node = Node(known: Gates, snap: SnapConfig, managed: set<string>)

  datatype System = System(gates: Gates, nodes: seq<Node>)

  datatype Action =
    | SetGate(key: string, enabled: bool)
    | DeleteGate(key: string)
    | Sync(node: nat, failed: set<string>)    // the snapctl calls for these gates fail
    | Restart(node: nat)                      // the syncer forgets what it saw; the snap options stay
    | Foreign(node: nat, option: string, value: Option<string>)    // something else sets or unsets an option

  function Options(gates: Gates): set<string> { set k | k in gates :: Setting(k) }

  function Value(snap: SnapConfig, s: string): Option<string> {
    if s in snap then Some(snap[s]) else None
  }

  function Change(snap: SnapConfig, s: string, value: Option<string>): SnapConfig {
    if value.Some? then snap[s := value.value] else snap - {s}
  }

  /** An un-debounced sync, in which the calls for the `failed` gates change nothing. */
  ghost predicate NodeSyncs(gates: Gates, failed: set<string>, n: Node, n': Node) {
    if n.known == gates then n' == n
    else
      n'.known == gates && n'.managed == n.managed + Options(gates) && Replicated(n.known, gates, failed, n.snap, n'.snap)
  }

  /** What the syncer does on a node is such a sync, when it is not skipped and can read the table. */
  method SyncOn(fgs: FeatureGateSyncer, deployment: Option<string>, gates: seq<Gate>, now: nat, ghost managed: set<string>)
    returns (ghost table: Gates, ghost failed: set<string>)
    requires forall i, j :: 0 <= i < j < |gates| ==> gates[i].key != gates[j].key
    requires !fgs.Skips(deployment, now)
    modifies fgs, fgs.snapctl
    ensures IsTable(table, gates)
    ensures NodeSyncs(table, failed, Node(old(fgs.lastKnownGates), old(fgs.snapctl.config), managed),
              Node(fgs.lastKnownGates, fgs.snapctl.config,
                if old(fgs.lastKnownGates) == table then managed else managed + Options(table)))
  {
    var ok;
    ok, failed := fgs.SyncOnceUnlocked(deployment, Some(gates), now);
    table := fgs.lastKnownGates;
  }

  /** What an action on one node does to it; the table is the one at that moment. */
  ghost predicate NodeNext(gates: Gates, n: Node, a: Action, n': Node) {
    match a
    case Sync(_, failed) => NodeSyncs(gates, failed, n, n')
    case Restart(_) => n' == n.(known := map[])
    case Foreign(_, s, value) => n' == n.(snap := Change(n.snap, s, value))
    case _ => n' == n
  }

  predicate IsOn(a: Action, i: nat) {
    (a.Sync? || a.Restart? || a.Foreign?) && a.node == i
  }

  ghost predicate Next(s: System, a: Action, s': System) {
    && s'.gates == (match a
                    case SetGate(k, b) => s.gates[k := b]
                    case DeleteGate(k) => s.gates - {k}
                    case _ => s.gates)
    && |s'.nodes| == |s.nodes|
    && forall i :: 0 <= i < |s.nodes| ==>
         if IsOn(a, i) then NodeNext(s.gates, s.nodes[i], a, s'.nodes[i]) else s'.nodes[i] == s.nodes[i]
  }

  ghost predicate Run(states: seq<System>, acts: seq<Action>) {
    |states| == |acts| + 1 && forall i :: 0 <= i < |acts| ==> Next(states[i], acts[i], states[i + 1])
  }

  // ------------------------------------------------------------------ one sync, option by option

  /** The sync makes a call for the option, and it succeeds. */
  ghost predicate Called(known: Gates, gates: Gates, failed: set<string>, s: string) {
    exists k :: (k in known || k in gates) && k !in failed && Setting(k) == s
  }

  lemma GateAfter(known: Gates, gates: Gates, failed: set<string>, snap: SnapConfig, snap': SnapConfig, k: string)
    requires Replicated(known, gates, failed, snap, snap') && Distinct(known.Keys + gates.Keys)
    requires k in known || k in gates
    ensures Value(snap', Setting(k)) ==
            if k in failed then Value(snap, Setting(k))
            else if k in gates then Some(Text(gates[k]))
            else None
  {
    assert Written(known, gates, failed, snap, snap', Setting(k));
    if k !in failed {
      if k in gates {
        assert Feeds(gates, failed, k, Setting(k));
      } else {
        assert Feeds(known, failed, k, Setting(k));
      }
    }
  }

  lemma UncalledAfter(known: Gates, gates: Gates, failed: set<string>, snap: SnapConfig, snap': SnapConfig, s: string)
    requires Replicated(known, gates, failed, snap, snap') && !Called(known, gates, failed, s)
    ensures Value(snap', s) == Value(snap, s)
  {
    assert Written(known, gates, failed, snap, snap', s);
  }

  /**
    Whatever something else did to the options of a node (`m` is what would have become of `n`), a
    sync makes no difference between the two on an option exactly when there was none, or when the
    table has moved and a call for that option succeeds.
   */
  lemma SyncForgetsChangeIff(gates: Gates, failed: set<string>, n: Node, n': Node, m: Node, m': Node, s: string)
    requires m == n.(snap := m.snap) && Distinct(n.known.Keys + gates.Keys)
    requires NodeSyncs(gates, failed, n, n') && NodeSyncs(gates, failed, m, m')
    ensures Value(n'.snap, s) == Value(m'.snap, s) <==>
            Value(n.snap, s) == Value(m.snap, s) || (n.known != gates && Called(n.known, gates, failed, s))
  {
    if n.known != gates {
      if Called(n.known, gates, failed, s) {
        var k :| (k in n.known || k in gates) && k !in failed && Setting(k) == s;
        GateAfter(n.known, gates, failed, n.snap, n'.snap, k);
        GateAfter(n.known, gates, failed, m.snap, m'.snap, k);
      } else {
        UncalledAfter(n.known, gates, failed, n.snap, n'.snap, s);
        UncalledAfter(n.known, gates, failed, m.snap, m'.snap, s);
      }
    }
  }

  /** With no failed call, that is when the option belongs to a gate of the table, or to one known before. */
  lemma CalledWithoutFailures(known: Gates, gates: Gates, s: string)
    ensures Called(known, gates, {}, s) <==> s in Options(known) || s in Options(gates)
  {
    if s in Options(known) || s in Options(gates) {
      var k :| (k in known || k in gates) && Setting(k) == s;
      assert k !in {};
    }
  }

  // ------------------------------------------------------------------ what can be wrong with a node

  /** A gate that does not have its value. */
  ghost predicate Off(n: Node, gates: Gates, k: string) {
    k in gates && Value(n.snap, Setting(k)) != Some(Text(gates[k]))
  }

  /** An option that the syncer has managed, that is there, and that belongs to none of these gates. */
  ghost predicate Stale(n: Node, gates: Gates, s: string) {
    s in n.managed && s in n.snap && s !in Options(gates)
  }

  /** The options that the syncer manages are exactly those of these gates, with these values. */
  ghost predicate Mirrors(n: Node, gates: Gates) {
    Shows(gates, n.snap) && Options(gates) <= n.managed && forall s :: !Stale(n, gates, s)
  }

  lemma ShowsIffNoneOff(n: Node, gates: Gates)
    ensures Shows(gates, n.snap) <==> forall k :: !Off(n, gates, k)
  {
    if forall k :: !Off(n, gates, k) {
      forall k | k in gates ensures Setting(k) in n.snap && n.snap[Setting(k)] == Text(gates[k]) {
        assert !Off(n, gates, k);
      }
    }
  }

  /** The call that should unset the option fails. */
  ghost predicate UnsetFails(known: Gates, gates: Gates, failed: set<string>, s: string) {
    exists k :: k in known && k !in gates && k in failed && Setting(k) == s
  }

  lemma OffAfterSync(gates: Gates, failed: set<string>, n: Node, n': Node, k: string)
    requires NodeSyncs(gates, failed, n, n') && n.known != gates && Distinct(n.known.Keys + gates.Keys)
    ensures Off(n', gates, k) <==> k in failed && Off(n, gates, k)
  {
    if k in gates {
      GateAfter(n.known, gates, failed, n.snap, n'.snap, k);
    }
  }

  lemma StaleAfterSync(gates: Gates, failed: set<string>, n: Node, n': Node, s: string)
    requires NodeSyncs(gates, failed, n, n') && n.known != gates && Distinct(n.known.Keys + gates.Keys)
    requires Options(n.known) <= n.managed
    ensures Stale(n', gates, s) <==>
            s !in Options(gates) && (Stale(n, n.known, s) || (s in n.snap && UnsetFails(n.known, gates, failed, s)))
  {
    if s !in Options(gates) {
      if s in Options(n.known) {
        var k :| k in n.known && Setting(k) == s;
        GateAfter(n.known, gates, failed, n.snap, n'.snap, k);
      } else {
        UncalledAfter(n.known, gates, failed, n.snap, n'.snap, s);
      }
    }
  }

  /**
    Failed calls are never made good while the table stays the same: a gate is off exactly when the
    call to set it failed and it was off, and an option is stale exactly when it was before or the call
    to unset it failed.
   */
  lemma FailureIsForgotten(gates: Gates, failed: set<string>, n: Node, n': Node, again: set<string>, later: Node)
    requires NodeSyncs(gates, failed, n, n') && n.known != gates && NodeSyncs(gates, again, n', later)
    requires Distinct(n.known.Keys + gates.Keys) && Options(n.known) <= n.managed
    ensures forall k :: Off(later, gates, k) <==> k in failed && Off(n, gates, k)
    ensures forall s :: Stale(later, gates, s) <==>
              s !in Options(gates) && (Stale(n, n.known, s) || (s in n.snap && UnsetFails(n.known, gates, failed, s)))
  {
    forall k ensures Off(later, gates, k) <==> k in failed && Off(n, gates, k) {
      OffAfterSync(gates, failed, n, n', k);
    }
    forall s
      ensures Stale(later, gates, s) <==>
              s !in Options(gates) && (Stale(n, n.known, s) || (s in n.snap && UnsetFails(n.known, gates, failed, s)))
    {
      StaleAfterSync(gates, failed, n, n', s);
    }
  }

  /** After a sync without failures the table's gates show exactly when the table had moved or they showed before. */
  lemma SyncRepairsIffTableMoved(gates: Gates, n: Node, n': Node)
    requires NodeSyncs(gates, {}, n, n') && Distinct(n.known.Keys + gates.Keys)
    ensures Shows(gates, n'.snap) <==> n.known != gates || Shows(gates, n.snap)
  {
    if n.known != gates {
      SyncShowsIffCompatible(n.known, gates, n.snap, n'.snap);
    }
  }

  // ------------------------------------------------------------------ whole runs

  ghost predicate Fresh(s: System) {
    s.gates == map[] && forall i :: 0 <= i < |s.nodes| ==> s.nodes[i].known == map[] && s.nodes[i].managed == {}
  }

  ghost predicate KeysWithin(acts: seq<Action>, keys: set<string>) {
    forall i :: 0 <= i < |acts| && acts[i].SetGate? ==> acts[i].key in keys
  }

  ghost predicate NodeOk(n: Node, keys: set<string>) {
    n.known.Keys <= keys && Options(n.known) <= n.managed
  }

  /** A run from fresh nodes whose gates have options of their own. */
  ghost predicate GateRun(states: seq<System>, acts: seq<Action>, keys: set<string>) {
    Run(states, acts) && Fresh(states[0]) && Distinct(keys) && KeysWithin(acts, keys)
  }

  lemma {:induction false} NodesStayOk(states: seq<System>, acts: seq<Action>, keys: set<string>, n: nat)
    requires GateRun(states, acts, keys) && n <= |acts|
    ensures states[n].gates.Keys <= keys && |states[n].nodes| == |states[0].nodes|
    ensures forall i :: 0 <= i < |states[n].nodes| ==> NodeOk(states[n].nodes[i], keys)
  {
    if n > 0 {
      NodesStayOk(states, acts, keys, n - 1);
      assert Next(states[n - 1], acts[n - 1], states[n]);
    }
  }

  lemma StepOf(states: seq<System>, acts: seq<Action>, keys: set<string>, n: nat, i: nat)
    requires GateRun(states, acts, keys) && n < |acts| && i < |states[0].nodes|
    ensures |states[n].nodes| == |states[n + 1].nodes| == |states[0].nodes|
    ensures NodeOk(states[n].nodes[i], keys) && states[n].gates.Keys <= keys
    ensures Distinct(states[n].nodes[i].known.Keys + states[n].gates.Keys)
    ensures if IsOn(acts[n], i) then NodeNext(states[n].gates, states[n].nodes[i], acts[n], states[n + 1].nodes[i])
            else states[n + 1].nodes[i] == states[n].nodes[i]
  {
    NodesStayOk(states, acts, keys, n);
    NodesStayOk(states, acts, keys, n + 1);
    assert Next(states[n], acts[n], states[n + 1]);
  }

  /** A sync of the node that finds the table moved. */
  ghost predicate Effective(s: System, a: Action, i: nat) {
    a.Sync? && a.node == i && i < |s.nodes| && s.nodes[i].known != s.gates
  }

  /** The node's gate goes wrong: the call to set it fails, or something else writes its option. */
  ghost predicate Spoils(s: System, a: Action, i: nat, k: string) {
    && i < |s.nodes|
    && ((Effective(s, a, i) && k in a.failed && Off(s.nodes[i], s.gates, k))
        || (a.Foreign? && a.node == i && a.option == Setting(k)
            && k in s.nodes[i].known && a.value != Some(Text(s.nodes[i].known[k]))))
  }

  /** Whether the gate is right is decided anew. */
  ghost predicate Decides(s: System, a: Action, i: nat, k: string) {
    Effective(s, a, i) || a == Restart(i) || (a.Foreign? && a.node == i && a.option == Setting(k))
  }

  ghost predicate SpoiltAt(states: seq<System>, acts: seq<Action>, t: nat, n: nat, i: nat, k: string)
    requires Run(states, acts) && t < n <= |acts|
  {
    Spoils(states[t], acts[t], i, k) && forall m :: t < m < n ==> !Decides(states[m], acts[m], i, k)
  }

  /** The last action that decided about the gate went wrong. */
  ghost predicate Spoilt(states: seq<System>, acts: seq<Action>, n: nat, i: nat, k: string)
    requires Run(states, acts) && n <= |acts|
  {
    exists t :: 0 <= t < n && SpoiltAt(states, acts, t, n, i, k)
  }

  /** The option is left behind: by a restart, by a failed call to unset it, or by a write of something else. */
  ghost predicate Strands(s: System, a: Action, i: nat, o: string) {
    && i < |s.nodes|
    && ((a == Restart(i) && o in s.nodes[i].managed && o in s.nodes[i].snap)
        || (Effective(s, a, i) && o in s.nodes[i].snap && UnsetFails(s.nodes[i].known, s.gates, a.failed, o))
        || (a.Foreign? && a.node == i && a.option == o && a.value.Some?
            && o in s.nodes[i].managed && o !in Options(s.nodes[i].known)))
  }

  /** A gate of the table has the option at a sync, or something else unsets it. */
  ghost predicate Frees(s: System, a: Action, i: nat, o: string) {
    (a.Sync? && a.node == i && o in Options(s.gates)) || a == Foreign(i, o, None)
  }

  ghost predicate StrandedAt(states: seq<System>, acts: seq<Action>, t: nat, n: nat, i: nat, o: string)
    requires Run(states, acts) && t < n <= |acts|
  {
    Strands(states[t], acts[t], i, o) && forall m :: t < m < n ==> !Frees(states[m], acts[m], i, o)
  }

  ghost predicate Stranded(states: seq<System>, acts: seq<Action>, n: nat, i: nat, o: string)
    requires Run(states, acts) && n <= |acts|
  {
    exists t :: 0 <= t < n && StrandedAt(states, acts, t, n, i, o)
  }

  lemma SpoiltSince(states: seq<System>, acts: seq<Action>, n: nat, i: nat, k: string)
    requires Run(states, acts) && 0 < n <= |acts|
    ensures Spoilt(states, acts, n, i, k) <==>
            || Spoils(states[n - 1], acts[n - 1], i, k)
            || (Spoilt(states, acts, n - 1, i, k) && !Decides(states[n - 1], acts[n - 1], i, k))
  {
    if Spoilt(states, acts, n, i, k) {
      var t :| 0 <= t < n && SpoiltAt(states, acts, t, n, i, k);
      assert t < n - 1 ==> SpoiltAt(states, acts, t, n - 1, i, k);
    }
    if Spoils(states[n - 1], acts[n - 1], i, k) {
      assert SpoiltAt(states, acts, n - 1, n, i, k);
    }
    if Spoilt(states, acts, n - 1, i, k) && !Decides(states[n - 1], acts[n - 1], i, k) {
      var t :| 0 <= t < n - 1 && SpoiltAt(states, acts, t, n - 1, i, k);
      assert SpoiltAt(states, acts, t, n, i, k);
    }
  }

  lemma StrandedSince(states: seq<System>, acts: seq<Action>, n: nat, i: nat, o: string)
    requires Run(states, acts) && 0 < n <= |acts|
    ensures Stranded(states, acts, n, i, o) <==>
            || Strands(states[n - 1], acts[n - 1], i, o)
            || (Stranded(states, acts, n - 1, i, o) && !Frees(states[n - 1], acts[n - 1], i, o))
  {
    if Stranded(states, acts, n, i, o) {
      var t :| 0 <= t < n && StrandedAt(states, acts, t, n, i, o);
      assert t < n - 1 ==> StrandedAt(states, acts, t, n - 1, i, o);
    }
    if Strands(states[n - 1], acts[n - 1], i, o) {
      assert StrandedAt(states, acts, n - 1, n, i, o);
    }
    if Stranded(states, acts, n - 1, i, o) && !Frees(states[n - 1], acts[n - 1], i, o) {
      var t :| 0 <= t < n - 1 && StrandedAt(states, acts, t, n - 1, i, o);
      assert StrandedAt(states, acts, t, n, i, o);
    }
  }

  lemma OffStep(states: seq<System>, acts: seq<Action>, keys: set<string>, n: nat, i: nat, k: string)
    requires GateRun(states, acts, keys) && 0 < n <= |acts| && i < |states[0].nodes|
    ensures i < |states[n - 1].nodes| && i < |states[n].nodes|
    ensures Off(states[n].nodes[i], states[n].nodes[i].known, k) <==>
            || Spoils(states[n - 1], acts[n - 1], i, k)
            || (Off(states[n - 1].nodes[i], states[n - 1].nodes[i].known, k) && !Decides(states[n - 1], acts[n - 1], i, k))
  {
    StepOf(states, acts, keys, n - 1, i);
    if Effective(states[n - 1], acts[n - 1], i) {
      OffAfterSync(states[n - 1].gates, acts[n - 1].failed, states[n - 1].nodes[i], states[n].nodes[i], k);
    }
  }

  /** In every run, a gate that the syncer knows is off exactly when the last action that decided about it went wrong. */
  lemma {:induction false} OffIffSpoilt(
      states: seq<System>, acts: seq<Action>, keys: set<string>, n: nat, i: nat, k: string)
    requires GateRun(states, acts, keys) && n <= |acts| && i < |states[0].nodes|
    ensures i < |states[n].nodes|
    ensures Off(states[n].nodes[i], states[n].nodes[i].known, k) <==> Spoilt(states, acts, n, i, k)
  {
    if n > 0 {
      OffIffSpoilt(states, acts, keys, n - 1, i, k);
      SpoiltSince(states, acts, n, i, k);
      OffStep(states, acts, keys, n, i, k);
    }
  }

  lemma StaleStep(states: seq<System>, acts: seq<Action>, keys: set<string>, n: nat, i: nat, o: string)
    requires GateRun(states, acts, keys) && 0 < n <= |acts| && i < |states[0].nodes|
    ensures i < |states[n - 1].nodes| && i < |states[n].nodes|
    ensures Stale(states[n].nodes[i], states[n].nodes[i].known, o) <==>
            || Strands(states[n - 1], acts[n - 1], i, o)
            || (Stale(states[n - 1].nodes[i], states[n - 1].nodes[i].known, o) && !Frees(states[n - 1], acts[n - 1], i, o))
  {
    StepOf(states, acts, keys, n - 1, i);
    if Effective(states[n - 1], acts[n - 1], i) {
      StaleAfterSync(states[n - 1].gates, acts[n - 1].failed, states[n - 1].nodes[i], states[n].nodes[i], o);
      OneKeyEach(states[n - 1], acts[n - 1], keys, i, o);
    }
  }

  /** In every run, an option is overlooked exactly when it was stranded, and not freed since. */
  lemma {:induction false} StaleIffStranded(
      states: seq<System>, acts: seq<Action>, keys: set<string>, n: nat, i: nat, o: string)
    requires GateRun(states, acts, keys) && n <= |acts| && i < |states[0].nodes|
    ensures i < |states[n].nodes|
    ensures Stale(states[n].nodes[i], states[n].nodes[i].known, o) <==> Stranded(states, acts, n, i, o)
  {
    if n > 0 {
      StaleIffStranded(states, acts, keys, n - 1, i, o);
      StrandedSince(states, acts, n, i, o);
      StaleStep(states, acts, keys, n, i, o);
    }
  }

  /** An option whose unsetting fails is no option of the table. */
  lemma OneKeyEach(s: System, a: Action, keys: set<string>, i: nat, o: string)
    requires Effective(s, a, i) && Distinct(s.nodes[i].known.Keys + s.gates.Keys)
    ensures UnsetFails(s.nodes[i].known, s.gates, a.failed, o) ==> o !in Options(s.gates)
  {
  }

  // ------------------------------------------------------------------ convergence

  ghost predicate Quiet(acts: seq<Action>, from: nat) {
    forall j :: from <= j < |acts| ==> !acts[j].SetGate? && !acts[j].DeleteGate?
  }

  lemma {:induction false} QuietGates(states: seq<System>, acts: seq<Action>, from: nat, n: nat)
    requires Run(states, acts) && from <= n <= |acts| && Quiet(acts, from)
    ensures states[n].gates == states[from].gates
  {
    if n > from {
      QuietGates(states, acts, from, n - 1);
      assert Next(states[n - 1], acts[n - 1], states[n]);
    }
  }

  lemma {:induction false} SyncSticks(
      states: seq<System>, acts: seq<Action>, keys: set<string>, from: nat, m: nat, n: nat, i: nat)
    requires GateRun(states, acts, keys) && from <= m < n <= |acts| && Quiet(acts, from) && i < |states[0].nodes|
    requires acts[m].Sync? && acts[m].node == i && forall j :: m < j < n ==> acts[j] != Restart(i)
    ensures i < |states[n].nodes| && states[n].nodes[i].known == states[n].gates == states[from].gates
  {
    StepOf(states, acts, keys, n - 1, i);
    QuietGates(states, acts, from, n - 1);
    QuietGates(states, acts, from, n);
    if n > m + 1 {
      SyncSticks(states, acts, keys, from, m, n - 1, i);
    }
  }

  /**
    Once the cluster's table has stopped changing, and a node has synced since and since its last
    restart, its options are the table's gates with their values, and no other managed option, exactly
    when the last action that decided about each gate went right and no option was stranded.
   */
  lemma NodesConverge(states: seq<System>, acts: seq<Action>, keys: set<string>, from: nat, m: nat, i: nat)
    requires GateRun(states, acts, keys) && from <= m < |acts| && Quiet(acts, from) && i < |states[0].nodes|
    requires acts[m].Sync? && acts[m].node == i && forall j :: m < j < |acts| ==> acts[j] != Restart(i)
    ensures i < |states[|acts|].nodes|
    ensures forall k :: Off(states[|acts|].nodes[i], states[from].gates, k) <==> Spoilt(states, acts, |acts|, i, k)
    ensures forall o :: Stale(states[|acts|].nodes[i], states[from].gates, o) <==> Stranded(states, acts, |acts|, i, o)
    ensures Mirrors(states[|acts|].nodes[i], states[from].gates) <==>
            forall o :: !Spoilt(states, acts, |acts|, i, o) && !Stranded(states, acts, |acts|, i, o)
  {
    var n := |acts|;
    NodesStayOk(states, acts, keys, n);
    SyncSticks(states, acts, keys, from, m, n, i);
    forall k ensures Off(states[n].nodes[i], states[from].gates, k) <==> Spoilt(states, acts, n, i, k) {
      OffIffSpoilt(states, acts, keys, n, i, k);
    }
    forall o ensures Stale(states[n].nodes[i], states[from].gates, o) <==> Stranded(states, acts, n, i, o) {
      StaleIffStranded(states, acts, keys, n, i, o);
    }
    ShowsIffNoneOff(states[n].nodes[i], states[from].gates);
  }

  /** A node whose calls succeed, that does not restart, and whose options nothing else writes ends with the table's options. */
  lemma UndisturbedNodesMirror(states: seq<System>, acts: seq<Action>, keys: set<string>, from: nat, m: nat, i: nat)
    requires GateRun(states, acts, keys) && from <= m < |acts| && Quiet(acts, from) && i < |states[0].nodes|
    requires acts[m] == Sync(i, {}) && forall j :: 0 <= j < |acts| && IsOn(acts[j], i) ==> acts[j] == Sync(i, {})
    ensures i < |states[|acts|].nodes| && Mirrors(states[|acts|].nodes[i], states[from].gates)
  {
    forall j | m < j < |acts| ensures acts[j] != Restart(i) {
      assert IsOn(Restart(i), i);
    }
    NodesConverge(states, acts, keys, from, m, i);
    forall t, o | 0 <= t < |acts| ensures !Spoils(states[t], acts[t], i, o) && !Strands(states[t], acts[t], i, o) {
      assert IsOn(acts[t], i) ==> acts[t] == Sync(i, {});
    }
  }

  /** A table that goes there and back between two syncs leaves a change by something else as it is. */
  lemma LocalChangeSurvives(k: string, b: bool, failed: set<string>, changed: System, there: System, back: System, synced: System)
    requires var s := System(map[k := b], [Node(map[k := b], map[Setting(k) := Text(b)], {Setting(k)})]);
             Next(s, Foreign(0, Setting(k), Some(Text(!b))), changed)
    requires Next(changed, SetGate(k, !b), there) && Next(there, SetGate(k, b), back) && Next(back, Sync(0, failed), synced)
    ensures synced.gates == map[k := b] && Off(synced.nodes[0], synced.gates, k)
  {
    var gates: Gates := map[k := b];
    assert gates[k := !b][k := b] == gates;
    assert IsOn(Foreign(0, Setting(k), Some(Text(!b))), 0) && IsOn(Sync(0, failed), 0);
    assert Text(!b) != Text(b);
  }
}
