/**
  Replication of the cluster's feature gates into the snap configuration of every node.
 */
module FeatureGates {
  import opened Wrappers

  type Gates = map<string, bool>
  type SnapConfig = map<string, string>

  const PREFIX := "feature."

  predicate HasFeaturePrefix(key: string) {
    |PREFIX| <= |key| && key[..|PREFIX|] == PREFIX
  }

  /** The snap option of a gate. */
  function Setting(key: string): string {
    if HasFeaturePrefix(key) then key else PREFIX + key
  }

  function Text(enabled: bool): string {
    if enabled then "true" else "false"
  }

  /** The gate `k` of `gates` is written to option `s`. */
  predicate Feeds(gates: Gates, failed: set<string>, k: string, s: string) {
    k in gates && k !in failed && Setting(k) == s
  }

  ghost predicate Fed(gates: Gates, failed: set<string>, s: string) {
    exists k :: Feeds(gates, failed, k, s)
  }

  /** An option that a removed gate leads to. */
  ghost predicate Dropped(known: Gates, gates: Gates, failed: set<string>, s: string) {
    exists k :: Feeds(known, failed, k, s) && k !in gates
  }

  /**
    What one option becomes when the gates are written in some order and the removed ones are
    then unset, where the calls for the `failed` gates changed nothing.
   */
  ghost predicate Written(known: Gates, gates: Gates, failed: set<string>, snap: SnapConfig, snap': SnapConfig, s: string) {
    if Dropped(known, gates, failed, s) then s !in snap'
    else if Fed(gates, failed, s) then s in snap' && exists k :: Feeds(gates, failed, k, s) && snap'[s] == Text(gates[k])
    else (s in snap <==> s in snap') && (s in snap ==> snap[s] == snap'[s])
  }

  ghost predicate Replicated(known: Gates, gates: Gates, failed: set<string>, snap: SnapConfig, snap': SnapConfig) {
    forall s :: Written(known, gates, failed, snap, snap', s)
  }

  lemma WriteOne(done: Gates, failed: set<string>, snap: SnapConfig, now: SnapConfig, k: string, enabled: bool, ok: bool)
    requires Replicated(map[], done, failed, snap, now) && k !in done && failed <= done.Keys
    ensures Replicated(map[], done[k := enabled], if ok then failed else failed + {k}, snap,
                       if ok then now[Setting(k) := Text(enabled)] else now)
  {
    var done', failed', now' := done[k := enabled], if ok then failed else failed + {k}, if ok then now[Setting(k) := Text(enabled)] else now;
    forall s ensures Written(map[], done', failed', snap, now', s) {
      assert Written(map[], done, failed, snap, now, s);
      assert forall j :: Feeds(done, failed, j, s) ==> Feeds(done', failed', j, s) && done'[j] == done[j];
      assert forall j :: Feeds(done', failed', j, s) ==> Feeds(done, failed, j, s) || (j == k && ok);
      if ok && s == Setting(k) {
        assert Feeds(done', failed', k, s);
      }
    }
  }

  lemma UnsetOne(known: Gates, gates: Gates, failed: set<string>, snap: SnapConfig, now: SnapConfig, k: string, enabled: bool, ok: bool)
    requires Replicated(known, gates, failed, snap, now) && k !in known && k !in gates && k !in failed
    ensures Replicated(known[k := enabled], gates, if ok then failed else failed + {k}, snap,
                       if ok then now - {Setting(k)} else now)
  {
    var known', failed', now' := known[k := enabled], if ok then failed else failed + {k}, if ok then now - {Setting(k)} else now;
    forall s ensures Written(known', gates, failed', snap, now', s) {
      assert Written(known, gates, failed, snap, now, s);
      assert forall j :: Feeds(gates, failed, j, s) <==> Feeds(gates, failed', j, s);
      assert forall j :: Feeds(known, failed, j, s) ==> Feeds(known', failed', j, s);
      assert forall j :: Feeds(known', failed', j, s) ==> Feeds(known, failed, j, s) || (j == k && ok);
      if ok && s == Setting(k) {
        assert Feeds(known', failed', k, s);
      }
    }
  }

  lemma KeptOne(known: Gates, gates: Gates, failed: set<string>, snap: SnapConfig, now: SnapConfig, k: string, enabled: bool)
    requires Replicated(known, gates, failed, snap, now) && k !in known && k in gates
    ensures Replicated(known[k := enabled], gates, failed, snap, now)
  {
    var known' := known[k := enabled];
    forall s ensures Written(known', gates, failed, snap, now, s) {
      assert Written(known, gates, failed, snap, now, s);
      assert forall j :: j !in gates ==> (Feeds(known, failed, j, s) <==> Feeds(known', failed, j, s));
    }
  }

  // ------------------------------------------------------------------ the syncer

  /** The snap option "feature.<name>" of the gate, whose key may lack the prefix, says "true" or "false" as the gate does. */
  ghost predicate Says(config: SnapConfig, key: string, enabled: bool) {
    var option := if |key| >= 8 && key[..8] == "feature." then key else "feature." + key;
    option in config && config[option] == if enabled then "true" else "false"
  }

  ghost predicate Unsaid(config: SnapConfig, key: string) {
    (if |key| >= 8 && key[..8] == "feature." then key else "feature." + key) !in config
  }

  lemma SettingSays(config: SnapConfig, key: string, enabled: bool)
    ensures Says(config, key, enabled) <==> Setting(key) in config && config[Setting(key)] == Text(enabled)
    ensures Unsaid(config, key) <==> Setting(key) !in config
  {
  }

  class Snapctl {
    var config: SnapConfig

    constructor (config: SnapConfig)
      ensures this.config == config
    {
      this.config := config;
    }

    method Set(key: string, value: string) returns (ok: bool)
      modifies this
      ensures config == if ok then old(config)[key := value] else old(config)
    {
      ok := *;
      if ok {
        config := config[key := value];
      }
    }

    method Unset(key: string) returns (ok: bool)
      modifies this
      ensures config == if ok then old(config) - {key} else old(config)
    {
      ok := *;
      if ok {
        config := config - {key};
      }
    }
  }

  datatype Gate = Gate(key: string, enabled: bool)

  /** Seconds. */
  const SYNC_DEBOUNCE := 2

  class FeatureGateSyncer {
    const snapctl: Snapctl
    var lastKnownGates: Gates
    var lastSyncTime: Option<nat>     // None is the zero time

    constructor (snapctl: Snapctl)
      ensures this.snapctl == snapctl && lastKnownGates == map[] && lastSyncTime == None
    {
      this.snapctl := snapctl;
      lastKnownGates, lastSyncTime := map[], None;
    }

    method SetSnapConfig(gateKey: string, enabled: bool) returns (ok: bool)
      modifies snapctl
      ensures snapctl.config == if ok then old(snapctl.config)[Setting(gateKey) := Text(enabled)] else old(snapctl.config)
      ensures ok ==> Says(snapctl.config, gateKey, enabled)
    {
      var key := gateKey;
      if !HasFeaturePrefix(key) {
        key := PREFIX + key;
      }
      ok := snapctl.Set(key, Text(enabled));
    }

    method UnsetSnapConfig(gateKey: string) returns (ok: bool)
      modifies snapctl
      ensures snapctl.config == if ok then old(snapctl.config) - {Setting(gateKey)} else old(snapctl.config)
      ensures ok ==> Unsaid(snapctl.config, gateKey)
    {
      var key := gateKey;
      if !HasFeaturePrefix(key) {
        key := PREFIX + key;
      }
      ok := snapctl.Unset(key);
    }

    /** Change detection: a new or different gate, or a removed one. */
    method Changed(clusterGates: Gates) returns (changed: bool)
      ensures changed <==> lastKnownGates != clusterGates
    {
      changed := false;
      var keys := clusterGates.Keys;
      while keys != {}
        invariant keys <= clusterGates.Keys
        invariant !changed ==> forall k | k in clusterGates && k !in keys :: k in lastKnownGates && lastKnownGates[k] == clusterGates[k]
        invariant changed ==> lastKnownGates != clusterGates
      {
        var gateKey :| gateKey in keys;
        keys := keys - {gateKey};
        if gateKey !in lastKnownGates || lastKnownGates[gateKey] != clusterGates[gateKey] {
          changed := true;
          break;
        }
      }
      keys := lastKnownGates.Keys;
      while keys != {}
        invariant keys <= lastKnownGates.Keys
        invariant !changed ==> forall k | k in lastKnownGates && k !in keys :: k in clusterGates
        invariant !changed ==> forall k | k in clusterGates :: k in lastKnownGates && lastKnownGates[k] == clusterGates[k]
        invariant changed ==> lastKnownGates != clusterGates
      {
        var gateKey :| gateKey in keys;
        keys := keys - {gateKey};
        if gateKey !in clusterGates {
          changed := true;
          break;
        }
      }
    }

    /** Set every gate of the cluster; failures are logged and the other gates are still written. */
    method WriteGates(clusterGates: Gates) returns (ghost failed: set<string>)
      modifies snapctl
      ensures failed <= clusterGates.Keys
      ensures Replicated(map[], clusterGates, failed, old(snapctl.config), snapctl.config)
    {
      failed := {};
      ghost var snap := snapctl.config;
      var keys := clusterGates.Keys;
      while keys != {}
        invariant keys <= clusterGates.Keys && failed <= clusterGates.Keys - keys
        invariant Replicated(map[], clusterGates - keys, failed, snap, snapctl.config)
      {
        var gateKey :| gateKey in keys;
        ghost var before := snapctl.config;
        var ok := SetSnapConfig(gateKey, clusterGates[gateKey]);
        WriteOne(clusterGates - keys, failed, snap, before, gateKey, clusterGates[gateKey], ok);
        assert clusterGates - (keys - {gateKey}) == (clusterGates - keys)[gateKey := clusterGates[gateKey]];
        keys := keys - {gateKey};
        if !ok {
          failed := failed + {gateKey};
        }
      }
      assert clusterGates - {} == clusterGates;
    }

    /** Unset the gates that the cluster no longer has. */
    method RemoveGates(clusterGates: Gates, ghost snap: SnapConfig, ghost failedSets: set<string>)
      returns (ghost failed: set<string>)
      requires failedSets <= clusterGates.Keys
      requires Replicated(map[], clusterGates, failedSets, snap, snapctl.config)
      modifies snapctl
      ensures failedSets <= failed <= clusterGates.Keys + lastKnownGates.Keys
      ensures Replicated(lastKnownGates, clusterGates, failed, snap, snapctl.config)
    {
      failed := failedSets;
      var keys := lastKnownGates.Keys;
      while keys != {}
        invariant keys <= lastKnownGates.Keys
        invariant failedSets <= failed <= clusterGates.Keys + (lastKnownGates.Keys - keys)
        invariant Replicated(lastKnownGates - keys, clusterGates, failed, snap, snapctl.config)
      {
        var gateKey :| gateKey in keys;
        ghost var before, done := snapctl.config, lastKnownGates - keys;
        assert lastKnownGates - (keys - {gateKey}) == done[gateKey := lastKnownGates[gateKey]];
        if gateKey !in clusterGates {
          var ok := UnsetSnapConfig(gateKey);
          UnsetOne(done, clusterGates, failed, snap, before, gateKey, lastKnownGates[gateKey], ok);
          if !ok {
            failed := failed + {gateKey};
          }
        } else {
          KeptOne(done, clusterGates, failed, snap, before, gateKey, lastKnownGates[gateKey]);
        }
        keys := keys - {gateKey};
      }
      assert lastKnownGates - {} == lastKnownGates;
    }

    /** Does this call stop before it looks at the gates? */
    ghost predicate Skips(deployment: Option<string>, now: nat)
      reads this
    {
      deployment == Some("maas") || (lastSyncTime.Some? && now - lastSyncTime.value < 2)
    }

    /**
      One sync.  The deployment type and the gate list come from the cluster database, where
      gate keys are unique; the list is None when it cannot be read.
     */
    method SyncOnceUnlocked(deployment: Option<string>, gates: Option<seq<Gate>>, now: nat)
      returns (ok: bool, ghost failed: set<string>)
      requires gates.Some? ==> forall i, j :: 0 <= i < j < |gates.value| ==> gates.value[i].key != gates.value[j].key
      modifies this, snapctl
      ensures old(Skips(deployment, now)) || gates.None? || lastKnownGates == old(lastKnownGates) ==>
                snapctl.config == old(snapctl.config) && lastKnownGates == old(lastKnownGates) && lastSyncTime == old(lastSyncTime)
      ensures ok <==> old(Skips(deployment, now)) || gates.Some?
      ensures !old(Skips(deployment, now)) && gates.Some? ==> IsTable(lastKnownGates, gates.value)
      ensures !old(Skips(deployment, now)) && gates.Some? && old(lastKnownGates) != lastKnownGates ==>
                && lastSyncTime == Some(now)
                && Replicated(old(lastKnownGates), lastKnownGates, failed, old(snapctl.config), snapctl.config)
      ensures !old(Skips(deployment, now)) && gates.Some? && old(lastKnownGates) != lastKnownGates && failed == {}
              && Distinct(old(lastKnownGates.Keys) + lastKnownGates.Keys) ==>
                && (forall g <- gates.value :: Says(snapctl.config, g.key, g.enabled))
                && (forall k <- old(lastKnownGates) :: (forall g <- gates.value :: g.key != k) ==> Unsaid(snapctl.config, k))
    {
      failed := {};
      if deployment == Some("maas") {
        return true, {};
      }
      if lastSyncTime.Some? && now - lastSyncTime.value < SYNC_DEBOUNCE {
        return true, {};
      }
      if gates.None? {
        return false, {};
      }
      var clusterGates := ReadTable(gates.value);
      var changed := Changed(clusterGates);
      if !changed {
        return true, {};
      }
      ghost var known, snap := lastKnownGates, snapctl.config;
      failed := WriteGates(clusterGates);
      failed := RemoveGates(clusterGates, snap, failed);
      lastKnownGates := clusterGates;
      lastSyncTime := Some(now);
      ok := true;
      if failed == {} && Distinct(known.Keys + clusterGates.Keys) {
        TableIsSaid(known, clusterGates, gates.value, snap, snapctl.config);
      }
    }

    /** A sync that ignores the debounce. */
    method ForceSync(deployment: Option<string>, gates: Option<seq<Gate>>, now: nat)
      returns (ok: bool, ghost failed: set<string>)
      requires gates.Some? ==> forall i, j :: 0 <= i < j < |gates.value| ==> gates.value[i].key != gates.value[j].key
      modifies this, snapctl
      ensures deployment != Some("maas") && gates.Some? ==> IsTable(lastKnownGates, gates.value)
      ensures deployment != Some("maas") && gates.Some? && old(lastKnownGates) != lastKnownGates ==>
                && Replicated(old(lastKnownGates), lastKnownGates, failed, old(snapctl.config), snapctl.config)
                && (failed == {} && Distinct(old(lastKnownGates.Keys) + lastKnownGates.Keys) ==>
                      && (forall g <- gates.value :: Says(snapctl.config, g.key, g.enabled))
                      && (forall k <- old(lastKnownGates) :: (forall g <- gates.value :: g.key != k) ==> Unsaid(snapctl.config, k)))
      ensures deployment == Some("maas") || gates.None? || lastKnownGates == old(lastKnownGates) ==>
                snapctl.config == old(snapctl.config) && lastKnownGates == old(lastKnownGates)
      ensures ok <==> deployment == Some("maas") || gates.Some?
    {
      lastSyncTime := None;
      ok, failed := SyncOnceUnlocked(deployment, gates, now);
    }
  }

  /** The map has the gates of the list, with their values, and no others. */
  ghost predicate IsTable(table: Gates, gates: seq<Gate>) {
    && (forall g <- gates :: g.key in table && table[g.key] == g.enabled)
    && (forall k <- table :: exists g :: g in gates && g.key == k)
  }

  /** The gates as a map. */
  method ReadTable(gates: seq<Gate>) returns (table: Gates)
    requires forall i, j :: 0 <= i < j < |gates| ==> gates[i].key != gates[j].key
    ensures IsTable(table, gates)
  {
    table := map[];
    for i := 0 to |gates|
      invariant IsTable(table, gates[..i])
    {
      assert gates[..i + 1] == gates[..i] + [gates[i]];
      forall g | g in gates[..i] ensures g.key != gates[i].key {
        var j :| 0 <= j < i && gates[j] == g;
      }
      table := table[gates[i].key := gates[i].enabled];
    }
    assert gates[..|gates|] == gates;
  }

  lemma TableIsSaid(known: Gates, table: Gates, gates: seq<Gate>, snap: SnapConfig, snap': SnapConfig)
    requires Replicated(known, table, {}, snap, snap') && IsTable(table, gates) && Distinct(known.Keys + table.Keys)
    ensures forall g <- gates :: Says(snap', g.key, g.enabled)
    ensures forall k <- known :: (forall g <- gates :: g.key != k) ==> Unsaid(snap', k)
  {
    SyncShowsIffCompatible(known, table, snap, snap');
    forall g | g in gates ensures Says(snap', g.key, g.enabled) {
      SettingSays(snap', g.key, g.enabled);
    }
    forall k | k in known && forall g <- gates :: g.key != k ensures Unsaid(snap', k) {
      SettingSays(snap', k, true);
      assert k !in table;
      assert Written(known, table, {}, snap, snap', Setting(k)) && Feeds(known, {}, k, Setting(k));
    }
  }

  // ------------------------------------------------------------------ what one sync achieves

  /** Every gate has its value in the snap configuration. */
  ghost predicate Shows(gates: Gates, snap: SnapConfig) {
    forall k :: k in gates ==> Setting(k) in snap && snap[Setting(k)] == Text(gates[k])
  }

  /** Gates with one option agree, and no removed gate has the option of a present one. */
  ghost predicate Compatible(known: Gates, gates: Gates) {
    && (forall j, k :: j in gates && k in gates && Setting(j) == Setting(k) ==> gates[j] == gates[k])
    && (forall j, k :: j in known && j !in gates && k in gates ==> Setting(j) != Setting(k))
  }

  /** With no failed call, the gates show exactly when they are compatible, whatever the order of the calls. */
  lemma SyncShowsIffCompatible(known: Gates, gates: Gates, snap: SnapConfig, snap': SnapConfig)
    requires Replicated(known, gates, {}, snap, snap')
    ensures Shows(gates, snap') <==> Compatible(known, gates)
  {
    if Compatible(known, gates) {
      forall k | k in gates ensures Setting(k) in snap' && snap'[Setting(k)] == Text(gates[k]) {
        assert Written(known, gates, {}, snap, snap', Setting(k));
        assert Feeds(gates, {}, k, Setting(k));
      }
    }
    if Shows(gates, snap') {
      forall j, k | j in known && j !in gates && k in gates ensures Setting(j) != Setting(k) {
        assert Written(known, gates, {}, snap, snap', Setting(j));
        assert Feeds(known, {}, j, Setting(j));
      }
    }
  }

  /** With failed calls, the gates show exactly when every failed one was right before. */
  lemma FailedSyncShowsIff(known: Gates, gates: Gates, failed: set<string>, snap: SnapConfig, snap': SnapConfig)
    requires Replicated(known, gates, failed, snap, snap')
    requires Distinct(known.Keys + gates.Keys)
    ensures Shows(gates, snap') <==>
            forall k :: k in gates && k in failed ==> Setting(k) in snap && snap[Setting(k)] == Text(gates[k])
  {
    forall k | k in gates
      ensures (Setting(k) in snap' && snap'[Setting(k)] == Text(gates[k])) <==>
              (k in failed ==> Setting(k) in snap && snap[Setting(k)] == Text(gates[k]))
    {
      assert Written(known, gates, failed, snap, snap', Setting(k));
      if k !in failed {
        assert Feeds(gates, failed, k, Setting(k));
      }
    }
  }

  /** No two gate keys have the same option. */
  ghost predicate Distinct(keys: set<string>) {
    forall j, k :: j in keys && k in keys && Setting(j) == Setting(k) ==> j == k
  }

  /** Keys that are all written with the prefix are distinct. */
  lemma PrefixedKeysAreDistinct(keys: set<string>)
    requires forall k :: k in keys ==> HasFeaturePrefix(k)
    ensures Distinct(keys)
  {
  }
}
