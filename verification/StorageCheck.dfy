/**
  The check that refuses a manifest which changes storage that is already deployed, and what an
  empty report means for the next run.
 */
module StorageCheck {
  import opened Wrappers
  import opened Tfvars
  import opened TfvarLaws

  /** Add a later source: it only contributes variables, and sub-keys of dicts, that are missing. */
  function Absorbed(stored: Vars, config: Vars): Vars {
    map k | k in stored.Keys + config.Keys ::
      if k !in stored then config[k]
      else if k in config && config[k].Dict? && stored[k].Dict? then Dict(config[k].fields + stored[k].fields)
      else stored[k]
  }

  function StoredVars(sources: seq<Vars>): Vars {
    if sources == [] then map[] else Absorbed(StoredVars(sources[..|sources| - 1]), sources[|sources| - 1])
  }

  /** The first source that has the variable decides whether it is a dict; the first dict that has the sub-key gives it. */
  function FirstField(sources: seq<Vars>, k: string, f: string): Option<Json> {
    if sources == [] then None
    else if k !in sources[0] then FirstField(sources[1..], k, f)
    else if !sources[0][k].Dict? then None
    else FirstInDicts(sources, k, f)
  }

  function FirstInDicts(sources: seq<Vars>, k: string, f: string): Option<Json> {
    if sources == [] then None
    else FirstOf(FieldAt(At(sources[0], k), f), FirstInDicts(sources[1..], k, f))
  }

  lemma {:induction false} FirstInDictsSnoc(sources: seq<Vars>, last: Vars, k: string, f: string)
    ensures FirstInDicts(sources + [last], k, f) == FirstOf(FirstInDicts(sources, k, f), FieldAt(At(last, k), f))
  {
    if sources != [] {
      assert (sources + [last])[1..] == sources[1..] + [last];
      FirstInDictsSnoc(sources[1..], last, k, f);
    } else {
      assert (sources + [last])[1..] == [];
    }
  }

  ghost predicate Mentioned(sources: seq<Vars>, k: string) {
    exists i :: 0 <= i < |sources| && k in sources[i]
  }

  lemma {:induction false} FirstFieldSnoc(sources: seq<Vars>, last: Vars, k: string, f: string)
    ensures FirstField(sources + [last], k, f) ==
            if !Mentioned(sources, k) then FieldAt(At(last, k), f)
            else if StartsAsDict(sources, k) then FirstOf(FirstField(sources, k, f), FieldAt(At(last, k), f))
            else None
  {
    FirstInDictsSnoc(sources, last, k, f);
    if sources != [] {
      assert (sources + [last])[1..] == sources[1..] + [last];
      if k !in sources[0] {
        FirstFieldSnoc(sources[1..], last, k, f);
        assert Mentioned(sources, k) <==> Mentioned(sources[1..], k);
      }
    } else {
      assert (sources + [last])[1..] == [];
    }
  }

  ghost predicate StartsAsDict(sources: seq<Vars>, k: string) {
    if sources == [] then false
    else if k !in sources[0] then StartsAsDict(sources[1..], k)
    else sources[0][k].Dict?
  }

  lemma {:induction false} StartsAsDictSnoc(sources: seq<Vars>, last: Vars, k: string)
    ensures StartsAsDict(sources + [last], k) ==
            if Mentioned(sources, k) then StartsAsDict(sources, k) else k in last && last[k].Dict?
  {
    if sources != [] {
      assert (sources + [last])[1..] == sources[1..] + [last];
      if k !in sources[0] {
        StartsAsDictSnoc(sources[1..], last, k);
        assert Mentioned(sources, k) <==> Mentioned(sources[1..], k);
      }
    } else {
      assert (sources + [last])[1..] == [];
    }
  }

  /** The stored variables are the first-source-wins merge of the sources. */
  lemma {:induction false} StoredVarsIsFirstWins(sources: seq<Vars>, k: string, f: string)
    ensures k in StoredVars(sources) <==> Mentioned(sources, k)
    ensures k in StoredVars(sources) ==> (StoredVars(sources)[k].Dict? <==> StartsAsDict(sources, k))
    ensures FieldAt(At(StoredVars(sources), k), f) == FirstField(sources, k, f)
  {
    if sources != [] {
      var n := |sources| - 1;
      var front, last := sources[..n], sources[n];
      assert sources == front + [last];
      StoredVarsIsFirstWins(front, k, f);
      FirstFieldSnoc(front, last, k, f);
      StartsAsDictSnoc(front, last, k);
      assert Mentioned(sources, k) <==> Mentioned(front, k) || k in last;
    }
  }

  /** The variables of the records that exist, in the order of the config keys. */
  function Sources(configs: map<string, Record>, keys: seq<string>): seq<Vars> {
    if keys == [] then []
    else if keys[0] in configs then [configs[keys[0]].vars] + Sources(configs, keys[1..])
    else Sources(configs, keys[1..])
  }

  /** The record under the key number `i` exists and has the variable. */
  ghost predicate Has(configs: map<string, Record>, keys: seq<string>, i: int, k: string) {
    0 <= i < |keys| && keys[i] in configs && k in configs[keys[i]].vars
  }

  ghost predicate HasField(configs: map<string, Record>, keys: seq<string>, i: int, k: string, f: string) {
    Has(configs, keys, i, k) && var v := configs[keys[i]].vars[k]; v.Dict? && f in v.fields
  }

  lemma {:induction false} SourcesSnoc(configs: map<string, Record>, keys: seq<string>, last: string)
    ensures Sources(configs, keys + [last]) ==
            Sources(configs, keys) + if last in configs then [configs[last].vars] else []
  {
    if keys == [] {
      assert (keys + [last])[1..] == [];
    } else {
      assert (keys + [last])[1..] == keys[1..] + [last];
      SourcesSnoc(configs, keys[1..], last);
    }
  }

  lemma StoredSnoc(configs: map<string, Record>, keys: seq<string>)
    requires keys != []
    ensures var front, last := keys[..|keys| - 1], keys[|keys| - 1];
            StoredVars(Sources(configs, keys)) ==
            if last in configs then Absorbed(StoredVars(Sources(configs, front)), configs[last].vars)
            else StoredVars(Sources(configs, front))
  {
    var front, last := keys[..|keys| - 1], keys[|keys| - 1];
    assert keys == front + [last];
    SourcesSnoc(configs, front, last);
    if last in configs {
      assert (Sources(configs, front) + [configs[last].vars])[..|Sources(configs, front)|] == Sources(configs, front);
    } else {
      assert Sources(configs, front) + [] == Sources(configs, front);
    }
  }

  /**
    The first record that has a variable (number `i`) decides what it is; when that is a dict, the first
    record from there on whose dict has a sub-key (number `j`) gives its value.
   */
  lemma {:induction false} StoredAre(configs: map<string, Record>, keys: seq<string>, k: string, f: string)
      returns (i: nat, j: nat)
    ensures i <= |keys| && (forall n :: 0 <= n < i ==> !Has(configs, keys, n, k)) && (i < |keys| ==> Has(configs, keys, i, k))
    ensures i <= j <= |keys| && (forall n :: i <= n < j ==> !HasField(configs, keys, n, k, f)) && (j < |keys| ==> HasField(configs, keys, j, k, f))
    ensures var stored := StoredVars(Sources(configs, keys));
            && (k in stored <==> i < |keys|)
            && (i < |keys| ==>
                  var first := configs[keys[i]].vars[k];
                  if first.Dict? then
                    stored[k].Dict? &&
                    FieldAt(At(stored, k), f) == if j < |keys| then Some(configs[keys[j]].vars[k].fields[f]) else None
                  else stored[k] == first)
  {
    if keys == [] {
      i, j := 0, 0;
    } else {
      var n := |keys| - 1;
      StoredSnoc(configs, keys);
      i, j := StoredAre(configs, keys[..n], k, f);
      assert forall m :: 0 <= m < n ==> (Has(configs, keys[..n], m, k) <==> Has(configs, keys, m, k));
      assert forall m :: 0 <= m < n ==> (HasField(configs, keys[..n], m, k, f) <==> HasField(configs, keys, m, k, f));
      if i == n && !Has(configs, keys, n, k) {
        i := n + 1;
      }
      if j == n && !HasField(configs, keys, n, k, f) {
        j := n + 1;
      }
    }
  }

  method AbsorbFields(stored: map<string, Json>, config: map<string, Json>) returns (fields: map<string, Json>)
    ensures fields == config + stored
  {
    fields := stored;
    var subKeys := config.Keys;
    while subKeys != {}
      invariant subKeys <= config.Keys
      invariant fields == (config - subKeys) + stored
    {
      var subKey :| subKey in subKeys;
      if subKey !in fields {
        fields := fields[subKey := config[subKey]];
      }
      subKeys := subKeys - {subKey};
    }
    assert config - {} == config;
  }

  lemma AbsorbOneMore(stored: Vars, config: Vars, remaining: set<string>, k: string)
    requires k in remaining && k in config
    ensures k !in stored ==> Absorbed(stored, config - (remaining - {k})) == Absorbed(stored, config - remaining)[k := config[k]]
    ensures k in stored ==> Absorbed(stored, config - remaining)[k] == stored[k]
    ensures k in stored ==> Absorbed(stored, config - (remaining - {k})) == Absorbed(stored, config - remaining)[k :=
              if config[k].Dict? && stored[k].Dict? then Dict(config[k].fields + stored[k].fields) else stored[k]]
    ensures k in Absorbed(stored, config - remaining) <==> k in stored
  {
  }

  method AbsorbRecord(stored: Vars, config: Vars) returns (merged: Vars)
    ensures merged == Absorbed(stored, config)
  {
    merged := stored;
    var remaining := config.Keys;
    while remaining != {}
      invariant remaining <= config.Keys
      invariant merged == Absorbed(stored, config - remaining)
    {
      var k :| k in remaining;
      AbsorbOneMore(stored, config, remaining, k);
      if k !in merged {
        merged := merged[k := config[k]];
      } else if config[k].Dict? && merged[k].Dict? {
        var fields := AbsorbFields(merged[k].fields, config[k].fields);
        merged := merged[k := Dict(fields)];
      }
      remaining := remaining - {k};
    }
    assert config - {} == config;
  }

  method LoadStoredTfvars(configs: map<string, Record>, keys: seq<string>) returns (stored: Vars)
    ensures stored == StoredVars(Sources(configs, keys))
  {
    stored := map[];
    ghost var sources := [];
    for i := 0 to |keys|
      invariant stored == StoredVars(sources)
      invariant sources + Sources(configs, keys[i..]) == Sources(configs, keys)
    {
      assert keys[i..][0] == keys[i] && keys[i..][1..] == keys[i + 1..];
      if keys[i] in configs {
        var config := configs[keys[i]].vars;
        stored := AbsorbRecord(stored, config);
        assert (sources + [config])[..|sources|] == sources;
        assert sources + ([config] + Sources(configs, keys[i + 1..])) == (sources + [config]) + Sources(configs, keys[i + 1..]);
        sources := sources + [config];
      }
    }
    assert sources + [] == sources;
  }

  // ------------------------------------------------------------------ the check

  /** dict.get on the attribute map of a charm. */
  function TfvarOf(attrs: seq<Attr>, name: string): Option<string> {
    if attrs == [] then None
    else if attrs[0].name == name then Some(attrs[0].tfvar)
    else TfvarOf(attrs[1..], name)
  }

  predicate IsStorage(name: string) {
    name == "storage" || name == "storage-map"
  }

  /** Two dicts with different values under a shared sub-key. */
  predicate Differ(a: Option<Json>, b: Option<Json>) {
    && a.Some? && b.Some? && a.value.Dict? && b.value.Dict?
    && exists f :: f in a.value.fields && f in b.value.fields && a.value.fields[f] != b.value.fields[f]
  }

  /** The manifest gives attribute `name` of a charm a dict that disagrees with the stored dict on a shared sub-key. */
  predicate Disagrees(c: CharmVars, m: Manifest, stored: Vars, name: string, t: string) {
    && IsStorage(name) && TfvarOf(c.attrs, name) == Some(t) && t != ""
    && FindCharm(m, c.charm).Some?
    && Differ(At(FindCharm(m, c.charm).value, name), At(stored, t))
  }

  predicate Reported(vm: VarMap, m: Manifest, stored: Vars, t: string) {
    exists i :: 0 <= i < |vm.charms| &&
      (Disagrees(vm.charms[i], m, stored, "storage", t) || Disagrees(vm.charms[i], m, stored, "storage-map", t))
  }

  /** The first attribute of this name maps to `t`. */
  ghost predicate MapsTo(c: CharmVars, name: string, t: string) {
    exists j :: FirstAttr(c.attrs, name, j) && c.attrs[j].tfvar == t
  }

  ghost predicate FirstAttr(attrs: seq<Attr>, name: string, j: int) {
    0 <= j < |attrs| && attrs[j].name == name && forall n :: 0 <= n < j ==> attrs[n].name != name
  }

  lemma {:induction false} TfvarOfFirst(attrs: seq<Attr>, name: string)
    ensures match TfvarOf(attrs, name)
            case Some(t) => exists j :: FirstAttr(attrs, name, j) && attrs[j].tfvar == t
            case None => forall j :: 0 <= j < |attrs| ==> attrs[j].name != name
  {
    if attrs != [] {
      if attrs[0].name == name {
        assert FirstAttr(attrs, name, 0);
      } else {
        TfvarOfFirst(attrs[1..], name);
        if TfvarOf(attrs[1..], name).Some? {
          var j :| FirstAttr(attrs[1..], name, j) && attrs[1..][j].tfvar == TfvarOf(attrs[1..], name).value;
          assert FirstAttr(attrs, name, j + 1);
        } else {
          forall j | 0 <= j < |attrs| ensures attrs[j].name != name {
            assert j > 0 ==> attrs[1..][j - 1] == attrs[j];
          }
        }
      }
    }
  }

  /** The manifest changes a stored storage sub-key: what the report is about. */
  ghost predicate Changes(vm: VarMap, m: Manifest, stored: Vars, t: string, i: int, name: string, charm: Charm, f: string) {
    && 0 <= i < |vm.charms| && (name == "storage" || name == "storage-map")
    && t != "" && MapsTo(vm.charms[i], name, t)
    && Describes(m, vm.charms[i].charm, charm) && name in charm && charm[name].Dict? && f in charm[name].fields
    && t in stored && stored[t].Dict? && f in stored[t].fields && stored[t].fields[f] != charm[name].fields[f]
  }

  lemma ReportedIffChanged(vm: VarMap, m: Manifest, stored: Vars, t: string)
    ensures Reported(vm, m, stored, t) <==> exists i, name, charm, f :: Changes(vm, m, stored, t, i, name, charm, f)
  {
    if Reported(vm, m, stored, t) {
      var i :| 0 <= i < |vm.charms| &&
        (Disagrees(vm.charms[i], m, stored, "storage", t) || Disagrees(vm.charms[i], m, stored, "storage-map", t));
      var name := if Disagrees(vm.charms[i], m, stored, "storage", t) then "storage" else "storage-map";
      var charm := FindCharm(m, vm.charms[i].charm).value;
      FindCharmDescribes(m, vm.charms[i].charm);
      TfvarOfFirst(vm.charms[i].attrs, name);
      var f :| f in charm[name].fields && f in stored[t].fields && charm[name].fields[f] != stored[t].fields[f];
      assert Changes(vm, m, stored, t, i, name, charm, f);
    }
    if exists i, name, charm, f :: Changes(vm, m, stored, t, i, name, charm, f) {
      var i, name, charm, f :| Changes(vm, m, stored, t, i, name, charm, f);
      FindCharmDescribes(m, vm.charms[i].charm);
      DescribedOnce(m, vm.charms[i].charm, charm, FindCharm(m, vm.charms[i].charm).value);
      TfvarOfFirst(vm.charms[i].attrs, name);
      assert Disagrees(vm.charms[i], m, stored, name, t);
    }
  }

  method CheckAttribute(c: CharmVars, charm: Charm, stored: Vars, name: string) returns (modified: seq<string>)
    requires IsStorage(name)
    ensures forall m, t :: FindCharm(m, c.charm) == Some(charm) ==> (t in modified <==> Disagrees(c, m, stored, name, t))
  {
    var tfvar := TfvarOf(c.attrs, name);
    if tfvar.None? || tfvar.value == "" {
      return [];
    }
    if name !in charm || !charm[name].Truthy() || !charm[name].Dict? {
      return [];
    }
    if tfvar.value !in stored || !stored[tfvar.value].Truthy() || !stored[tfvar.value].Dict? {
      return [];
    }
    var manifestValue, storedValue := charm[name].fields, stored[tfvar.value].fields;
    var remaining := manifestValue.Keys;
    while remaining != {}
      invariant remaining <= manifestValue.Keys
      invariant forall f | f in manifestValue && f !in remaining :: f in storedValue ==> storedValue[f] == manifestValue[f]
    {
      var key :| key in remaining;
      if key in storedValue && storedValue[key] != manifestValue[key] {
        return [tfvar.value];
      }
      remaining := remaining - {key};
    }
    return [];
  }

  method CheckStorageModifications(
    configs: map<string, Record>, m: Manifest, vm: VarMap, config: string, extra: seq<string>)
    returns (modified: seq<string>)
    ensures forall t :: t in modified <==> Reported(vm, m, StoredVars(Sources(configs, [config] + extra)), t)
    ensures forall t :: t in modified <==>
              exists i, name, charm, f :: Changes(vm, m, StoredVars(Sources(configs, [config] + extra)), t, i, name, charm, f)
  {
    forall t
      ensures Reported(vm, m, StoredVars(Sources(configs, [config] + extra)), t) <==>
              exists i, name, charm, f :: Changes(vm, m, StoredVars(Sources(configs, [config] + extra)), t, i, name, charm, f)
    {
      ReportedIffChanged(vm, m, StoredVars(Sources(configs, [config] + extra)), t);
    }
    var stored := LoadStoredTfvars(configs, [config] + extra);
    if stored == map[] {
      return [];
    }
    modified := [];
    for i := 0 to |vm.charms|
      invariant forall t :: t in modified <==> Reported(VarMap(vm.charms[..i], {}), m, stored, t)
    {
      var c := vm.charms[i];
      var charm := FindCharm(m, c.charm);
      ghost var before := modified;
      if charm.Some? {
        var plain := CheckAttribute(c, charm.value, stored, "storage");
        var mapped := CheckAttribute(c, charm.value, stored, "storage-map");
        modified := modified + plain + mapped;
      }
      forall t ensures Reported(VarMap(vm.charms[..i + 1], {}), m, stored, t) <==>
        Reported(VarMap(vm.charms[..i], {}), m, stored, t) ||
        Disagrees(c, m, stored, "storage", t) || Disagrees(c, m, stored, "storage-map", t)
      {
        assert vm.charms[..i + 1][i] == c;
        assert forall j :: 0 <= j < i ==> vm.charms[..i + 1][j] == vm.charms[..i][j];
      }
    }
    assert vm.charms[..|vm.charms|] == vm.charms;
  }

  // ------------------------------------------------------------------ what an empty report means

  /** The attribute maps are dicts, and `t` is mapped from storage attributes only. */
  predicate StorageVariable(vm: VarMap, t: string) {
    && t != ""
    && (forall i | 0 <= i < |vm.charms| :: forall j, j' | 0 <= j < j' < |vm.charms[i].attrs| ::
          vm.charms[i].attrs[j].name != vm.charms[i].attrs[j'].name)
    && (forall i, j | 0 <= i < |vm.charms| && 0 <= j < |vm.charms[i].attrs| ::
          vm.charms[i].attrs[j].tfvar == t ==> IsStorage(vm.charms[i].attrs[j].name))
  }

  lemma {:induction false} TfvarOfAttr(attrs: seq<Attr>, j: nat)
    requires j < |attrs|
    requires forall i, i' | 0 <= i < i' < |attrs| :: attrs[i].name != attrs[i'].name
    ensures TfvarOf(attrs, attrs[j].name) == Some(attrs[j].tfvar)
  {
    if j > 0 {
      assert attrs[0].name != attrs[j].name;
      TfvarOfAttr(attrs[1..], j - 1);
    }
  }

  /**
    When the check reports nothing, the next run changes no storage sub-key that the canonical
    record has both before and after it.
   */
  lemma EmptyReportProtectsStorage(
    configs: map<string, Record>, m: Manifest, vm: VarMap, config: string, extra: seq<string>,
    over: Vars, t: string, f: string)
    requires config in configs && StorageVariable(vm, t) && t !in over
    requires !Reported(vm, m, StoredVars(Sources(configs, [config] + extra)), t)
    ensures var before := FieldAt(At(configs[config].vars, t), f);
            var after := FieldAt(At(FullRun(vm, Some(configs[config]), m, over).vars, t), f);
            before.Some? && after.Some? ==> before == after
  {
    var sources := Sources(configs, [config] + extra);
    var stored := StoredVars(sources);
    var before := FieldAt(At(configs[config].vars, t), f);
    assert sources[0] == configs[config].vars;
    StoredVarsIsFirstWins(sources, t, f);
    var man := ManifestVars(vm, m, []);
    FullRunAt(vm, Some(configs[config]), m, over, t);
    assert t !in ConfigKeys(vm);
    if before.Some? && t in man && man[t].Dict? && f in man[t].fields {
      assert FieldAt(At(stored, t), f) == before;
      var i, j := CharmsVarsSet(vm.charms, m, [], t);
      FindCharmDescribes(m, vm.charms[i].charm);
      TfvarOfAttr(vm.charms[i].attrs, j);
      var name := vm.charms[i].attrs[j].name;
      assert !Disagrees(vm.charms[i], m, stored, name, t);
    }
  }
}
