/**
  The merge of Terraform variables as it runs: dicts are objects that are updated in place and
  shared between the merged variables, the manifest's and the caller's override.  Every method
  is proved against the value-level functions of `Tfvars`.
 */
module TerraformHelper {
  import opened Wrappers
  import opened Tfvars

  /** A dict that is the value of a variable. */
  class FieldDict {
    var items: map<string, Json>

    constructor (items: map<string, Json>)
      ensures this.items == items
    {
      this.items := items;
    }

    /** dict.update */
    method Update(other: FieldDict)
      modifies this
      ensures items == old(items) + old(other.items)
    {
      items := items + other.items;
    }
  }

  /** The value of a variable: a reference to a dict, or a value that is not a dict. */
  datatype Cell = Plain(value: Json) | Obj(dict: FieldDict)

  /** A dict of variables. */
  class VarDict {
    var items: map<string, Cell>

    constructor (items: map<string, Cell>)
      ensures this.items == items
    {
      this.items := items;
    }
  }

  type Cells = map<string, Cell>

  ghost function Dicts(cells: Cells): set<FieldDict> {
    set k | k in cells && cells[k].Obj? :: cells[k].dict
  }

  ghost predicate Shaped(cells: Cells) {
    forall k | k in cells :: cells[k].Plain? ==> !cells[k].value.Dict?
  }

  /** No dict is the value of two different variables. */
  ghost predicate Unshared(a: Cells, b: Cells) {
    forall j, k | j in a && k in b :: j != k && a[j].Obj? && b[k].Obj? ==> a[j].dict != b[k].dict
  }

  /** The dict under `key`, if there is one, is the value of no other variable. */
  ghost predicate Alone(cells: Cells, key: string) {
    forall k | k in cells && k != key ::
      key in cells && cells[k].Obj? && cells[key].Obj? ==> cells[k].dict != cells[key].dict
  }

  function Frozen(cell: Cell): Json
    reads if cell.Obj? then {cell.dict} else {}
  {
    match cell
    case Plain(v) => v
    case Obj(d) => Dict(d.items)
  }

  /** The variables as values. */
  function Snapshot(cells: Cells): Vars
    reads set k | k in cells && cells[k].Obj? :: cells[k].dict
  {
    map k | k in cells :: Frozen(cells[k])
  }

  method NewCell(v: Json) returns (cell: Cell)
    ensures Frozen(cell) == v && (cell.Plain? ==> !v.Dict?) && (cell.Obj? ==> fresh(cell.dict))
  {
    if v.Dict? {
      var d := new FieldDict(v.fields);
      cell := Obj(d);
    } else {
      cell := Plain(v);
    }
  }

  twostate lemma SnapshotKept(cells: Cells)
    requires forall d <- Dicts(cells) :: allocated(d) && old(allocated(d)) && unchanged(d)
    ensures Snapshot(cells) == old(Snapshot(cells))
  {
    forall k | k in cells ensures Frozen(cells[k]) == old(Frozen(cells[k])) {
      assert cells[k].Obj? ==> cells[k].dict in Dicts(cells);
    }
  }

  ghost function DictAt(cells: Cells, key: string): set<FieldDict> {
    if key in cells && cells[key].Obj? then {cells[key].dict} else {}
  }

  /** The body of the loop over the source: merge into the target's dict, or take the source's cell. */
  method ApplyOne(config: bool, target: VarDict, key: string, value: Cell)
    requires Shaped(target.items) && (value.Plain? ==> !value.value.Dict?)
    requires Alone(target.items, key)
    modifies target, DictAt(target.items, key)
    ensures Snapshot(target.items) ==
            old(Snapshot(target.items))[key := Applied(At(old(Snapshot(target.items)), key), old(Frozen(value)), config)]
    ensures target.items == old(target.items)[key := value] || (key in old(target.items) && target.items == old(target.items))
  {
    if config && key in target.items && target.items[key].Obj? && value.Obj? && value.dict.items != map[] {
      target.items[key].dict.Update(value.dict);
    } else {
      target.items := target.items[key := value];
    }
  }

  lemma ApplyGrows(configs: set<string>, t: Vars, s: Vars, remaining: set<string>, key: string)
    requires key in remaining && key in s
    ensures var sofar := Apply(configs, t, s - remaining);
            Apply(configs, t, s - (remaining - {key})) == sofar[key := Applied(At(sofar, key), s[key], key in configs)]
  {
  }

  lemma MergeGrows(done: set<string>, o: Vars, m: Vars, key: string)
    ensures MergedOverride(done + {key}, o, m) == MergedOverride({key}, MergedOverride(done, o, m), m)
  {
    if key in o && key in m && o[key].Dict? && m[key].Dict? {
      assert o[key].fields + m[key].fields + m[key].fields == o[key].fields + m[key].fields;
    }
  }

  lemma CellsStayApart(cells: Cells, target: Cells, source: Cells)
    requires CellsFrom(cells, target, source)
    requires Shaped(target) && Shaped(source)
    requires Unshared(target, target) && Unshared(target, source)
    ensures Shaped(cells) && forall key | key in cells && key in target && cells[key] == target[key] :: Alone(cells, key)
  {
  }

  /** Where the loop over the source stands when these keys remain. */
  ghost predicate AppliedBut(
    configs: set<string>, target: VarDict, source: VarDict, remaining: set<string>, cells: Cells, t0: Vars, s0: Vars)
    reads target, source, Dicts(target.items), Dicts(source.items)
  {
    && CellsFrom(target.items, cells, source.items) && Untouched(target.items, cells, remaining)
    && Holds(source.items, remaining, s0)
    && Snapshot(target.items) == Apply(configs, t0, s0 - remaining)
  }

  method ApplyNext(configs: set<string>, target: VarDict, source: VarDict, key: string,
                   ghost remaining: set<string>, ghost cells: Cells, ghost t0: Vars, ghost s0: Vars)
    requires target != source && key in remaining && remaining <= source.items.Keys
    requires Shaped(cells) && Shaped(source.items)
    requires Unshared(cells, cells) && Unshared(cells, source.items)
    requires AppliedBut(configs, target, source, remaining, cells, t0, s0)
    modifies target, DictAt(target.items, key)
    ensures AppliedBut(configs, target, source, remaining - {key}, cells, t0, s0)
  {
    CellsStayApart(target.items, cells, source.items);
    ApplyGrows(configs, t0, s0, remaining, key);
    assert forall k | k in remaining && k != key :: source.items[k].Obj? ==> source.items[k].dict !in DictAt(target.items, key);
    ApplyOne(key in configs, target, key, source.items[key]);
  }

  method ApplyTfvars(configs: set<string>, target: VarDict, source: VarDict)
    requires target != source
    requires Shaped(target.items) && Shaped(source.items)
    requires Unshared(target.items, target.items) && Unshared(target.items, source.items)
    modifies target, Dicts(target.items)
    ensures Snapshot(target.items) == Apply(configs, old(Snapshot(target.items)), old(Snapshot(source.items)))
    ensures CellsFrom(target.items, old(target.items), source.items)
  {
    ghost var cells, t0, s0 := target.items, Snapshot(target.items), Snapshot(source.items);
    var remaining := source.items.Keys;
    while remaining != {}
      invariant remaining <= source.items.Keys
      invariant AppliedBut(configs, target, source, remaining, cells, t0, s0)
    {
      var key :| key in remaining;
      ApplyNext(configs, target, source, key, remaining, cells, t0, s0);
      remaining := remaining - {key};
    }
    assert s0 - {} == s0;
  }

  ghost predicate Untouched(cells: Cells, before: Cells, keys: set<string>) {
    forall k | k in keys && k in cells :: k in before && cells[k] == before[k]
  }

  /** The cells under these keys have these values. */
  ghost predicate Holds(cells: Cells, keys: set<string>, values: Vars)
    reads set k | k in cells && cells[k].Obj? :: cells[k].dict
  {
    forall k | k in keys && k in cells :: k in values && Frozen(cells[k]) == values[k]
  }

  /** Every cell is one of the old target's, or one of the source's, under the same key. */
  ghost predicate CellsFrom(cells: Cells, target: Cells, source: Cells) {
    forall k | k in cells ::
      (k in source && cells[k] == source[k]) || (k in target && cells[k] == target[k])
  }

  /** Two variables whose value is the same dict. */
  predicate Share(cells: Cells, j: string, k: string) {
    j in cells && k in cells && cells[j].Obj? && cells[k].Obj? && cells[j].dict == cells[k].dict
  }

  /** The cells have these variables, and dicts where they are dicts. */
  ghost predicate Fits(cells: Cells, values: Vars) {
    cells.Keys == values.Keys && forall k <- cells :: cells[k].Obj? <==> values[k].Dict?
  }

  /** What updating the dict under `key` with fields does to the variables: whatever shares the dict changes too. */
  ghost function UpdatedShared(cells: Cells, values: Vars, key: string, fields: map<string, Json>): (updated: Vars)
    requires Fits(cells, values)
    ensures Fits(cells, updated)
  {
    map k | k in cells :: if Share(cells, key, k) then Dict(values[k].fields + fields) else values[k]
  }

  /** The variables after the manifest's value of one charm config was merged into its dict. */
  ghost function MergedShared(cells: Cells, values: Vars, m: Vars, key: string): (merged: Vars)
    requires Fits(cells, values)
    ensures Fits(cells, merged)
  {
    if key in m && m[key].Dict? then UpdatedShared(cells, values, key, m[key].fields) else values
  }

  /** ... and of several, in this order. */
  ghost function MergedInOrder(cells: Cells, values: Vars, m: Vars, order: seq<string>): (merged: Vars)
    requires Fits(cells, values)
    ensures Fits(cells, merged)
  {
    if order == [] then values
    else MergedShared(cells, MergedInOrder(cells, values, m, order[..|order| - 1]), m, order[|order| - 1])
  }

  ghost function AsSet(keys: seq<string>): set<string> { set k | k in keys }

  /** Every key of the set once. */
  ghost predicate Lists(order: seq<string>, keys: set<string>) {
    (forall k :: k in order <==> k in keys) && forall i, j :: 0 <= i < j < |order| ==> order[i] != order[j]
  }

  lemma AloneMerges(cells: Cells, values: Vars, m: Vars, key: string)
    requires Fits(cells, values) && Alone(cells, key)
    ensures MergedShared(cells, values, m, key) == MergedOverride({key}, values, m)
  {
  }

  /** For dicts of their own the order makes no difference. */
  lemma {:induction false} AloneMergesInOrder(cells: Cells, values: Vars, m: Vars, order: seq<string>)
    requires Fits(cells, values) && forall key <- order :: Alone(cells, key)
    ensures MergedInOrder(cells, values, m, order) == MergedOverride(AsSet(order), values, m)
  {
    if order == [] {
      assert MergedOverride({}, values, m) == values;
    } else {
      var n := |order| - 1;
      AloneMergesInOrder(cells, values, m, order[..n]);
      AloneMerges(cells, MergedInOrder(cells, values, m, order[..n]), m, order[n]);
      MergeGrows(AsSet(order[..n]), values, m, order[n]);
      assert order == order[..n] + [order[n]];
      assert AsSet(order) == AsSet(order[..n]) + {order[n]};
    }
  }

  /** The body of the loop over the charm config keys. */
  method MergeOne(over: VarDict, man: VarDict, key: string)
    requires Dicts(over.items) !! Dicts(man.items) && Shaped(over.items) && Shaped(man.items)
    modifies DictAt(over.items, key)
    ensures Snapshot(over.items) == MergedShared(over.items, old(Snapshot(over.items)), old(Snapshot(man.items)), key)
    ensures Snapshot(man.items) == old(Snapshot(man.items))
    ensures Alone(over.items, key) ==>
            Snapshot(over.items) == MergedOverride({key}, old(Snapshot(over.items)), old(Snapshot(man.items)))
  {
    if key in over.items && key in man.items {
      if over.items[key].Obj? && man.items[key].Obj? {
        assert man.items[key].dict in Dicts(man.items) && over.items[key].dict in Dicts(over.items);
        over.items[key].dict.Update(man.items[key].dict);
      }
    }
  }

  /** Merging into one variable is what was meant exactly when no other variable takes in new fields through the same dict. */
  lemma SharingIsHarmlessIff(cells: Cells, o: Vars, m: Vars, key: string)
    requires Fits(cells, o)
    requires key in m && m[key].Dict?
    ensures UpdatedShared(cells, o, key, m[key].fields) == MergedOverride({key}, o, m) <==>
            forall k :: k != key && Share(cells, key, k) ==> o[k].fields + m[key].fields == o[k].fields
  {
    var shared, meant := UpdatedShared(cells, o, key, m[key].fields), MergedOverride({key}, o, m);
    forall k | k in o
      ensures shared[k] == meant[k] <==> (k != key && Share(cells, key, k) ==> o[k].fields + m[key].fields == o[k].fields)
    {
      SharedAt(cells, o, m, key, k);
    }
    assert shared == meant <==> forall k <- o :: shared[k] == meant[k];
  }

  lemma SharedAt(cells: Cells, o: Vars, m: Vars, key: string, k: string)
    requires Fits(cells, o) && key in m && m[key].Dict? && k in o
    ensures UpdatedShared(cells, o, key, m[key].fields)[k] == MergedOverride({key}, o, m)[k] <==>
            (k != key && Share(cells, key, k) ==> o[k].fields + m[key].fields == o[k].fields)
  {
  }

  /** Every charm config in turn, in some order. */
  method MergeManifestIntoOverride(configs: set<string>, over: VarDict, man: VarDict) returns (ghost order: seq<string>)
    requires Shaped(over.items) && Shaped(man.items) && Dicts(over.items) !! Dicts(man.items)
    modifies Dicts(over.items)
    ensures Lists(order, configs)
    ensures Snapshot(over.items) == MergedInOrder(over.items, old(Snapshot(over.items)), old(Snapshot(man.items)), order)
    ensures Snapshot(man.items) == old(Snapshot(man.items))
    ensures (forall key <- configs :: Alone(over.items, key)) ==>
            Snapshot(over.items) == MergedOverride(configs, old(Snapshot(over.items)), old(Snapshot(man.items)))
  {
    ghost var o0, m0 := Snapshot(over.items), Snapshot(man.items);
    order := [];
    var remaining := configs;
    while remaining != {}
      invariant remaining <= configs && Lists(order, configs - remaining)
      invariant Snapshot(man.items) == m0
      invariant Snapshot(over.items) == MergedInOrder(over.items, o0, m0, order)
    {
      var key :| key in remaining;
      MergeOne(over, man, key);
      assert (order + [key])[..|order|] == order;
      order := order + [key];
      remaining := remaining - {key};
    }
    if forall key <- configs :: Alone(over.items, key) {
      AloneMergesInOrder(over.items, o0, m0, order);
      assert AsSet(order) == configs;
    }
  }

  /** The clusterd configuration records. */
  class Clusterd {
    var configs: map<string, Record>

    constructor (configs: map<string, Record>)
      ensures this.configs == configs
    {
      this.configs := configs;
    }
  }

  ghost function RecordOf(client: Clusterd, key: Option<string>): Option<Record>
    reads client
  {
    if key.Some? && key.value in client.configs then Some(client.configs[key.value]) else None
  }

  /** Fresh cells, each with dicts of its own. */
  ghost predicate Separate(cells: Cells) {
    Shaped(cells) && Unshared(cells, cells)
  }

  class Plan {
    const vm: VarMap
    var written: Vars      // the tfvars file

    constructor (vm: VarMap)
      ensures this.vm == vm && written == map[]
    {
      this.vm, written := vm, map[];
    }

    method GetCharmConfigKeys() returns (keys: set<string>)
      ensures keys == ConfigKeys(vm)
    {
      keys := {};
      for i := 0 to |vm.charms|
        invariant keys == ConfigKeys(VarMap(vm.charms[..i], vm.preserve))
      {
        var attrs := vm.charms[i].attrs;
        keys := keys + set j | 0 <= j < |attrs| && attrs[j].name == "config" && attrs[j].tfvar != "" :: attrs[j].tfvar;
        assert vm.charms[..i + 1] == vm.charms[..i] + [vm.charms[i]];
        ConfigKeysSplit(vm.charms[..i], vm.charms[i], vm.preserve);
      }
      assert vm.charms[..|vm.charms|] == vm.charms;
    }

    /** Set one variable to a value of its own. */
    method SetTfvar(tfvars: VarDict, name: string, value: Json)
      requires Separate(tfvars.items)
      modifies tfvars
      ensures Separate(tfvars.items)
      ensures Snapshot(tfvars.items) == old(Snapshot(tfvars.items))[name := value]
      ensures fresh(Dicts(tfvars.items) - old(Dicts(tfvars.items)))
    {
      var cell := NewCell(value);
      ghost var before := tfvars.items;
      tfvars.items := tfvars.items[name := cell];
      forall k | k in before && before[k].Obj? ensures cell.Obj? ==> before[k].dict != cell.dict {
        assert before[k].dict in old(Dicts(tfvars.items));
      }
    }

    method SetCharmTfvars(tfvars: VarDict, attrs: seq<Attr>, charm: Charm)
      requires Separate(tfvars.items)
      modifies tfvars
      ensures Separate(tfvars.items)
      ensures Snapshot(tfvars.items) == old(Snapshot(tfvars.items)) + AttrVars(attrs, charm)
      ensures fresh(Dicts(tfvars.items) - old(Dicts(tfvars.items)))
    {
      ghost var v0 := Snapshot(tfvars.items);
      for j := 0 to |attrs|
        invariant Separate(tfvars.items)
        invariant Snapshot(tfvars.items) == v0 + AttrVars(attrs[..j], charm)
        invariant fresh(Dicts(tfvars.items) - old(Dicts(tfvars.items)))
      {
        assert attrs[..j + 1][..j] == attrs[..j];
        if attrs[j].name in charm && charm[attrs[j].name].Truthy() {
          SetTfvar(tfvars, attrs[j].tfvar, charm[attrs[j].name]);
        }
      }
      assert attrs[..|attrs|] == attrs;
    }

    method GetTfvars(manifest: Manifest, charms: seq<string>) returns (tfvars: VarDict)
      ensures fresh(tfvars) && fresh(Dicts(tfvars.items)) && Separate(tfvars.items)
      ensures Snapshot(tfvars.items) == ManifestVars(vm, manifest, charms)
    {
      tfvars := new VarDict(map[]);
      for i := 0 to |vm.charms|
        invariant fresh(tfvars) && fresh(Dicts(tfvars.items)) && Separate(tfvars.items)
        invariant Snapshot(tfvars.items) == CharmsVars(vm.charms[..i], manifest, charms)
      {
        assert vm.charms[..i + 1][..i] == vm.charms[..i];
        var c := vm.charms[i];
        if Selected(charms, c.charm) {
          var found := FindCharm(manifest, c.charm);
          if found.Some? {
            SetCharmTfvars(tfvars, c.attrs, found.value);
          }
        }
      }
      assert vm.charms[..|vm.charms|] == vm.charms;
    }

    method LoadAndFilter(client: Clusterd, config: Option<string>, charms: seq<string>)
      returns (computed: set<string>, updated: VarDict)
      ensures fresh(updated) && fresh(Dicts(updated.items)) && Separate(updated.items)
      ensures computed == Computed(vm, RecordOf(client, config))
      ensures Snapshot(updated.items) == Kept(vm, RecordOf(client, config), charms)
    {
      computed := {};
      updated := new VarDict(map[]);
      if config.None? || config.value !in client.configs {
        return;
      }
      var stored := client.configs[config.value];
      if stored.computed.Some? {
        computed := stored.computed.value;
      } else {
        computed := vm.preserve;
      }
      var names := TfvarNames(vm, charms);
      var remaining := stored.vars.Keys;
      while remaining != {}
        invariant remaining <= stored.vars.Keys
        invariant fresh(updated) && fresh(Dicts(updated.items)) && Separate(updated.items)
        invariant Snapshot(updated.items) ==
                  map k | k in stored.vars && k !in remaining && (k in computed || k !in names) :: stored.vars[k]
      {
        var key :| key in remaining;
        if key in computed || key !in names {
          SetTfvar(updated, key, stored.vars[key]);
        }
        remaining := remaining - {key};
      }
    }

    method Save(client: Clusterd, config: string, computed: set<string>, updated: VarDict)
      modifies client
      ensures client.configs == old(client.configs)[config := Outcome(computed, Snapshot(updated.items)).Saved()]
    {
      client.configs := client.configs[config := Record(Snapshot(updated.items) - {COMPUTED_KEYS}, Some(computed))];
    }

    /** The first two steps of every run: the stored variables, then the manifest. */
    method StartRun(client: Clusterd, manifest: Manifest, config: Option<string>, charms: seq<string>)
      returns (computed: set<string>, updated: VarDict, fromManifest: VarDict)
      ensures fresh(updated) && fresh(fromManifest) && updated != fromManifest
      ensures fresh(Dicts(updated.items)) && fresh(Dicts(fromManifest.items))
      ensures Separate(updated.items) && Separate(fromManifest.items)
      ensures computed == Computed(vm, RecordOf(client, config))
      ensures Snapshot(fromManifest.items) == ManifestVars(vm, manifest, charms)
      ensures Snapshot(updated.items) ==
              Apply(ConfigKeys(vm), Kept(vm, RecordOf(client, config), charms), ManifestVars(vm, manifest, charms))
    {
      computed, updated := LoadAndFilter(client, config, charms);
      fromManifest := GetTfvars(manifest, charms);
      ghost var cells := updated.items;
      DisjointDictsAreUnshared(updated.items, fromManifest.items);
      var configs := GetCharmConfigKeys();
      ghost var dicts := Dicts(cells) + Dicts(fromManifest.items);
      ApplyTfvars(configs, updated, fromManifest);
      CellsStayApart(updated.items, cells, fromManifest.items);
      assert Dicts(updated.items) <= dicts;
    }

    /** Merge the manifest into the override, then apply the override. */
    method ApplyOverride(updated: VarDict, over: VarDict, fromManifest: VarDict) returns (ghost order: seq<string>)
      requires updated != over && Separate(updated.items) && Separate(fromManifest.items) && Shaped(over.items)
      requires Dicts(over.items) !! Dicts(fromManifest.items) && Dicts(over.items) !! Dicts(updated.items)
      modifies updated, Dicts(updated.items), Dicts(over.items)
      ensures Lists(order, ConfigKeys(vm))
      ensures Snapshot(over.items) ==
              MergedInOrder(over.items, old(Snapshot(over.items)), old(Snapshot(fromManifest.items)), order)
      ensures Snapshot(updated.items) == Apply(ConfigKeys(vm), old(Snapshot(updated.items)), Snapshot(over.items))
    {
      var configs := GetCharmConfigKeys();
      order := MergeManifestIntoOverride(configs, over, fromManifest);
      DisjointDictsAreUnshared(updated.items, over.items);
      label merged:
      ApplyTfvars(configs, updated, over);
      SnapshotKept@merged(over.items);
    }

    /** Everything of a full run but the saving. */
    method MergeAll(client: Clusterd, manifest: Manifest, config: Option<string>, over: VarDict?)
      returns (computed: set<string>, updated: VarDict, ghost order: seq<string>)
      requires over != null ==> Shaped(over.items)
      modifies if over == null then {} else Dicts(over.items)
      ensures Outcome(computed, Snapshot(updated.items)) == RunWith(vm, RecordOf(client, config), manifest, Overrides(over))
      ensures TookIn(over, old(Overrides(over)), ManifestVars(vm, manifest, []), order)
    {
      var fromManifest;
      computed, updated, fromManifest := StartRun(client, manifest, config, []);
      order := [];
      if over != null && over.items != map[] {
        computed := computed + over.items.Keys;
        order := ApplyOverride(updated, over, fromManifest);
        assert Overrides(over).Keys == over.items.Keys;
      }
    }

    /** The override has taken in the manifest's charm configs, in this order. */
    ghost predicate TookIn(over: VarDict?, before: Vars, m: Vars, order: seq<string>)
      reads over, if over == null then {} else Dicts(over.items)
    {
      if over == null || over.items == map[] then Overrides(over) == before == map[]
      else
        && Lists(order, ConfigKeys(vm)) && Fits(over.items, before)
        && Overrides(over) == MergedInOrder(over.items, before, m, order)
    }

    ghost predicate ConfigsAlone(over: VarDict?)
      reads over
    {
      over != null ==> forall key <- ConfigKeys(vm) :: Alone(over.items, key)
    }

    lemma TookInAlone(over: VarDict?, before: Vars, rec: Option<Record>, manifest: Manifest, order: seq<string>)
      requires TookIn(over, before, ManifestVars(vm, manifest, []), order) && ConfigsAlone(over)
      ensures Overrides(over) == MergedOverride(ConfigKeys(vm), before, ManifestVars(vm, manifest, []))
      ensures RunWith(vm, rec, manifest, Overrides(over)) == FullRun(vm, rec, manifest, before)
    {
      var m := ManifestVars(vm, manifest, []);
      FullRunIsRunWith(vm, rec, manifest, before);
      if over != null && over.items != map[] {
        AloneMergesInOrder(over.items, before, m, order);
        assert AsSet(order) == ConfigKeys(vm);
      }
    }

    /** The end of every run: the record is saved if asked for, and the variables are written. */
    method Finish(client: Clusterd, config: Option<string>, persist: bool, computed: set<string>, updated: VarDict)
      modifies this, client
      ensures written == Snapshot(updated.items)
      ensures client.configs == if persist && config.Some?
              then old(client.configs)[config.value := Outcome(computed, Snapshot(updated.items)).Saved()]
              else old(client.configs)
    {
      if persist && config.Some? {
        Save(client, config.value, computed, updated);
      }
      written := Snapshot(updated.items);
    }

    method RunAndFinish(client: Clusterd, manifest: Manifest, config: Option<string>, over: VarDict?, persist: bool)
      returns (updated: VarDict, ghost order: seq<string>)
      requires over != null ==> Shaped(over.items)
      modifies this, client, if over == null then {} else Dicts(over.items)
      ensures
        var run := RunWith(vm, old(RecordOf(client, config)), manifest, Overrides(over));
        && Snapshot(updated.items) == run.vars && written == run.vars
        && client.configs == (if persist && config.Some? then old(client.configs)[config.value := run.Saved()]
                              else old(client.configs))
      ensures TookIn(over, old(Overrides(over)), ManifestVars(vm, manifest, []), order)
    {
      var computed;
      computed, updated, order := MergeAll(client, manifest, config, over);
      Finish(client, config, persist, computed, updated);
    }

    /**
      A full run: stored variables, then the manifest, then the override as it is after it has taken in
      the manifest's charm configs one by one.  Where none of them shares its dict with another
      variable, that is the full run on values.
     */
    method UpdateTfvars(client: Clusterd, manifest: Manifest, config: Option<string>, over: VarDict?, persist: bool)
      returns (updated: VarDict, ghost order: seq<string>)
      requires over != null ==> Shaped(over.items)
      modifies this, client, if over == null then {} else Dicts(over.items)
      ensures
        var run := RunWith(vm, old(RecordOf(client, config)), manifest, Overrides(over));
        && Snapshot(updated.items) == run.vars && written == run.vars
        && client.configs == (if persist && config.Some? then old(client.configs)[config.value := run.Saved()]
                              else old(client.configs))
      ensures TookIn(over, old(Overrides(over)), ManifestVars(vm, manifest, []), order)
      ensures ConfigsAlone(over) ==>
        && Overrides(over) == MergedOverride(ConfigKeys(vm), old(Overrides(over)), ManifestVars(vm, manifest, []))
        && RunWith(vm, old(RecordOf(client, config)), manifest, Overrides(over)) ==
           FullRun(vm, old(RecordOf(client, config)), manifest, old(Overrides(over)))
    {
      ghost var before, rec := Overrides(over), RecordOf(client, config);
      updated, order := RunAndFinish(client, manifest, config, over, persist);
      if ConfigsAlone(over) {
        TookInAlone(over, before, rec, manifest, order);
      }
    }

    /** A partial run, for some charms only. */
    method UpdatePartialTfvars(client: Clusterd, manifest: Manifest, charms: seq<string>, config: Option<string>)
      modifies this, client
      ensures
        var run := PartialRun(vm, old(RecordOf(client, config)), manifest, charms);
        && written == run.vars
        && client.configs == (if config.Some? then old(client.configs)[config.value := run.Saved()] else old(client.configs))
    {
      var computed, updated, _ := StartRun(client, manifest, config, charms);
      Finish(client, config, true, computed, updated);
    }
  }

  ghost function Overrides(over: VarDict?): Vars
    reads over, if over == null then {} else Dicts(over.items)
  {
    if over == null then map[] else Snapshot(over.items)
  }

  lemma DisjointDictsAreUnshared(a: Cells, b: Cells)
    requires Dicts(a) !! Dicts(b)
    ensures Unshared(a, b) && Unshared(b, a)
  {
    forall j, k | j in a && k in b && a[j].Obj? && b[k].Obj? ensures a[j].dict != b[k].dict {
      assert a[j].dict in Dicts(a) && b[k].dict in Dicts(b);
    }
  }

  lemma ConfigKeysSplit(cs: seq<CharmVars>, c: CharmVars, preserve: set<string>)
    ensures ConfigKeys(VarMap(cs + [c], preserve)) == ConfigKeys(VarMap(cs, preserve)) +
            set j | 0 <= j < |c.attrs| && c.attrs[j].name == "config" && c.attrs[j].tfvar != "" :: c.attrs[j].tfvar
  {
    var all := cs + [c];
    forall k | k in ConfigKeys(VarMap(cs, preserve)) ensures k in ConfigKeys(VarMap(all, preserve)) {
      var i, j :| 0 <= i < |cs| && 0 <= j < |cs[i].attrs| && cs[i].attrs[j].name == "config"
        && cs[i].attrs[j].tfvar != "" && cs[i].attrs[j].tfvar == k;
      assert all[i] == cs[i];
    }
    forall j | 0 <= j < |c.attrs| && c.attrs[j].name == "config" && c.attrs[j].tfvar != ""
      ensures c.attrs[j].tfvar in ConfigKeys(VarMap(all, preserve))
    {
      assert all[|cs|] == c;
    }
  }
}
