/**
  What a Terraform plan's variables become: the stored record, the manifest and the runtime
  overrides are merged key by key, and field by field for charm configs.  The stored record
  remembers which keys were computed at run time.
 */
module Tfvars {
  import opened Wrappers

  datatype Json =
    | Null
    | Bool(b: bool)
    | Num(n: int)
    | Str(s: string)
    | List(items: seq<Json>)
    | Dict(fields: map<string, Json>)
  {
    predicate Truthy() {
      match this
      case Null => false
      case Bool(b) => b
      case Num(n) => n != 0
      case Str(s) => s != ""
      case List(items) => items != []
      case Dict(fields) => fields != map[]
    }
  }

  type Vars = map<string, Json>

  /** The manifest attributes of one charm, and the Terraform variable of each. */
  datatype Attr = Attr(name: string, tfvar: string)
  datatype CharmVars = CharmVars(charm: string, attrs: seq<Attr>)
  datatype VarMap = VarMap(charms: seq<CharmVars>, preserve: set<string>)

  /** A charm section of the manifest, and the manifest: the core charms, then those of each feature. */
  type Charm = map<string, Json>
  datatype Manifest = Manifest(core: map<string, Charm>, features: seq<map<string, Charm>>)

  const COMPUTED_KEYS := "_computed_keys"

  /** A stored record: the variables, and the computed keys unless the record predates them. */
  datatype Record = Record(vars: Vars, computed: Option<set<string>>)

  function FindIn(features: seq<map<string, Charm>>, name: string): Option<Charm> {
    if features == [] then None
    else if name in features[0] then Some(features[0][name])
    else FindIn(features[1..], name)
  }

  function FindCharm(m: Manifest, name: string): Option<Charm> {
    if name in m.core then Some(m.core[name]) else FindIn(m.features, name)
  }

  predicate Selected(charms: seq<string>, charm: string)
    ensures Selected(charms, charm) <==> Chosen(charms, charm)
  {
    charms == [] || charm in charms
  }

  /** Tfvar names of the chosen charms; no choice means all of them. */
  function TfvarNames(vm: VarMap, charms: seq<string>): (names: set<string>)
    ensures forall k :: k in names <==> Names(vm.charms, charms, k)
  {
    set i, j | 0 <= i < |vm.charms| && Selected(charms, vm.charms[i].charm) && 0 <= j < |vm.charms[i].attrs| ::
      vm.charms[i].attrs[j].tfvar
  }

  /** The charm is among these; none at all stands for every charm. */
  ghost predicate Chosen(charms: seq<string>, charm: string) {
    |charms| > 0 ==> charm in charms
  }

  ghost predicate Names(cs: seq<CharmVars>, charms: seq<string>, k: string) {
    exists i, j :: 0 <= i < |cs| && Chosen(charms, cs[i].charm) && 0 <= j < |cs[i].attrs| && cs[i].attrs[j].tfvar == k
  }

  /** Some charm has an attribute of this name that maps to `k`. */
  ghost predicate Maps(vm: VarMap, name: string, k: string) {
    exists i, j :: 0 <= i < |vm.charms| && 0 <= j < |vm.charms[i].attrs| && vm.charms[i].attrs[j] == Attr(name, k)
  }

  function ConfigKeys(vm: VarMap): set<string> {
    set i, j | 0 <= i < |vm.charms| && 0 <= j < |vm.charms[i].attrs|
      && vm.charms[i].attrs[j].name == "config" && vm.charms[i].attrs[j].tfvar != "" ::
      vm.charms[i].attrs[j].tfvar
  }

  lemma ConfigKeysAreMapped(vm: VarMap, k: string)
    ensures k in ConfigKeys(vm) <==> k != "" && Maps(vm, "config", k)
  {
  }

  /** The variables that one charm section sets; a later attribute wins. */
  function AttrVars(attrs: seq<Attr>, charm: Charm): Vars {
    if attrs == [] then map[]
    else
      var a := attrs[|attrs| - 1];
      var rest := AttrVars(attrs[..|attrs| - 1], charm);
      if a.name in charm && charm[a.name].Truthy() then rest[a.tfvar := charm[a.name]] else rest
  }

  /** The variables that the manifest sets for the chosen charms; a later charm wins. */
  function CharmsVars(cs: seq<CharmVars>, m: Manifest, charms: seq<string>): Vars {
    if cs == [] then map[]
    else
      var c := cs[|cs| - 1];
      var rest := CharmsVars(cs[..|cs| - 1], m, charms);
      var found := FindCharm(m, c.charm);
      if Selected(charms, c.charm) && found.Some? then rest + AttrVars(c.attrs, found.value) else rest
  }

  function ManifestVars(vm: VarMap, m: Manifest, charms: seq<string>): Vars {
    CharmsVars(vm.charms, m, charms)
  }

  /** The computed keys of a record; a record without them falls back to the plan's preserve list. */
  function Computed(vm: VarMap, rec: Option<Record>): set<string> {
    match rec
    case None => {}
    case Some(r) => if r.computed.Some? then r.computed.value else vm.preserve
  }

  /** The stored variables that a run starts from: computed ones, and those it is not about to refresh. */
  function Kept(vm: VarMap, rec: Option<Record>, charms: seq<string>): Vars {
    match rec
    case None => map[]
    case Some(r) => map k | k in r.vars && (k in Computed(vm, rec) || k !in TfvarNames(vm, charms)) :: r.vars[k]
  }

  /** `d.update(e)` when both are dicts and the source is not empty; otherwise the source replaces. */
  function Applied(target: Option<Json>, source: Json, config: bool): Json {
    if config && target.Some? && target.value.Dict? && source.Dict? && source.fields != map[]
    then Dict(target.value.fields + source.fields)
    else source
  }

  function At(vars: Vars, k: string): Option<Json> {
    if k in vars then Some(vars[k]) else None
  }

  function Apply(configs: set<string>, target: Vars, source: Vars): Vars {
    map k | k in target.Keys + source.Keys ::
      if k in source then Applied(At(target, k), source[k], k in configs) else target[k]
  }

  /** The override after the manifest's charm-config fields have been merged into it. */
  function MergedOverride(configs: set<string>, over: Vars, man: Vars): Vars {
    map k | k in over ::
      if k in configs && k in man && over[k].Dict? && man[k].Dict? then Dict(over[k].fields + man[k].fields)
      else over[k]
  }

  /** What a run leaves: the computed keys and the variables. */
  datatype Outcome = Outcome(computed: set<string>, vars: Vars) {
    function Saved(): Record {
      Record(vars - {COMPUTED_KEYS}, Some(computed))
    }
  }

  function FullRun(vm: VarMap, rec: Option<Record>, m: Manifest, over: Vars): Outcome {
    var man := ManifestVars(vm, m, []);
    var base := Apply(ConfigKeys(vm), Kept(vm, rec, []), man);
    if over == map[] then Outcome(Computed(vm, rec), base)
    else Outcome(Computed(vm, rec) + over.Keys,
                 Apply(ConfigKeys(vm), base, MergedOverride(ConfigKeys(vm), over, man)))
  }

  /** A full run with the override as it is after the manifest was merged into it. */
  function RunWith(vm: VarMap, rec: Option<Record>, m: Manifest, merged: Vars): Outcome {
    var base := Apply(ConfigKeys(vm), Kept(vm, rec, []), ManifestVars(vm, m, []));
    if merged == map[] then Outcome(Computed(vm, rec), base)
    else Outcome(Computed(vm, rec) + merged.Keys, Apply(ConfigKeys(vm), base, merged))
  }

  lemma FullRunIsRunWith(vm: VarMap, rec: Option<Record>, m: Manifest, over: Vars)
    ensures FullRun(vm, rec, m, over) == RunWith(vm, rec, m, MergedOverride(ConfigKeys(vm), over, ManifestVars(vm, m, [])))
  {
    var merged := MergedOverride(ConfigKeys(vm), over, ManifestVars(vm, m, []));
    assert merged.Keys == over.Keys;
    assert merged == map[] <==> merged.Keys == {};
    assert over == map[] <==> over.Keys == {};
  }

  function PartialRun(vm: VarMap, rec: Option<Record>, m: Manifest, charms: seq<string>): Outcome {
    Outcome(Computed(vm, rec), Apply(ConfigKeys(vm), Kept(vm, rec, charms), ManifestVars(vm, m, charms)))
  }

  // ------------------------------------------------------------------ what the manifest sets

  lemma FalsyValues(v: Json)
    ensures !v.Truthy() <==> v == Null || v == Bool(false) || v == Num(0) || v == Str("") || v == List([]) || v == Dict(map[])
  {
  }

  /** The manifest describes the charm so: in its core section, or else in the first feature that has it. */
  ghost predicate Describes(m: Manifest, name: string, charm: Charm) {
    if name in m.core then m.core[name] == charm
    else exists f :: FirstFeature(m, name, f) && m.features[f][name] == charm
  }

  ghost predicate FirstFeature(m: Manifest, name: string, f: int) {
    0 <= f < |m.features| && name in m.features[f] && forall g :: 0 <= g < f ==> name !in m.features[g]
  }

  lemma {:induction false} FindInFirst(features: seq<map<string, Charm>>, name: string) returns (f: nat)
    ensures f <= |features| && forall g :: 0 <= g < f ==> name !in features[g]
    ensures if f < |features| then name in features[f] && FindIn(features, name) == Some(features[f][name])
            else FindIn(features, name) == None
  {
    if features == [] || name in features[0] {
      f := 0;
    } else {
      f := FindInFirst(features[1..], name);
      f := f + 1;
    }
  }

  lemma FindCharmDescribes(m: Manifest, name: string)
    ensures match FindCharm(m, name)
            case Some(charm) => Describes(m, name, charm)
            case None => forall charm :: !Describes(m, name, charm)
  {
    var f := FindInFirst(m.features, name);
    if name !in m.core && f < |m.features| {
      assert FirstFeature(m, name, f);
    }
  }

  lemma DescribedOnce(m: Manifest, name: string, a: Charm, b: Charm)
    requires Describes(m, name, a) && Describes(m, name, b)
    ensures a == b
  {
  }

  /** Attribute `j` of charm `i` is chosen, maps to `k`, and has the truthy manifest value `v`. */
  ghost predicate Sets(cs: seq<CharmVars>, m: Manifest, charms: seq<string>, k: string, v: Json, i: int, j: int) {
    && 0 <= i < |cs| && Chosen(charms, cs[i].charm)
    && 0 <= j < |cs[i].attrs| && cs[i].attrs[j].tfvar == k && v.Truthy()
    && exists charm :: Describes(m, cs[i].charm, charm) && cs[i].attrs[j].name in charm && charm[cs[i].attrs[j].name] == v
  }

  /** The last attribute that sets `k` sets it to `v`. */
  ghost predicate SetsLast(cs: seq<CharmVars>, m: Manifest, charms: seq<string>, k: string, v: Json, i: int, j: int) {
    Sets(cs, m, charms, k, v, i, j) && forall i', j', v' :: Sets(cs, m, charms, k, v', i', j') ==> i' < i || (i' == i && j' <= j)
  }

  /** The manifest, for these charms, says `v` for `k`. */
  ghost predicate Says(vm: VarMap, m: Manifest, charms: seq<string>, k: string, v: Json) {
    exists i, j :: SetsLast(vm.charms, m, charms, k, v, i, j)
  }

  ghost predicate Silent(vm: VarMap, m: Manifest, charms: seq<string>, k: string) {
    forall i, j, v :: !Sets(vm.charms, m, charms, k, v, i, j)
  }

  ghost predicate AttrSets(attrs: seq<Attr>, charm: Charm, k: string, j: int) {
    0 <= j < |attrs| && attrs[j].tfvar == k && attrs[j].name in charm && charm[attrs[j].name].Truthy()
  }

  /** A variable has the value of the last truthy attribute that maps to it, and is absent without one. */
  lemma {:induction false} AttrVarsSet(attrs: seq<Attr>, charm: Charm, k: string) returns (last: int)
    ensures forall j :: AttrSets(attrs, charm, k, j) ==> j <= last
    ensures if k in AttrVars(attrs, charm)
            then AttrSets(attrs, charm, k, last) && AttrVars(attrs, charm)[k] == charm[attrs[last].name]
            else last == -1
  {
    if attrs == [] {
      last := -1;
    } else {
      var n := |attrs| - 1;
      last := AttrVarsSet(attrs[..n], charm, k);
      assert forall j :: 0 <= j < n ==> (AttrSets(attrs[..n], charm, k, j) <==> AttrSets(attrs, charm, k, j));
      if AttrSets(attrs, charm, k, n) {
        last := n;
      }
    }
  }

  /** The same over the charms: the last truthy attribute of the last chosen charm that sets the variable. */
  lemma {:induction false} CharmsVarsSet(cs: seq<CharmVars>, m: Manifest, charms: seq<string>, k: string)
      returns (i: int, j: int)
    ensures forall i', j', v' :: Sets(cs, m, charms, k, v', i', j') ==> i' < i || (i' == i && j' <= j)
    ensures if k in CharmsVars(cs, m, charms) then Sets(cs, m, charms, k, CharmsVars(cs, m, charms)[k], i, j) else i == -1
  {
    if cs == [] {
      i, j := -1, -1;
    } else {
      var n := |cs| - 1;
      var c := cs[n];
      var found := FindCharm(m, c.charm);
      FindCharmDescribes(m, c.charm);
      i, j := CharmsVarsSet(cs[..n], m, charms, k);
      SetsBefore(cs, m, charms, k);
      if Selected(charms, c.charm) && found.Some? {
        var last := AttrVarsSet(c.attrs, found.value, k);
        forall j', v' | Sets(cs, m, charms, k, v', n, j') ensures AttrSets(c.attrs, found.value, k, j') {
          var charm :| Describes(m, c.charm, charm) && c.attrs[j'].name in charm && charm[c.attrs[j'].name] == v';
          DescribedOnce(m, c.charm, charm, found.value);
        }
        if k in AttrVars(c.attrs, found.value) {
          i, j := n, last;
        }
      }
    }
  }

  lemma SetsBefore(cs: seq<CharmVars>, m: Manifest, charms: seq<string>, k: string)
    requires cs != []
    ensures forall i, j, v :: i < |cs| - 1 ==> (Sets(cs[..|cs| - 1], m, charms, k, v, i, j) <==> Sets(cs, m, charms, k, v, i, j))
  {
    assert forall i :: 0 <= i < |cs| - 1 ==> cs[..|cs| - 1][i] == cs[i];
  }

  /** The variables of the manifest are exactly what it says. */
  lemma ManifestVarsAreSaid(vm: VarMap, m: Manifest, charms: seq<string>, k: string)
    ensures k !in ManifestVars(vm, m, charms) <==> Silent(vm, m, charms, k)
    ensures forall v :: At(ManifestVars(vm, m, charms), k) == Some(v) <==> Says(vm, m, charms, k, v)
  {
    var i, j := CharmsVarsSet(vm.charms, m, charms, k);
    if k in ManifestVars(vm, m, charms) {
      var v := ManifestVars(vm, m, charms)[k];
      assert SetsLast(vm.charms, m, charms, k, v, i, j);
      forall w | Says(vm, m, charms, k, w) ensures w == v {
        var i', j' :| SetsLast(vm.charms, m, charms, k, w, i', j');
        SetsOnce(vm.charms, m, charms, k, v, w, i, j);
      }
    }
  }

  lemma SetsOnce(cs: seq<CharmVars>, m: Manifest, charms: seq<string>, k: string, v: Json, w: Json, i: int, j: int)
    requires Sets(cs, m, charms, k, v, i, j) && Sets(cs, m, charms, k, w, i, j)
    ensures v == w
  {
    var a :| Describes(m, cs[i].charm, a) && cs[i].attrs[j].name in a && a[cs[i].attrs[j].name] == v;
    var b :| Describes(m, cs[i].charm, b) && cs[i].attrs[j].name in b && b[cs[i].attrs[j].name] == w;
    DescribedOnce(m, cs[i].charm, a, b);
  }

  lemma ManifestVarsAreNamed(vm: VarMap, m: Manifest, charms: seq<string>)
    ensures ManifestVars(vm, m, charms).Keys <= TfvarNames(vm, charms)
    ensures forall k :: k in ManifestVars(vm, m, charms) ==> ManifestVars(vm, m, charms)[k].Truthy()
  {
    forall k | k in ManifestVars(vm, m, charms)
      ensures k in TfvarNames(vm, charms) && ManifestVars(vm, m, charms)[k].Truthy()
    {
      var i, j := CharmsVarsSet(vm.charms, m, charms, k);
    }
  }

  // ------------------------------------------------------------------ what a run starts from

  /** The record says that the key was computed; one that does not tell falls back to the plan's preserve list. */
  ghost predicate WasComputed(vm: VarMap, rec: Record, k: string) {
    match rec.computed
    case Some(keys) => k in keys
    case None => k in vm.preserve
  }

  /** The record has the value `v`, which a run on these charms does not refresh. */
  ghost predicate Keeps(vm: VarMap, rec: Option<Record>, charms: seq<string>, k: string, v: Json) {
    && rec.Some? && k in rec.value.vars && rec.value.vars[k] == v
    && (WasComputed(vm, rec.value, k) || !Names(vm.charms, charms, k))
  }

  lemma RunStartsFrom(vm: VarMap, rec: Option<Record>, charms: seq<string>, k: string)
    ensures k in Computed(vm, rec) <==> rec.Some? && WasComputed(vm, rec.value, k)
    ensures forall v :: At(Kept(vm, rec, charms), k) == Some(v) <==> Keeps(vm, rec, charms, k, v)
  {
  }

  /** A run adds the overridden keys to the computed ones; a partial run adds none. */
  lemma RunComputes(vm: VarMap, rec: Option<Record>, m: Manifest, over: Vars, charms: seq<string>, k: string)
    ensures k in FullRun(vm, rec, m, over).computed <==> (rec.Some? && WasComputed(vm, rec.value, k)) || k in over
    ensures k in PartialRun(vm, rec, m, charms).computed <==> rec.Some? && WasComputed(vm, rec.value, k)
  {
  }

  /** What is stored for the next run: every variable but one of the reserved name, and the computed keys. */
  lemma SavedRecord(run: Outcome, k: string)
    ensures At(run.Saved().vars, k) == if k == "_computed_keys" then None else At(run.vars, k)
    ensures run.Saved().computed == Some(run.computed)
  {
  }
}
