/**
  What the merge of Terraform variables promises: precedence per key and per field, what
  survives over any sequence of runs, fixed points, and how partial and full runs relate.
 */
module TfvarLaws {
  import opened Wrappers
  import opened Tfvars

  // ------------------------------------------------------------------ one run

  /** The override of a run as the run finally applies it. */
  function Overriding(vm: VarMap, m: Manifest, over: Vars): Vars {
    MergedOverride(ConfigKeys(vm), over, ManifestVars(vm, m, []))
  }

  /** What one key ends up with, from its kept value, its manifest value and its override. */
  function FinalAt(config: bool, kept: Option<Json>, man: Option<Json>, over: Option<Json>): Option<Json> {
    var base := if man.Some? then Some(Applied(kept, man.value, config)) else kept;
    if over.None? then base else Some(Applied(base, MergedAt(config, man, over.value), config))
  }

  function MergedAt(config: bool, man: Option<Json>, over: Json): Json {
    if config && man.Some? && over.Dict? && man.value.Dict? then Dict(over.fields + man.value.fields) else over
  }

  /** A run treats every key on its own. */
  lemma FullRunAt(vm: VarMap, rec: Option<Record>, m: Manifest, over: Vars, k: string)
    ensures At(FullRun(vm, rec, m, over).vars, k) ==
            FinalAt(k in ConfigKeys(vm), At(Kept(vm, rec, []), k), At(ManifestVars(vm, m, []), k), At(over, k))
    ensures At(ManifestVars(vm, m, []), k).Some? ==> ManifestVars(vm, m, [])[k].Truthy()
  {
    ManifestVarsAreNamed(vm, m, []);
  }

  /** A key that is not a charm config: override, else manifest, else the kept value. */
  lemma PlainKeyPrecedence(vm: VarMap, rec: Option<Record>, m: Manifest, over: Vars, k: string)
    requires k !in ConfigKeys(vm)
    ensures At(FullRun(vm, rec, m, over).vars, k) ==
            FirstOf(At(over, k), FirstOf(At(ManifestVars(vm, m, []), k), At(Kept(vm, rec, []), k)))
  {
    FullRunAt(vm, rec, m, over, k);
  }

  /** What one source says about one field of a charm config. */
  function FieldAt(source: Option<Json>, f: string): Option<Json> {
    if source.Some? && source.value.Dict? && f in source.value.fields then Some(source.value.fields[f]) else None
  }

  function FirstOf(a: Option<Json>, b: Option<Json>): Option<Json> {
    if a.Some? then a else b
  }

  predicate DictOrAbsent(source: Option<Json>) {
    source.None? || source.value.Dict?
  }

  /** A charm config: each field comes from the manifest, else the override, else the kept value. */
  lemma ConfigFieldPrecedence(vm: VarMap, rec: Option<Record>, m: Manifest, over: Vars, k: string, f: string)
    requires k in ConfigKeys(vm)
    requires DictOrAbsent(At(Kept(vm, rec, []), k)) && DictOrAbsent(At(ManifestVars(vm, m, []), k)) && DictOrAbsent(At(over, k))
    requires !(At(over, k) == Some(Dict(map[])) && k !in ManifestVars(vm, m, []))
    ensures var r := At(FullRun(vm, rec, m, over).vars, k);
            && DictOrAbsent(r)
            && (r.Some? <==> k in Kept(vm, rec, []) || k in ManifestVars(vm, m, []) || k in over)
            && FieldAt(r, f) == FirstOf(FieldAt(At(ManifestVars(vm, m, []), k), f),
                                FirstOf(FieldAt(At(over, k), f), FieldAt(At(Kept(vm, rec, []), k), f)))
  {
    FullRunAt(vm, rec, m, over, k);
  }

  function Fields(source: Option<Json>): set<string> {
    if source.Some? && source.value.Dict? then source.value.fields.Keys else {}
  }

  /** The kept value is dropped: something that is no dict takes its place, or an override that is empty. */
  predicate Dropped(man: Option<Json>, over: Option<Json>) {
    || (man.Some? && !man.value.Dict?)
    || (over.Some? && !over.value.Dict?)
    || (over == Some(Dict(map[])) && man.None?)
  }

  /** No field gets lost. */
  predicate NothingLost(kept: Option<Json>, man: Option<Json>, over: Option<Json>) {
    && (over.Some? && !over.value.Dict? ==> Fields(man) == {})
    && (Dropped(man, over) ==> Fields(kept) <= Fields(over))
  }

  /** Each field of the value comes from the manifest, else the override, else the kept value. */
  ghost predicate Layered(value: Option<Json>, kept: Option<Json>, man: Option<Json>, over: Option<Json>) {
    forall f :: FieldAt(value, f) == FirstOf(FieldAt(man, f), FirstOf(FieldAt(over, f), FieldAt(kept, f)))
  }

  lemma LayeredIffNothingLost(kept: Option<Json>, man: Option<Json>, over: Option<Json>)
    requires man.Some? ==> man.value.Truthy()
    ensures Layered(FinalAt(true, kept, man, over), kept, man, over) <==> NothingLost(kept, man, over)
  {
    var value := FinalAt(true, kept, man, over);
    if Layered(value, kept, man, over) {
      forall f | f in Fields(kept) && Dropped(man, over) ensures f in Fields(over) {
        assert FieldAt(value, f) == FirstOf(FieldAt(man, f), FirstOf(FieldAt(over, f), FieldAt(kept, f)));
      }
      if over.Some? && !over.value.Dict? {
        forall f ensures f !in Fields(man) {
          assert FieldAt(value, f) == FirstOf(FieldAt(man, f), FirstOf(FieldAt(over, f), FieldAt(kept, f)));
        }
      }
    }
    if NothingLost(kept, man, over) {
      forall f ensures FieldAt(value, f) == FirstOf(FieldAt(man, f), FirstOf(FieldAt(over, f), FieldAt(kept, f))) {
        LayeredAt(kept, man, over, f);
      }
    }
  }

  lemma LayeredAt(kept: Option<Json>, man: Option<Json>, over: Option<Json>, f: string)
    requires (man.Some? ==> man.value.Truthy()) && NothingLost(kept, man, over)
    ensures FieldAt(FinalAt(true, kept, man, over), f) ==
            FirstOf(FieldAt(man, f), FirstOf(FieldAt(over, f), FieldAt(kept, f)))
  {
    assert f in Fields(kept) <==> FieldAt(kept, f).Some?;
    assert f in Fields(man) <==> FieldAt(man, f).Some?;
    if man.Some? && man.value.Dict? && over.Some? && over.value.Dict? {
      var g :| g in man.value.fields;
      assert g in over.value.fields + man.value.fields;
    }
  }

  /** Field precedence holds for a charm config exactly when no source of its value makes fields get lost. */
  lemma ConfigIsLayeredIff(vm: VarMap, rec: Option<Record>, m: Manifest, over: Vars, k: string)
    requires k in ConfigKeys(vm)
    ensures var kept, man, given := At(Kept(vm, rec, []), k), At(ManifestVars(vm, m, []), k), At(over, k);
            Layered(At(FullRun(vm, rec, m, over).vars, k), kept, man, given) <==> NothingLost(kept, man, given)
  {
    FullRunAt(vm, rec, m, over, k);
    LayeredIffNothingLost(At(Kept(vm, rec, []), k), At(ManifestVars(vm, m, []), k), At(over, k));
  }

  /** An empty override clears a charm config exactly when the manifest has no dict for it. */
  lemma EmptyOverrideClears(vm: VarMap, rec: Option<Record>, m: Manifest, over: Vars, k: string)
    requires k in ConfigKeys(vm) && k in over && over[k] == Dict(map[])
    ensures At(FullRun(vm, rec, m, over).vars, k) == Some(Dict(map[])) <==> !FieldsInManifest(vm, m, k)
  {
    FullRunAt(vm, rec, m, over, k);
    if FieldsInManifest(vm, m, k) {
      var fields := ManifestVars(vm, m, [])[k].fields;
      var f :| f in fields;
      assert map[] + fields == fields;
      assert FieldAt(At(FullRun(vm, rec, m, over).vars, k), f).Some?;
    }
  }

  predicate FieldsInManifest(vm: VarMap, m: Manifest, k: string) {
    k in ManifestVars(vm, m, []) && ManifestVars(vm, m, [])[k].Dict?
  }

  /** A charm config that is overridden with something other than a dict takes that value. */
  lemma NonDictOverrideReplaces(vm: VarMap, rec: Option<Record>, m: Manifest, over: Vars, k: string)
    requires k in over && !over[k].Dict?
    ensures At(FullRun(vm, rec, m, over).vars, k) == Some(over[k])
  {
    FullRunAt(vm, rec, m, over, k);
  }

  /** After a full run, a refreshed key is present exactly when the current manifest sets it. */
  lemma RefreshedKeysFollowManifest(vm: VarMap, rec: Option<Record>, m: Manifest, over: Vars, k: string)
    requires Names(vm.charms, [], k) && k !in over && (rec.Some? ==> !WasComputed(vm, rec.value, k))
    ensures At(FullRun(vm, rec, m, over).vars, k) == At(ManifestVars(vm, m, []), k)
    ensures forall v :: At(FullRun(vm, rec, m, over).vars, k) == Some(v) <==> Says(vm, m, [], k, v)
    ensures k in FullRun(vm, rec, m, over).vars <==> !Silent(vm, m, [], k)
  {
    RunComputes(vm, rec, m, over, [], k);
    FullRunAt(vm, rec, m, over, k);
    ManifestVarsAreSaid(vm, m, [], k);
  }

  /** Every key that is no charm config: the override, else what the manifest says, else what the record keeps. */
  lemma PlainKeyComesFrom(vm: VarMap, rec: Option<Record>, m: Manifest, over: Vars, k: string, v: Json)
    requires k == "" || !Maps(vm, "config", k)
    ensures At(FullRun(vm, rec, m, over).vars, k) == Some(v) <==>
            if k in over then over[k] == v
            else Says(vm, m, [], k, v) || (Silent(vm, m, [], k) && Keeps(vm, rec, [], k, v))
  {
    ConfigKeysAreMapped(vm, k);
    PlainKeyPrecedence(vm, rec, m, over, k);
    ManifestVarsAreSaid(vm, m, [], k);
    RunStartsFrom(vm, rec, [], k);
  }

  /** The same for a partial run, which knows no override. */
  lemma PartialKeyComesFrom(vm: VarMap, rec: Option<Record>, m: Manifest, charms: seq<string>, k: string, v: Json)
    requires k == "" || !Maps(vm, "config", k)
    ensures At(PartialRun(vm, rec, m, charms).vars, k) == Some(v) <==>
            Says(vm, m, charms, k, v) || (Silent(vm, m, charms, k) && Keeps(vm, rec, charms, k, v))
  {
    ConfigKeysAreMapped(vm, k);
    PartialRunAt(vm, rec, m, charms, k);
    ManifestVarsAreSaid(vm, m, charms, k);
    RunStartsFrom(vm, rec, charms, k);
  }

  /** What each source says about a charm config: the kept record, the manifest and the override. */
  ghost predicate Source(vm: VarMap, rec: Option<Record>, m: Manifest, k: string, kept: Option<Json>, man: Option<Json>) {
    && (forall v :: kept == Some(v) <==> Keeps(vm, rec, [], k, v))
    && (forall v :: man == Some(v) <==> Says(vm, m, [], k, v))
  }

  /** Every charm config: its fields, and whether they are layered, from what the sources say. */
  lemma ConfigComesFrom(vm: VarMap, rec: Option<Record>, m: Manifest, over: Vars, k: string, kept: Option<Json>, man: Option<Json>)
    requires k != "" && Maps(vm, "config", k) && Source(vm, rec, m, k, kept, man)
    ensures Layered(At(FullRun(vm, rec, m, over).vars, k), kept, man, At(over, k)) <==> NothingLost(kept, man, At(over, k))
    ensures k in FullRun(vm, rec, m, over).vars <==> kept.Some? || man.Some? || k in over
  {
    ConfigKeysAreMapped(vm, k);
    RunStartsFrom(vm, rec, [], k);
    ManifestVarsAreSaid(vm, m, [], k);
    assert kept == At(Kept(vm, rec, []), k) by {
      if kept.Some? {
        assert kept == Some(kept.value);
      } else if k in Kept(vm, rec, []) {
        assert Keeps(vm, rec, [], k, Kept(vm, rec, [])[k]);
      }
    }
    assert man == At(ManifestVars(vm, m, []), k) by {
      if man.Some? {
        assert man == Some(man.value);
      } else if k in ManifestVars(vm, m, []) {
        assert Says(vm, m, [], k, ManifestVars(vm, m, [])[k]);
      }
    }
    ConfigIsLayeredIff(vm, rec, m, over, k);
    FullRunAt(vm, rec, m, over, k);
  }

  /** A charm config after a partial run, which knows no override. */
  lemma PartialConfigComesFrom(vm: VarMap, rec: Option<Record>, m: Manifest, charms: seq<string>, k: string)
    requires k != "" && Maps(vm, "config", k)
    ensures var kept, man, r := At(Kept(vm, rec, charms), k), At(ManifestVars(vm, m, charms), k), At(PartialRun(vm, rec, m, charms).vars, k);
            && (Layered(r, kept, man, None) <==> NothingLost(kept, man, None))
            && (r.Some? <==> kept.Some? || man.Some?)
  {
    ConfigKeysAreMapped(vm, k);
    PartialRunAt(vm, rec, m, charms, k);
    ManifestVarsAreNamed(vm, m, charms);
    LayeredIffNothingLost(At(Kept(vm, rec, charms), k), At(ManifestVars(vm, m, charms), k), None);
  }

  /** What a run makes of the caller's override: its charm configs take in the manifest's fields, all else stays. */
  lemma OverrideTakesIn(vm: VarMap, m: Manifest, over: Vars, k: string, f: string)
    ensures k in Overriding(vm, m, over) <==> k in over
    ensures k in over && !(k != "" && Maps(vm, "config", k) && over[k].Dict? && (exists fields :: Says(vm, m, [], k, Dict(fields)))) ==>
            Overriding(vm, m, over)[k] == over[k]
    ensures k in over && k != "" && Maps(vm, "config", k) && over[k].Dict? ==>
            forall fields :: Says(vm, m, [], k, Dict(fields)) ==>
              FieldAt(At(Overriding(vm, m, over), k), f) == if f in fields then Some(fields[f]) else FieldAt(At(over, k), f)
  {
    ConfigKeysAreMapped(vm, k);
    ManifestVarsAreSaid(vm, m, [], k);
    if k in ManifestVars(vm, m, []) && ManifestVars(vm, m, [])[k].Dict? {
      assert Says(vm, m, [], k, Dict(ManifestVars(vm, m, [])[k].fields));
    }
  }

  // ------------------------------------------------------------------ fixed points

  lemma RemergeIsStable(x: map<string, Json>, man: map<string, Json>, o: map<string, Json>)
    ensures (x + man) + man == x + man
    ensures var y := (x + man) + (o + man); y + man == y && y + (o + man) == y
    ensures var y := man + (o + man); y + man == y && y + (o + man) == y
    ensures (o + man) + man == o + man
    ensures (x + o) + o == x + o && o + o == o && man + man == man
    ensures man != map[] ==> o + man != map[]
  {
    if man != map[] {
      var f :| f in man;
      assert f in o + man;
    }
  }

  /** Merging into what the same merge left changes nothing. */
  lemma FinalIsStable(config: bool, kept: Option<Json>, man: Option<Json>, over: Option<Json>, again: Option<Json>)
    requires man.Some? ==> man.value.Truthy()
    requires again == over || (over.Some? && again == Some(MergedAt(config, man, over.value)))
    ensures FinalAt(config, FinalAt(config, kept, man, over), man, again) == FinalAt(config, kept, man, over)
    ensures FinalAt(config, kept, man, again) == FinalAt(config, kept, man, over)
  {
    var x := if kept.Some? && kept.value.Dict? then kept.value.fields else map[];
    var n := if man.Some? && man.value.Dict? then man.value.fields else map[];
    var o := if over.Some? && over.value.Dict? then over.value.fields else map[];
    RemergeIsStable(x, n, o);
    RemergeIsStable(o, n, o);
  }

  lemma RerunAt(vm: VarMap, rec: Option<Record>, m: Manifest, over: Vars, again: Vars, k: string)
    requires again == over || again == Overriding(vm, m, over)
    requires k != COMPUTED_KEYS
    ensures var first := FullRun(vm, rec, m, over);
            At(FullRun(vm, Some(first.Saved()), m, again).vars, k) == At(first.vars, k)
  {
    var first := FullRun(vm, rec, m, over);
    var config, kept, man := k in ConfigKeys(vm), At(Kept(vm, rec, []), k), At(ManifestVars(vm, m, []), k);
    FullRunAt(vm, rec, m, over, k);
    FullRunAt(vm, Some(first.Saved()), m, again, k);
    FinalIsStable(config, kept, man, At(over, k), At(again, k));
    var kept' := At(Kept(vm, Some(first.Saved()), []), k);
    if k in first.computed || k !in TfvarNames(vm, []) {
      assert kept' == At(first.vars, k);
    } else {
      assert kept' == None && kept == None && At(over, k) == None;
    }
  }

  /** Repeating a persisted run, even with the override that it has already changed, is a fixed point. */
  lemma RepeatedRunIsFixedPoint(vm: VarMap, rec: Option<Record>, m: Manifest, over: Vars, again: Vars)
    requires again == over || again == Overriding(vm, m, over)
    ensures var first := FullRun(vm, rec, m, over);
            FullRun(vm, Some(first.Saved()), m, again).Saved() == first.Saved()
  {
    var first := FullRun(vm, rec, m, over);
    var second := FullRun(vm, Some(first.Saved()), m, again);
    forall k | k != COMPUTED_KEYS ensures At(second.Saved().vars, k) == At(first.Saved().vars, k) {
      RerunAt(vm, rec, m, over, again, k);
    }
    SameAtSameVars(second.Saved().vars, first.Saved().vars);
    assert again.Keys == over.Keys;
    assert second.computed == first.computed;
  }

  // ------------------------------------------------------------------ partial runs

  /** A partial update never changes a stored key that belongs to none of the chosen charms. */
  lemma PartialRunLeavesOthers(vm: VarMap, rec: Record, m: Manifest, charms: seq<string>, k: string)
    requires k !in TfvarNames(vm, charms)
    ensures At(PartialRun(vm, Some(rec), m, charms).vars, k) == At(rec.vars, k)
  {
    ManifestVarsAreNamed(vm, m, charms);
  }

  predicate Covers(vm: VarMap, charms: seq<string>) {
    forall i :: 0 <= i < |vm.charms| ==> Selected(charms, vm.charms[i].charm)
  }

  lemma {:induction false} SelectionDecides(cs: seq<CharmVars>, m: Manifest, a: seq<string>, b: seq<string>)
    requires forall i :: 0 <= i < |cs| ==> (Selected(a, cs[i].charm) <==> Selected(b, cs[i].charm))
    ensures CharmsVars(cs, m, a) == CharmsVars(cs, m, b)
  {
    if cs != [] {
      SelectionDecides(cs[..|cs| - 1], m, a, b);
    }
  }

  /** A partial update for all charms is a full update without overrides. */
  lemma PartialRunOverAllIsFullRun(vm: VarMap, rec: Option<Record>, m: Manifest, charms: seq<string>)
    requires Covers(vm, charms)
    ensures PartialRun(vm, rec, m, charms) == FullRun(vm, rec, m, map[])
  {
    SelectionDecides(vm.charms, m, charms, []);
    assert TfvarNames(vm, charms) == TfvarNames(vm, []) by {
      forall k ensures k in TfvarNames(vm, charms) <==> k in TfvarNames(vm, []) {
        if Names(vm.charms, [], k) {
          var i, j :| 0 <= i < |vm.charms| && 0 <= j < |vm.charms[i].attrs| && vm.charms[i].attrs[j].tfvar == k;
          assert Selected(charms, vm.charms[i].charm);
        }
      }
    }
  }

  lemma NamesOfUnion(vm: VarMap, a: seq<string>, b: seq<string>)
    requires a != [] && b != []
    ensures TfvarNames(vm, a + b) == TfvarNames(vm, a) + TfvarNames(vm, b)
  {
    forall k ensures Names(vm.charms, a + b, k) <==> Names(vm.charms, a, k) || Names(vm.charms, b, k) {
      if Names(vm.charms, a + b, k) {
        var i, j :| 0 <= i < |vm.charms| && Chosen(a + b, vm.charms[i].charm)
          && 0 <= j < |vm.charms[i].attrs| && vm.charms[i].attrs[j].tfvar == k;
        assert Chosen(a, vm.charms[i].charm) || Chosen(b, vm.charms[i].charm);
      }
      if Names(vm.charms, a, k) {
        var i, j :| 0 <= i < |vm.charms| && Chosen(a, vm.charms[i].charm)
          && 0 <= j < |vm.charms[i].attrs| && vm.charms[i].attrs[j].tfvar == k;
        assert Chosen(a + b, vm.charms[i].charm);
      }
      if Names(vm.charms, b, k) {
        var i, j :| 0 <= i < |vm.charms| && Chosen(b, vm.charms[i].charm)
          && 0 <= j < |vm.charms[i].attrs| && vm.charms[i].attrs[j].tfvar == k;
        assert Chosen(a + b, vm.charms[i].charm);
      }
    }
  }

  lemma {:induction false} AttrVarsNeedName(attrs: seq<Attr>, charm: Charm, k: string)
    requires forall j :: 0 <= j < |attrs| ==> attrs[j].tfvar != k
    ensures k !in AttrVars(attrs, charm)
  {
    var last := AttrVarsSet(attrs, charm, k);
  }

  /** For a key that no charm of `b` names, choosing `b` as well changes nothing. */
  lemma {:induction false} UnrelatedChoice(cs: seq<CharmVars>, m: Manifest, a: seq<string>, b: seq<string>, k: string)
    requires a != [] && b != [] && !Names(cs, b, k)
    ensures At(CharmsVars(cs, m, a + b), k) == At(CharmsVars(cs, m, a), k)
    ensures At(CharmsVars(cs, m, b + a), k) == At(CharmsVars(cs, m, a), k)
  {
    if cs != [] {
      var n := |cs| - 1;
      assert !Names(cs[..n], b, k);
      UnrelatedChoice(cs[..n], m, a, b, k);
      var found := FindCharm(m, cs[n].charm);
      if Selected(b, cs[n].charm) && found.Some? {
        forall j | 0 <= j < |cs[n].attrs| ensures cs[n].attrs[j].tfvar != k {
        }
        AttrVarsNeedName(cs[n].attrs, found.value, k);
      }
    }
  }

  lemma PartialRunAt(vm: VarMap, rec: Option<Record>, m: Manifest, charms: seq<string>, k: string)
    ensures At(PartialRun(vm, rec, m, charms).vars, k) ==
            FinalAt(k in ConfigKeys(vm), At(Kept(vm, rec, charms), k), At(ManifestVars(vm, m, charms), k), None)
    ensures k !in TfvarNames(vm, charms) ==> At(ManifestVars(vm, m, charms), k) == None
  {
    ManifestVarsAreNamed(vm, m, charms);
  }

  lemma PartialRunsComposeAt(vm: VarMap, rec: Option<Record>, m: Manifest, a: seq<string>, b: seq<string>, k: string)
    requires a != [] && b != [] && TfvarNames(vm, a) !! TfvarNames(vm, b) && k != COMPUTED_KEYS
    ensures At(PartialRun(vm, Some(PartialRun(vm, rec, m, a).Saved()), m, b).vars, k) == At(PartialRun(vm, rec, m, a + b).vars, k)
  {
    var mid := PartialRun(vm, rec, m, a).Saved();
    NamesOfUnion(vm, a, b);
    PartialRunAt(vm, rec, m, a, k);
    PartialRunAt(vm, Some(mid), m, b, k);
    PartialRunAt(vm, rec, m, a + b, k);
    assert At(mid.vars, k) == At(PartialRun(vm, rec, m, a).vars, k);
    if k !in TfvarNames(vm, b) {
      UnrelatedChoice(vm.charms, m, a, b, k);
    } else {
      UnrelatedChoice(vm.charms, m, b, a, k);
    }
  }

  /** Two partial updates of charms with different tfvars are one update for both. */
  lemma PartialRunsCompose(vm: VarMap, rec: Option<Record>, m: Manifest, a: seq<string>, b: seq<string>)
    requires a != [] && b != [] && TfvarNames(vm, a) !! TfvarNames(vm, b)
    ensures PartialRun(vm, Some(PartialRun(vm, rec, m, a).Saved()), m, b).Saved() == PartialRun(vm, rec, m, a + b).Saved()
  {
    var ab := PartialRun(vm, Some(PartialRun(vm, rec, m, a).Saved()), m, b);
    var both := PartialRun(vm, rec, m, a + b);
    forall k | k != COMPUTED_KEYS ensures At(ab.Saved().vars, k) == At(both.Saved().vars, k) {
      PartialRunsComposeAt(vm, rec, m, a, b, k);
    }
    SameAtSameVars(ab.Saved().vars, both.Saved().vars);
  }

  /** ... so they commute. */
  lemma PartialRunsCommute(vm: VarMap, rec: Option<Record>, m: Manifest, a: seq<string>, b: seq<string>)
    requires a != [] && b != [] && TfvarNames(vm, a) !! TfvarNames(vm, b)
    ensures PartialRun(vm, Some(PartialRun(vm, rec, m, a).Saved()), m, b).Saved() ==
            PartialRun(vm, Some(PartialRun(vm, rec, m, b).Saved()), m, a).Saved()
  {
    PartialRunsCompose(vm, rec, m, a, b);
    PartialRunsCompose(vm, rec, m, b, a);
    SelectionDecides(vm.charms, m, a + b, b + a);
    NamesOfUnion(vm, a, b);
    NamesOfUnion(vm, b, a);
    assert Kept(vm, rec, a + b) == Kept(vm, rec, b + a);
  }

  lemma SameAtSameVars(x: Vars, y: Vars)
    requires COMPUTED_KEYS !in x && COMPUTED_KEYS !in y
    requires forall k | k != COMPUTED_KEYS :: At(x, k) == At(y, k)
    ensures x == y
  {
    forall k ensures k in x <==> k in y {
      assert k != COMPUTED_KEYS ==> At(x, k) == At(y, k);
    }
    forall k | k in x ensures x[k] == y[k] {
      assert At(x, k) == At(y, k);
    }
  }

  // ------------------------------------------------------------------ sequences of runs

  /** A run on a plan's stored record. */
  datatype Run =
    | Full(manifest: Manifest, over: Vars, persist: bool)
    | Partial(manifest: Manifest, charms: seq<string>)

  function RunOn(vm: VarMap, rec: Option<Record>, run: Run): Option<Record> {
    match run
    case Full(m, over, persist) => if persist then Some(FullRun(vm, rec, m, over).Saved()) else rec
    case Partial(m, charms) => Some(PartialRun(vm, rec, m, charms).Saved())
  }

  function RunAll(vm: VarMap, rec: Option<Record>, runs: seq<Run>): Option<Record>
    decreases |runs|
  {
    if runs == [] then rec else RunAll(vm, RunOn(vm, rec, runs[0]), runs[1..])
  }

  /** A key that is computed and stored. */
  predicate Remembered(vm: VarMap, rec: Option<Record>, k: string) {
    rec.Some? && k in rec.value.vars && k in Computed(vm, rec)
  }

  lemma {:induction false} RunsOnlyAdd(vm: VarMap, rec: Option<Record>, runs: seq<Run>)
    ensures Computed(vm, rec) <= Computed(vm, RunAll(vm, rec, runs))
    ensures forall k | k != COMPUTED_KEYS :: Remembered(vm, rec, k) ==> Remembered(vm, RunAll(vm, rec, runs), k)
    decreases |runs|
  {
    if runs != [] {
      var next := RunOn(vm, rec, runs[0]);
      forall k | k != COMPUTED_KEYS && Remembered(vm, rec, k) ensures Remembered(vm, next, k) {
      }
      RunsOnlyAdd(vm, next, runs[1..]);
    }
  }

  /** Over any runs the computed keys only grow, and a key once overridden stays stored and computed. */
  lemma OverriddenKeysStay(vm: VarMap, rec: Option<Record>, m: Manifest, over: Vars, later: seq<Run>, k: string)
    requires k in over && k != COMPUTED_KEYS
    ensures var end := RunAll(vm, rec, [Full(m, over, true)] + later);
            Computed(vm, rec) <= Computed(vm, end) && Remembered(vm, end, k)
  {
    var next := RunOn(vm, rec, Full(m, over, true));
    assert Remembered(vm, next, k);
    assert ([Full(m, over, true)] + later)[1..] == later;
    RunsOnlyAdd(vm, next, later);
    assert Computed(vm, rec) <= Computed(vm, next);
  }
}
