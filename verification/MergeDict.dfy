/**
  Merging nested dicts into the first of two, as manifests and tfvar maps are merged.
 */
module MergeDict {
  import opened Wrappers

  /** A nested dict; a leaf is any other value, of which only the truth value matters. */
  datatype Tree = Leaf(value: int, truthy: bool) | Dict(entries: map<string, Tree>)

  type Entries = map<string, Tree>

  datatype Outcome<T> = Crash | Done(value: T)

  predicate Truthy(t: Tree) {
    match t
    case Leaf(_, truthy) => truthy
    case Dict(entries) => entries != map[]
  }

  function Get(d: Entries, k: string): Option<Tree> {
    if k in d then Some(d[k]) else None
  }

  /** What the key holding `d` holds after the value `u` is merged into it. */
  function MergeAt(d: Option<Tree>, u: Tree): Outcome<Tree>
    decreases u, 1
  {
    if d.None? || !Truthy(d.value) then Done(u)
    else
      match u
      case Leaf(_, truthy) => Done(if truthy then u else d.value)
      case Dict(entries) =>
        match d.value
        case Leaf(_, _) => if entries == map[] then Done(d.value) else Crash
        case Dict(into) => if Merge(into, entries).Done? then Done(Dict(Merge(into, entries).value)) else Crash
  }

  function Merge(d: Entries, u: Entries): (r: Outcome<Entries>)
    ensures r.Done? ==> r.value.Keys == d.Keys + u.Keys
    decreases Dict(u), 0
  {
    if forall k <- u :: MergeAt(Get(d, k), u[k]).Done?
    then Done(map k | k in d.Keys + u.Keys :: if k in u then MergeAt(Get(d, k), u[k]).value else d[k])
    else Crash
  }

  lemma MergeTouchesEachKey(d: Entries, u: Entries, k: string)
    requires Merge(d, u).Done?
    ensures Get(Merge(d, u).value, k) ==
            if k in u then Some(MergeAt(Get(d, k), u[k]).value) else Get(d, k)
  {
  }

  /** Falsy values give way and never replace; truthy leaves replace; a non-empty dict merges into a dict. */
  lemma MergedKeys(d: Entries, u: Entries, k: string)
    requires Merge(d, u).Done?
    ensures var m := Merge(d, u).value;
            && (k in m <==> k in d || k in u)
            && (k in d && k !in u ==> m[k] == d[k])
            && (k in u && (k !in d || !Truthy(d[k])) ==> m[k] == u[k])
            && (k in u && k in d && Truthy(d[k]) && !Truthy(u[k]) ==> m[k] == d[k])
            && (k in u && Truthy(u[k]) && u[k].Leaf? ==> m[k] == u[k])
            && (k in u && k in d && Truthy(d[k]) && Truthy(u[k]) && u[k].Dict? ==>
                  d[k].Dict? && Merge(d[k].entries, u[k].entries).Done? && m[k] == Dict(Merge(d[k].entries, u[k].entries).value))
  {
    MergeTouchesEachKey(d, u, k);
    if k in u && k in d && d[k].Dict? && u[k] == Dict(map[]) {
      EmptyIsUnit(d[k].entries);
    }
  }

  lemma TruthyValues(t: Tree)
    ensures !Truthy(t) <==> t == Dict(map[]) || (t.Leaf? && !t.truthy)
  {
  }

  lemma MergeByKey(d: Entries, u: Entries, m: Entries)
    requires m.Keys == d.Keys + u.Keys
    requires forall k <- u :: MergeAt(Get(d, k), u[k]) == Done(m[k])
    requires forall k <- d :: k !in u ==> m[k] == d[k]
    ensures Merge(d, u) == Done(m)
  {
    assert Merge(d, u).Done?;
    var merged := Merge(d, u).value;
    forall k | k in m ensures merged[k] == m[k] {
      MergeTouchesEachKey(d, u, k);
    }
    assert merged == m;
  }

  // ------------------------------------------------------------------ when it fails

  /** No key leads to a non-empty dict on the right and to a truthy leaf on the left. */
  ghost predicate Fits(d: Entries, u: Entries)
    decreases Dict(u)
  {
    forall k <- u :: k in d && Truthy(d[k]) && u[k].Dict? ==>
      if d[k].Dict? then Fits(d[k].entries, u[k].entries) else u[k].entries == map[]
  }

  lemma {:induction false} MergeFailsIffMisfit(d: Entries, u: Entries)
    ensures Merge(d, u).Done? <==> Fits(d, u)
    decreases Dict(u)
  {
    forall k | k in u && k in d && u[k].Dict? && d[k].Dict?
      ensures Merge(d[k].entries, u[k].entries).Done? <==> Fits(d[k].entries, u[k].entries)
    {
      MergeFailsIffMisfit(d[k].entries, u[k].entries);
    }
  }

  // ------------------------------------------------------------------ algebra

  lemma EmptyIsUnit(d: Entries)
    ensures Merge(d, map[]) == Done(d) && Merge(map[], d) == Done(d)
  {
    MergeByKey(d, map[], d);
    MergeByKey(map[], d, d);
  }

  lemma {:induction false} MergeIsIdempotent(d: Entries)
    ensures Merge(d, d) == Done(d)
    decreases Dict(d)
  {
    forall k | k in d ensures MergeAt(Get(d, k), d[k]) == Done(d[k]) {
      if d[k].Dict? {
        MergeIsIdempotent(d[k].entries);
      }
    }
    MergeByKey(d, d, d);
  }

  lemma MergedIsTruthy(d: Entries, u: Entries)
    requires d != map[] && Merge(d, u).Done?
    ensures Merge(d, u).value != map[]
  {
    var k :| k in d;
    assert k in Merge(d, u).value;
  }

  /** Merging twice on the left is merging once with the merge of the two right operands, failures included. */
  lemma {:induction false} MergeIsAssociative(a: Entries, b: Entries, c: Entries)
    requires Merge(a, b).Done?
    ensures Merge(b, c).Crash? ==> Merge(Merge(a, b).value, c).Crash?
    ensures Merge(b, c).Done? ==> Merge(Merge(a, b).value, c) == Merge(a, Merge(b, c).value)
    decreases Dict(b), 0
  {
    var ab := Merge(a, b).value;
    forall k | k in c && k in b
      ensures MergeAt(Some(b[k]), c[k]).Crash? ==> MergeAt(Get(ab, k), c[k]).Crash?
      ensures MergeAt(Some(b[k]), c[k]).Done? ==>
        MergeAt(Get(ab, k), c[k]) == MergeAt(Get(a, k), MergeAt(Some(b[k]), c[k]).value)
    {
      MergeTouchesEachKey(a, b, k);
      MergeAtIsAssociative(Get(a, k), b[k], c[k]);
    }
    if Merge(b, c).Crash? {
      var k :| k in c && MergeAt(Get(b, k), c[k]).Crash?;
      assert k in b;
    } else {
      var bc := Merge(b, c).value;
      forall k | k in bc ensures k in c ==> MergeAt(Get(ab, k), c[k]) == MergeAt(Get(a, k), bc[k])
      {
        MergeTouchesEachKey(b, c, k);
        MergeTouchesEachKey(a, b, k);
      }
      if Merge(a, bc).Done? {
        MergedBoth(a, b, c, ab, bc);
      } else {
        MergedNever(a, b, c, ab, bc);
      }
    }
  }

  lemma MergedOnce(a: Entries, b: Entries, c: Entries, ab: Entries, bc: Entries, m: Entries, k: string)
    requires Merge(a, b) == Done(ab) && Merge(b, c) == Done(bc) && Merge(a, bc) == Done(m) && k in m
    requires k in bc && k in c ==> MergeAt(Get(ab, k), c[k]) == MergeAt(Get(a, k), bc[k])
    ensures if k in c then MergeAt(Get(ab, k), c[k]) == Done(m[k]) else k in ab && m[k] == ab[k]
  {
    MergeTouchesEachKey(a, bc, k);
    MergeTouchesEachKey(a, b, k);
    MergeTouchesEachKey(b, c, k);
  }

  lemma MergedBoth(a: Entries, b: Entries, c: Entries, ab: Entries, bc: Entries)
    requires Merge(a, b) == Done(ab) && Merge(b, c) == Done(bc) && Merge(a, bc).Done?
    requires forall k :: k in bc && k in c ==> MergeAt(Get(ab, k), c[k]) == MergeAt(Get(a, k), bc[k])
    ensures Merge(ab, c) == Merge(a, bc)
  {
    var m := Merge(a, bc).value;
    forall k | k in m
      ensures if k in c then MergeAt(Get(ab, k), c[k]) == Done(m[k]) else k in ab && m[k] == ab[k]
    {
      MergedOnce(a, b, c, ab, bc, m, k);
    }
    MergeByKey(ab, c, m);
  }

  lemma MergedNever(a: Entries, b: Entries, c: Entries, ab: Entries, bc: Entries)
    requires Merge(a, b) == Done(ab) && Merge(b, c) == Done(bc) && Merge(a, bc).Crash?
    requires forall k :: k in bc && k in c ==> MergeAt(Get(ab, k), c[k]) == MergeAt(Get(a, k), bc[k])
    ensures Merge(ab, c).Crash?
  {
    var k :| k in bc && MergeAt(Get(a, k), bc[k]).Crash?;
    MergeTouchesEachKey(b, c, k);
    assert k in c;
  }

  lemma {:induction false} MergeAtIsAssociative(a: Option<Tree>, b: Tree, c: Tree)
    requires MergeAt(a, b).Done?
    ensures MergeAt(Some(b), c).Crash? ==> MergeAt(Some(MergeAt(a, b).value), c).Crash?
    ensures MergeAt(Some(b), c).Done? ==>
      MergeAt(Some(MergeAt(a, b).value), c) == MergeAt(a, MergeAt(Some(b), c).value)
    decreases b, 1
  {
    if a.Some? && Truthy(a.value) && a.value.Dict? && b.Dict? {
      var into := a.value.entries;
      MergedIsTruthy(into, b.entries);
      if b.entries == map[] {
        EmptyIsUnit(into);
        assert MergeAt(a, b) == Done(a.value);
      } else if c.Dict? {
        MergeIsAssociative(into, b.entries, c.entries);
        assert MergeAt(Some(MergeAt(a, b).value), c) ==
          if Merge(Merge(into, b.entries).value, c.entries).Done?
          then Done(Dict(Merge(Merge(into, b.entries).value, c.entries).value)) else Crash;
      }
    }
  }

  function GroupedLeft(a: Entries, b: Entries, c: Entries): Outcome<Entries> {
    if Merge(a, b).Done? then Merge(Merge(a, b).value, c) else Crash
  }

  function GroupedRight(a: Entries, b: Entries, c: Entries): Outcome<Entries> {
    if Merge(b, c).Done? then Merge(a, Merge(b, c).value) else Crash
  }

  /** Leaves that hide everything on the left. */
  function Hiding(b: Entries): Entries {
    map k | k in b :: Leaf(1, true)
  }

  lemma HidingMerges(a: Entries, b: Entries)
    ensures Merge(b, Hiding(b)) == Done(Hiding(b)) && Merge(a, Hiding(b)).Done?
  {
    MergeByKey(b, Hiding(b), Hiding(b));
  }

  /** Two dicts fit together exactly when, whatever comes third, it does not matter which two are merged first. */
  lemma AssociativeIffFits(a: Entries, b: Entries)
    ensures Fits(a, b) <==> forall c: Entries :: GroupedLeft(a, b, c) == GroupedRight(a, b, c)
  {
    MergeFailsIffMisfit(a, b);
    if Merge(a, b).Done? {
      forall c: Entries ensures GroupedLeft(a, b, c) == GroupedRight(a, b, c) {
        MergeIsAssociative(a, b, c);
      }
    } else {
      HidingMerges(a, b);
      assert GroupedLeft(a, b, Hiding(b)) != GroupedRight(a, b, Hiding(b));
    }
  }

  /** An instance: a leaf, a dict, and a leaf that hides the clash. */
  lemma HiddenClash()
    ensures var a: Entries, b: Entries, c: Entries :=
              map["k" := Leaf(1, true)], map["k" := Dict(map["x" := Leaf(2, true)])], map["k" := Leaf(1, true)];
            GroupedLeft(a, b, c).Crash? && GroupedRight(a, b, c) == Done(c)
  {
    var a: Entries, b: Entries, c: Entries :=
      map["k" := Leaf(1, true)], map["k" := Dict(map["x" := Leaf(2, true)])], map["k" := Leaf(1, true)];
    assert "x" in b["k"].entries && MergeAt(Get(a, "k"), b["k"]).Crash?;
    assert Hiding(b) == c;
    HidingMerges(a, b);
    MergeByKey(a, c, c);
  }

  // ------------------------------------------------------------------ which leaves survive

  /** The leaf `x` stands at the end of `path`. */
  ghost predicate LeafAt(d: Entries, path: seq<string>, x: int)
    decreases path
  {
    path != [] && path[0] in d &&
    if |path| == 1 then d[path[0]] == Leaf(x, true)
    else d[path[0]].Dict? && LeafAt(d[path[0]].entries, path[1..], x)
  }

  /** A truthy leaf stands on the path or at its end. */
  ghost predicate Cuts(u: Entries, path: seq<string>)
    decreases path
  {
    path != [] && path[0] in u &&
    match u[path[0]]
    case Leaf(_, truthy) => truthy
    case Dict(entries) => Cuts(entries, path[1..])
  }

  /**
    The truthy leaves of a merge are exactly those of the right operand, and those of the left
    operand whose path meets no truthy leaf on the right.
   */
  lemma {:induction false} SurvivingLeaves(d: Entries, u: Entries, path: seq<string>, x: int)
    requires Merge(d, u).Done?
    ensures LeafAt(Merge(d, u).value, path, x) <==>
            LeafAt(u, path, x) || (LeafAt(d, path, x) && !Cuts(u, path))
    decreases Dict(u)
  {
    if path != [] {
      var k := path[0];
      MergeTouchesEachKey(d, u, k);
      if k in u && k in d && u[k].Dict? && d[k].Dict? && Truthy(d[k]) {
        SurvivingLeaves(d[k].entries, u[k].entries, path[1..], x);
      }
    }
  }
}
