/**
  `merge_dict` on dict objects, updating the first in place.
 */
module MergeHeap {
  import opened Wrappers
  import opened MergeDict

  datatype Value = Plain(value: int, truthy: bool) | Ref(dict: DictObject)

  /** A dict object whose nested dicts form a tree. */
  class DictObject {
    var entries: map<string, Value>
    ghost var Contents: Entries
    ghost var Repr: set<DictObject>

    ghost predicate Valid()
      reads this, Repr
      decreases Repr
    {
      && this in Repr
      && Contents.Keys == entries.Keys
      && (forall k <- entries :: entries[k].Plain? ==> Contents[k] == Leaf(entries[k].value, entries[k].truthy))
      && (forall k <- entries :: entries[k].Ref? ==>
            entries[k].dict in Repr && Owns(k, entries[k].dict) && entries[k].dict.Valid())
      && Apart()
    }

    /** `c` is a dict inside this one, and `k` is known to hold what it holds. */
    ghost predicate Owns(k: string, c: DictObject)
      reads this, c
    {
      c != this && c.Repr <= Repr && this !in c.Repr && k in Contents && Contents[k] == Dict(c.Contents)
    }

    /** No two keys lead to the same dict. */
    ghost predicate Apart()
      reads this, set k | k in entries && entries[k].Ref? :: entries[k].dict
    {
      forall j, k :: j in entries && k in entries && j != k && entries[j].Ref? && entries[k].Ref? ==>
        entries[j].dict.Repr !! entries[k].dict.Repr
    }

    ghost function Child(k: string): set<DictObject>
      reads this, if k in entries && entries[k].Ref? then {entries[k].dict} else {}
    {
      if k in entries then Footprint(entries[k]) else {}
    }

    /** The keys other than `k` hold what they held, in the same dicts. */
    twostate predicate OthersKept(k: string)
      reads this, set j | j in entries && entries[j].Ref? :: entries[j].dict
    {
      forall j <- entries :: j != k ==>
        j in old(entries) && entries[j] == old(entries[j]) && Footprint(entries[j]) == old(Footprint(entries[j]))
    }

    /** d[k] = v */
    method Put(k: string, v: Value)
      requires Valid() && Beside(v, Repr)
      modifies this
      ensures Valid() && entries == old(entries)[k := v] && Repr == old(Repr) + Footprint(v)
      ensures Contents == old(Contents)[k := TreeOf(v)] && OthersKept(k)
    {
      entries := entries[k := v];
      Repr := Repr + Footprint(v);
      Contents := Contents[k := TreeOf(v)];
    }

    /** The dicts under the keys other than `k` are whole and known. */
    ghost predicate OthersValid(k: string)
      reads this, Repr
    {
      && this in Repr && Contents.Keys == entries.Keys
      && (forall j <- entries :: entries[j].Plain? ==> Contents[j] == Leaf(entries[j].value, entries[j].truthy))
      && (forall j <- entries :: j != k && entries[j].Ref? ==>
            entries[j].dict in Repr && Owns(j, entries[j].dict) && entries[j].dict.Valid())
    }

    /** A change inside the dict under `k` leaves the others as they were. */
    twostate lemma OthersFramed(k: string)
      requires old(Valid()) && k in entries && entries[k].Ref?
      requires unchanged(this) && unchanged(old(Repr - entries[k].dict.Repr))
      ensures OthersValid(k) && OthersKept(k)
      ensures forall j <- entries :: j != k && entries[j].Ref? ==> entries[j].dict.Repr !! old(entries[k].dict.Repr)
    {
      forall j | j in entries && j != k && entries[j].Ref?
        ensures entries[j].dict.Repr == old(entries[j].dict.Repr) && entries[j].dict.Repr !! old(entries[k].dict.Repr)
        ensures entries[j].dict in Repr && Owns(j, entries[j].dict) && entries[j].dict.Valid()
      {
        assert old(entries[j].dict.Repr) !! old(entries[k].dict.Repr);
        assert entries[j].dict in old(Repr - entries[k].dict.Repr);
      }
    }

    /** A dict none of whose parts changed is as it was. */
    twostate lemma Framed()
      requires old(Valid()) && unchanged(old(Repr))
      ensures Valid() && Contents == old(Contents) && entries == old(entries) && Repr == old(Repr)
    {
    }

    /** Takes note of a change of the dict under `k`, which may share parts of `u` now. */
    ghost method Adopt(k: string, u: DictObject)
      requires k in entries && entries[k].Ref? && entries[k].dict in Repr && entries[k].dict.Valid()
      requires OthersValid(k) && Apart() && entries[k].dict.Repr <= Repr + u.Repr && this !in entries[k].dict.Repr
      requires u.Valid() && this !in u.Repr
      modifies this`Repr, this`Contents
      ensures Valid() && Repr == old(Repr) + u.Repr && Contents == old(Contents)[k := Dict(entries[k].dict.Contents)]
      ensures u.Valid()
    {
      Repr := Repr + u.Repr;
      Contents := Contents[k := Dict(entries[k].dict.Contents)];
      u.Framed();
    }

    /** Merges `u` into the dict under `k`, of which this dict takes no note yet. */
    method UpdateChild(k: string, u: DictObject) returns (ok: bool)
      requires Valid() && k in entries && entries[k].Ref?
      requires u.Valid() && Repr !! u.Repr
      modifies Child(k)
      ensures unchanged(this) && u.Valid() && OthersValid(k) && OthersKept(k) && Apart()
      ensures entries[k].dict.Valid() && entries[k].dict.Repr <= Repr + u.Repr && this !in entries[k].dict.Repr
      ensures Merged(old(entries[k].dict.Contents), u.Contents, ok, entries[k].dict.Contents)
      decreases u.Repr, 1
    {
      ok := entries[k].dict.Update(u);
      OthersFramed(k);
      u.Framed();
    }

    /** Merges `u` into the dict under `k`. */
    method MergeChild(k: string, u: DictObject) returns (ok: bool)
      requires Valid() && k in entries && entries[k].Ref?
      requires u.Valid() && Repr !! u.Repr
      modifies Child(k), this`Repr, this`Contents
      ensures u.Valid() && Valid() && Repr == old(Repr) + u.Repr && OthersKept(k)
      ensures entries == old(entries) && Contents == old(Contents)[k := Dict(entries[k].dict.Contents)]
      ensures Merged(old(entries[k].dict.Contents), u.Contents, ok, entries[k].dict.Contents)
      decreases u.Repr, 2
    {
      ok := UpdateChild(k, u);
      assert u != this && forall j <- entries :: entries[j].Ref? ==> entries[j].dict != this;
      label noted:
      Adopt(k, u);
      assert u.Contents == old@noted(u.Contents) && entries[k].dict.Contents == old@noted(entries[k].dict.Contents);
    }

    /** `v` is merged into the truthy value that `k` holds. */
    method MergeInto(k: string, v: Value) returns (ok: bool)
      requires Valid() && Beside(v, Repr) && k in entries && Holds(entries[k])
      modifies this, Child(k)
      ensures Beside(v, {})
      ensures Valid() && Repr <= old(Repr) + Footprint(v) && OthersKept(k)
      ensures k in Contents && Contents == old(Contents)[k := Contents[k]]
      ensures MergedAt(Some(old(Contents[k])), TreeOf(v), ok, Contents[k])
      decreases Footprint(v), 3
    {
      ok := true;
      ghost var was, tree := Contents[k], TreeOf(v);
      HoldsIfTruthy(v);
      HoldsIfTruthy(entries[k]);
      assert was == TreeOf(entries[k]);
      if v.Ref? {
        if entries[k].Ref? {
          ok := MergeChild(k, v.dict);
          DictsMerged(was.entries, tree.entries, ok, Contents[k].entries);
        } else {
          ok := v.dict.entries == map[];
        }
      } else if v.truthy {
        Put(k, v);
      }
    }

    /** One turn of the loop of `merge_dict`: `v` is merged into what `k` holds. */
    method MergeKey(k: string, v: Value) returns (ok: bool)
      requires Valid() && Beside(v, Repr)
      modifies this, Child(k)
      ensures Beside(v, {})
      ensures Valid() && Repr <= old(Repr) + Footprint(v) && OthersKept(k)
      ensures k in Contents && Contents == old(Contents)[k := Contents[k]]
      ensures MergedAt(old(Get(Contents, k)), TreeOf(v), ok, Contents[k])
      decreases Footprint(v), 4
    {
      if k in entries && Holds(entries[k]) {
        ok := MergeInto(k, v);
      } else {
        if k in entries {
          HoldsIfTruthy(entries[k]);
          assert Contents[k] == TreeOf(entries[k]);
        }
        Put(k, v);
        ok := true;
      }
    }

    /** What `todo` still holds is kept apart from this dict, and from what others own. */
    ghost predicate Pending(u: DictObject, todo: set<string>, own: set<DictObject>)
      reads this, Repr, u, u.Repr
      requires Valid() && u.Valid()
    {
      && todo <= u.entries.Keys
      && forall k <- todo :: Footprint(u.entries[k]) !! Repr && Child(k) <= own
    }

    /** The turn of the key `k` of `u`. */
    method Turn(u: DictObject, k: string, ghost todo: set<string>, ghost own: set<DictObject>) returns (ok: bool)
      requires Valid() && u.Valid() && this in own && own !! u.Repr && Repr <= own + u.Repr
      requires k in todo && Pending(u, todo, own)
      modifies this, Child(k)
      ensures u.Valid()
      ensures Valid() && Repr <= own + u.Repr && Pending(u, todo - {k}, own)
      ensures k in Contents && Contents == old(Contents)[k := Contents[k]]
      ensures MergedAt(old(Get(Contents, k)), u.Contents[k], ok, Contents[k])
      decreases Footprint(u.entries[k]), 5
    {
      assert TreeOf(u.entries[k]) == u.Contents[k];
      assert Child(k) !! u.Repr;
      ok := MergeKey(k, u.entries[k]);
      forall j | j in todo - {k}
        ensures Footprint(u.entries[j]) !! Repr && Child(j) <= own
      {
        assert Footprint(u.entries[j]) !! Footprint(u.entries[k]);
        assert j in entries ==> Child(j) == old(Child(j));
      }
    }

    /**
      merge_dict(this, u), `ok` being false when it raises an exception.  The dicts of `u` are not
      modified, although this dict may share them afterwards; when it fails, this dict is partly
      merged.
     */
    method Update(u: DictObject) returns (ok: bool)
      requires Valid() && u.Valid() && Repr !! u.Repr
      modifies Repr
      ensures u.Valid()
      ensures Valid() && Repr <= old(Repr) + u.Repr
      ensures Merged(old(Contents), u.Contents, ok, Contents)
      decreases u.Repr, 0
    {
      var todo := u.entries.Keys;
      while todo != {}
        invariant u.Valid()
        invariant Valid() && Repr <= old(Repr) + u.Repr
        invariant Pending(u, todo, old(Repr))
        invariant Progress(old(Contents), u.Contents, todo, Contents)
      {
        var k :| k in todo;
        ghost var now := Contents;
        ok := Turn(u, k, todo, old(Repr));
        ProgressStep(old(Contents), u.Contents, todo, now, k, ok, Contents[k]);
        if !ok {
          return;
        }
        todo := todo - {k};
      }
      ok := true;
      MergeByKey(old(Contents), u.Contents, Contents);
    }
  }

  ghost function Footprint(v: Value): set<DictObject>
    reads if v.Ref? then {v.dict} else {}
  {
    if v.Ref? then v.dict.Repr else {}
  }

  ghost predicate Beside(v: Value, repr: set<DictObject>)
    reads if v.Ref? then {v.dict} + v.dict.Repr else {}
  {
    v.Ref? ==> v.dict.Valid() && v.dict.Repr !! repr
  }

  ghost function TreeOf(v: Value): Tree
    reads if v.Ref? then {v.dict} else {}
  {
    match v
    case Plain(value, truthy) => Leaf(value, truthy)
    case Ref(dict) => Dict(dict.Contents)
  }

  /** The truth value of a dict value. */
  predicate Holds(v: Value)
    reads if v.Ref? then {v.dict} else {}
  {
    match v
    case Plain(_, truthy) => truthy
    case Ref(dict) => dict.entries != map[]
  }

  lemma HoldsIfTruthy(v: Value)
    requires v.Ref? ==> v.dict.Valid()
    ensures Truthy(TreeOf(v)) <==> Holds(v)
  {
    if v.Ref? {
      assert v.dict.Contents == map[] <==> v.dict.Contents.Keys == {};
      assert v.dict.entries == map[] <==> v.dict.entries.Keys == {};
    }
  }

  /** Every key of `from` but those in `todo` has been merged into `into`, giving `now`. */
  ghost predicate Progress(into: Entries, from: Entries, todo: set<string>, now: Entries) {
    && now.Keys == into.Keys + (from.Keys - todo)
    && forall k <- now :: if k in from && k !in todo then MergeAt(Get(into, k), from[k]) == Done(now[k]) else now[k] == into[k]
  }

  /** What a key may hold after a merge that failed: what it held, all of the merge, or a part of it. */
  ghost predicate PartlyAt(was: Tree, from: Tree, now: Tree)
    decreases from, 1
  {
    || now == was
    || MergeAt(Some(was), from) == Done(now)
    || (was.Dict? && from.Dict? && now.Dict? && PartlyMerged(was.entries, from.entries, now.entries))
  }

  ghost predicate PartlyMerged(into: Entries, from: Entries, now: Entries)
    decreases Dict(from), 0
  {
    && into.Keys <= now.Keys <= into.Keys + from.Keys
    && forall k <- now ::
         if k in into && k in from then PartlyAt(into[k], from[k], now[k])
         else now[k] == if k in into then into[k] else from[k]
  }

  /** The result of merging: the merge, or a part of it when it fails. */
  ghost predicate Merged(into: Entries, from: Entries, ok: bool, now: Entries) {
    && (ok <==> Merge(into, from).Done?)
    && if ok then now == Merge(into, from).value else PartlyMerged(into, from, now)
  }

  /** The same for one key, whose value was `was`. */
  ghost predicate MergedAt(was: Option<Tree>, from: Tree, ok: bool, now: Tree) {
    && (ok <==> MergeAt(was, from).Done?)
    && if ok then now == MergeAt(was, from).value else was.Some? && PartlyAt(was.value, from, now)
  }

  lemma DictsMerged(into: Entries, from: Entries, ok: bool, now: Entries)
    requires into != map[] && Merged(into, from, ok, now)
    ensures MergedAt(Some(Dict(into)), Dict(from), ok, Dict(now))
  {
  }

  lemma PartialStep(into: Entries, from: Entries, todo: set<string>, now: Entries, k: string, x: Tree)
    requires Progress(into, from, todo, now) && k in todo && todo <= from.Keys && k in now
    requires PartlyAt(now[k], from[k], x)
    ensures PartlyMerged(into, from, now[k := x])
  {
    assert k in into && now[k] == into[k];
    forall j | j in now[k := x]
      ensures if j in into && j in from then PartlyAt(into[j], from[j], now[k := x][j])
              else now[k := x][j] == if j in into then into[j] else from[j]
    {
      if j in into && j in from && j !in todo {
        assert Get(into, j) == Some(into[j]);
      }
    }
  }

  lemma ProgressStep(into: Entries, from: Entries, todo: set<string>, now: Entries, k: string, ok: bool, x: Tree)
    requires Progress(into, from, todo, now) && k in todo && todo <= from.Keys
    requires MergedAt(Get(now, k), from[k], ok, x)
    ensures if ok then Progress(into, from, todo - {k}, now[k := x]) else Merged(into, from, false, now[k := x])
  {
    assert Get(now, k) == Get(into, k);
    if !ok {
      PartialStep(into, from, todo, now, k, x);
    }
  }
}
