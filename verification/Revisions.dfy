/**
  Adding charm revisions to a manifest.
 */
module Revisions {
  import opened Wrappers

  /** A YAML value; a dict keeps its entries in order. */
  datatype Node = Text(text: string) | Number(n: int) | Dict(entries: seq<Entry>)

  datatype Entry = Entry(key: string, value: Node)

  /** The revision of a charm in a channel, None when it could not be found out. */
  type Known = map<(string, Node), Option<int>>

  function Lookup(known: Known, name: string, channel: Node): Option<int> {
    if (name, channel) in known then known[(name, channel)] else None
  }

  function Find(es: seq<Entry>, key: string): (r: Option<Node>)
    ensures r.Some? <==> exists e :: e in es && e.key == key
    ensures r.Some? ==> exists e :: e in es && e.key == key && e.value == r.value
  {
    if es == [] then None
    else if es[0].key == key then assert es[0] in es; Some(es[0].value)
    else Find(es[1..], key)
  }

  /** A charm that names its channel but no revision. */
  predicate Open(n: Node) {
    n.Dict? && Find(n.entries, "channel").Some? && Find(n.entries, "revision").None?
  }

  // ------------------------------------------------------------------ collecting

  function PairOf(charm: Entry): seq<(string, Node)> {
    if Open(charm.value) then [(charm.key, Find(charm.value.entries, "channel").value)] else []
  }

  function CharmPairs(charms: seq<Entry>): seq<(string, Node)> {
    if charms == [] then [] else PairOf(charms[0]) + CharmPairs(charms[1..])
  }

  function PairsOf(charms: Option<Node>): seq<(string, Node)> {
    if charms.Some? && charms.value.Dict? then CharmPairs(charms.value.entries) else []
  }

  function Collected(n: Node): seq<(string, Node)>
    decreases n
  {
    match n
    case Dict(es) => PairsOf(Find(es, "charms")) + CollectedAll(es)
    case _ => []
  }

  function CollectedAll(es: seq<Entry>): seq<(string, Node)>
    decreases es
  {
    if es == [] then [] else Collected(es[0].value) + CollectedAll(es[1..])
  }

  // ------------------------------------------------------------------ injecting

  /** The entry that follows `e` in the charm `charm`. */
  function Added(e: Entry, known: Known, charm: Option<string>): seq<Entry> {
    if charm.Some? && e.key == "channel" && Lookup(known, charm.value, e.value).Some?
    then [Entry("revision", Number(Lookup(known, charm.value, e.value).value))]
    else []
  }

  function NameIn(charms: bool, key: string): Option<string> {
    if charms then Some(key) else None
  }

  /**
    The tree with revisions, in a single pass: `charms` tells that `n` is the value of a key
    "charms", and `charm` gives the name of `n` when it is an entry of such a value.
   */
  function Injected(n: Node, known: Known, charms: bool, charm: Option<string>): Node
    decreases n
  {
    match n
    case Dict(es) => Dict(InjectedEntries(es, known, charms, if Open(n) then charm else None))
    case _ => n
  }

  function InjectedEntry(e: Entry, known: Known, charms: bool): Entry
    decreases e
  {
    Entry(e.key, Injected(e.value, known, e.key == "charms", NameIn(charms, e.key)))
  }

  function InjectedEntries(es: seq<Entry>, known: Known, charms: bool, charm: Option<string>): seq<Entry>
    decreases es
  {
    if es == [] then []
    else [InjectedEntry(es[0], known, charms)] + Added(es[0], known, charm) + InjectedEntries(es[1..], known, charms, charm)
  }

  lemma {:induction false} FindAppend(a: seq<Entry>, b: seq<Entry>, key: string)
    ensures Find(a + b, key) == if Find(a, key).Some? then Find(a, key) else Find(b, key)
  {
    if a == [] {
      assert a + b == b;
    } else {
      FindAppend(a[1..], b, key);
      assert (a + b)[1..] == a[1..] + b;
    }
  }

  lemma FindInFirst(e: Entry, added: seq<Entry>, rest: seq<Entry>, key: string)
    requires forall a <- added :: a.key != key
    ensures Find([e] + added + rest, key) == if e.key == key then Some(e.value) else Find(rest, key)
  {
    FindAppend([e] + added, rest, key);
    FindAppend([e], added, key);
    assert Find([e], key) == if e.key == key then Some(e.value) else Find([e][1..], key);
  }

  lemma {:induction false} FindInjected(es: seq<Entry>, known: Known, charms: bool, charm: Option<string>, key: string)
    requires key != "revision"
    ensures Find(InjectedEntries(es, known, charms, charm), key) ==
            if Find(es, key).None? then None
            else Some(Injected(Find(es, key).value, known, key == "charms", NameIn(charms, key)))
  {
    if es != [] {
      FindInjected(es[1..], known, charms, charm, key);
      FindInFirst(InjectedEntry(es[0], known, charms), Added(es[0], known, charm),
        InjectedEntries(es[1..], known, charms, charm), key);
    }
  }

  // ------------------------------------------------------------------ charms after injection

  /** A dict has no key twice. */
  ghost predicate Unique(es: seq<Entry>) {
    forall i, j :: 0 <= i < j < |es| ==> es[i].key != es[j].key
  }

  ghost predicate Proper(n: Node)
    decreases n
  {
    n.Dict? ==> Unique(n.entries) && forall e <- n.entries :: Proper(e.value)
  }

  lemma {:induction false} FindRevision(es: seq<Entry>, known: Known, charms: bool, name: string)
    requires Unique(es) && Find(es, "revision").None?
    ensures Find(InjectedEntries(es, known, charms, Some(name)), "revision") ==
            match Find(es, "channel")
            case None => None
            case Some(channel) => if Lookup(known, name, channel).None? then None else Some(Number(Lookup(known, name, channel).value))
  {
    if es != [] {
      assert es[0] in es && forall e <- es[1..] :: e in es;
      FindRevision(es[1..], known, charms, name);
      var first, added := InjectedEntry(es[0], known, charms), Added(es[0], known, Some(name));
      var rest := InjectedEntries(es[1..], known, charms, Some(name));
      if added == [] {
        FindInFirst(first, added, rest, "revision");
      } else {
        FindAppend([first] + added, rest, "revision");
        assert ([first] + added)[1..] == added;
      }
      if es[0].key == "channel" {
        assert forall e <- es[1..] :: e.key != "channel";
      }
    }
  }

  lemma {:induction false} FindUnmarked(es: seq<Entry>, known: Known, charms: bool, key: string)
    ensures Find(InjectedEntries(es, known, charms, None), key) ==
            if Find(es, key).None? then None
            else Some(Injected(Find(es, key).value, known, key == "charms", NameIn(charms, key)))
  {
    if es != [] {
      FindUnmarked(es[1..], known, charms, key);
      FindInFirst(InjectedEntry(es[0], known, charms), [], InjectedEntries(es[1..], known, charms, None), key);
    }
  }

  /** A charm still lacks its revision exactly when that is unknown. */
  lemma OpenAfter(n: Node, known: Known, charms: bool, charm: Option<string>)
    requires Proper(n)
    ensures Open(Injected(n, known, charms, charm)) <==>
            Open(n) && (charm.None? || Lookup(known, charm.value, Find(n.entries, "channel").value).None?)
  {
    if n.Dict? {
      var mark := if Open(n) then charm else None;
      FindInjected(n.entries, known, charms, mark, "channel");
      if mark.Some? {
        FindRevision(n.entries, known, charms, mark.value);
      } else {
        FindUnmarked(n.entries, known, charms, "revision");
      }
    }
  }

  /** The pairs without a known revision. */
  function Unknown(pairs: seq<(string, Node)>, known: Known): seq<(string, Node)> {
    if pairs == [] then []
    else if Lookup(known, pairs[0].0, pairs[0].1).None? then [pairs[0]] + Unknown(pairs[1..], known)
    else Unknown(pairs[1..], known)
  }

  lemma {:induction false} UnknownAre(pairs: seq<(string, Node)>, known: Known, p: (string, Node))
    ensures p in Unknown(pairs, known) <==> p in pairs && !(p in known && known[p].Some?)
  {
    if pairs != [] {
      UnknownAre(pairs[1..], known, p);
    }
  }

  lemma {:induction false} UnknownOfBoth(a: seq<(string, Node)>, b: seq<(string, Node)>, known: Known)
    ensures Unknown(a + b, known) == Unknown(a, known) + Unknown(b, known)
  {
    if a == [] {
      assert a + b == b;
    } else {
      UnknownOfBoth(a[1..], b, known);
      assert (a + b)[0] == a[0] && (a + b)[1..] == a[1..] + b;
      assert [a[0]] + (Unknown(a[1..], known) + Unknown(b, known)) == [a[0]] + Unknown(a[1..], known) + Unknown(b, known);
    }
  }

  /** A channel is a plain value. */
  ghost predicate Plain(pairs: seq<(string, Node)>) {
    forall p <- pairs :: !p.1.Dict?
  }

  lemma PlainOfBoth(a: seq<(string, Node)>, b: seq<(string, Node)>)
    requires Plain(a + b)
    ensures Plain(a) && Plain(b)
  {
    assert forall p :: p in a || p in b ==> p in a + b;
  }

  lemma PairAfter(e: Entry, known: Known)
    requires Proper(e.value) && Plain(PairOf(e))
    ensures PairOf(InjectedEntry(e, known, true)) == Unknown(PairOf(e), known)
  {
    OpenAfter(e.value, known, e.key == "charms", Some(e.key));
    if Open(e.value) {
      var channel := Find(e.value.entries, "channel").value;
      assert PairOf(e)[0].1 == channel && PairOf(e)[1..] == [];
      FindInjected(e.value.entries, known, e.key == "charms", Some(e.key), "channel");
      assert Injected(channel, known, false, NameIn(e.key == "charms", "channel")) == channel;
    }
  }

  lemma {:induction false} CharmPairsAfter(charms: seq<Entry>, known: Known, mark: Option<string>)
    requires (forall e <- charms :: Proper(e.value)) && Plain(CharmPairs(charms))
    ensures CharmPairs(InjectedEntries(charms, known, true, mark)) == Unknown(CharmPairs(charms), known)
  {
    if charms != [] {
      var e, rest := charms[0], CharmPairs(charms[1..]);
      PlainOfBoth(PairOf(e), rest);
      PairAfter(e, known);
      CharmPairsAfter(charms[1..], known, mark);
      CharmPairsOfFirst(InjectedEntry(e, known, true), Added(e, known, mark), InjectedEntries(charms[1..], known, true, mark));
      UnknownOfBoth(PairOf(e), rest, known);
    }
  }

  lemma CharmPairsOfFirst(e: Entry, added: seq<Entry>, rest: seq<Entry>)
    requires |added| <= 1 && forall a <- added :: a.value.Number?
    ensures CharmPairs([e] + added + rest) == PairOf(e) + CharmPairs(rest)
  {
    assert ([e] + added + rest)[1..] == added + rest;
    if added == [] {
      assert added + rest == rest;
    } else {
      assert (added + rest)[1..] == rest;
    }
  }

  lemma CollectedOfFirst(e: Entry, added: seq<Entry>, rest: seq<Entry>)
    requires |added| <= 1 && forall a <- added :: a.value.Number?
    ensures CollectedAll([e] + added + rest) == Collected(e.value) + CollectedAll(rest)
  {
    assert ([e] + added + rest)[1..] == added + rest;
    if added == [] {
      assert added + rest == rest;
    } else {
      assert (added + rest)[1..] == rest;
      assert CollectedAll(added + rest) == Collected(added[0].value) + CollectedAll(rest);
    }
  }

  lemma PairsAfter(es: seq<Entry>, known: Known, charms: bool, mark: Option<string>)
    requires (forall e <- es :: Proper(e.value)) && Plain(PairsOf(Find(es, "charms")))
    ensures PairsOf(Find(InjectedEntries(es, known, charms, mark), "charms")) == Unknown(PairsOf(Find(es, "charms")), known)
  {
    FindInjected(es, known, charms, mark, "charms");
    var found := Find(es, "charms");
    if found.Some? && found.value.Dict? {
      var name := NameIn(charms, "charms");
      CharmPairsAfter(found.value.entries, known, if Open(found.value) then name else None);
    }
  }

  lemma CollectedOfDict(es: seq<Entry>)
    ensures Collected(Dict(es)) == PairsOf(Find(es, "charms")) + CollectedAll(es)
  {
  }

  /** After injection the collection finds what it found before, without the known pairs. */
  lemma {:induction false} CollectedAfterInjection(n: Node, known: Known, charms: bool, charm: Option<string>)
    requires Proper(n) && Plain(Collected(n))
    ensures Collected(Injected(n, known, charms, charm)) == Unknown(Collected(n), known)
    decreases n
  {
    if n.Dict? {
      var es, mark := n.entries, if Open(n) then charm else None;
      assert n == Dict(es);
      var es' := InjectedEntries(es, known, charms, mark);
      assert Injected(n, known, charms, charm) == Dict(es');
      CollectedOfDict(es);
      CollectedOfDict(es');
      var pairs, rest := PairsOf(Find(es, "charms")), CollectedAll(es);
      PlainOfBoth(pairs, rest);
      CollectedAllAfter(es, known, charms, mark);
      PairsAfter(es, known, charms, mark);
      UnknownOfBoth(pairs, rest, known);
    }
  }

  lemma {:induction false} CollectedAllAfter(es: seq<Entry>, known: Known, charms: bool, mark: Option<string>)
    requires (forall e <- es :: Proper(e.value)) && Plain(CollectedAll(es))
    ensures CollectedAll(InjectedEntries(es, known, charms, mark)) == Unknown(CollectedAll(es), known)
    decreases es
  {
    if es != [] {
      var e, rest := es[0], CollectedAll(es[1..]);
      PlainOfBoth(Collected(e.value), rest);
      CollectedAfterInjection(e.value, known, e.key == "charms", NameIn(charms, e.key));
      CollectedAllAfter(es[1..], known, charms, mark);
      CollectedOfFirst(InjectedEntry(e, known, charms), Added(e, known, mark), InjectedEntries(es[1..], known, charms, mark));
      UnknownOfBoth(Collected(e.value), rest, known);
    }
  }

  // ------------------------------------------------------------------ injecting again

  lemma UniqueCons(e: Entry, rest: seq<Entry>)
    requires Unique(rest) && Find(rest, e.key).None?
    ensures Unique([e] + rest)
  {
    forall j | 0 <= j < |rest| ensures rest[j].key != e.key {
      assert rest[j] in rest;
    }
  }

  lemma UniqueRest(es: seq<Entry>)
    requires Unique(es) && es != []
    ensures Unique(es[1..]) && Find(es[1..], es[0].key).None?
  {
  }

  /** The key of the first entry does not come again, nor does the revision that follows it. */
  lemma RestLacks(es: seq<Entry>, known: Known, charms: bool, mark: Option<string>)
    requires Unique(es) && es != [] && (mark.Some? ==> Find(es, "revision").None?)
    ensures var rest := InjectedEntries(es[1..], known, charms, mark);
            Find(rest, es[0].key).None? && forall a <- Added(es[0], known, mark) :: Find(rest, a.key).None?
  {
    UniqueRest(es);
    assert es[0] in es && forall e <- es[1..] :: e in es;
    if mark.Some? {
      FindRevision(es[1..], known, charms, mark.value);
      FindInjected(es[1..], known, charms, mark, es[0].key);
    } else {
      FindUnmarked(es[1..], known, charms, es[0].key);
    }
  }

  lemma UniqueFirst(e: Entry, added: seq<Entry>, rest: seq<Entry>)
    requires Unique(rest) && Find(rest, e.key).None?
    requires added == [] || (|added| == 1 && added[0].key != e.key && Find(rest, added[0].key).None?)
    ensures Unique([e] + added + rest)
  {
    if added == [] {
      UniqueCons(e, rest);
      assert [e] + added + rest == [e] + rest;
    } else {
      UniqueCons(added[0], rest);
      assert ([added[0]] + rest)[1..] == rest;
      UniqueCons(e, [added[0]] + rest);
      assert [e] + added + rest == [e] + ([added[0]] + rest);
    }
  }

  lemma {:induction false} UniqueAfter(es: seq<Entry>, known: Known, charms: bool, mark: Option<string>)
    requires Unique(es) && (mark.Some? ==> Find(es, "revision").None?)
    ensures Unique(InjectedEntries(es, known, charms, mark))
  {
    if es != [] {
      UniqueRest(es);
      assert forall e <- es[1..] :: e in es;
      UniqueAfter(es[1..], known, charms, mark);
      RestLacks(es, known, charms, mark);
      UniqueFirst(InjectedEntry(es[0], known, charms), Added(es[0], known, mark), InjectedEntries(es[1..], known, charms, mark));
    }
  }

  lemma {:induction false} ProperAfter(n: Node, known: Known, charms: bool, charm: Option<string>)
    requires Proper(n)
    ensures Proper(Injected(n, known, charms, charm))
    decreases n
  {
    if n.Dict? {
      var mark := if Open(n) then charm else None;
      UniqueAfter(n.entries, known, charms, mark);
      ProperEntriesAfter(n.entries, known, charms, mark);
    }
  }

  lemma {:induction false} ProperEntriesAfter(es: seq<Entry>, known: Known, charms: bool, mark: Option<string>)
    requires forall e <- es :: Proper(e.value)
    ensures forall e <- InjectedEntries(es, known, charms, mark) :: Proper(e.value)
    decreases es
  {
    if es != [] {
      ProperAfter(es[0].value, known, es[0].key == "charms", NameIn(charms, es[0].key));
      ProperEntriesAfter(es[1..], known, charms, mark);
    }
  }

  ghost predicate NoneKnown(pairs: seq<(string, Node)>, known: Known) {
    forall p <- pairs :: Lookup(known, p.0, p.1).None?
  }

  lemma NoneKnownOfBoth(a: seq<(string, Node)>, b: seq<(string, Node)>, known: Known)
    requires NoneKnown(a + b, known)
    ensures NoneKnown(a, known) && NoneKnown(b, known)
  {
    assert forall p :: p in a || p in b ==> p in a + b;
  }

  lemma {:induction false} UnknownAreUnknown(pairs: seq<(string, Node)>, known: Known)
    ensures NoneKnown(Unknown(pairs, known), known)
  {
    if pairs != [] {
      UnknownAreUnknown(pairs[1..], known);
    }
  }

  /** Where nothing that is collected is known, nothing changes. */
  lemma {:induction false} NothingToAdd(n: Node, known: Known, charms: bool, charm: Option<string>)
    requires Proper(n) && NoneKnown(Collected(n), known)
    requires charms ==> NoneKnown(PairsOf(Some(n)), known)
    requires charm.Some? ==> NoneKnown(PairOf(Entry(charm.value, n)), known)
    ensures Injected(n, known, charms, charm) == n
    decreases n
  {
    if n.Dict? {
      var es, mark := n.entries, if Open(n) then charm else None;
      CollectedOfDict(es);
      NoneKnownOfBoth(PairsOf(Find(es, "charms")), CollectedAll(es), known);
      forall e | e in es ensures Find(es, e.key) == Some(e.value) {
        FindEntry(es, e);
      }
      if mark.Some? {
        assert (mark.value, Find(es, "channel").value) in PairOf(Entry(mark.value, n));
      }
      NothingToAddAll(es, known, charms, mark);
    }
  }

  lemma {:induction false} FindEntry(es: seq<Entry>, e: Entry)
    requires Unique(es) && e in es
    ensures Find(es, e.key) == Some(e.value)
  {
    if es[0] != e {
      assert e in es[1..];
      UniqueRest(es);
      FindEntry(es[1..], e);
    }
  }

  lemma {:induction false} NothingToAddAll(es: seq<Entry>, known: Known, charms: bool, mark: Option<string>)
    requires (forall e <- es :: Proper(e.value)) && NoneKnown(CollectedAll(es), known)
    requires charms ==> NoneKnown(CharmPairs(es), known)
    requires forall e <- es :: e.key == "charms" ==> NoneKnown(PairsOf(Some(e.value)), known)
    requires forall e <- es :: Added(e, known, mark) == []
    ensures InjectedEntries(es, known, charms, mark) == es
    decreases es
  {
    if es != [] {
      var e := es[0];
      NoneKnownOfBoth(Collected(e.value), CollectedAll(es[1..]), known);
      if charms {
        NoneKnownOfBoth(PairOf(e), CharmPairs(es[1..]), known);
      }
      NothingToAdd(e.value, known, e.key == "charms", NameIn(charms, e.key));
      NothingToAddAll(es[1..], known, charms, mark);
      assert InjectedEntry(e, known, charms) == e && es == [e] + es[1..];
    }
  }

  /** Injecting the same revisions again changes nothing. */
  lemma InjectionIsIdempotent(n: Node, known: Known)
    requires Proper(n) && Plain(Collected(n))
    ensures Injected(Injected(n, known, false, None), known, false, None) == Injected(n, known, false, None)
  {
    CollectedAfterInjection(n, known, false, None);
    UnknownAreUnknown(Collected(n), known);
    ProperAfter(n, known, false, None);
    NothingToAdd(Injected(n, known, false, None), known, false, None);
  }

  // ------------------------------------------------------------------ what is added

  /** The value reached by following `path`. */
  function NodeAt(n: Node, path: seq<string>): Option<Node>
    decreases path
  {
    if path == [] then Some(n)
    else if !n.Dict? || Find(n.entries, path[0]).None? then None
    else NodeAt(Find(n.entries, path[0]).value, path[1..])
  }

  /** `x` is a value, other than a dict, at the end of `path`. */
  ghost predicate ValueAt(n: Node, path: seq<string>, x: Node) {
    !x.Dict? && NodeAt(n, path) == Some(x)
  }

  /** `x` is the revision that a charm at or below `n` was lacking. */
  ghost predicate Lacked(n: Node, path: seq<string>, x: Node, known: Known, charms: bool, charm: Option<string>)
    decreases path
  {
    path != [] && n.Dict? &&
    if path == ["revision"] && charm.Some? && Open(n) then
      x.Number? && Lookup(known, charm.value, Find(n.entries, "channel").value) == Some(x.n)
    else
      var below := Find(n.entries, path[0]);
      below.Some? && Lacked(below.value, path[1..], x, known, path[0] == "charms", NameIn(charms, path[0]))
  }

  lemma LackedHere(n: Node, path: seq<string>, x: Node, known: Known, charms: bool, charm: Option<string>)
    requires |path| == 1
    ensures Lacked(n, path, x, known, charms, charm) <==>
            charm.Some? && path[0] == "revision" && Open(n) && x.Number?
            && Lookup(known, charm.value, Find(n.entries, "channel").value) == Some(x.n)
  {
    assert path == [path[0]] && path[1..] == [];
  }

  lemma ChildAfter(n: Node, known: Known, charms: bool, charm: Option<string>, key: string)
    requires Proper(n) && n.Dict?
    ensures Find(Injected(n, known, charms, charm).entries, key) ==
            if charm.Some? && Open(n) && key == "revision" then
              var r := Lookup(known, charm.value, Find(n.entries, "channel").value);
              if r.Some? then Some(Number(r.value)) else None
            else if Find(n.entries, key).None? then None
            else Some(Injected(Find(n.entries, key).value, known, key == "charms", NameIn(charms, key)))
  {
    var mark := if Open(n) then charm else None;
    if mark.None? {
      FindUnmarked(n.entries, known, charms, key);
    } else if key == "revision" {
      FindRevision(n.entries, known, charms, mark.value);
    } else {
      FindInjected(n.entries, known, charms, mark, key);
    }
  }

  lemma ValueBelow(n: Node, path: seq<string>, x: Node)
    requires path != []
    ensures ValueAt(n, path, x) <==>
            n.Dict? && Find(n.entries, path[0]).Some? && ValueAt(Find(n.entries, path[0]).value, path[1..], x)
  {
  }

  lemma NewValue(path: seq<string>, r: int, x: Node)
    ensures ValueAt(Number(r), path, x) <==> path == [] && x == Number(r)
  {
  }

  lemma LackedBelow(n: Node, path: seq<string>, x: Node, known: Known, charms: bool, charm: Option<string>)
    requires path != [] && !(charm.Some? && Open(n) && path[0] == "revision")
    ensures Lacked(n, path, x, known, charms, charm) <==>
            n.Dict? && Find(n.entries, path[0]).Some? &&
            Lacked(Find(n.entries, path[0]).value, path[1..], x, known, path[0] == "charms", NameIn(charms, path[0]))
  {
  }

  lemma {:induction false} InjectionOnlyAddsBelow(
      n: Node, known: Known, charms: bool, charm: Option<string>, path: seq<string>, x: Node)
    requires Proper(n)
    ensures ValueAt(Injected(n, known, charms, charm), path, x) <==>
            ValueAt(n, path, x) || (!x.Dict? && Lacked(n, path, x, known, charms, charm))
    decreases path
  {
    if path != [] && n.Dict? {
      var after := Injected(n, known, charms, charm);
      ChildAfter(n, known, charms, charm, path[0]);
      ValueBelow(n, path, x);
      ValueBelow(after, path, x);
      if charm.Some? && Open(n) && path[0] == "revision" {
        RevisionAdded(n, after, known, charms, charm.value, path, x);
      } else {
        LackedBelow(n, path, x, known, charms, charm);
        var below := Find(n.entries, path[0]);
        if below.Some? {
          InjectionOnlyAddsBelow(below.value, known, path[0] == "charms", NameIn(charms, path[0]), path[1..], x);
        }
      }
    }
  }

  /** A path leads to a dict. */
  predicate IsDictAt(n: Node, path: seq<string>) {
    NodeAt(n, path).Some? && NodeAt(n, path).value.Dict?
  }

  lemma DictBelow(n: Node, path: seq<string>)
    requires path != []
    ensures IsDictAt(n, path) <==>
            n.Dict? && Find(n.entries, path[0]).Some? && IsDictAt(Find(n.entries, path[0]).value, path[1..])
  {
  }

  lemma NoDictIn(r: int, path: seq<string>)
    ensures !IsDictAt(Number(r), path)
  {
  }

  lemma {:induction false} DictsStay(n: Node, known: Known, charms: bool, charm: Option<string>, path: seq<string>)
    requires Proper(n)
    ensures IsDictAt(Injected(n, known, charms, charm), path) <==> IsDictAt(n, path)
    decreases path
  {
    if path != [] && n.Dict? {
      ChildAfter(n, known, charms, charm, path[0]);
      DictBelow(n, path);
      DictBelow(Injected(n, known, charms, charm), path);
      var below, after := Find(n.entries, path[0]), Find(Injected(n, known, charms, charm).entries, path[0]);
      if after.Some? && after.value.Number? {
        NoDictIn(after.value.n, path[1..]);
      }
      if below.Some? {
        DictsStay(below.value, known, path[0] == "charms", NameIn(charms, path[0]), path[1..]);
      }
    }
  }

  lemma RevisionAdded(n: Node, after: Node, known: Known, charms: bool, name: string, path: seq<string>, x: Node)
    requires path != [] && path[0] == "revision" && Open(n)
    requires var r := Lookup(known, name, Find(n.entries, "channel").value);
             after.Dict? && Find(after.entries, "revision") == if r.Some? then Some(Number(r.value)) else None
    ensures !ValueAt(n, path, x)
    ensures ValueAt(after, path, x) <==> !x.Dict? && Lacked(n, path, x, known, charms, Some(name))
  {
    var r := Lookup(known, name, Find(n.entries, "channel").value);
    ValueBelow(n, path, x);
    ValueBelow(after, path, x);
    if r.Some? {
      NewValue(path[1..], r.value, x);
    }
    if |path| == 1 {
      LackedHere(n, path, x, known, charms, Some(name));
    } else {
      assert path != ["revision"];
    }
  }

  /**
    Injection changes nothing except that a charm of some "charms" dict that names a channel of known
    revision, but none itself, gets that revision.  Dicts are where they were, and nowhere else.
   */
  lemma InjectionOnlyAdds(n: Node, known: Known, path: seq<string>, x: Node)
    requires Proper(n)
    ensures ValueAt(Injected(n, known, false, None), path, x) <==>
            ValueAt(n, path, x) || RevisionOfCharm(n, path, x, known)
    ensures RevisionOfCharm(n, path, x, known) <==> Gets(n, path, x, known)
    ensures IsDictAt(Injected(n, known, false, None), path) <==> IsDictAt(n, path)
  {
    DictsStay(n, known, false, None, path);
    GetsIff(n, path, x, known);
    InjectionOnlyAddsBelow(n, known, false, None, path, x);
    if |path| >= 3 {
      LackedAtDepth(n, path, x, known, false, None);
    } else {
      NotLackedAbove(n, path, x, known);
    }
  }

  lemma {:induction false} NodeAtNext(n: Node, path: seq<string>, key: string)
    ensures NodeAt(n, path + [key]) ==
            if IsDictAt(n, path) then Find(NodeAt(n, path).value.entries, key) else None
    decreases path
  {
    if path == [] {
      assert ([] + [key])[1..] == [] && ([] + [key])[0] == key;
    } else {
      assert (path + [key])[0] == path[0] && (path + [key])[1..] == path[1..] + [key];
      if n.Dict? && Find(n.entries, path[0]).Some? {
        NodeAtNext(Find(n.entries, path[0]).value, path[1..], key);
      }
    }
  }

  /** The charm `name` in the "charms" dict at `path` has this channel, and no revision. */
  ghost predicate Lacks(n: Node, path: seq<string>, name: string, channel: Node) {
    && NodeAt(n, path + ["charms", name, "channel"]) == Some(channel)
    && NodeAt(n, path + ["charms", name, "revision"]).None?
  }

  /** `path` is for the revision that such a charm lacks, and `x` is what is known for its channel. */
  ghost predicate Gets(n: Node, path: seq<string>, x: Node, known: Known) {
    x.Number? && exists at, name, channel ::
      && path == at + ["charms", name, "revision"] && Lacks(n, at, name, channel)
      && (name, channel) in known && known[(name, channel)] == Some(x.n)
  }

  lemma LacksIff(n: Node, path: seq<string>, name: string, channel: Node)
    ensures Lacks(n, path, name, channel) <==>
            var charm := NodeAt(n, path + ["charms", name]);
            charm.Some? && Open(charm.value) && Find(charm.value.entries, "channel") == Some(channel)
  {
    var at := path + ["charms", name];
    assert path + ["charms", name, "channel"] == at + ["channel"];
    assert path + ["charms", name, "revision"] == at + ["revision"];
    NodeAtNext(n, at, "channel");
    NodeAtNext(n, at, "revision");
  }

  lemma GetsIff(n: Node, path: seq<string>, x: Node, known: Known)
    ensures RevisionOfCharm(n, path, x, known) <==> Gets(n, path, x, known)
  {
    if RevisionOfCharm(n, path, x, known) {
      var at, name := path[..|path| - 3], path[|path| - 2];
      var charm := NodeAt(n, path[..|path| - 1]).value;
      var channel := Find(charm.entries, "channel").value;
      assert path[..|path| - 1] == at + ["charms", name];
      assert path == at + ["charms", name, "revision"];
      LacksIff(n, at, name, channel);
    }
    if Gets(n, path, x, known) {
      var at, name, channel :| path == at + ["charms", name, "revision"] && Lacks(n, at, name, channel)
        && (name, channel) in known && known[(name, channel)] == Some(x.n);
      LacksIff(n, at, name, channel);
      assert path[..|path| - 1] == at + ["charms", name];
    }
  }

  lemma {:induction false} InCharmPairs(charms: seq<Entry>, p: (string, Node))
    ensures p in CharmPairs(charms) <==> exists i :: PairAt(charms, i, p)
  {
    if charms != [] {
      InCharmPairs(charms[1..], p);
      if p in PairOf(charms[0]) {
        assert PairAt(charms, 0, p);
      }
      if exists i :: PairAt(charms[1..], i, p) {
        var i :| PairAt(charms[1..], i, p);
        assert PairAt(charms, i + 1, p);
      }
      if exists i :: PairAt(charms, i, p) {
        var i :| PairAt(charms, i, p);
        assert i > 0 ==> PairAt(charms[1..], i - 1, p);
      }
    }
  }

  ghost predicate PairAt(charms: seq<Entry>, i: int, p: (string, Node)) {
    0 <= i < |charms| && p in PairOf(charms[i])
  }

  lemma {:induction false} InCollectedAll(es: seq<Entry>, p: (string, Node))
    ensures p in CollectedAll(es) <==> exists i :: CollectedAt(es, i, p)
  {
    if es != [] {
      InCollectedAll(es[1..], p);
      if p in Collected(es[0].value) {
        assert CollectedAt(es, 0, p);
      }
      if exists i :: CollectedAt(es[1..], i, p) {
        var i :| CollectedAt(es[1..], i, p);
        assert CollectedAt(es, i + 1, p);
      }
      if exists i :: CollectedAt(es, i, p) {
        var i :| CollectedAt(es, i, p);
        assert i > 0 ==> CollectedAt(es[1..], i - 1, p);
      }
    }
  }

  ghost predicate CollectedAt(es: seq<Entry>, i: int, p: (string, Node)) {
    0 <= i < |es| && p in Collected(es[i].value)
  }

  lemma PairOfNamed(charms: seq<Entry>, name: string, channel: Node)
    requires Unique(charms)
    ensures (name, channel) in CharmPairs(charms) <==>
            var charm := Find(charms, name);
            charm.Some? && Open(charm.value) && Find(charm.value.entries, "channel") == Some(channel)
  {
    var p := (name, channel);
    InCharmPairs(charms, p);
    if exists i :: PairAt(charms, i, p) {
      var i :| PairAt(charms, i, p);
      FindEntry(charms, charms[i]);
    }
    if Find(charms, name).Some? {
      var e :| e in charms && e.key == name && e.value == Find(charms, name).value;
      var i :| 0 <= i < |charms| && charms[i] == e;
      assert p in PairOf(e) ==> PairAt(charms, i, p);
    }
  }

  lemma LacksHere(n: Node, name: string, channel: Node)
    requires Proper(n) && n.Dict?
    ensures Lacks(n, [], name, channel) <==> (name, channel) in PairsOf(Find(n.entries, "charms"))
  {
    LacksIff(n, [], name, channel);
    var path := ["charms", name];
    assert [] + path == path && path[0] == "charms" && path[1..] == [name] && [name][1..] == [];
    var found := Find(n.entries, "charms");
    if found.Some? && found.value.Dict? {
      PairOfNamed(found.value.entries, name, channel);
      assert NodeAt(n, path) == NodeAt(found.value, [name]) == Find(found.value.entries, name);
    }
  }

  lemma LacksBelow(n: Node, path: seq<string>, name: string, channel: Node)
    requires path != []
    ensures Lacks(n, path, name, channel) <==>
            n.Dict? && Find(n.entries, path[0]).Some? && Lacks(Find(n.entries, path[0]).value, path[1..], name, channel)
  {
    var channelAt, revisionAt := path + ["charms", name, "channel"], path + ["charms", name, "revision"];
    assert channelAt[0] == path[0] && channelAt[1..] == path[1..] + ["charms", name, "channel"];
    assert revisionAt[0] == path[0] && revisionAt[1..] == path[1..] + ["charms", name, "revision"];
  }

  lemma {:induction false} CollectedLacks(n: Node, name: string, channel: Node) returns (path: seq<string>)
    requires Proper(n) && (name, channel) in Collected(n)
    ensures Lacks(n, path, name, channel)
    decreases n
  {
    var es := n.entries;
    CollectedOfDict(es);
    LacksHere(n, name, channel);
    if (name, channel) in PairsOf(Find(es, "charms")) {
      path := [];
    } else {
      InCollectedAll(es, (name, channel));
      var i :| CollectedAt(es, i, (name, channel));
      var rest := CollectedLacks(es[i].value, name, channel);
      FindEntry(es, es[i]);
      path := [es[i].key] + rest;
      assert path[1..] == rest;
      LacksBelow(n, path, name, channel);
    }
  }

  lemma {:induction false} LacksCollected(n: Node, path: seq<string>, name: string, channel: Node)
    requires Proper(n) && Lacks(n, path, name, channel)
    ensures (name, channel) in Collected(n)
    decreases path
  {
    if path == [] {
      assert n.Dict? by { assert (path + ["charms", name, "channel"]) != []; }
      LacksHere(n, name, channel);
      CollectedOfDict(n.entries);
    } else {
      LacksBelow(n, path, name, channel);
      var es, below := n.entries, Find(n.entries, path[0]).value;
      var e :| e in es && e.key == path[0] && e.value == below;
      var i :| 0 <= i < |es| && es[i] == e;
      LacksCollected(below, path[1..], name, channel);
      assert CollectedAt(es, i, (name, channel));
      InCollectedAll(es, (name, channel));
      CollectedOfDict(es);
    }
  }

  /** A pair is collected exactly when some charm of that name lacks the revision for that channel, at any depth. */
  lemma CollectedIff(n: Node, name: string, channel: Node)
    requires Proper(n)
    ensures (name, channel) in Collected(n) <==> exists path :: Lacks(n, path, name, channel)
  {
    if (name, channel) in Collected(n) {
      var path := CollectedLacks(n, name, channel);
    }
    if exists path :: Lacks(n, path, name, channel) {
      var path :| Lacks(n, path, name, channel);
      LacksCollected(n, path, name, channel);
    }
  }

  /** `path` ends in "charms", the name of a charm, and "revision". */
  ghost predicate RevisionOfCharm(n: Node, path: seq<string>, x: Node, known: Known) {
    |path| >= 3 && path[|path| - 3] == "charms" && RevisionAt(n, path, path[|path| - 2], x, known)
  }

  ghost predicate RevisionAt(n: Node, path: seq<string>, name: string, x: Node, known: Known)
    requires path != []
  {
    var charm := NodeAt(n, path[..|path| - 1]);
    path[|path| - 1] == "revision" && charm.Some? && Open(charm.value) && x.Number? &&
    Lookup(known, name, Find(charm.value.entries, "channel").value) == Some(x.n)
  }

  lemma NotLackedAbove(n: Node, path: seq<string>, x: Node, known: Known)
    requires |path| < 3
    ensures !Lacked(n, path, x, known, false, None)
  {
    if |path| == 2 {
      var below := if n.Dict? then Find(n.entries, path[0]) else None;
      if below.Some? {
        LackedHere(below.value, path[1..], x, known, path[0] == "charms", None);
      }
    } else if |path| == 1 {
      LackedHere(n, path, x, known, false, None);
    }
  }

  lemma {:induction false} LackedAtDepth(
      n: Node, path: seq<string>, x: Node, known: Known, charms: bool, charm: Option<string>)
    requires |path| >= 3
    ensures Lacked(n, path, x, known, charms, charm) <==> RevisionOfCharm(n, path, x, known)
    decreases path
  {
    var key, rest := path[0], path[1..];
    assert path[..|path| - 1][1..] == rest[..|rest| - 1] && path[..|path| - 1][0] == key;
    var below := if n.Dict? then Find(n.entries, key) else None;
    if below.Some? {
      assert Lacked(n, path, x, known, charms, charm) <==> Lacked(below.value, rest, x, known, key == "charms", NameIn(charms, key));
      assert RevisionAt(n, path, path[|path| - 2], x, known) <==> RevisionAt(below.value, rest, path[|path| - 2], x, known);
      if |rest| >= 3 {
        LackedAtDepth(below.value, rest, x, known, key == "charms", NameIn(charms, key));
      } else {
        LackedBelowCharms(below.value, rest, x, known, key == "charms", NameIn(charms, key));
      }
    }
  }

  lemma LackedBelowCharms(n: Node, path: seq<string>, x: Node, known: Known, charms: bool, charm: Option<string>)
    requires |path| == 2
    ensures Lacked(n, path, x, known, charms, charm) <==> charms && RevisionAt(n, path, path[0], x, known)
  {
    assert path[..1] == [path[0]] && path[..1][1..] == [] && path[1..][0] == path[1];
    var below := if n.Dict? then Find(n.entries, path[0]) else None;
    assert NodeAt(n, path[..1]) == below;
    if below.Some? {
      LackedHere(below.value, path[1..], x, known, path[0] == "charms", NameIn(charms, path[0]));
    }
  }

  function Keys(es: seq<Entry>): seq<string> {
    if es == [] then [] else [es[0].key] + Keys(es[1..])
  }

  lemma {:induction false} KeysOfBoth(a: seq<Entry>, b: seq<Entry>)
    ensures Keys(a + b) == Keys(a) + Keys(b)
  {
    if a == [] {
      assert a + b == b;
    } else {
      KeysOfBoth(a[1..], b);
      assert (a + b)[0] == a[0] && (a + b)[1..] == a[1..] + b;
      assert [a[0].key] + (Keys(a[1..]) + Keys(b)) == [a[0].key] + Keys(a[1..]) + Keys(b);
    }
  }

  lemma {:induction false} KeysKept(es: seq<Entry>, known: Known, charms: bool, mark: Option<string>)
    requires forall e <- es :: Added(e, known, mark) == []
    ensures Keys(InjectedEntries(es, known, charms, mark)) == Keys(es)
  {
    if es != [] {
      assert es[0] in es;
      KeysKept(es[1..], known, charms, mark);
      KeysOfBoth([InjectedEntry(es[0], known, charms)], InjectedEntries(es[1..], known, charms, mark));
      assert [InjectedEntry(es[0], known, charms)] + [] == [InjectedEntry(es[0], known, charms)];
      assert Keys([InjectedEntry(es[0], known, charms)]) == [es[0].key];
    }
  }

  /** The keys with `key` after the first `at`. */
  function InsertedAfter(keys: seq<string>, at: string, key: string): seq<string> {
    if keys == [] then []
    else if keys[0] == at then [at, key] + keys[1..]
    else [keys[0]] + InsertedAfter(keys[1..], at, key)
  }

  lemma KeysOfFirst(e: Entry, added: seq<Entry>, rest: seq<Entry>)
    requires added == [] || (|added| == 1 && added[0].key == "revision")
    ensures Keys([e] + added + rest) == [e.key] + (if added == [] then [] else ["revision"]) + Keys(rest)
  {
    KeysOfBoth([e] + added, rest);
    KeysOfBoth([e], added);
    assert Keys([e]) == [e.key] && (added != [] ==> Keys(added) == [added[0].key] + Keys([]));
  }

  /** The keys of a charm keep their order, and the revision comes right after the channel. */
  lemma {:induction false} RevisionFollowsChannel(es: seq<Entry>, known: Known, charms: bool, name: string)
    requires Unique(es) && Find(es, "channel").Some? && Lookup(known, name, Find(es, "channel").value).Some?
    ensures Keys(InjectedEntries(es, known, charms, Some(name))) == InsertedAfter(Keys(es), "channel", "revision")
  {
    KeysOfFirst(InjectedEntry(es[0], known, charms), Added(es[0], known, Some(name)),
      InjectedEntries(es[1..], known, charms, Some(name)));
    if es[0].key == "channel" {
      forall e | e in es[1..] ensures Added(e, known, Some(name)) == [] {
      }
      KeysKept(es[1..], known, charms, Some(name));
    } else {
      RevisionFollowsChannel(es[1..], known, charms, name);
    }
  }

  // ------------------------------------------------------------------ the two walks

  lemma Regroup<T>(a: seq<T>, b: seq<T>, c: seq<T>)
    ensures a + (b + c) == a + b + c
  {
  }

  lemma CharmPairsFrom(charms: seq<Entry>, i: nat)
    requires i < |charms|
    ensures CharmPairs(charms[i..]) == PairOf(charms[i]) + CharmPairs(charms[i + 1..])
  {
    assert charms[i..][1..] == charms[i + 1..];
  }

  method WalkCharms(charms: seq<Entry>, pairs: seq<(string, Node)>) returns (found: seq<(string, Node)>)
    ensures found == pairs + CharmPairs(charms)
  {
    found := pairs;
    for i := 0 to |charms|
      invariant found + CharmPairs(charms[i..]) == pairs + CharmPairs(charms)
    {
      CharmPairsFrom(charms, i);
      Regroup(found, PairOf(charms[i]), CharmPairs(charms[i + 1..]));
      if Open(charms[i].value) {
        found := found + [(charms[i].key, Find(charms[i].value.entries, "channel").value)];
      }
    }
    assert charms[|charms|..] == [] && found == found + CharmPairs([]);
  }

  /** Appends the pairs below `node`. */
  method Walk(node: Node, pairs: seq<(string, Node)>) returns (found: seq<(string, Node)>)
    ensures found == pairs + Collected(node)
    decreases node
  {
    found := pairs;
    if node.Dict? {
      CollectedOfDict(node.entries);
      found := WalkDict(node.entries, pairs);
    }
  }

  method WalkDict(es: seq<Entry>, pairs: seq<(string, Node)>) returns (found: seq<(string, Node)>)
    ensures found == pairs + (PairsOf(Find(es, "charms")) + CollectedAll(es))
    decreases es, 1
  {
    found := pairs;
    var charms := Find(es, "charms");
    if charms.Some? && charms.value.Dict? {
      found := WalkCharms(charms.value.entries, found);
    }
    Regroup(pairs, PairsOf(charms), CollectedAll(es));
    found := WalkAll(es, found);
  }

  lemma CollectedFrom(es: seq<Entry>, i: nat)
    requires i < |es|
    ensures CollectedAll(es[i..]) == Collected(es[i].value) + CollectedAll(es[i + 1..])
  {
    assert es[i..][1..] == es[i + 1..];
  }

  method WalkAll(es: seq<Entry>, pairs: seq<(string, Node)>) returns (found: seq<(string, Node)>)
    ensures found == pairs + CollectedAll(es)
    decreases es, 0
  {
    found := pairs;
    for i := 0 to |es|
      invariant found + CollectedAll(es[i..]) == pairs + CollectedAll(es)
    {
      CollectedFrom(es, i);
      Regroup(found, Collected(es[i].value), CollectedAll(es[i + 1..]));
      found := Walk(es[i].value, found);
    }
    assert es[|es|..] == [] && found == found + CollectedAll([]);
  }

  method CollectCharms(obj: Node) returns (pairs: seq<(string, Node)>)
    ensures pairs == Collected(obj)
  {
    pairs := Walk(obj, []);
  }

  /** The entries of the charm `name` with its revision after its channel. */
  function Marked(es: seq<Entry>, known: Known, name: string): seq<Entry> {
    if es == [] then [] else [es[0]] + Added(es[0], known, Some(name)) + Marked(es[1..], known, name)
  }

  function MarkedCharm(e: Entry, known: Known): Entry {
    if Open(e.value) then Entry(e.key, Dict(Marked(e.value.entries, known, e.key))) else e
  }

  function MarkedCharms(es: seq<Entry>, known: Known): seq<Entry> {
    if es == [] then [] else [MarkedCharm(es[0], known)] + MarkedCharms(es[1..], known)
  }

  /** Every "charms" entry replaced. */
  function WithCharms(es: seq<Entry>, charms: Node): seq<Entry> {
    if es == [] then []
    else [if es[0].key == "charms" then Entry("charms", charms) else es[0]] + WithCharms(es[1..], charms)
  }

  /** The second pass: every value is treated as a tree of its own. */
  function Below(es: seq<Entry>, known: Known): seq<Entry> {
    if es == [] then [] else [Entry(es[0].key, Injected(es[0].value, known, false, None))] + Below(es[1..], known)
  }

  lemma FirstInjected(e: Entry, rest: seq<Entry>, known: Known, charms: bool)
    ensures InjectedEntries([e] + rest, known, charms, None) ==
            [InjectedEntry(e, known, charms)] + InjectedEntries(rest, known, charms, None)
  {
    assert ([e] + rest)[0] == e && ([e] + rest)[1..] == rest;
    assert [InjectedEntry(e, known, charms)] + [] == [InjectedEntry(e, known, charms)];
  }

  lemma AddedInjected(e: Entry, added: seq<Entry>, rest: seq<Entry>, known: Known, charms: bool)
    requires |added| <= 1 && forall a <- added :: a.value.Number?
    ensures InjectedEntries([e] + added + rest, known, charms, None) ==
            [InjectedEntry(e, known, charms)] + added + InjectedEntries(rest, known, charms, None)
  {
    var injected := InjectedEntries(rest, known, charms, None);
    Regroup([e], added, rest);
    Regroup([InjectedEntry(e, known, charms)], added, injected);
    FirstInjected(e, added + rest, known, charms);
    if added == [] {
      assert added + rest == rest && added + injected == injected;
    } else {
      assert added == [added[0]] && InjectedEntry(added[0], known, charms) == added[0];
      FirstInjected(added[0], rest, known, charms);
    }
  }

  lemma {:induction false} MarkedThenInjected(es: seq<Entry>, known: Known, charms: bool, name: string)
    ensures InjectedEntries(Marked(es, known, name), known, charms, None) == InjectedEntries(es, known, charms, Some(name))
  {
    if es != [] {
      MarkedThenInjected(es[1..], known, charms, name);
      AddedInjected(es[0], Added(es[0], known, Some(name)), Marked(es[1..], known, name), known, charms);
    }
  }

  /** Adding the revisions to a charm first makes no difference to the treatment below it. */
  lemma MarkedCharmInjected(e: Entry, known: Known)
    ensures InjectedEntry(MarkedCharm(e, known), known, false) == InjectedEntry(e, known, true)
  {
    if Open(e.value) {
      MarkedThenInjected(e.value.entries, known, e.key == "charms", e.key);
    } else if e.value.Dict? {
      assert Injected(e.value, known, e.key == "charms", Some(e.key)) == Injected(e.value, known, e.key == "charms", None);
    }
  }

  lemma {:induction false} MarkedCharmsInjected(es: seq<Entry>, known: Known)
    ensures InjectedEntries(MarkedCharms(es, known), known, false, None) == InjectedEntries(es, known, true, None)
  {
    if es != [] {
      var first, rest := MarkedCharm(es[0], known), MarkedCharms(es[1..], known);
      MarkedCharmInjected(es[0], known);
      MarkedCharmsInjected(es[1..], known);
      assert ([first] + rest)[0] == first && ([first] + rest)[1..] == rest;
    }
  }

  /** The two passes over a dict do what the single pass does. */
  lemma {:induction false} TwoPasses(es: seq<Entry>, known: Known, charms: seq<Entry>)
    requires forall e <- es :: e.key == "charms" ==> e.value == Dict(charms)
    ensures Below(WithCharms(es, Dict(MarkedCharms(charms, known))), known) == InjectedEntries(es, known, false, None)
  {
    if es != [] {
      var rest := WithCharms(es[1..], Dict(MarkedCharms(charms, known)));
      var first := if es[0].key == "charms" then Entry("charms", Dict(MarkedCharms(charms, known))) else es[0];
      TwoPasses(es[1..], known, charms);
      MarkedCharmsInjected(charms, known);
      assert es[0] in es;
      assert ([first] + rest)[0] == first && ([first] + rest)[1..] == rest;
      assert Injected(first.value, known, false, None) == InjectedEntry(es[0], known, false).value;
      AddNothing(es, known);
    }
  }

  lemma AddNothing(es: seq<Entry>, known: Known)
    requires es != []
    ensures InjectedEntries(es, known, false, None) ==
            [InjectedEntry(es[0], known, false)] + InjectedEntries(es[1..], known, false, None)
  {
    assert [InjectedEntry(es[0], known, false)] + [] == [InjectedEntry(es[0], known, false)];
  }

  lemma {:induction false} OnePass(es: seq<Entry>, known: Known)
    requires forall e <- es :: e.key == "charms" ==> !e.value.Dict?
    ensures Below(es, known) == InjectedEntries(es, known, false, None)
  {
    if es != [] {
      assert es[0] in es;
      OnePass(es[1..], known);
      assert Injected(es[0].value, known, false, None) == InjectedEntry(es[0], known, false).value;
      AddNothing(es, known);
    }
  }

  /** How deep dicts are nested. */
  function Depth(n: Node): nat
    decreases n
  {
    if n.Dict? then 1 + DepthAll(n.entries) else 0
  }

  function DepthAll(es: seq<Entry>): nat
    decreases es
  {
    if es == [] then 0
    else if Depth(es[0].value) > DepthAll(es[1..]) then Depth(es[0].value)
    else DepthAll(es[1..])
  }

  lemma {:induction false} DepthOfBoth(a: seq<Entry>, b: seq<Entry>)
    ensures DepthAll(a + b) == if DepthAll(a) > DepthAll(b) then DepthAll(a) else DepthAll(b)
  {
    if a == [] {
      assert a + b == b;
    } else {
      DepthOfBoth(a[1..], b);
      assert (a + b)[1..] == a[1..] + b;
    }
  }

  lemma {:induction false} MarkedDepth(es: seq<Entry>, known: Known, name: string)
    ensures DepthAll(Marked(es, known, name)) == DepthAll(es)
  {
    if es != [] {
      var added, rest := Added(es[0], known, Some(name)), Marked(es[1..], known, name);
      MarkedDepth(es[1..], known, name);
      DepthOfBoth([es[0]] + added, rest);
      DepthOfBoth([es[0]], added);
      assert DepthAll([es[0]]) == Depth(es[0].value);
    }
  }

  lemma {:induction false} MarkedCharmsDepth(es: seq<Entry>, known: Known)
    ensures DepthAll(MarkedCharms(es, known)) == DepthAll(es)
  {
    if es != [] {
      if Open(es[0].value) {
        MarkedDepth(es[0].value.entries, known, es[0].key);
      }
      MarkedCharmsDepth(es[1..], known);
      DepthOfBoth([MarkedCharm(es[0], known)], MarkedCharms(es[1..], known));
      assert DepthAll([MarkedCharm(es[0], known)]) == Depth(es[0].value);
    }
  }

  lemma {:induction false} WithCharmsDepth(es: seq<Entry>, charms: Node)
    requires forall e <- es :: e.key == "charms" ==> Depth(charms) == Depth(e.value)
    ensures DepthAll(WithCharms(es, charms)) == DepthAll(es)
  {
    if es != [] {
      assert es[0] in es;
      WithCharmsDepth(es[1..], charms);
      var first := if es[0].key == "charms" then Entry("charms", charms) else es[0];
      DepthOfBoth([first], WithCharms(es[1..], charms));
      assert DepthAll([first]) == Depth(es[0].value);
    }
  }

  lemma {:induction false} DepthOfEntry(es: seq<Entry>, i: nat)
    requires i < |es|
    ensures Depth(es[i].value) <= DepthAll(es)
  {
    if i > 0 {
      DepthOfEntry(es[1..], i - 1);
    }
  }

  lemma MarkedFrom(es: seq<Entry>, i: nat, known: Known, name: string)
    requires i < |es|
    ensures Marked(es[i..], known, name) == [es[i]] + Added(es[i], known, Some(name)) + Marked(es[i + 1..], known, name)
  {
    assert es[i..][1..] == es[i + 1..];
  }

  lemma MarkedCharmsFrom(es: seq<Entry>, i: nat, known: Known)
    requires i < |es|
    ensures MarkedCharms(es[i..], known) == [MarkedCharm(es[i], known)] + MarkedCharms(es[i + 1..], known)
  {
    assert es[i..][1..] == es[i + 1..];
  }

  lemma BelowFrom(es: seq<Entry>, i: nat, known: Known)
    requires i < |es|
    ensures Below(es[i..], known) == [Entry(es[i].key, Injected(es[i].value, known, false, None))] + Below(es[i + 1..], known)
  {
    assert es[i..][1..] == es[i + 1..];
  }

  lemma {:induction false} MarkedKeys(es: seq<Entry>, known: Known, name: string)
    requires forall e <- es :: Proper(e.value)
    ensures var injected := InjectedEntries(es, known, false, Some(name));
            |Marked(es, known, name)| == |injected| &&
            forall i :: 0 <= i < |injected| ==> Marked(es, known, name)[i].key == injected[i].key
    ensures forall e <- Marked(es, known, name) :: Proper(e.value)
  {
    if es != [] {
      MarkedKeys(es[1..], known, name);
    }
  }

  lemma MarkedCharmIsProper(e: Entry, known: Known)
    requires Proper(e.value)
    ensures Proper(MarkedCharm(e, known).value)
  {
    if Open(e.value) {
      MarkedKeys(e.value.entries, known, e.key);
      UniqueAfter(e.value.entries, known, false, Some(e.key));
    }
  }

  lemma {:induction false} MarkedCharmsAreProper(es: seq<Entry>, known: Known)
    requires forall e <- es :: Proper(e.value)
    ensures |MarkedCharms(es, known)| == |es|
    ensures forall i :: 0 <= i < |es| ==> MarkedCharms(es, known)[i].key == es[i].key
    ensures forall e <- MarkedCharms(es, known) :: Proper(e.value)
  {
    if es != [] {
      MarkedCharmIsProper(es[0], known);
      MarkedCharmsAreProper(es[1..], known);
    }
  }

  lemma {:induction false} WithCharmsIsProper(es: seq<Entry>, charms: Node)
    requires Proper(charms) && forall e <- es :: Proper(e.value)
    ensures forall e <- WithCharms(es, charms) :: Proper(e.value)
  {
    if es != [] {
      WithCharmsIsProper(es[1..], charms);
    }
  }

  method MarkCharm(charm: Entry, known: Known) returns (marked: Entry)
    ensures marked == MarkedCharm(charm, known)
  {
    if !Open(charm.value) {
      return charm;
    }
    var es, out := charm.value.entries, [];
    for i := 0 to |es|
      invariant out + Marked(es[i..], known, charm.key) == Marked(es, known, charm.key)
    {
      MarkedFrom(es, i, known, charm.key);
      Regroup(out, [es[i]] + Added(es[i], known, Some(charm.key)), Marked(es[i + 1..], known, charm.key));
      out := out + ([es[i]] + Added(es[i], known, Some(charm.key)));
    }
    assert es[|es|..] == [];
    assert out == out + Marked([], known, charm.key);
    marked := Entry(charm.key, Dict(out));
  }

  lemma FirstPass(es: seq<Entry>, known: Known, charms: seq<Entry>)
    requires Proper(Dict(es)) && Find(es, "charms") == Some(Dict(charms))
    ensures var marked := WithCharms(es, Dict(MarkedCharms(charms, known)));
            && Below(marked, known) == InjectedEntries(es, known, false, None)
            && DepthAll(marked) == DepthAll(es)
            && forall e <- marked :: Proper(e.value)
  {
    forall e | e in es ensures Find(es, e.key) == Some(e.value) {
      FindEntry(es, e);
    }
    TwoPasses(es, known, charms);
    MarkedCharmsDepth(charms, known);
    WithCharmsDepth(es, Dict(MarkedCharms(charms, known)));
    MarkedCharmsAreProper(charms, known);
    WithCharmsIsProper(es, Dict(MarkedCharms(charms, known)));
  }

  lemma NoCharms(es: seq<Entry>, known: Known)
    requires Unique(es) && (Find(es, "charms").Some? ==> !Find(es, "charms").value.Dict?)
    ensures Below(es, known) == InjectedEntries(es, known, false, None)
  {
    forall e | e in es ensures Find(es, e.key) == Some(e.value) {
      FindEntry(es, e);
    }
    OnePass(es, known);
  }

  method MarkEach(charms: seq<Entry>, known: Known) returns (marked: seq<Entry>)
    ensures marked == MarkedCharms(charms, known)
  {
    marked := [];
    for i := 0 to |charms|
      invariant marked + MarkedCharms(charms[i..], known) == MarkedCharms(charms, known)
    {
      MarkedCharmsFrom(charms, i, known);
      Regroup(marked, [MarkedCharm(charms[i], known)], MarkedCharms(charms[i + 1..], known));
      var charm := MarkCharm(charms[i], known);
      marked := marked + [charm];
    }
    assert charms[|charms|..] == [] && marked == marked + MarkedCharms([], known);
  }

  /** The first pass over a dict. */
  method MarkCharms(es: seq<Entry>, known: Known) returns (marked: seq<Entry>)
    requires Proper(Dict(es))
    ensures Below(marked, known) == InjectedEntries(es, known, false, None)
    ensures DepthAll(marked) == DepthAll(es) && forall e <- marked :: Proper(e.value)
  {
    var charms := Find(es, "charms");
    if charms.None? || !charms.value.Dict? {
      NoCharms(es, known);
      return es;
    }
    var newCharms := MarkEach(charms.value.entries, known);
    FirstPass(es, known, charms.value.entries);
    marked := WithCharms(es, Dict(newCharms));
  }

  method InjectRevisions(obj: Node, known: Known) returns (injected: Node)
    requires Proper(obj)
    ensures injected == Injected(obj, known, false, None)
    decreases Depth(obj)
  {
    if !obj.Dict? {
      return obj;
    }
    var es := MarkCharms(obj.entries, known);
    var out := [];
    for i := 0 to |es|
      invariant out + Below(es[i..], known) == Below(es, known)
    {
      DepthOfEntry(es, i);
      BelowFrom(es, i, known);
      Regroup(out, [Entry(es[i].key, Injected(es[i].value, known, false, None))], Below(es[i + 1..], known));
      var v := InjectRevisions(es[i].value, known);
      out := out + [Entry(es[i].key, v)];
    }
    assert es[|es|..] == [];
    injected := Dict(out);
  }
}
