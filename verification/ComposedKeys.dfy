/** The schema keys of a config package together with those of the packages its schema composes. */
module ComposedKeys {
  import opened Graphs
  import opened Ordering

  /** One collected package: the key paths of its own schema, and the packages whose schemas it intersects. */
  datatype Entry = Entry(pkg: string, keys: seq<string>, composes: seq<string>)

  type EntryMap = m: map<string, Entry> | forall k :: k in m ==> m[k].pkg == k

  ghost function ComposeGraph(m: EntryMap): Graph {
    map k | k in m :: set c | c in m[k].composes
  }

  /** The keys of the listed packages, one package after the other. */
  function KeysOf(m: EntryMap, order: seq<string>): seq<string>
    requires forall n :: n in order ==> n in m
  {
    if order == [] then [] else assert order[0] in order; m[order[0]].keys + KeysOf(m, order[1..])
  }

  lemma {:induction false} KeysOfConcat(m: EntryMap, a: seq<string>, b: seq<string>)
    requires forall n :: n in a + b ==> n in m
    requires (forall n :: n in a ==> n in m) && forall n :: n in b ==> n in m
    ensures KeysOf(m, a + b) == KeysOf(m, a) + KeysOf(m, b)
  {
    if a == [] {
      assert a + b == b;
    } else {
      assert (a + b)[1..] == a[1..] + b;
      KeysOfConcat(m, a[1..], b);
    }
  }

  /** `c` is composed by `n` but was not collected. */
  ghost predicate UnknownFrom(m: EntryMap, n: string, c: string) {
    n in m && c in m[n].composes && c !in m
  }

  /** `order` lists what was added to `before`, each once. */
  ghost predicate Lists(order: seq<string>, before: set<string>, after: set<string>) {
    before <= after && NoRepeats(order) && forall n :: n in order <==> n in after && n !in before
  }

  lemma ListsMore(a: seq<string>, b: seq<string>, before: set<string>, mid: set<string>, after: set<string>)
    requires Lists(a, before, mid) && Lists(b, mid, after)
    ensures Lists(a + b, before, after)
  {
    var all := a + b;
    forall i, j | 0 <= i < j < |all| ensures all[i] != all[j] {
      if i < |a| <= j { assert a[i] in a && b[j - |a|] in b; }
    }
    forall n ensures n in all <==> n in after && n !in before {
      assert n in all <==> n in a || n in b;
    }
  }

  /** The fold's invariant while the packages of `active` are being folded. */
  ghost predicate Inv(m: EntryMap, start: string, seen: set<string>, violations: seq<string>, active: set<string>) {
    && (forall n :: n in seen ==> n in m && Reach(ComposeGraph(m), start, n))
    && (forall a, b :: a in seen && a !in active && Edge(ComposeGraph(m), a, b) ==> b in seen)
    && (forall c :: c in violations ==> exists n :: n in seen && UnknownFrom(m, n, c))
    && (forall n, c :: n in seen && n !in active && UnknownFrom(m, n, c) ==> c in violations)
  }

  /** A package is seen for the first time. */
  lemma Enter(m: EntryMap, start: string, seen: set<string>, violations: seq<string>, active: set<string>, n: string)
    requires Inv(m, start, seen, violations, active) && n in m && Reach(ComposeGraph(m), start, n)
    ensures Inv(m, start, seen + {n}, violations, active + {n})
  {
    hide Reach, Edge, ComposeGraph;
  }

  /** A composed package that was not collected is reported. */
  lemma Report(m: EntryMap, start: string, seen: set<string>, violations: seq<string>, active: set<string>, n: string,
               c: string)
    requires Inv(m, start, seen, violations, active) && n in seen && UnknownFrom(m, n, c)
    ensures Inv(m, start, seen, violations + [c], active)
  {
    hide Reach, Edge, ComposeGraph, UnknownFrom;
  }

  /** All that a package composes has been folded or reported. */
  lemma Leave(m: EntryMap, start: string, seen: set<string>, violations: seq<string>, active: set<string>, n: string)
    requires Inv(m, start, seen, violations, active + {n}) && n in m
    requires forall c :: c in m[n].composes ==> if c in m then c in seen else c in violations
    ensures Inv(m, start, seen, violations, active)
  {
    hide Reach;
  }

  lemma ComposeEdge(m: EntryMap, start: string, n: string, c: string)
    requires n in m && c in m[n].composes && c in m && Reach(ComposeGraph(m), start, n)
    ensures Reach(ComposeGraph(m), start, c)
  {
    hide Reach;
    ReachEdge(ComposeGraph(m), n, c);
    ReachTrans(ComposeGraph(m), start, n, c);
  }

  lemma ListsGrow(order: seq<string>, before: set<string>, after: set<string>)
    requires Lists(order, before, after)
    ensures before <= after
  {
  }

  lemma NothingNew(m: EntryMap, seen: set<string>)
    ensures Lists([], seen, seen) && KeysOf(m, []) == []
  {
  }

  lemma OneNew(m: EntryMap, seen: set<string>, n: string)
    requires n !in seen && n in m
    ensures Lists([n], seen, seen + {n}) && KeysOf(m, [n]) == m[n].keys
  {
    assert [n][1..] == [];
  }

  /** The fold of one config package's schema. */
  class Folding {
    const byName: EntryMap
    var seen: set<string>
    var violations: seq<string>

    constructor (byName: EntryMap)
      ensures this.byName == byName && seen == {} && violations == []
    {
      this.byName := byName;
      seen, violations := {}, [];
    }

    /** The keys of `e` and of all it composes that was not seen before. */
    method FoldComposed(e: Entry, ghost start: string, ghost active: set<string>)
      returns (keys: seq<string>, ghost order: seq<string>)
      requires e.pkg in byName && byName[e.pkg] == e && Reach(ComposeGraph(byName), start, e.pkg)
      requires Inv(byName, start, seen, violations, active)
      modifies this
      ensures Inv(byName, start, seen, violations, active)
      ensures Lists(order, old(seen), seen) && e.pkg in seen && old(violations) <= violations
      ensures (forall n :: n in order ==> n in byName) && keys == KeysOf(byName, order)
      decreases byName.Keys - seen
    {
      hide Inv, Lists, Reach, ComposeGraph, KeysOf;
      if e.pkg in seen {
        NothingNew(byName, seen);
        return [], [];
      }
      Enter(byName, start, seen, violations, active, e.pkg);
      OneNew(byName, seen, e.pkg);
      seen := seen + {e.pkg};
      keys, order := e.keys, [e.pkg];
      for i := 0 to |e.composes|
        invariant Inv(byName, start, seen, violations, active + {e.pkg})
        invariant Lists(order, old(seen), seen) && old(seen) + {e.pkg} <= seen && old(violations) <= violations
        invariant (forall n :: n in order ==> n in byName) && keys == KeysOf(byName, order)
        invariant forall k :: 0 <= k < i && e.composes[k] in byName ==> e.composes[k] in seen
        invariant forall k :: 0 <= k < i && e.composes[k] !in byName ==> e.composes[k] in violations
      {
        var composed := e.composes[i];
        if composed !in byName {
          Report(byName, start, seen, violations, active + {e.pkg}, e.pkg, composed);
          violations := violations + [composed];
        } else {
          ghost var mid := seen;
          ComposeEdge(byName, start, e.pkg, composed);
          var more, added := FoldComposed(byName[composed], start, active + {e.pkg});
          ListsMore(order, added, old(seen), mid, seen);
          ListsGrow(added, mid, seen);
          KeysOfConcat(byName, order, added);
          keys, order := keys + more, order + added;
        }
      }
      Leave(byName, start, seen, violations, active, e.pkg);
    }
  }

  /** Exactly the collected packages that `start` reaches by composing, in some order, each once. */
  ghost predicate Composed(m: EntryMap, start: string, order: seq<string>) {
    && NoRepeats(order) && (forall n :: n in order <==> Reach(ComposeGraph(m), start, n))
    && forall n :: n in order ==> n in m
  }

  lemma StartInv(m: EntryMap, start: string)
    requires start in m
    ensures Inv(m, start, {}, [], {}) && Reach(ComposeGraph(m), start, start)
  {
    ReachSelf(ComposeGraph(m), start);
  }

  lemma ClosedSeen(m: EntryMap, start: string, seen: set<string>, violations: seq<string>)
    requires Inv(m, start, seen, violations, {})
    ensures Closed(ComposeGraph(m), seen)
  {
    hide Reach;
  }

  lemma FoldEnds(m: EntryMap, start: string, seen: set<string>, violations: seq<string>, order: seq<string>)
    requires Inv(m, start, seen, violations, {}) && Lists(order, {}, seen) && start in seen
    ensures Composed(m, start, order)
    ensures forall c :: c in violations <==> exists n :: Reach(ComposeGraph(m), start, n) && UnknownFrom(m, n, c)
  {
    hide Reach, Edge, UnknownFrom, ComposeGraph;
    assert Closed(ComposeGraph(m), seen) by { ClosedSeen(m, start, seen, violations); }
    forall n | Reach(ComposeGraph(m), start, n) ensures n in order {
      ReachStays(ComposeGraph(m), seen, start, n);
    }
  }

  /** Fold the schemas a package's schema composes, directly or not, circles included: each package's keys once, and
      every composed package that was not collected. */
  method FoldSchema(byName: EntryMap, start: string) returns (keys: seq<string>, violations: seq<string>)
    requires start in byName
    ensures exists order :: Composed(byName, start, order) && keys == KeysOf(byName, order)
    ensures forall c :: c in violations <==> exists n :: Reach(ComposeGraph(byName), start, n) &&
                                                         UnknownFrom(byName, n, c)
  {
    var folding := new Folding(byName);
    StartInv(byName, start);
    hide Inv;
    ghost var order;
    keys, order := folding.FoldComposed(byName[start], start, {});
    violations := folding.violations;
    FoldEnds(byName, start, folding.seen, violations, order);
  }
}
