/** The matching of a union's former variants to distinct current ones. */
module VariantMatching {
  import opened Numbers
  import opened Ordering
  import opened Wrappers

  /** For each former variant, the current variants it may become. */
  type Candidates = seq<seq<nat>>

  /** Each former variant becomes one of its candidates, and no two the same one. */
  ghost predicate Matches(candidates: Candidates, matching: seq<nat>) {
    && |matching| == |candidates|
    && (forall p :: 0 <= p < |candidates| ==> matching[p] in candidates[p])
    && NoRepeats(matching)
  }

  /** Owned variants have one owner each, who may become them, and each owner owns one. */
  ghost predicate Partial(candidates: Candidates, owners: map<nat, nat>) {
    && (forall v :: v in owners ==> owners[v] < |candidates| && v in candidates[owners[v]])
    && (forall v, w :: v in owners && w in owners && owners[v] == owners[w] ==> v == w)
  }

  /** The owners but for that of `held`. */
  ghost function Without(owners: map<nat, nat>, held: Option<nat>): map<nat, nat> {
    map v | v in owners && held != Some(v) :: owners[v]
  }

  ghost function Owners(owners: map<nat, nat>): set<nat> {
    set v | v in owners :: owners[v]
  }

  /** `p` has been given a variant on top of the others' and of `held`, which is still in its name. */
  ghost predicate Placed(candidates: Candidates, before: map<nat, nat>, owners: map<nat, nat>, held: Option<nat>,
                         p: nat) {
    && Partial(candidates, Without(owners, held))
    && Owners(Without(owners, held)) == Owners(Without(before, held)) + {p}
  }

  /** `p` owns `held`, if anything. */
  ghost predicate Holds(owners: map<nat, nat>, held: Option<nat>, p: nat) {
    if held.None? then p !in Owners(owners) else held.value in owners && owners[held.value] == p
  }

  ghost predicate Keeps(before: map<nat, nat>, owners: map<nat, nat>, kept: set<nat>) {
    forall v :: v in kept ==> (v in owners <==> v in before) && (v in owners ==> owners[v] == before[v])
  }

  lemma RemoveOwner(candidates: Candidates, owners: map<nat, nat>, held: Option<nat>, p: nat)
    requires Partial(candidates, owners) && Holds(owners, held, p)
    ensures Partial(candidates, Without(owners, held)) && Owners(Without(owners, held)) == Owners(owners) - {p}
  {
    var less := Without(owners, held);
    forall q | q in Owners(owners) && q != p ensures q in Owners(less) {
      var v :| v in owners && owners[v] == q;
      assert v in less;
    }
  }

  lemma AddOwner(candidates: Candidates, owners: map<nat, nat>, v: nat, p: nat)
    requires Partial(candidates, owners) && v !in owners && p !in Owners(owners) && p < |candidates|
    requires v in candidates[p]
    ensures Partial(candidates, owners[v := p]) && Owners(owners[v := p]) == Owners(owners) + {p}
  {
    forall q | q in Owners(owners) ensures q in Owners(owners[v := p]) {
      var w :| w in owners && owners[w] == q;
      assert owners[v := p][w] == q;
    }
    assert owners[v := p][v] == p;
  }

  /** A variant no one owns is taken. */
  lemma TakeFree(candidates: Candidates, owners: map<nat, nat>, held: Option<nat>, p: nat, next: nat)
    requires Partial(candidates, owners) && Holds(owners, held, p) && p < |candidates| && next in candidates[p]
    requires next !in owners
    ensures Placed(candidates, owners, owners[next := p], held, p)
  {
    RemoveOwner(candidates, owners, held, p);
    AddOwner(candidates, Without(owners, held), next, p);
    assert Without(owners[next := p], held) == Without(owners, held)[next := p];
  }

  lemma SameOwners(candidates: Candidates, owners: map<nat, nat>, moved: map<nat, nat>, next: nat)
    requires Partial(candidates, owners) && next in owners
    requires Placed(candidates, owners, moved, Some(next), owners[next])
    ensures Owners(Without(moved, Some(next))) == Owners(owners)
  {
    RemoveOwner(candidates, owners, Some(next), owners[next]);
    assert owners[next] in Owners(owners);
  }

  lemma StillHolds(owners: map<nat, nat>, moved: map<nat, nat>, held: Option<nat>, p: nat, next: nat)
    requires Holds(owners, held, p) && held != Some(next) && Owners(Without(moved, Some(next))) == Owners(owners)
    requires held.Some? ==> held.value in moved && moved[held.value] == p
    ensures Holds(Without(moved, Some(next)), held, p)
  {
  }

  lemma WithoutBoth(moved: map<nat, nat>, held: Option<nat>, next: nat, p: nat)
    requires held != Some(next)
    ensures next !in Without(Without(moved, Some(next)), held)
    ensures Without(moved[next := p], held) == Without(Without(moved, Some(next)), held)[next := p]
  {
  }

  /** The owner of `next` has been placed elsewhere, and `next` is taken over. */
  lemma TakeOver(candidates: Candidates, owners: map<nat, nat>, moved: map<nat, nat>, held: Option<nat>, p: nat,
                 next: nat)
    requires Partial(candidates, owners) && Holds(owners, held, p) && p < |candidates| && next in candidates[p]
    requires next in owners && held != Some(next) && Placed(candidates, owners, moved, Some(next), owners[next])
    requires held.Some? ==> held.value in moved && moved[held.value] == p
    ensures Placed(candidates, owners, moved[next := p], held, p)
  {
    hide Partial, Owners, Without, Holds;
    var rest := Without(moved, Some(next));
    SameOwners(candidates, owners, moved, next);
    StillHolds(owners, moved, held, p, next);
    RemoveOwner(candidates, rest, held, p);
    RemoveOwner(candidates, owners, held, p);
    WithoutBoth(moved, held, next, p);
    AddOwner(candidates, Without(rest, held), next, p);
  }

  // ---------- A failed search leaves too few variants for the former ones it met ----------

  /** What was visited since `before` is owned, and all its owner's candidates have been visited. */
  ghost predicate Explored(candidates: Candidates, owners: map<nat, nat>, before: set<nat>, visited: set<nat>) {
    && before <= visited
    && forall v :: v in visited && v !in before ==>
         v in owners && owners[v] < |candidates| && forall w :: w in candidates[owners[v]] ==> w in visited
  }

  /** The search from `next`'s owner has failed too. */
  lemma ExploredNext(candidates: Candidates, owners: map<nat, nat>, before: set<nat>, mid: set<nat>, visited: set<nat>,
                     next: nat)
    requires Partial(candidates, owners) && next in owners
    requires Explored(candidates, owners, before, mid) && Explored(candidates, owners, mid + {next}, visited)
    requires forall w :: w in candidates[owners[next]] ==> w in visited
    ensures Explored(candidates, owners, before, visited)
  {
  }

  ghost function Image(f: map<nat, nat>, s: set<nat>): set<nat>
    requires s <= f.Keys
  {
    set x | x in s :: f[x]
  }

  lemma {:induction false} ImageSize(f: map<nat, nat>, s: set<nat>)
    requires s <= f.Keys && forall x, y :: x in f && y in f && f[x] == f[y] ==> x == y
    ensures |Image(f, s)| == |s|
    decreases |s|
  {
    if s != {} {
      var x :| x in s;
      ImageSize(f, s - {x});
      assert Image(f, s) == Image(f, s - {x}) + {f[x]};
    }
  }

  ghost function AsMap(matching: seq<nat>): map<nat, nat> {
    map p: nat | p < |matching| :: matching[p]
  }

  ghost function Met(owners: map<nat, nat>, visited: set<nat>, p: nat): set<nat>
    requires visited <= owners.Keys
  {
    Image(owners, visited) + {p}
  }

  /** `p` and the owners of all visited variants: one more than the variants. */
  lemma MetSize(candidates: Candidates, owners: map<nat, nat>, visited: set<nat>, p: nat)
    requires Partial(candidates, owners) && p !in Owners(owners) && p < |candidates| && visited <= owners.Keys
    ensures |Met(owners, visited, p)| == |visited| + 1
    ensures forall q :: q in Met(owners, visited, p) ==> q < |candidates|
  {
    ImageSize(owners, visited);
    assert p !in Image(owners, visited);
  }

  /** All a matching makes of them has been visited. */
  lemma MetMatched(candidates: Candidates, owners: map<nat, nat>, visited: set<nat>, p: nat, matching: seq<nat>, v: nat)
    requires p < |candidates| && Matches(candidates, matching) && visited <= owners.Keys
    requires Explored(candidates, owners, {}, visited) && (forall w :: w in candidates[p] ==> w in visited)
    requires Met(owners, visited, p) <= AsMap(matching).Keys && v in Image(AsMap(matching), Met(owners, visited, p))
    ensures v in visited
  {
    var q :| q in Met(owners, visited, p) && AsMap(matching)[q] == v;
    assert v in candidates[q];
    if q != p { var w :| w in visited && owners[w] == q; }
  }

  /** No matching places `p` and the owners of all visited variants: they have one candidate too few between them. */
  lemma NoMatching(candidates: Candidates, owners: map<nat, nat>, visited: set<nat>, p: nat, matching: seq<nat>)
    requires Partial(candidates, owners) && p !in Owners(owners) && p < |candidates|
    requires Explored(candidates, owners, {}, visited) && forall w :: w in candidates[p] ==> w in visited
    ensures !Matches(candidates, matching)
  {
    assert visited <= owners.Keys;
    MetSize(candidates, owners, visited, p);
    if Matches(candidates, matching) {
      var f, met := AsMap(matching), Met(owners, visited, p);
      assert met <= f.Keys;
      ImageSize(f, met);
      hide Explored, Partial, Owners, Met, Image, Matches, AsMap;
      forall v | v in Image(f, met) ensures v in visited { MetMatched(candidates, owners, visited, p, matching, v); }
      SubsetSize(Image(f, met), visited);
      assert false;
    }
  }

  // ---------- The search ----------

  /** All current variants that are anyone's candidate. */
  ghost function Universe(candidates: Candidates): set<nat> {
    set p, v | 0 <= p < |candidates| && v in candidates[p] :: v
  }

  lemma InUniverse(candidates: Candidates, p: nat, next: nat)
    requires p < |candidates| && next in candidates[p]
    ensures next in Universe(candidates)
  {
  }

  lemma OwnerInRange(candidates: Candidates, owners: map<nat, nat>, next: nat)
    requires Partial(candidates, owners) && next in owners
    ensures owners[next] < |candidates| && Holds(owners, Some(next), owners[next])
  {
  }

  class Matcher {
    const candidates: Candidates
    var owners: map<nat, nat>

    /** The owned variants, in the order they were first taken. */
    var taken: seq<nat>

    /** The variants visited by the search under way. */
    var visited: set<nat>

    ghost predicate Valid()
      reads this
    {
      forall v :: v in taken <==> v in owners
    }

    constructor (candidates: Candidates)
      ensures this.candidates == candidates && owners == map[] && Valid()
    {
      this.candidates := candidates;
      owners, taken, visited := map[], [], {};
    }

    /** Give `next` to `p`. */
    method Own(next: nat, p: nat)
      requires Valid()
      modifies this`owners, this`taken
      ensures Valid() && owners == old(owners)[next := p]
    {
      if next !in owners { taken := taken + [next]; }
      owners := owners[next := p];
    }

    /** Find `p` a variant, moving others to other ones. */
    method Assign(p: nat, ghost held: Option<nat>) returns (found: bool)
      requires Valid() && p < |candidates| && Partial(candidates, owners) && Holds(owners, held, p)
      requires held.Some? ==> held.value in visited
      modifies this
      ensures Valid()
      ensures found ==> Placed(candidates, old(owners), owners, held, p) && Keeps(old(owners), owners, old(visited))
      ensures !found ==> owners == old(owners) && Explored(candidates, owners, old(visited), visited)
      ensures !found ==> forall w :: w in candidates[p] ==> w in visited
      decreases Universe(candidates) - visited
    {
      hide Partial, Placed, Owners, Universe;
      for i := 0 to |candidates[p]|
        invariant Valid() && owners == old(owners) && Explored(candidates, owners, old(visited), visited)
        invariant forall k :: 0 <= k < i ==> candidates[p][k] in visited
      {
        var next := candidates[p][i];
        InUniverse(candidates, p, next);
        if next in visited {
          continue;
        }
        ghost var mid := visited;
        visited := visited + {next};
        if next !in owners {
          TakeFree(candidates, owners, held, p, next);
          Own(next, p);
          return true;
        }
        var owner := owners[next];
        OwnerInRange(candidates, owners, next);
        var moved := Assign(owner, Some(next));
        if moved {
          TakeOver(candidates, old(owners), owners, held, p, next);
          Own(next, p);
          return true;
        }
        ExploredNext(candidates, owners, old(visited), mid, visited, next);
      }
      found := false;
    }
  }

  /** The owners are the first `n` former variants. */
  ghost predicate OwnFirst(owners: map<nat, nat>, n: nat) {
    forall p: nat :: p in Owners(owners) <==> p < n
  }

  /** With all former variants owners, reading the owners backwards is a matching. */
  lemma AllOwn(candidates: Candidates, owners: map<nat, nat>, matching: seq<nat>)
    requires Partial(candidates, owners) && OwnFirst(owners, |candidates|) && |matching| == |candidates|
    requires forall v :: v in owners ==> owners[v] < |matching| && matching[owners[v]] == v
    ensures Matches(candidates, matching)
  {
    forall p: nat | p < |candidates| ensures matching[p] in owners && owners[matching[p]] == p {
      assert p in Owners(owners);
      var v :| v in owners && owners[v] == p;
    }
  }

  lemma PlacedFirst(candidates: Candidates, before: map<nat, nat>, owners: map<nat, nat>, p: nat)
    requires Placed(candidates, before, owners, None, p) && OwnFirst(before, p)
    ensures Partial(candidates, owners) && OwnFirst(owners, p + 1)
  {
    assert Without(owners, None) == owners && Without(before, None) == before;
  }

  /** Match every former variant to a current one of its own: a matching when there is one, and none exactly when
      not. */
  method MatchUnionVariants(candidates: Candidates) returns (r: Option<seq<nat>>)
    ensures r.Some? ==> Matches(candidates, r.value)
    ensures r.None? <==> forall matching :: !Matches(candidates, matching)
  {
    hide Placed, Explored, Matches;
    var matcher := new Matcher(candidates);
    for previous := 0 to |candidates|
      invariant fresh(matcher) && matcher.candidates == candidates && matcher.Valid()
      invariant Partial(candidates, matcher.owners) && OwnFirst(matcher.owners, previous)
    {
      ghost var before := matcher.owners;
      matcher.visited := {};
      var found := matcher.Assign(previous, None);
      if !found {
        forall matching ensures !Matches(candidates, matching) {
          NoMatching(candidates, matcher.owners, matcher.visited, previous, matching);
        }
        return None;
      }
      PlacedFirst(candidates, before, matcher.owners, previous);
    }
    var matches := new nat[|candidates|];
    var owners, taken := matcher.owners, matcher.taken;
    assert forall v :: v in taken <==> v in owners;
    for i := 0 to |taken|
      invariant forall k :: 0 <= k < i ==>
                  taken[k] in owners && owners[taken[k]] < matches.Length && matches[owners[taken[k]]] == taken[k]
    {
      assert taken[i] in owners;
      matches[owners[taken[i]]] := taken[i];
    }
    AllOwn(candidates, owners, matches[..]);
    r := Some(matches[..]);
  }
}
