/** Dependency-first ordering of the workspace packages. */
module PackageGraph {
  import opened Graphs
  import opened Numbers
  import opened Ordering
  import opened PackageNodes
  import opened ComponentTraversal
  import opened Wrappers

  /** `indexOf`: the first position of a value, or -1. */
  function IndexOf(s: seq<string>, x: string): int {
    if s == [] then -1 else if s[0] == x then 0
    else var rest := IndexOf(s[1..], x); if rest == -1 then -1 else rest + 1
  }

  function GroupRank(group: string, groupOrder: seq<string>): int {
    var index := IndexOf(groupOrder, group);
    if index == -1 then MAX_SAFE_INTEGER else index
  }

  /** Rank by the caller's group order, then group name, then package name. */
  function CompareKeys(groupA: string, shortA: string, groupB: string, shortB: string,
                       groupOrder: seq<string>, locale: (string, string) -> int): int
  {
    var byRank := GroupRank(groupA, groupOrder) - GroupRank(groupB, groupOrder);
    if byRank != 0 then byRank
    else if locale(groupA, groupB) != 0 then locale(groupA, groupB)
    else locale(shortA, shortB)
  }

  function ComparePackages(groupOrder: seq<string>, locale: (string, string) -> int): (Package, Package) -> int {
    (a: Package, b: Package) => CompareKeys(a.group, a.short, b.group, b.short, groupOrder, locale)
  }

  function GroupOf(groups: map<string, string>, short: string): string {
    if short in groups then groups[short] else ""
  }

  /** The same comparison on short names, given each package's group. */
  function CompareNames(groups: map<string, string>, groupOrder: seq<string>, locale: (string, string) -> int):
    (string, string) -> int
  {
    (a: string, b: string) => CompareKeys(GroupOf(groups, a), a, GroupOf(groups, b), b, groupOrder, locale)
  }

  lemma KeysFlip(ga: string, a: string, gb: string, b: string, groupOrder: seq<string>, locale: (string, string) -> int)
    requires Linear(locale)
    ensures CompareKeys(ga, a, gb, b, groupOrder, locale) < 0 <==> CompareKeys(gb, b, ga, a, groupOrder, locale) > 0
    ensures CompareKeys(ga, a, gb, b, groupOrder, locale) == 0 ==> ga == gb && a == b
  {
    hide Consistent, GroupRank;
    Flip(locale, ga, gb);
    Flip(locale, a, b);
  }

  lemma KeysChain(ga: string, a: string, gb: string, b: string, gc: string, c: string,
                  groupOrder: seq<string>, locale: (string, string) -> int)
    requires Linear(locale)
    requires CompareKeys(ga, a, gb, b, groupOrder, locale) <= 0 && CompareKeys(gb, b, gc, c, groupOrder, locale) <= 0
    ensures CompareKeys(ga, a, gc, c, groupOrder, locale) <= 0
  {
    hide Consistent, GroupRank;
    if locale(ga, gb) <= 0 && locale(gb, gc) <= 0 { Chain(locale, ga, gb, gc); }
    if locale(a, b) <= 0 && locale(b, c) <= 0 { Chain(locale, a, b, c); }
    Flip(locale, ga, gb);
    Flip(locale, gb, gc);
    Flip(locale, ga, gc);
  }

  lemma IsConsistent<T(!new)>(compare: (T, T) -> int)
    requires forall a, b :: compare(a, b) < 0 <==> compare(b, a) > 0
    requires forall a, b, c :: compare(a, b) <= 0 && compare(b, c) <= 0 ==> compare(a, c) <= 0
    ensures Consistent(compare)
  {
  }

  lemma IsLinear<T(!new)>(compare: (T, T) -> int)
    requires forall a, b :: compare(a, b) < 0 <==> compare(b, a) > 0
    requires forall a, b, c :: compare(a, b) <= 0 && compare(b, c) <= 0 ==> compare(a, c) <= 0
    requires forall a, b :: compare(a, b) == 0 ==> a == b
    ensures Linear(compare)
  {
  }

  /** Packages compare consistently, and distinct names never tie. */
  lemma ComparisonsLinear(groups: map<string, string>, groupOrder: seq<string>, locale: (string, string) -> int)
    requires Linear(locale)
    ensures Linear(CompareNames(groups, groupOrder, locale))
    ensures Consistent(ComparePackages(groupOrder, locale))
  {
    hide Linear, CompareKeys, Consistent;
    var names, packages := CompareNames(groups, groupOrder, locale), ComparePackages(groupOrder, locale);
    assert Linear(names) by {
      forall a: string, b: string
        ensures names(a, b) < 0 <==> names(b, a) > 0
        ensures names(a, b) == 0 ==> a == b
      {
        KeysFlip(GroupOf(groups, a), a, GroupOf(groups, b), b, groupOrder, locale);
      }
      forall a: string, b: string, c: string | names(a, b) <= 0 && names(b, c) <= 0 ensures names(a, c) <= 0 {
        KeysChain(GroupOf(groups, a), a, GroupOf(groups, b), b, GroupOf(groups, c), c, groupOrder, locale);
      }
      IsLinear(names);
    }
    assert Consistent(packages) by {
      forall a: Package, b: Package ensures packages(a, b) < 0 <==> packages(b, a) > 0 {
        KeysFlip(a.group, a.short, b.group, b.short, groupOrder, locale);
      }
      forall a: Package, b: Package, c: Package | packages(a, b) <= 0 && packages(b, c) <= 0
        ensures packages(a, c) <= 0
      {
        KeysChain(a.group, a.short, b.group, b.short, c.group, c.short, groupOrder, locale);
      }
      IsConsistent(packages);
    }
  }

  // ---------- Which of two packages comes first ----------

  /** Group `g` stands in the group order, and `h` does not stand before it. */
  ghost predicate EarlierGroup(groupOrder: seq<string>, g: string, h: string) {
    exists i :: 0 <= i < |groupOrder| && groupOrder[i] == g && h !in groupOrder[..i + 1]
  }

  /** Package `a` is of an earlier group; or neither group is earlier, and the locale puts its group first, or else its
      name. */
  ghost predicate Precedes(a: Package, b: Package, groupOrder: seq<string>, locale: (string, string) -> int) {
    || EarlierGroup(groupOrder, a.group, b.group)
    || (!EarlierGroup(groupOrder, b.group, a.group)
        && (locale(a.group, b.group) < 0 || (locale(a.group, b.group) == 0 && locale(a.short, b.short) < 0)))
  }

  lemma {:induction false} IndexOfIs(s: seq<string>, x: string)
    ensures if x in s then 0 <= IndexOf(s, x) < |s| && s[IndexOf(s, x)] == x && x !in s[..IndexOf(s, x)]
            else IndexOf(s, x) == -1
  {
    if s != [] && s[0] != x {
      IndexOfIs(s[1..], x);
      if x in s[1..] { assert s[..IndexOf(s, x)] == [s[0]] + s[1..][..IndexOf(s[1..], x)]; }
    }
  }

  lemma RankEarlier(groupOrder: seq<string>, g: string, h: string)
    requires |groupOrder| <= MAX_SAFE_INTEGER
    ensures GroupRank(g, groupOrder) < GroupRank(h, groupOrder) <==> EarlierGroup(groupOrder, g, h)
  {
    IndexOfIs(groupOrder, g);
    IndexOfIs(groupOrder, h);
    hide IndexOf;
  }

  /** The comparator says just this. */
  lemma ComparedPrecedes(a: Package, b: Package, groupOrder: seq<string>, locale: (string, string) -> int)
    requires |groupOrder| <= MAX_SAFE_INTEGER
    ensures ComparePackages(groupOrder, locale)(a, b) < 0 <==> Precedes(a, b, groupOrder, locale)
  {
    RankEarlier(groupOrder, a.group, b.group);
    RankEarlier(groupOrder, b.group, a.group);
    hide GroupRank, EarlierGroup;
  }

  // ---------- The order the script promises, as a function of the graph alone ----------

  /** The graph of the packages not yet placed. */
  ghost function Remaining(peers: Graph, placed: set<string>): Graph {
    map k | k in peers && k !in placed :: peers[k]
  }

  /** The packages all of whose peers are placed. */
  ghost function Ready(peers: Graph, placed: set<string>): set<string> {
    set k | k in peers && k !in placed && peers[k] <= placed
  }

  /** The sink cycle holding the first of all names that lie in sink cycles. */
  ghost predicate FirstCycle(g: Graph, c: set<string>, compare: (string, string) -> int) {
    && SinkCycle(g, c)
    && exists a :: a in c && forall d, b :: SinkCycle(g, d) && b in d ==> compare(a, b) <= 0
  }

  /** The next packages to place: all ready ones, or else the first sink cycle. */
  ghost predicate IsLayer(peers: Graph, placed: set<string>, layer: set<string>, compare: (string, string) -> int) {
    if Ready(peers, placed) != {} then layer == Ready(peers, placed)
    else FirstCycle(Remaining(peers, placed), layer, compare)
  }

  ghost function Layer(peers: Graph, placed: set<string>, compare: (string, string) -> int): set<string> {
    if c :| IsLayer(peers, placed, c, compare) then c else {}
  }

  lemma LayerWithin(peers: Graph, placed: set<string>, compare: (string, string) -> int)
    ensures Layer(peers, placed, compare) <= peers.Keys - placed
  {
    hide Reach, Edge;
  }

  /** Short names in placement order, after the packages in `placed`. */
  ghost function Order(peers: Graph, placed: set<string>, compare: (string, string) -> int): seq<string>
    decreases |peers.Keys - placed|
  {
    var layer := Layer(peers, placed, compare);
    if layer == {} then []
    else
      LayerWithin(peers, placed, compare);
      assert peers.Keys - (placed + layer) < peers.Keys - placed;
      SubsetSize(peers.Keys - (placed + layer), peers.Keys - placed);
      Arrange(layer, compare) + Order(peers, placed + layer, compare)
  }

  /** Every peer is itself a package. */
  ghost predicate Complete(peers: Graph) {
    forall k :: k in peers ==> peers[k] <= peers.Keys
  }

  /** Two layers for the same position are the same layer. */
  lemma LayerUnique(peers: Graph, placed: set<string>, c: set<string>, d: set<string>, compare: (string, string) -> int)
    requires Linear(compare) && IsLayer(peers, placed, c, compare) && IsLayer(peers, placed, d, compare)
    ensures c == d
  {
    hide Consistent, Reach, Edge;
    if Ready(peers, placed) == {} {
      var g := Remaining(peers, placed);
      var a :| a in c && forall e, b :: SinkCycle(g, e) && b in e ==> compare(a, b) <= 0;
      var b :| b in d && forall e, x :: SinkCycle(g, e) && x in e ==> compare(b, x) <= 0;
      Flip(compare, a, b);
      SccUnique(g, c, d, a);
    }
  }

  lemma LayerIs(peers: Graph, placed: set<string>, c: set<string>, compare: (string, string) -> int)
    requires Linear(compare) && IsLayer(peers, placed, c, compare)
    ensures Layer(peers, placed, compare) == c
  {
    hide Linear, IsLayer;
    LayerUnique(peers, placed, c, Layer(peers, placed, compare), compare);
  }

  /** When no package is ready, each remaining one waits for another remaining one. */
  lemma StuckEdges(peers: Graph, placed: set<string>)
    requires Complete(peers) && Ready(peers, placed) == {}
    ensures forall a :: a in Remaining(peers, placed) ==> exists b :: Edge(Remaining(peers, placed), a, b)
  {
    var g := Remaining(peers, placed);
    forall a | a in g ensures exists b :: Edge(g, a, b) {
      assert a !in Ready(peers, placed);
      var b :| b in peers[a] && b !in placed;
      assert Edge(g, a, b);
    }
  }

  lemma LayerNonEmpty(peers: Graph, placed: set<string>, layer: set<string>, compare: (string, string) -> int)
    requires IsLayer(peers, placed, layer, compare)
    ensures layer != {}
  {
    hide Reach, Edge;
  }

  /** The names that lie in sink cycles. */
  ghost function CycleNames(g: Graph): set<string> {
    set a | a in g && SinkCycle(g, ComponentOf(g, a))
  }

  lemma CycleNamesAre(g: Graph, c: set<string>, a: string)
    requires SinkCycle(g, c) && a in c
    ensures a in CycleNames(g) && ComponentOf(g, a) == c
  {
    hide Reach, Edge;
    ComponentIsScc(g, a);
    SccUnique(g, c, ComponentOf(g, a), a);
  }

  lemma NonEmptyCycle(g: Graph, c: set<string>)
    requires SinkCycle(g, c)
    ensures exists x :: x in c
  {
    hide Reach, Edge;
  }

  lemma SelfTie(compare: (string, string) -> int, a: string)
    requires Linear(compare)
    ensures compare(a, a) == 0
  {
    hide Consistent;
    Flip(compare, a, a);
  }

  lemma FirstCycleExists(g: Graph, c: set<string>, compare: (string, string) -> int) returns (first: set<string>)
    requires SinkCycle(g, c) && Linear(compare)
    ensures FirstCycle(g, first, compare)
  {
    hide Reach, Edge, Linear, SinkCycle;
    var x :| x in c by { hide *; NonEmptyCycle(g, c); }
    CycleNamesAre(g, c, x);
    var names := CycleNames(g);
    ArrangeExists(names, compare);
    var q := Arrange(names, compare);
    assert x in q;
    first := ComponentOf(g, q[0]);
    assert q[0] in q;
    forall d, b | SinkCycle(g, d) && b in d ensures compare(q[0], b) <= 0 {
      CycleNamesAre(g, d, b);
      var i :| 0 <= i < |q| && q[i] == b;
      SelfTie(compare, b);
    }
    ComponentIsScc(g, q[0]);
  }

  /** While packages remain and none is ready, some sink cycle can be placed. */
  lemma LayerExists(peers: Graph, placed: set<string>, compare: (string, string) -> int)
    requires Complete(peers) && Linear(compare) && !(peers.Keys <= placed)
    ensures IsLayer(peers, placed, Layer(peers, placed, compare), compare) && Layer(peers, placed, compare) != {}
  {
    hide Reach, Linear, Edge, Ready, Scc, Complete, Cyclic, Closed;
    var g := Remaining(peers, placed);
    if Ready(peers, placed) != {} {
      assert IsLayer(peers, placed, Ready(peers, placed), compare);
    } else {
      StuckEdges(peers, placed);
      var k :| k in peers && k !in placed;
      assert k in g;
      var c := SinkCycleExists(g);
      var first := FirstCycleExists(g, c, compare);
      assert IsLayer(peers, placed, first, compare);
    }
    LayerNonEmpty(peers, placed, Layer(peers, placed, compare), compare);
  }

  /** A dependency comes before its dependent, was already placed, or lies in one cycle with it. */
  ghost predicate Respects(peers: Graph, placed: set<string>, out: seq<string>) {
    forall i, d :: 0 <= i < |out| && out[i] in peers && d in peers[out[i]] ==>
      d in placed || d in out[..i] || Mutual(peers, out[i], d)
  }

  lemma RemainingEdge(peers: Graph, placed: set<string>, a: string, d: string)
    requires Complete(peers) && a in peers && a !in placed && d in peers[a] && d !in placed
    ensures Edge(Remaining(peers, placed), a, d)
  {
  }

  lemma RemainingMutual(peers: Graph, placed: set<string>, a: string, d: string)
    requires Mutual(Remaining(peers, placed), a, d)
    ensures Mutual(peers, a, d)
  {
    hide Reach;
    ReachMonotone(Remaining(peers, placed), peers, a, d);
    ReachMonotone(Remaining(peers, placed), peers, d, a);
  }

  lemma LayerRespects(peers: Graph, placed: set<string>, layer: set<string>, a: string, d: string,
                      compare: (string, string) -> int)
    requires Complete(peers) && IsLayer(peers, placed, layer, compare) && a in layer && a in peers && d in peers[a]
    ensures d in placed || Mutual(peers, a, d)
  {
    hide Reach, Edge;
    if Ready(peers, placed) == {} && d !in placed {
      var g := Remaining(peers, placed);
      RemainingEdge(peers, placed, a, d);
      assert d in layer;
      RemainingMutual(peers, placed, a, d);
    }
  }

  lemma EmptyOrder(peers: Graph, placed: set<string>)
    ensures NoRepeats<string>([]) && Respects(peers, placed, [])
  {
  }

  lemma ArrangeMembers(layer: set<string>, compare: (string, string) -> int)
    requires Linear(compare)
    ensures forall k :: k in Arrange(layer, compare) <==> k in layer
  {
    hide Linear;
    ArrangeExists(layer, compare);
  }

  lemma OrderStep(peers: Graph, placed: set<string>, layer: set<string>, rest: seq<string>,
                  compare: (string, string) -> int)
    requires Complete(peers) && Linear(compare) && IsLayer(peers, placed, layer, compare)
    requires layer <= peers.Keys - placed
    requires forall k :: k in rest <==> k in peers && k !in placed + layer
    requires NoRepeats(rest) && Respects(peers, placed + layer, rest)
    ensures NoRepeats(Arrange(layer, compare) + rest)
    ensures Respects(peers, placed, Arrange(layer, compare) + rest)
  {
    hide Reach, Edge, IsLayer, Complete;
    ArrangeExists(layer, compare);
    hide Linear;
    var head := Arrange(layer, compare);
    var out := head + rest;
    forall i, j | 0 <= i < j < |out| ensures out[i] != out[j] {
      if j < |head| { SelfTie(compare, head[i]); }
      else if i < |head| { assert head[i] in head && rest[j - |head|] in rest; }
    }
    forall i, d | 0 <= i < |out| && out[i] in peers && d in peers[out[i]]
      ensures d in placed || d in out[..i] || Mutual(peers, out[i], d)
    {
      if i < |head| {
        assert head[i] in head;
        LayerRespects(peers, placed, layer, out[i], d, compare);
      } else {
        assert out[..i] == head + rest[..i - |head|];
      }
    }
  }

  /** The order lists every package once and respects dependencies. */
  lemma {:induction false} OrderCorrect(peers: Graph, placed: set<string>, compare: (string, string) -> int)
    requires Complete(peers) && Linear(compare)
    ensures forall k :: k in Order(peers, placed, compare) <==> k in peers && k !in placed
    ensures NoRepeats(Order(peers, placed, compare))
    ensures Respects(peers, placed, Order(peers, placed, compare))
    decreases |peers.Keys - placed|
  {
    hide Reach, Edge, Linear, IsLayer, Complete, Layer, Respects, NoRepeats, Arrange, Arranges;
    LayerWithin(peers, placed, compare);
    var layer := Layer(peers, placed, compare);
    if layer == {} {
      if !(peers.Keys <= placed) { LayerExists(peers, placed, compare); }
      EmptyOrder(peers, placed);
    } else {
      assert !(peers.Keys <= placed);
      LayerExists(peers, placed, compare);
      assert peers.Keys - (placed + layer) < peers.Keys - placed;
      SubsetSize(peers.Keys - (placed + layer), peers.Keys - placed);
      OrderCorrect(peers, placed + layer, compare);
      OrderStep(peers, placed, layer, Order(peers, placed + layer, compare), compare);
      ArrangeMembers(layer, compare);
    }
  }

  /** Without cycles, every dependency strictly precedes its dependent. */
  lemma AcyclicOrder(peers: Graph, compare: (string, string) -> int, i: nat, d: string)
    requires Complete(peers) && Linear(compare) && Acyclic(peers)
    requires i < |Order(peers, {}, compare)| && Order(peers, {}, compare)[i] in peers
    requires d in peers[Order(peers, {}, compare)[i]]
    ensures d in Order(peers, {}, compare)[..i]
  {
    hide Reach, Linear, Order;
    OrderCorrect(peers, {}, compare);
    var a := Order(peers, {}, compare)[i];
    assert Edge(peers, a, d);
    assert !Reach(peers, d, a);
  }

  // ---------- The script ----------

  datatype GraphError = MissingPeer(package: string, peer: string) | CouldNotOrder

  /** The packages under their short names; a later package replaces an earlier one of the same name. */
  function ByName(packages: seq<Package>): PackageMap {
    if packages == [] then map[]
    else
      var last := packages[|packages| - 1];
      ByName(packages[..|packages| - 1])[last.short := last]
  }

  ghost function Groups(m: PackageMap): map<string, string> {
    map k | k in m :: m[k].group
  }

  ghost predicate LatestAt(packages: seq<Package>, p: Package, i: nat) {
    i < |packages| && packages[i] == p && p.short !in Shorts(packages[i + 1..])
  }

  /** The last of the packages listed under its name. */
  ghost predicate Latest(packages: seq<Package>, p: Package) {
    exists i :: LatestAt(packages, p, i)
  }

  lemma ShortsPush(packages: seq<Package>, p: Package)
    ensures Shorts(packages + [p]) == Shorts(packages) + {p.short}
  {
    assert forall q :: q in packages + [p] <==> q in packages || q == p;
  }

  lemma LatestPush(packages: seq<Package>, last: Package, p: Package, i: nat)
    ensures LatestAt(packages + [last], p, i) <==>
              (i == |packages| && p == last) || (LatestAt(packages, p, i) && p.short != last.short)
  {
    var more := packages + [last];
    if i < |packages| {
      assert more[i + 1..] == packages[i + 1..] + [last];
      ShortsPush(packages[i + 1..], last);
    }
  }

  /** The index holds the last package of each name. */
  lemma {:induction false} ByNameLatest(packages: seq<Package>)
    ensures ByName(packages).Keys == Shorts(packages)
    ensures forall p :: Latest(packages, p) <==> p.short in ByName(packages) && ByName(packages)[p.short] == p
  {
    if packages != [] {
      var rest, last := packages[..|packages| - 1], packages[|packages| - 1];
      assert packages == rest + [last];
      ByNameLatest(rest);
      ShortsPush(rest, last);
      hide Shorts, LatestAt;
      forall p, i: nat ensures LatestAt(packages, p, i) <==>
                (i == |rest| && p == last) || (LatestAt(rest, p, i) && p.short != last.short) {
        LatestPush(rest, last, p, i);
      }
      assert LatestAt(packages, last, |rest|);
    }
  }

  /** The promised order of a list of packages, as short names. */
  ghost function PromisedOrder(packages: seq<Package>, groupOrder: seq<string>,
                               locale: (string, string) -> int): seq<string> {
    var m := ByName(packages);
    Order(PeerGraph(m), {}, CompareNames(Groups(m), groupOrder, locale))
  }

  /** Peer `k` of package `i` is not among the packages. */
  ghost predicate MissingAt(packages: seq<Package>, i: nat, k: nat) {
    i < |packages| && k < |packages[i].deps| && packages[i].deps[k] !in Shorts(packages)
  }

  /** The first missing peer, in the order the packages and their peers are listed. */
  ghost predicate FirstMissing(packages: seq<Package>, i: nat, k: nat) {
    && MissingAt(packages, i, k)
    && forall a: nat, b: nat :: MissingAt(packages, a, b) ==> i < a || (i == a && k <= b)
  }

  type Component = c: seq<Package> | |c| > 0 witness [Package("", "", "", "", [])]

  function CompareComponents(groupOrder: seq<string>, locale: (string, string) -> int): (Component, Component) -> int {
    (a: Component, b: Component) => ComparePackages(groupOrder, locale)(a[0], b[0])
  }

  /** The first element of a list, or the script's last throw. */
  function FirstOrThrow(components: seq<Component>): Result<Component, GraphError> {
    if components == [] then Err(CouldNotOrder) else Ok(components[0])
  }

  function Values(keys: seq<string>, m: PackageMap): seq<Package>
    requires forall k :: k in keys ==> k in m
  {
    seq(|keys|, i requires 0 <= i < |keys| => assert keys[i] in keys; m[keys[i]])
  }

  lemma {:induction false} ByNameMembers(packages: seq<Package>)
    ensures forall k :: k in ByName(packages) ==> ByName(packages)[k] in packages
    ensures forall p :: p in packages ==> p.short in ByName(packages)
  {
    if packages != [] {
      var rest, last := packages[..|packages| - 1], packages[|packages| - 1];
      assert packages == rest + [last];
      ByNameMembers(rest);
    }
  }

  lemma NamesMembers(ps: seq<Package>)
    ensures forall x :: x in Names(ps) <==> x in Shorts(ps)
  {
    forall x ensures x in Names(ps) <==> x in Shorts(ps) {
      if x in Shorts(ps) {
        var p :| p in ps && p.short == x;
        var i :| 0 <= i < |ps| && ps[i] == p;
        assert Names(ps)[i] == x;
      }
    }
  }

  lemma SortedStrict(m: PackageMap, ps: seq<Package>, sorted: seq<Package>, groupOrder: seq<string>,
                     locale: (string, string) -> int)
    requires Linear(locale) && NoRepeats(sorted) && Within(sorted, m)
    requires Ascending(sorted, ComparePackages(groupOrder, locale))
    ensures forall i, j :: 0 <= i < j < |sorted| ==>
              CompareNames(Groups(m), groupOrder, locale)(sorted[i].short, sorted[j].short) < 0
  {
    hide Consistent, GroupRank;
    forall i, j | 0 <= i < j < |sorted|
      ensures CompareNames(Groups(m), groupOrder, locale)(sorted[i].short, sorted[j].short) < 0
    {
      var a, b := sorted[i], sorted[j];
      assert ComparePackages(groupOrder, locale)(a, b) <= 0;
      KeysFlip(a.group, a.short, b.group, b.short, groupOrder, locale);
      assert a.short != b.short;
    }
  }

  lemma SortedWithin(m: PackageMap, ps: seq<Package>, sorted: seq<Package>)
    requires Distinct(ps) && Within(ps, m) && multiset(sorted) == multiset(ps)
    requires forall p :: p in sorted <==> p in ps
    ensures Within(sorted, m) && NoRepeats(sorted) && Shorts(sorted) == Shorts(ps)
  {
    assert NoRepeats(ps);
    PermutationNoRepeats(ps, sorted);
    assert forall i :: 0 <= i < |sorted| ==> sorted[i] in sorted;
  }

  /** Sorting packages of the graph arranges their short names. */
  lemma SortedNames(m: PackageMap, ps: seq<Package>, groupOrder: seq<string>, locale: (string, string) -> int)
    requires Linear(locale) && Distinct(ps) && Within(ps, m)
    ensures var sorted := Sort(ps, ComparePackages(groupOrder, locale));
            Arranges(Names(sorted), Shorts(ps), CompareNames(Groups(m), groupOrder, locale)) && Within(sorted, m)
            && Shorts(sorted) == Shorts(ps)
  {
    hide Consistent, CompareNames, ComparePackages, Sort, Linear, Within, Distinct, Shorts, NoRepeats;
    hide Groups, Ascending;
    ComparisonsLinear(Groups(m), groupOrder, locale);
    var compare := ComparePackages(groupOrder, locale);
    var sorted := Sort(ps, compare);
    SortSorts(ps, compare);
    SortMembers(ps, compare);
    SortedWithin(m, ps, sorted);
    SortedStrict(m, ps, sorted, groupOrder, locale);
    NamesMembers(sorted);
  }

  predicate IsReady(pkg: Package, placed: set<string>) {
    forall d :: d in pkg.deps ==> d in placed
  }

  ghost function Without(m: PackageMap, placed: set<string>): PackageMap {
    map k | k in m && k !in placed :: m[k]
  }

  lemma WithoutOne(m: PackageMap, placed: set<string>, name: string)
    ensures var rest := Without(m, placed);
            Without(m, placed + {name}) == map k | k in rest && k != name :: rest[k]
  {
  }

  lemma ReadyNames(m: PackageMap, keys: seq<string>, remaining: PackageMap, placed: set<string>)
    requires remaining == Without(m, placed) && NoRepeats(keys) && forall k :: k in keys <==> k in remaining
    ensures var ready := Filter(Values(keys, remaining), (p: Package) => IsReady(p, placed));
            Distinct(ready) && Within(ready, m) && Shorts(ready) == Ready(PeerGraph(m), placed)
  {
    var values := Values(keys, remaining);
    var keep := (p: Package) => IsReady(p, placed);
    var ready := Filter(values, keep);
    forall i, j | 0 <= i < j < |values| ensures values[i] != values[j] {
      assert keys[i] in keys && keys[j] in keys;
    }
    FilterNoRepeats(values, keep);
    forall p ensures p in ready <==> p.short in remaining && remaining[p.short] == p && IsReady(p, placed) {
      if p in values {
        var i :| 0 <= i < |values| && values[i] == p;
        assert keys[i] in keys;
      }
      if p.short in remaining && remaining[p.short] == p {
        var i :| 0 <= i < |keys| && keys[i] == p.short;
        assert values[i] == p;
      }
    }
    forall k ensures k in Shorts(ready) <==> k in Ready(PeerGraph(m), placed) {
      if k in Ready(PeerGraph(m), placed) {
        assert m[k].deps == m[k].deps && remaining[k] == m[k];
        assert remaining[k] in ready;
      }
    }
    assert forall i :: 0 <= i < |ready| ==> ready[i] in ready;
  }

  lemma PackagesComplete(packages: seq<Package>)
    requires forall i: nat, k: nat :: !MissingAt(packages, i, k)
    ensures Complete(PeerGraph(ByName(packages)))
  {
    var m := ByName(packages);
    ByNameMembers(packages);
    forall a, d | a in m && d in m[a].deps ensures d in m {
      var i :| 0 <= i < |packages| && packages[i] == m[a];
      var k :| 0 <= k < |m[a].deps| && m[a].deps[k] == d;
      assert !MissingAt(packages, i, k);
    }
  }

  lemma WithoutPeers(m: PackageMap, placed: set<string>)
    ensures PeerGraph(Without(m, placed)) == Remaining(PeerGraph(m), placed)
  {
  }

  /** `component` lists the packages named in `c`, in order. */
  ghost predicate Lists(m: PackageMap, component: seq<Package>, c: set<string>, names: (string, string) -> int) {
    Shorts(component) == c && Within(component, m) && Arranges(Names(component), c, names)
  }

  lemma LinearChain(names: (string, string) -> int, a: string, b: string, c: string)
    requires Linear(names) && names(a, b) <= 0 && names(b, c) <= 0
    ensures names(a, c) <= 0
  {
    hide Consistent;
    Chain(names, a, b, c);
  }

  lemma ListsFacts(m: PackageMap, component: Component, c: set<string>, names: (string, string) -> int)
    requires Lists(m, component, c, names)
    ensures Shorts(component) == c && Within(component, m) && Arranges(Names(component), c, names)
    ensures component[0].short in c
  {
    assert component[0] in component;
  }

  lemma FirstBelow(c: Component, d: set<string>, b: string, names: (string, string) -> int)
    requires Arranges(Names(c), d, names) && b in d && Linear(names)
    ensures names(c[0].short, b) <= 0
  {
    hide Consistent;
    var i :| 0 <= i < |Names(c)| && Names(c)[i] == b;
    assert Names(c)[0] == c[0].short;
    SelfTie(names, b);
  }

  lemma FirstKeys(m: PackageMap, a: Component, b: Component, groupOrder: seq<string>, locale: (string, string) -> int)
    requires Within(a, m) && Within(b, m)
    ensures CompareNames(Groups(m), groupOrder, locale)(a[0].short, b[0].short)
         == CompareComponents(groupOrder, locale)(a, b)
  {
    assert GroupOf(Groups(m), a[0].short) == a[0].group;
    assert GroupOf(Groups(m), b[0].short) == b[0].group;
    assert CompareComponents(groupOrder, locale)(a, b) == ComparePackages(groupOrder, locale)(a[0], b[0]);
  }

  /** The head of a component sorted first names no later than any member of another. */
  lemma FirstBeforeMember(m: PackageMap, first: Component, c: Component, d: set<string>, b: string,
                          groupOrder: seq<string>, locale: (string, string) -> int)
    requires Linear(locale) && CompareComponents(groupOrder, locale)(first, c) <= 0 && Within(first, m)
    requires Lists(m, c, d, CompareNames(Groups(m), groupOrder, locale)) && b in d
    ensures CompareNames(Groups(m), groupOrder, locale)(first[0].short, b) <= 0
  {
    var names := CompareNames(Groups(m), groupOrder, locale);
    ComparisonsLinear(Groups(m), groupOrder, locale);
    hide *;
    ListsFacts(m, c, d, names);
    FirstBelow(c, d, b, names);
    FirstKeys(m, first, c, groupOrder, locale);
    LinearChain(names, first[0].short, c[0].short, b);
  }

  /** The sorted components, least first, start with the first cycle. */
  lemma FirstOfSorted(g: Graph, m: PackageMap, cycles: seq<seq<Package>>, sorted: seq<Component>, first: Component,
                      groupOrder: seq<string>, locale: (string, string) -> int)
    requires Linear(locale) && |sorted| == |cycles|
    requires forall i :: 0 <= i < |cycles| ==>
               SinkCycle(g, Shorts(cycles[i])) &&
               Lists(m, sorted[i], Shorts(cycles[i]), CompareNames(Groups(m), groupOrder, locale))
    requires forall c :: SinkCycle(g, c) ==> exists i :: 0 <= i < |cycles| && SameComponent(cycles[i], c)
    requires first in sorted
    requires forall c :: c in sorted ==> CompareComponents(groupOrder, locale)(first, c) <= 0
    ensures FirstCycle(g, Shorts(first), CompareNames(Groups(m), groupOrder, locale))
  {
    hide SinkCycle, Consistent, CompareKeys, Linear, Lists, CompareNames, CompareComponents;
    var names := CompareNames(Groups(m), groupOrder, locale);
    var n :| 0 <= n < |sorted| && sorted[n] == first;
    ListsFacts(m, first, Shorts(cycles[n]), names);
    var a := first[0].short;
    forall d, b | SinkCycle(g, d) && b in d ensures names(a, b) <= 0 {
      var i :| 0 <= i < |cycles| && SameComponent(cycles[i], d);
      var c := sorted[i];
      assert c in sorted;
      FirstBeforeMember(m, first, c, d, b, groupOrder, locale);
    }
  }

  lemma ComponentsConsistent(groupOrder: seq<string>, locale: (string, string) -> int)
    requires Linear(locale)
    ensures Consistent(CompareComponents(groupOrder, locale))
  {
    ComparisonsLinear(map[], groupOrder, locale);
    hide Linear, CompareKeys, ComparePackages;
    var packages, compare := ComparePackages(groupOrder, locale), CompareComponents(groupOrder, locale);
    assert forall a: Component, b: Component :: compare(a, b) == packages(a[0], b[0]);
    forall a: Component, b: Component, c: Component | compare(a, b) <= 0 && compare(b, c) <= 0
      ensures compare(a, c) <= 0
    {
      Chain(packages, a[0], b[0], c[0]);
    }
    forall a: Component, b: Component ensures compare(a, b) < 0 <==> compare(b, a) > 0 {
      Flip(packages, a[0], b[0]);
    }
  }

  lemma CycleMember(g: Graph, cycle: seq<Package>, sorted: seq<Package>) returns (x: string)
    requires SinkCycle(g, Shorts(cycle)) && Shorts(sorted) == Shorts(cycle)
    ensures sorted != []
  {
    hide Reach, Edge;
    x :| x in Shorts(cycle);
    assert x in Shorts(sorted);
  }

  lemma FirstRanked(ranked: seq<Component>, compare: (Component, Component) -> int)
    requires Consistent(compare) && Ascending(ranked, compare) && ranked != []
    ensures forall c :: c in ranked ==> compare(ranked[0], c) <= 0
  {
    hide Consistent;
    Flip(compare, ranked[0], ranked[0]);
  }

  /** The cycle placed when nothing is ready: sort each component, then the components, and take the first. */
  method FirstCycleOf(keys: seq<string>, remaining: PackageMap, ghost m: PackageMap, groupOrder: seq<string>,
                      locale: (string, string) -> int)
    returns (first: Result<Component, GraphError>)
    requires Linear(locale) && remaining != map[] && forall k :: k in remaining ==> k in m && m[k] == remaining[k]
    requires forall k :: k in keys <==> k in remaining
    requires forall a :: a in remaining ==> exists b :: Edge(PeerGraph(remaining), a, b)
    ensures first.Ok?
    ensures FirstCycle(PeerGraph(remaining), Shorts(first.value), CompareNames(Groups(m), groupOrder, locale))
    ensures Lists(m, first.value, Shorts(first.value), CompareNames(Groups(m), groupOrder, locale))
  {
    hide PeerGraph, SinkCycle, Linear, Edge, CompareNames, ComparePackages, CompareComponents, Distinct, Sort, Arranges;
    hide Consistent;
    ghost var g, names := PeerGraph(remaining), CompareNames(Groups(m), groupOrder, locale);
    var cycles := SinkCycles(keys, remaining);
    var sorted: seq<Component> := [];
    for i := 0 to |cycles|
      invariant |sorted| == i
      invariant forall k :: 0 <= k < i ==> Lists(m, sorted[k], Shorts(cycles[k]), names)
    {
      assert Within(cycles[i], m);
      SortedNames(m, cycles[i], groupOrder, locale);
      ghost var x := CycleMember(g, cycles[i], Sort(cycles[i], ComparePackages(groupOrder, locale)));
      sorted := sorted + [Sort(cycles[i], ComparePackages(groupOrder, locale))];
    }
    hide Within;
    var ranked := Sort(sorted, CompareComponents(groupOrder, locale));
    ComponentsConsistent(groupOrder, locale);
    SortMembers(sorted, CompareComponents(groupOrder, locale));
    SortSorts(sorted, CompareComponents(groupOrder, locale));
    PeerKeys(remaining);
    ghost var c := SinkCycleExists(g);
    first := FirstOrThrow(ranked);
    assert first.value in ranked;
    assert Lists(m, first.value, Shorts(first.value), names);
    FirstRanked(ranked, CompareComponents(groupOrder, locale));
    FirstOfSorted(g, m, cycles, sorted, first.value, groupOrder, locale);
  }

  lemma {:induction false} ByNameStep(packages: seq<Package>, i: nat)
    requires i < |packages|
    ensures ByName(packages[..i + 1]) == ByName(packages[..i])[packages[i].short := packages[i]]
  {
    assert packages[..i + 1][..i] == packages[..i];
  }

  /** What has been emitted is the promised order up to what the placed packages leave to order. */
  ghost predicate Progress(m: PackageMap, placed: set<string>, out: seq<Package>, compare: (string, string) -> int) {
    && Within(out, m) && placed <= m.Keys
    && Order(PeerGraph(m), {}, compare) == Names(out) + Order(PeerGraph(m), placed, compare)
  }

  /** One pass of the main loop extends the order by exactly its next layer. */
  lemma PlaceLayer(m: PackageMap, placed: set<string>, out: seq<Package>, ready: seq<Package>,
                   compare: (string, string) -> int)
    requires Linear(compare) && ready != [] && Progress(m, placed, out, compare)
    requires IsLayer(PeerGraph(m), placed, Shorts(ready), compare) && Lists(m, ready, Shorts(ready), compare)
    ensures Progress(m, placed + Shorts(ready), out + ready, compare)
    ensures placed < placed + Shorts(ready) <= m.Keys
  {
    hide IsLayer, Consistent, Arranges, PeerGraph;
    PeerKeys(m);
    LayerIs(PeerGraph(m), placed, Shorts(ready), compare);
    LayerWithin(PeerGraph(m), placed, compare);
    ArrangeIs(Names(ready), Shorts(ready), compare);
    assert ready[0].short in Shorts(ready);
    assert Names(out + ready) == Names(out) + Names(ready);
  }

  /** Emit the ready packages: each is appended, marked placed and deleted from what remains. */
  method Place(ghost m: PackageMap, out0: seq<Package>, placed0: set<string>, keys: seq<string>, remaining0: PackageMap,
               ready: seq<Package>)
    returns (out: seq<Package>, placed: set<string>, left: seq<string>, remaining: PackageMap)
    requires NoRepeats(keys) && (forall k :: k in keys <==> k in remaining0) && remaining0 == Without(m, placed0)
    ensures out == out0 + ready && placed == placed0 + Shorts(ready) && remaining == Without(m, placed)
    ensures NoRepeats(left) && forall k :: k in left <==> k in remaining
  {
    out, placed, remaining := out0, placed0, remaining0;
    assert ready[..0] == [] && Shorts([]) == {};
    hide Shorts, Without, NoRepeats;
    for i := 0 to |ready|
      invariant out == out0 + ready[..i] && placed == placed0 + Shorts(ready[..i]) && remaining == Without(m, placed)
      invariant remaining.Keys <= remaining0.Keys
    {
      var pkg := ready[i];
      assert ready[..i + 1] == ready[..i] + [pkg];
      ShortsAppend(ready[..i], pkg);
      WithoutOne(m, placed, pkg.short);
      out := out + [pkg];
      placed := placed + {pkg.short};
      remaining := map k | k in remaining && k != pkg.short :: remaining[k];
    }
    assert ready[..|ready|] == ready;
    var last := remaining;
    left := Filter(keys, (k: string) => k in last);
    FilterNoRepeats(keys, (k: string) => k in last);
  }

  method IndexByName(packages: seq<Package>) returns (byName: PackageMap, keys: seq<string>)
    ensures byName == ByName(packages)
    ensures NoRepeats(keys) && forall k :: k in keys <==> k in byName
  {
    byName, keys := map[], [];
    for i := 0 to |packages|
      invariant byName == ByName(packages[..i])
      invariant NoRepeats(keys) && forall k :: k in keys <==> k in byName
    {
      ByNameStep(packages, i);
      if packages[i].short !in byName {
        keys := keys + [packages[i].short];
      }
      byName := byName[packages[i].short := packages[i]];
    }
    assert packages[..|packages|] == packages;
  }

  /** The next packages to place, in order. */
  method NextReady(ghost m: PackageMap, left: seq<string>, remaining: PackageMap, placed: set<string>,
                   groupOrder: seq<string>, locale: (string, string) -> int)
    returns (ready: Result<seq<Package>, GraphError>)
    requires Linear(locale) && Complete(PeerGraph(m)) && remaining == Without(m, placed) && left != []
    requires NoRepeats(left) && forall k :: k in left <==> k in remaining
    ensures ready.Ok? && ready.value != []
    ensures IsLayer(PeerGraph(m), placed, Shorts(ready.value), CompareNames(Groups(m), groupOrder, locale))
    ensures Lists(m, ready.value, Shorts(ready.value), CompareNames(Groups(m), groupOrder, locale))
  {
    hide PeerGraph, Linear, Edge, CompareNames, ComparePackages, Distinct, Sort, Arranges, Complete, Values, Filter;
    hide FirstCycle, Within, Ready;
    var waiting := Filter(Values(left, remaining), (p: Package) => IsReady(p, placed));
    ReadyNames(m, left, remaining, placed);
    SortedNames(m, waiting, groupOrder, locale);
    var sorted := Sort(waiting, ComparePackages(groupOrder, locale));
    if sorted != [] {
      assert sorted[0].short in Shorts(sorted);
      return Ok(sorted);
    }
    assert Ready(PeerGraph(m), placed) == {};
    WithoutPeers(m, placed);
    StuckEdges(PeerGraph(m), placed);
    PeerKeys(remaining);
    assert left[0] in left;
    var cycle := FirstCycleOf(left, remaining, m, groupOrder, locale);
    ready := Ok(cycle.value);
  }

  lemma NothingPlaced(m: PackageMap, compare: (string, string) -> int)
    ensures Without(m, {}) == m && Progress(m, {}, [], compare)
  {
    hide Order;
  }

  lemma OrderEnds(m: PackageMap, placed: set<string>, out: seq<Package>, compare: (string, string) -> int)
    requires Without(m, placed).Keys == {} && Progress(m, placed, out, compare)
    ensures Names(out) == Order(PeerGraph(m), {}, compare) && Within(out, m)
  {
    hide PeerGraph;
    PeerKeys(m);
    LayerWithin(PeerGraph(m), placed, compare);
    assert forall k :: k in m && k !in placed ==> k in Without(m, placed);
  }

  /** The ordering loop. */
  method PlaceAll(byName: PackageMap, keys: seq<string>, groupOrder: seq<string>, locale: (string, string) -> int)
    returns (r: Result<seq<Package>, GraphError>)
    requires Linear(locale) && Complete(PeerGraph(byName))
    requires NoRepeats(keys) && forall k :: k in keys <==> k in byName
    ensures r.Ok? && Within(r.value, byName)
    ensures Names(r.value) == Order(PeerGraph(byName), {}, CompareNames(Groups(byName), groupOrder, locale))
  {
    ghost var compare := CompareNames(Groups(byName), groupOrder, locale);
    ComparisonsLinear(Groups(byName), groupOrder, locale);
    hide Linear, PeerGraph, CompareNames, Complete, IsLayer, Lists, Order, NoRepeats, Shorts, Without, Consistent;
    hide Progress;
    var remaining, left := byName, keys;
    var placed: set<string>, out: seq<Package> := {}, [];
    NothingPlaced(byName, compare);
    while left != []
      invariant remaining == Without(byName, placed)
      invariant NoRepeats(left) && forall k :: k in left <==> k in remaining
      invariant Progress(byName, placed, out, compare)
      decreases byName.Keys - placed
    {
      var next := NextReady(byName, left, remaining, placed, groupOrder, locale);
      PlaceLayer(byName, placed, out, next.value, compare);
      out, placed, left, remaining := Place(byName, out, placed, left, remaining, next.value);
    }
    OrderEnds(byName, placed, out, compare);
    r := Ok(out);
  }

  /** Find the first missing peer. */
  method CheckPeers(packages: seq<Package>, byName: PackageMap) returns (missing: Option<GraphError>)
    requires byName.Keys == Shorts(packages)
    ensures missing.None? <==> forall i: nat, k: nat :: !MissingAt(packages, i, k)
    ensures missing.Some? ==> exists i: nat, k: nat :: FirstMissing(packages, i, k)
                                && missing.value == MissingPeer(packages[i].name, packages[i].deps[k])
  {
    hide Shorts;
    for i := 0 to |packages|
      invariant forall a: nat, b: nat :: a < i ==> !MissingAt(packages, a, b)
    {
      var pkg := packages[i];
      for k := 0 to |pkg.deps|
        invariant forall b: nat :: b < k ==> !MissingAt(packages, i, b)
      {
        if pkg.deps[k] !in byName {
          assert FirstMissing(packages, i, k);
          return Some(MissingPeer(pkg.name, pkg.deps[k]));
        }
      }
    }
    missing := None;
  }

  /** The packages listed, each once, the last of those listed under one name. */
  ghost predicate ListsLatest(packages: seq<Package>, out: seq<Package>) {
    NoRepeats(out) && forall p :: p in out <==> Latest(packages, p)
  }

  /** The promised order lists the packages. */
  lemma OrderLists(packages: seq<Package>, out: seq<Package>, groupOrder: seq<string>, locale: (string, string) -> int)
    requires Linear(locale) && Complete(PeerGraph(ByName(packages))) && Within(out, ByName(packages))
    requires Names(out) == PromisedOrder(packages, groupOrder, locale)
    ensures ListsLatest(packages, out)
  {
    var m := ByName(packages);
    ByNameLatest(packages);
    ComparisonsLinear(Groups(m), groupOrder, locale);
    hide Linear, PeerGraph, CompareNames, Order, Respects, Complete, Latest, ByName, Shorts;
    OrderCorrect(PeerGraph(m), {}, CompareNames(Groups(m), groupOrder, locale));
    PeerKeys(m);
    forall i, j | 0 <= i < j < |out| ensures out[i] != out[j] { assert Names(out)[i] != Names(out)[j]; }
    forall p ensures p in out <==> Latest(packages, p) {
      if p in out {
        var i :| 0 <= i < |out| && out[i] == p;
      }
      if Latest(packages, p) {
        assert p.short in Names(out);
        var i :| 0 <= i < |out| && Names(out)[i] == p.short;
        assert out[i].short in m && m[out[i].short] == out[i];
      }
    }
  }

  /** Order packages so that dependencies come first; within a layer, by group and name. */
  method TopoSort(packages: seq<Package>, groupOrder: seq<string>, locale: (string, string) -> int)
    returns (r: Result<seq<Package>, GraphError>)
    requires Linear(locale)
    ensures r.Ok? <==> forall i: nat, k: nat :: !MissingAt(packages, i, k)
    ensures r.Err? ==> exists i: nat, k: nat :: FirstMissing(packages, i, k)
                         && r.error == MissingPeer(packages[i].name, packages[i].deps[k])
    ensures r.Ok? ==> Names(r.value) == PromisedOrder(packages, groupOrder, locale) && ListsLatest(packages, r.value)
    ensures r.Ok? && |groupOrder| <= MAX_SAFE_INTEGER ==>
              InLayers(ByName(packages), {}, r.value, groupOrder, locale)
  {
    ByNameLatest(packages);
    hide Linear, MissingAt, ByName, Shorts, Order, CompareNames, PeerGraph, Complete, Within, InLayers, Latest;
    hide ListsLatest;
    var byName, keys := IndexByName(packages);
    var missing := CheckPeers(packages, byName);
    if missing.Some? {
      return Err(missing.value);
    }
    PackagesComplete(packages);
    r := PlaceAll(byName, keys, groupOrder, locale);
    OrderLists(packages, r.value, groupOrder, locale);
    if |groupOrder| <= MAX_SAFE_INTEGER { OrderInLayers(byName, {}, r.value, groupOrder, locale); }
  }

  // ---------- What the order promises ----------

  /** The package `first` precedes those of all sink cycles, but for itself. */
  ghost predicate HeadsCycles(m: PackageMap, g: Graph, first: Package, groupOrder: seq<string>,
                              locale: (string, string) -> int)
  {
    forall c, b :: SinkCycle(g, c) && b in c ==> b in m && (m[b] == first || Precedes(first, m[b], groupOrder, locale))
  }

  /** A layer as it is emitted: its packages follow one another as they compare. It holds all that is ready or, when
      nothing is, the sink cycle whose first package precedes the packages of all sink cycles. */
  ghost predicate Emits(m: PackageMap, placed: set<string>, layer: seq<Package>, groupOrder: seq<string>,
                        locale: (string, string) -> int)
  {
    && layer != [] && (forall i, j :: 0 <= i < j < |layer| ==> Precedes(layer[i], layer[j], groupOrder, locale))
    && if Ready(PeerGraph(m), placed) != {} then Shorts(layer) == Ready(PeerGraph(m), placed)
       else
         && SinkCycle(Remaining(PeerGraph(m), placed), Shorts(layer))
         && HeadsCycles(m, Remaining(PeerGraph(m), placed), layer[0], groupOrder, locale)
  }

  /** The packages not placed yet, layer by layer. */
  ghost predicate InLayers(m: PackageMap, placed: set<string>, out: seq<Package>, groupOrder: seq<string>,
                           locale: (string, string) -> int)
    decreases |out|
  {
    if out == [] then m.Keys <= placed
    else exists n: nat :: 0 < n <= |out| && LayerFirst(m, placed, out, n, groupOrder, locale)
  }

  ghost predicate LayerFirst(m: PackageMap, placed: set<string>, out: seq<Package>, n: nat, groupOrder: seq<string>,
                             locale: (string, string) -> int)
    requires 0 < n <= |out|
    decreases |out|, 0
  {
    && Emits(m, placed, out[..n], groupOrder, locale)
    && InLayers(m, placed + Shorts(out[..n]), out[n..], groupOrder, locale)
  }

  lemma PrecedesIn(m: PackageMap, a: string, b: string, groupOrder: seq<string>, locale: (string, string) -> int)
    requires a in m && b in m && |groupOrder| <= MAX_SAFE_INTEGER
    ensures CompareNames(Groups(m), groupOrder, locale)(a, b) < 0 <==> Precedes(m[a], m[b], groupOrder, locale)
  {
    hide Precedes, GroupRank;
    ComparedPrecedes(m[a], m[b], groupOrder, locale);
    assert GroupOf(Groups(m), a) == m[a].group && GroupOf(Groups(m), b) == m[b].group;
  }

  lemma FirstOfArranged(q: seq<string>, c: set<string>, a: string, compare: (string, string) -> int)
    requires Linear(compare) && Arranges(q, c, compare) && a in c
    ensures q != [] && compare(q[0], a) <= 0
  {
    hide Consistent;
    var i :| 0 <= i < |q| && q[i] == a;
    if i == 0 { SelfTie(compare, a); }
  }

  lemma FirstPrecedes(m: PackageMap, layer: seq<Package>, a: string, b: string, groupOrder: seq<string>,
                      locale: (string, string) -> int)
    requires Linear(CompareNames(Groups(m), groupOrder, locale)) && |groupOrder| <= MAX_SAFE_INTEGER
    requires layer != [] && Within(layer, m) && b in m
    requires CompareNames(Groups(m), groupOrder, locale)(layer[0].short, a) <= 0
    requires CompareNames(Groups(m), groupOrder, locale)(a, b) <= 0
    ensures m[b] == layer[0] || Precedes(layer[0], m[b], groupOrder, locale)
  {
    var compare := CompareNames(Groups(m), groupOrder, locale);
    hide CompareNames, Precedes, Consistent;
    Chain(compare, layer[0].short, a, b);
    PrecedesIn(m, layer[0].short, b, groupOrder, locale);
  }

  lemma LayerAscends(m: PackageMap, layer: seq<Package>, groupOrder: seq<string>, locale: (string, string) -> int)
    requires |groupOrder| <= MAX_SAFE_INTEGER && Within(layer, m)
    requires Arranges(Names(layer), Shorts(layer), CompareNames(Groups(m), groupOrder, locale))
    ensures forall i, j :: 0 <= i < j < |layer| ==> Precedes(layer[i], layer[j], groupOrder, locale)
  {
    var compare := CompareNames(Groups(m), groupOrder, locale);
    hide CompareNames, Precedes, Shorts;
    forall i, j | 0 <= i < j < |layer| ensures Precedes(layer[i], layer[j], groupOrder, locale) {
      PrecedesIn(m, layer[i].short, layer[j].short, groupOrder, locale);
      assert compare(Names(layer)[i], Names(layer)[j]) < 0;
    }
  }

  lemma CycleEmitted(m: PackageMap, g: Graph, layer: seq<Package>, groupOrder: seq<string>,
                     locale: (string, string) -> int)
    requires Linear(CompareNames(Groups(m), groupOrder, locale)) && |groupOrder| <= MAX_SAFE_INTEGER
    requires Within(layer, m) && g.Keys <= m.Keys
    requires FirstCycle(g, Shorts(layer), CompareNames(Groups(m), groupOrder, locale))
    requires Arranges(Names(layer), Shorts(layer), CompareNames(Groups(m), groupOrder, locale))
    ensures layer != [] && HeadsCycles(m, g, layer[0], groupOrder, locale)
  {
    var compare := CompareNames(Groups(m), groupOrder, locale);
    hide CompareNames, Precedes, Linear, Reach, Edge, Cyclic, Closed, Shorts, Arranges, Within;
    var a :| a in Shorts(layer) && forall d, b :: SinkCycle(g, d) && b in d ==> compare(a, b) <= 0;
    FirstOfArranged(Names(layer), Shorts(layer), a, compare);
    forall c, b | SinkCycle(g, c) && b in c
      ensures b in m && (m[b] == layer[0] || Precedes(layer[0], m[b], groupOrder, locale))
    {
      assert b in g;
      hide Scc;
      FirstPrecedes(m, layer, a, b, groupOrder, locale);
    }
  }

  lemma LayerEmitted(m: PackageMap, placed: set<string>, layer: seq<Package>, groupOrder: seq<string>,
                     locale: (string, string) -> int)
    requires Linear(locale) && |groupOrder| <= MAX_SAFE_INTEGER && Within(layer, m)
    requires IsLayer(PeerGraph(m), placed, Shorts(layer), CompareNames(Groups(m), groupOrder, locale))
    requires Arranges(Names(layer), Shorts(layer), CompareNames(Groups(m), groupOrder, locale))
    ensures Emits(m, placed, layer, groupOrder, locale)
  {
    var compare := CompareNames(Groups(m), groupOrder, locale);
    hide CompareNames, Precedes, Linear, SinkCycle, Reach, Arranges, Within, HeadsCycles, Ready;
    ComparisonsLinear(Groups(m), groupOrder, locale);
    LayerNonEmpty(PeerGraph(m), placed, Shorts(layer), compare);
    LayerAscends(m, layer, groupOrder, locale);
    PeerKeys(m);
    if Ready(PeerGraph(m), placed) == {} {
      CycleEmitted(m, Remaining(PeerGraph(m), placed), layer, groupOrder, locale);
    }
  }

  lemma WithinParts(out: seq<Package>, m: PackageMap, n: nat)
    requires Within(out, m) && n <= |out|
    ensures Within(out[..n], m) && Within(out[n..], m)
    ensures Names(out[..n]) == Names(out)[..n] && Names(out[n..]) == Names(out)[n..]
  {
  }

  lemma EmittedSome(m: PackageMap, placed: set<string>, layer: seq<Package>, groupOrder: seq<string>,
                    locale: (string, string) -> int)
    requires Emits(m, placed, layer, groupOrder, locale)
    ensures layer != []
  {
  }

  /** The promised order is emitted in layers. */
  lemma {:induction false} OrderInLayers(m: PackageMap, placed: set<string>, out: seq<Package>, groupOrder: seq<string>,
                                         locale: (string, string) -> int)
    requires Linear(locale) && |groupOrder| <= MAX_SAFE_INTEGER && Complete(PeerGraph(m)) && Within(out, m)
    requires Names(out) == Order(PeerGraph(m), placed, CompareNames(Groups(m), groupOrder, locale))
    ensures InLayers(m, placed, out, groupOrder, locale)
    decreases |out|
  {
    var peers, compare := PeerGraph(m), CompareNames(Groups(m), groupOrder, locale);
    ComparisonsLinear(Groups(m), groupOrder, locale);
    PeerKeys(m);
    hide PeerGraph, CompareNames, Linear, Emits, IsLayer, Complete, Layer, Arrange, Within, Shorts;
    var layer := Layer(peers, placed, compare);
    if !(peers.Keys <= placed) {
      LayerExists(peers, placed, compare);
      LayerWithin(peers, placed, compare);
      ArrangeExists(layer, compare);
      var head := Arrange(layer, compare);
      var n := |head|;
      assert Names(out) == head + Order(peers, placed + layer, compare);
      WithinParts(out, m, n);
      NamesMembers(out[..n]);
      assert Shorts(out[..n]) == layer;
      LayerEmitted(m, placed, out[..n], groupOrder, locale);
      OrderInLayers(m, placed + layer, out[n..], groupOrder, locale);
      assert n > 0 by { hide *; EmittedSome(m, placed, out[..n], groupOrder, locale); }
      assert LayerFirst(m, placed, out, n, groupOrder, locale);
    } else {
      LayerWithin(peers, placed, compare);
      assert layer == {};
    }
  }

  /** When every peer is a package: each package once, and dependencies first except inside a cycle. */
  lemma PromisedOrderCorrect(packages: seq<Package>, groupOrder: seq<string>, locale: (string, string) -> int)
    requires Linear(locale) && forall i: nat, k: nat :: !MissingAt(packages, i, k)
    ensures var out := PromisedOrder(packages, groupOrder, locale);
            NoRepeats(out) && (forall x :: x in out <==> x in Shorts(packages))
            && Respects(PeerGraph(ByName(packages)), {}, out)
  {
    var m := ByName(packages);
    PackagesComplete(packages);
    ComparisonsLinear(Groups(m), groupOrder, locale);
    hide Linear, PeerGraph, CompareNames, Order, Respects, NoRepeats, Complete;
    OrderCorrect(PeerGraph(m), {}, CompareNames(Groups(m), groupOrder, locale));
    ByNameMembers(packages);
    PeerKeys(m);
  }

  /** The same package but for the order in which its peers are listed. */
  ghost predicate SamePackage(p: Package, q: Package) {
    p.short == q.short && p.group == q.group && (set d | d in p.deps) == (set d | d in q.deps)
  }

  /** The same packages, listed in any order and with their peers in any order. */
  ghost predicate SamePackages(ps: seq<Package>, qs: seq<Package>) {
    && Distinct(ps) && Distinct(qs)
    && (forall p :: p in ps ==> exists q :: q in qs && SamePackage(p, q))
    && (forall q :: q in qs ==> exists p :: p in ps && SamePackage(p, q))
  }

  lemma DistinctByName(ps: seq<Package>, p: Package)
    requires Distinct(ps) && p in ps
    ensures p.short in ByName(ps) && ByName(ps)[p.short] == p
  {
    ByNameMembers(ps);
    var i :| 0 <= i < |ps| && ps[i] == p;
    var j :| 0 <= j < |ps| && ps[j] == ByName(ps)[p.short];
  }

  lemma SameIndex(ps: seq<Package>, qs: seq<Package>)
    requires Distinct(ps) && Distinct(qs)
    requires forall p :: p in ps ==> exists q :: q in qs && (SamePackage(p, q) || SamePackage(q, p))
    ensures forall k :: k in ByName(ps) ==> k in ByName(qs) && SamePackage(ByName(ps)[k], ByName(qs)[k])
  {
    ByNameMembers(ps);
    forall k | k in ByName(ps) ensures k in ByName(qs) && SamePackage(ByName(ps)[k], ByName(qs)[k]) {
      var q :| q in qs && (SamePackage(ByName(ps)[k], q) || SamePackage(q, ByName(ps)[k]));
      DistinctByName(qs, q);
    }
  }

  /** The order does not depend on how packages and peers were enumerated. */
  lemma EnumerationIrrelevant(ps: seq<Package>, qs: seq<Package>, groupOrder: seq<string>,
                              locale: (string, string) -> int)
    requires SamePackages(ps, qs)
    ensures PromisedOrder(ps, groupOrder, locale) == PromisedOrder(qs, groupOrder, locale)
  {
    hide Order, CompareNames;
    SameIndex(ps, qs);
    SameIndex(qs, ps);
    assert Groups(ByName(ps)) == Groups(ByName(qs));
    assert PeerGraph(ByName(ps)) == PeerGraph(ByName(qs));
  }
}
