/** Breadth-first discovery of the packages a benchmark may migrate next. */
module BenchmarkCandidates {
  import opened Graphs
  import opened Ordering
  import opened Wrappers

  const TARGET_PACKAGE: string := "@deepseek-ai/dsh"
  const CORDIS: string := "@deepseek-ai/cordis"

  /** The names a published manifest depends on, by section, and the peers it marks optional. */
  datatype Manifest = Manifest(
    dependencies: seq<string>, optionalDependencies: seq<string>, peerDependencies: seq<string>,
    optionalPeers: set<string>)

  /** Manifests by package name and version. */
  type RegistryIndex = map<string, map<string, Manifest>>

  function ManifestOf(index: RegistryIndex, versions: map<string, string>, name: string): Option<Manifest> {
    if name in versions && name in index && versions[name] in index[name] then Some(index[name][versions[name]])
      else None
  }

  function Unique(s: seq<string>): (r: seq<string>)
    ensures forall x :: x in r <==> x in s
  {
    if s == [] then []
    else
      var rest := Unique(s[..|s| - 1]);
      if s[|s| - 1] in rest then rest else rest + [s[|s| - 1]]
  }

  /** The object keys an install brings in, each once. */
  function Installed(m: Manifest): seq<string> {
    Unique(m.dependencies + m.optionalDependencies + Filter(m.peerDependencies, (p: string) => p !in m.optionalPeers))
  }

  /** The packages that have a manifest, with what each installs: dependencies, optional ones, and required peers. */
  ghost function InstallGraph(index: RegistryIndex, versions: map<string, string>): Graph {
    map n | n in versions && n in index && versions[n] in index[n] ::
      var m := index[n][versions[n]];
      (set d | d in m.dependencies) + (set d | d in m.optionalDependencies)
      + set d | d in m.peerDependencies && d !in m.optionalPeers
  }

  lemma InstalledAre(index: RegistryIndex, versions: map<string, string>, name: string)
    requires ManifestOf(index, versions, name).Some?
    ensures name in InstallGraph(index, versions)
    ensures forall d :: d in Installed(ManifestOf(index, versions, name).value) <==>
              d in InstallGraph(index, versions)[name]
  {
  }

  /** Packages reached through packages that have manifests. */
  ghost predicate Reached(index: RegistryIndex, versions: map<string, string>, start: string, name: string) {
    Reach(InstallGraph(index, versions), start, name)
  }

  /** A release package the policy does not cover that still has a peer other than Cordis. */
  predicate IsCandidate(index: RegistryIndex, versions: map<string, string>, release: set<string>, policy: set<string>,
                        name: string) {
    && name !in policy && name in release
    && match ManifestOf(index, versions, name)
       case Some(m) => exists p :: p in m.peerDependencies && p != CORDIS
       case None => false
  }

  /** The manifest published for the package's workspace version has a peer other than Cordis. */
  ghost predicate HasOtherPeer(index: RegistryIndex, versions: map<string, string>, name: string) {
    && name in versions && name in index && versions[name] in index[name]
    && exists p :: p in index[name][versions[name]].peerDependencies && p != "@deepseek-ai/cordis"
  }

  /** The packages reached from the target that are released, not covered by the policy, and have such a peer. */
  ghost function Candidates(index: RegistryIndex, versions: map<string, string>, release: set<string>,
                            policy: set<string>):
    set<string>
  {
    set n |
      && n in versions && Reached(index, versions, "@deepseek-ai/dsh", n)
      && n in release && n !in policy && HasOtherPeer(index, versions, n)
  }

  /** What the search knows: `reached` is closed except for what waits at or after `cursor`. */
  ghost predicate Searching(g: Graph, start: string, reached: seq<string>, queue: seq<string>, cursor: nat) {
    && cursor <= |queue| && NoRepeats(reached)
    && (forall n :: n in reached ==> n in g && Reach(g, start, n))
    && (forall n :: n in queue && n in g ==> Reach(g, start, n))
    && (start in g ==> start in reached || start in queue[cursor..])
    && (forall a, b :: a in reached && Edge(g, a, b) ==> b in reached || b in queue[cursor..])
  }

  lemma SkipKeeps(g: Graph, start: string, reached: seq<string>, queue: seq<string>, cursor: nat)
    requires Searching(g, start, reached, queue, cursor) && cursor < |queue|
    requires queue[cursor] in reached || queue[cursor] !in g
    ensures Searching(g, start, reached, queue, cursor + 1)
  {
    hide Reach;
    assert queue[cursor..] == [queue[cursor]] + queue[cursor + 1..];
  }

  lemma VisitKeeps(g: Graph, start: string, reached: seq<string>, queue: seq<string>, cursor: nat, added: seq<string>)
    requires Searching(g, start, reached, queue, cursor) && cursor < |queue|
    requires queue[cursor] in g && queue[cursor] !in reached
    requires forall d :: d in added ==> d in g[queue[cursor]]
    requires forall d :: d in g[queue[cursor]] && d !in reached + [queue[cursor]] ==> d in added
    ensures Searching(g, start, reached + [queue[cursor]], queue + added, cursor + 1)
  {
    hide Reach;
    var name, more := queue[cursor], queue + added;
    assert queue[cursor..] == [name] + queue[cursor + 1..];
    assert more[cursor + 1..] == queue[cursor + 1..] + added;
    assert Reach(g, start, name);
    forall d | d in added && d in g ensures Reach(g, start, d) {
      ReachEdge(g, name, d);
      ReachTrans(g, start, name, d);
    }
    forall a, b | a in reached + [name] && Edge(g, a, b) ensures b in reached + [name] || b in more[cursor + 1..] {
    }
  }

  lemma StartIsVertex(g: Graph, start: string, n: string)
    requires Reach(g, start, n)
    ensures start in g
  {
  }

  /** When the queue is exhausted, exactly the reachable packages have been reached. */
  lemma SearchEnds(g: Graph, start: string, reached: seq<string>, queue: seq<string>)
    requires Searching(g, start, reached, queue, |queue|)
    ensures forall n :: n in reached <==> Reach(g, start, n)
  {
    hide Reach;
    var closed := set n | n in reached;
    forall n | Reach(g, start, n) ensures n in reached {
      StartIsVertex(g, start, n);
      ReachStays(g, closed, start, n);
    }
  }

  lemma SearchStarts(g: Graph, start: string)
    ensures Searching(g, start, [], [start], 0)
  {
    if start in g { ReachSelf(g, start); }
  }

  lemma InstallVertex(index: RegistryIndex, versions: map<string, string>, name: string)
    ensures name in InstallGraph(index, versions) <==> ManifestOf(index, versions, name).Some?
  {
  }

  lemma SortedKeys(s: seq<string>, compare: (string, string) -> int)
    requires Linear(compare)
    ensures forall x :: x in Sort(s, compare) <==> x in s
  {
    hide Consistent;
    SortMembers(s, compare);
  }

  lemma OneLess(all: set<string>, reached: seq<string>, name: string)
    requires name in all && name !in reached
    ensures |all - (set n | n in reached + [name])| < |all - (set n | n in reached)|
  {
    assert all - (set n | n in reached) == (all - set n | n in reached + [name]) + {name};
  }

  /** The breadth-first search: its queue grows and may hold a name twice. */
  method Search(index: RegistryIndex, versions: map<string, string>, target: string, compare: (string, string) -> int)
    returns (reached: seq<string>)
    requires Linear(compare)
    ensures NoRepeats(reached) && forall n :: n in reached <==> Reached(index, versions, target, n)
  {
    ghost var g := InstallGraph(index, versions);
    var queue := [target];
    var cursor := 0;
    reached := [];
    hide Linear, InstallGraph, Reach, Edge, Sort, ManifestOf, Installed, NoRepeats;
    SearchStarts(g, target);
    while cursor < |queue|
      invariant Searching(g, target, reached, queue, cursor)
      decreases |g.Keys - (set n | n in reached)|, |queue| - cursor
    {
      var name := queue[cursor];
      InstallVertex(index, versions, name);
      if name in reached || ManifestOf(index, versions, name).None? {
        SkipKeeps(g, target, reached, queue, cursor);
        cursor := cursor + 1;
      } else {
        InstalledAre(index, versions, name);
        var keys := Sort(Installed(ManifestOf(index, versions, name).value), compare);
        var seen := reached + [name];
        var added := Filter(keys, (d: string) => d !in seen);
        SortedKeys(Installed(ManifestOf(index, versions, name).value), compare);
        VisitKeeps(g, target, reached, queue, cursor, added);
        OneLess(g.Keys, reached, name);
        reached, queue, cursor := seen, queue + added, cursor + 1;
      }
    }
    SearchEnds(g, target, reached, queue);
  }

  lemma CandidateIs(index: RegistryIndex, versions: map<string, string>, release: set<string>, policy: set<string>)
    ensures forall n :: IsCandidate(index, versions, release, policy, n) <==>
              n in release && n !in policy && HasOtherPeer(index, versions, n)
  {
  }

  lemma SortArranges(s: seq<string>, compare: (string, string) -> int)
    requires Linear(compare) && NoRepeats(s)
    ensures Arranges(Sort(s, compare), (set x | x in s), compare)
  {
    hide Consistent;
    SortSorts(s, compare);
    SortMembers(s, compare);
    PermutationNoRepeats(s, Sort(s, compare));
  }

  /** The `Candidates`, each once, ascending. */
  method DiscoverBenchmarkCandidates(index: RegistryIndex, versions: map<string, string>, release: set<string>,
                                     policy: set<string>, compare: (string, string) -> int)
    returns (candidates: seq<string>)
    requires Linear(compare)
    ensures Arranges(candidates, Candidates(index, versions, release, policy), compare)
  {
    hide Linear, Reached, Sort, IsCandidate, Arranges;
    var reached := Search(index, versions, TARGET_PACKAGE, compare);
    var kept := Filter(reached, (n: string) => IsCandidate(index, versions, release, policy, n));
    FilterNoRepeats(reached, (n: string) => IsCandidate(index, versions, release, policy, n));
    candidates := Sort(kept, compare);
    SortArranges(kept, compare);
    CandidateIs(index, versions, release, policy);
    assert (set x | x in kept) == Candidates(index, versions, release, policy);
  }
}
