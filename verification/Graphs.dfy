/** Reachability and strongly connected components of a finite directed graph. */
module Graphs {
  import opened Numbers

  /** Each vertex with its successors; successors that are not vertices are ignored. */
  type Graph = map<string, set<string>>

  predicate Edge(g: Graph, a: string, b: string) {
    a in g && b in g && b in g[a]
  }

  /** From `a`, the vertices of `p` can be visited one edge at a time, ending at `b`. */
  ghost predicate IsPath(g: Graph, p: seq<string>, a: string, b: string) {
    if p == [] then a == b && a in g
    else Edge(g, a, p[0]) && IsPath(g, p[1..], p[0], b)
  }

  ghost predicate Reach(g: Graph, a: string, b: string) {
    exists p :: IsPath(g, p, a, b)
  }

  ghost predicate Mutual(g: Graph, a: string, b: string) {
    Reach(g, a, b) && Reach(g, b, a)
  }

  /** A strongly connected component: a class of mutually reachable vertices, and all of that class. */
  ghost predicate Scc(g: Graph, c: set<string>) {
    && c != {} && c <= g.Keys
    && forall a, b :: a in c && b in g ==> (b in c <==> Mutual(g, a, b))
  }

  /** No edge leaves `s`. */
  ghost predicate Closed(g: Graph, s: set<string>) {
    forall a, b :: a in s && Edge(g, a, b) ==> b in s
  }

  ghost predicate Cyclic(g: Graph, c: set<string>) {
    exists a, b :: a in c && b in c && Edge(g, a, b)
  }

  /** No edge can be gone back. */
  ghost predicate Acyclic(g: Graph) {
    forall a, b :: Edge(g, a, b) ==> !Reach(g, b, a)
  }

  /** A strongly connected component that contains a cycle and that no edge leaves. */
  ghost predicate SinkCycle(g: Graph, c: set<string>) {
    Scc(g, c) && Cyclic(g, c) && Closed(g, c)
  }

  lemma ReachSelf(g: Graph, a: string)
    requires a in g
    ensures Reach(g, a, a)
  {
    assert IsPath(g, [], a, a);
  }

  lemma {:induction false} PathTrans(g: Graph, p: seq<string>, q: seq<string>, a: string, b: string, c: string)
    requires IsPath(g, p, a, b) && IsPath(g, q, b, c)
    ensures IsPath(g, p + q, a, c)
  {
    if p == [] {
      assert p + q == q;
    } else {
      PathTrans(g, p[1..], q, p[0], b, c);
      assert (p + q)[1..] == p[1..] + q;
    }
  }

  lemma ReachTrans(g: Graph, a: string, b: string, c: string)
    requires Reach(g, a, b) && Reach(g, b, c)
    ensures Reach(g, a, c)
  {
    var p :| IsPath(g, p, a, b);
    var q :| IsPath(g, q, b, c);
    PathTrans(g, p, q, a, b, c);
  }

  lemma ReachEdge(g: Graph, a: string, b: string)
    requires Edge(g, a, b)
    ensures Reach(g, a, b)
  {
    assert IsPath(g, [], b, b);
    assert IsPath(g, [b], a, b);
  }

  /** Leaving `a` for another vertex starts with an edge. */
  lemma FirstEdge(g: Graph, a: string, b: string) returns (next: string)
    requires Reach(g, a, b) && a != b
    ensures Edge(g, a, next) && Reach(g, next, b)
  {
    var p :| IsPath(g, p, a, b);
    next := p[0];
    assert IsPath(g, p[1..], next, b);
  }

  lemma {:induction false} PathStays(g: Graph, s: set<string>, p: seq<string>, a: string, b: string)
    requires Closed(g, s) && a in s && IsPath(g, p, a, b)
    ensures b in s
  {
    if p != [] {
      PathStays(g, s, p[1..], p[0], b);
    }
  }

  /** What is reached from inside a closed set is inside it. */
  lemma ReachStays(g: Graph, s: set<string>, a: string, b: string)
    requires Closed(g, s) && a in s && Reach(g, a, b)
    ensures b in s
  {
    var p :| IsPath(g, p, a, b);
    PathStays(g, s, p, a, b);
  }

  lemma {:induction false} PathMonotone(g: Graph, h: Graph, p: seq<string>, a: string, b: string)
    requires IsPath(g, p, a, b)
    requires forall x, y :: Edge(g, x, y) ==> Edge(h, x, y)
    requires g.Keys <= h.Keys
    ensures IsPath(h, p, a, b)
  {
    if p != [] {
      PathMonotone(g, h, p[1..], p[0], b);
    }
  }

  /** Reachability survives when vertices and edges are added. */
  lemma ReachMonotone(g: Graph, h: Graph, a: string, b: string)
    requires Reach(g, a, b)
    requires forall x, y :: Edge(g, x, y) ==> Edge(h, x, y)
    requires g.Keys <= h.Keys
    ensures Reach(h, a, b)
  {
    var p :| IsPath(g, p, a, b);
    PathMonotone(g, h, p, a, b);
  }

  lemma MutualTrans(g: Graph, a: string, b: string, c: string)
    requires Mutual(g, a, b) && Mutual(g, b, c)
    ensures Mutual(g, a, c)
  {
    ReachTrans(g, a, b, c);
    ReachTrans(g, c, b, a);
  }

  /** The component of a vertex. */
  ghost function ComponentOf(g: Graph, a: string): set<string> {
    set b | b in g && Mutual(g, a, b)
  }

  lemma ComponentIsScc(g: Graph, a: string)
    requires a in g
    ensures Scc(g, ComponentOf(g, a)) && a in ComponentOf(g, a)
  {
    ReachSelf(g, a);
    assert a in ComponentOf(g, a);
    forall x, y | x in ComponentOf(g, a) && y in g
      ensures y in ComponentOf(g, a) <==> Mutual(g, x, y)
    {
      if Mutual(g, a, y) { MutualTrans(g, x, a, y); }
      if Mutual(g, x, y) { MutualTrans(g, a, x, y); }
    }
  }

  /** Components that share a vertex are the same component. */
  lemma SccUnique(g: Graph, c: set<string>, d: set<string>, a: string)
    requires Scc(g, c) && Scc(g, d) && a in c && a in d
    ensures c == d
  {
    assert forall b :: b in g ==> (b in c <==> Mutual(g, a, b));
    assert forall b :: b in g ==> (b in d <==> Mutual(g, a, b));
  }

  /** A component has an inner edge exactly when it has two vertices or a self edge. */
  lemma CyclicComponent(g: Graph, c: set<string>, a: string)
    requires Scc(g, c) && a in c
    ensures Cyclic(g, c) <==> c != {a} || Edge(g, a, a)
  {
    if b :| b in c && b != a {
      assert Mutual(g, a, b);
      var next := FirstEdge(g, a, b);
      ReachEdge(g, a, next);
      ReachTrans(g, next, b, a);
      assert next in c;
    }
  }

  ghost function Reachable(g: Graph, a: string): set<string> {
    set b | b in g && Reach(g, a, b)
  }

  lemma {:induction false} SinkCycleFrom(g: Graph, a: string) returns (c: set<string>)
    requires a in g
    requires forall a :: a in g ==> exists b :: Edge(g, a, b)
    ensures SinkCycle(g, c)
    decreases |Reachable(g, a)|
  {
    ReachSelf(g, a);
    if b :| b in Reachable(g, a) && !Reach(g, b, a) {
      assert Reachable(g, b) < Reachable(g, a) by {
        forall x | x in Reachable(g, b) ensures x in Reachable(g, a) {
          ReachTrans(g, a, b, x);
        }
        assert a in Reachable(g, a) && a !in Reachable(g, b);
      }
      SubsetSize(Reachable(g, b), Reachable(g, a));
      c := SinkCycleFrom(g, b);
    } else {
      c := ComponentOf(g, a);
      ComponentIsScc(g, a);
      assert c == Reachable(g, a);
      forall x, y | x in c && Edge(g, x, y) ensures y in c {
        ReachEdge(g, x, y);
        ReachTrans(g, a, x, y);
      }
      var b :| Edge(g, a, b);
      assert a in c && b in c;
    }
  }

  /** A nonempty graph in which every vertex has a successor has a cyclic component that no edge leaves. */
  lemma SinkCycleExists(g: Graph) returns (c: set<string>)
    requires g.Keys != {}
    requires forall a :: a in g ==> exists b :: Edge(g, a, b)
    ensures SinkCycle(g, c)
  {
    var start :| start in g;
    c := SinkCycleFrom(g, start);
  }
}
