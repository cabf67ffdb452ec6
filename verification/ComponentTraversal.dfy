/** The strongly-connected-component traversal behind cycle selection. */
module ComponentTraversal {
  import opened Graphs
  import opened Numbers
  import opened PackageNodes
  import opened Wrappers

  datatype TraversalError = LostIndexedNode | LostActiveComponent

  /** A lookup that throws when the key is absent. */
  function RequiredValue(values: map<string, nat>, key: string): Result<nat, TraversalError> {
    if key in values then Ok(values[key]) else Err(LostIndexedNode)
  }

  /** The traversal's mutable variables at one moment. */
  datatype Walk = Walk(
    next: nat, index: map<string, nat>, low: map<string, nat>,
    stack: seq<Package>, stacked: set<string>, components: seq<seq<Package>>)

  /** Packages whose component has been emitted. */
  ghost function Done(w: Walk): set<string> {
    w.index.Keys - w.stacked
  }

  ghost predicate IndexOk(g: Graph, w: Walk) {
    && w.index.Keys <= g.Keys && w.low.Keys == w.index.Keys && w.stacked <= w.index.Keys
    && (forall v :: v in w.index ==> w.index[v] < w.next)
    && (forall u, v :: u in w.index && v in w.index && w.index[u] == w.index[v] ==> u == v)
  }

  ghost predicate StackOk(m: PackageMap, w: Walk) {
    && w.stacked == Shorts(w.stack)
    && Within(w.stack, m)
    && (forall i :: 0 <= i < |w.stack| ==> w.stack[i].short in w.index)
    && (forall i, j :: 0 <= i < j < |w.stack| ==> w.index[w.stack[i].short] < w.index[w.stack[j].short])
  }

  /** Every successor of a package whose visit has ended has been indexed. */
  ghost predicate Explored(g: Graph, w: Walk, active: set<string>) {
    forall a, b :: a in w.index && a !in active && Edge(g, a, b) ==> b in w.index
  }

  /** On the stack, earlier packages reach later ones. */
  ghost predicate StackReaches(g: Graph, w: Walk)
    requires w.stacked <= w.index.Keys
  {
    forall a, b :: a in w.stacked && b in w.stacked && w.index[a] <= w.index[b] ==> Reach(g, a, b)
  }

  ghost predicate AnchoredAt(g: Graph, w: Walk, a: string, b: string) {
    a in w.index && b in w.index && w.index[a] <= w.index[b] && Reach(g, b, a)
  }

  /** Every stacked package reaches an earlier or equal package whose visit is under way. */
  ghost predicate Anchored(g: Graph, w: Walk, active: set<string>) {
    forall b :: b in w.stacked ==> exists a :: a in active && AnchoredAt(g, w, a, b)
  }

  /** The emitted components are components of the graph, without repetition, and cover what is done. */
  ghost predicate Emitted(g: Graph, m: PackageMap, components: seq<seq<Package>>, done: set<string>) {
    && (forall i :: 0 <= i < |components| ==>
          && Scc(g, Shorts(components[i])) && Shorts(components[i]) <= done
          && Distinct(components[i]) && Within(components[i], m))
    && (forall i, j :: 0 <= i < j < |components| ==> Shorts(components[i]) !! Shorts(components[j]))
    && (forall v :: v in done ==> exists i :: 0 <= i < |components| && v in Shorts(components[i]))
  }

  /** The traversal's invariant while the visits of `active` are under way. */
  ghost predicate Inv(g: Graph, m: PackageMap, w: Walk, active: set<string>) {
    && g.Keys == m.Keys
    && IndexOk(g, w) && active <= w.stacked
    && StackOk(m, w)
    && Explored(g, w, active)
    && Closed(g, Done(w))
    && StackReaches(g, w)
    && Anchored(g, w, active)
    && Emitted(g, m, w.components, Done(w))
  }

  /** `w` continues `before`: earlier packages keep their numbers and their place on the stack. */
  ghost predicate Extends(before: Walk, w: Walk) {
    && before.stack <= w.stack && before.next <= w.next
    && before.index.Keys <= w.index.Keys && before.low.Keys <= w.low.Keys
    && (forall v :: v in before.index ==> w.index[v] == before.index[v])
    && (forall v :: v in w.index && v !in before.index ==> before.next <= w.index[v])
  }

  /** `v` reaches a stacked package numbered `at`. */
  ghost predicate Touches(g: Graph, w: Walk, v: string, at: nat) {
    exists x :: x in w.stacked && x in w.index && w.index[x] == at && Reach(g, v, x)
  }

  /** What the low link of `v` says while `v` is on the stack. */
  ghost predicate LowOk(g: Graph, w: Walk, v: string) {
    v in w.index && v in w.low && w.low[v] <= w.index[v] && Touches(g, w, v, w.low[v])
  }

  /** Edges from what was stacked since `before` (other than `except`) into its stack end at `bound` or later. */
  ghost predicate BackEdges(g: Graph, before: Walk, w: Walk, except: set<string>, bound: nat) {
    forall x, y :: (x in w.stacked && x !in before.stacked && x !in except && y in before.stacked && Edge(g, x, y))
                   ==> y in w.index && bound <= w.index[y]
  }

  /** What one completed visit of `v` leaves behind. */
  ghost predicate VisitEnds(g: Graph, before: Walk, w: Walk, v: string) {
    && Extends(before, w) && v in w.index && v in w.low && w.index[v] == before.next
    && (forall u :: u in before.low ==> w.low[u] == before.low[u])
    && (if v in w.stacked then LowOk(g, w, v) && w.low[v] < w.index[v] else w.low[v] == w.index[v])
    && BackEdges(g, before, w, {}, w.low[v])
  }

  /** The dependencies seen so far are indexed, and those on the old stack bound the low link. */
  ghost predicate Seen(g: Graph, before: Walk, w: Walk, v: string, deps: seq<string>)
    requires v in w.low
  {
    forall d :: d in deps && d in g ==> d in w.index && (d in before.stacked ==> w.low[v] <= w.index[d])
  }

  /** The state inside the visit of `v` that began at `before`, after the dependencies `deps`. */
  ghost predicate Exploring(g: Graph, before: Walk, w: Walk, v: string, deps: seq<string>) {
    && before.stacked <= before.index.Keys && v !in before.index && before.low.Keys == before.index.Keys
    && Extends(before, w) && v in w.stacked && w.index.Keys <= g.Keys
    && |before.stack| < |w.stack| && w.stack[|before.stack|].short == v
    && LowOk(g, w, v) && w.index[v] == before.next
    && (forall u :: u in before.low ==> w.low[u] == before.low[u])
    && BackEdges(g, before, w, {v}, w.low[v])
    && Seen(g, before, w, v, deps)
  }

  ghost function Pushed(w: Walk, pkg: Package): Walk {
    w.(next := w.next + 1, index := w.index[pkg.short := w.next], low := w.low[pkg.short := w.next],
       stack := w.stack + [pkg], stacked := w.stacked + {pkg.short})
  }

  lemma ShortsAppend(ps: seq<Package>, p: Package)
    ensures Shorts(ps + [p]) == Shorts(ps) + {p.short}
  {
    assert forall q :: q in ps + [p] <==> q in ps || q == p;
  }

  lemma EnterReaches(g: Graph, w: Walk, active: set<string>, pkg: Package)
    requires w.stacked <= w.index.Keys && StackReaches(g, w) && Anchored(g, w, active)
    requires forall v :: v in w.index ==> w.index[v] < w.next
    requires pkg.short in g && pkg.short !in w.index
    requires forall a :: a in active ==> Reach(g, a, pkg.short)
    ensures StackReaches(g, Pushed(w, pkg))
  {
    hide Reach;
    ReachSelf(g, pkg.short);
    forall a | a in w.stacked ensures Reach(g, a, pkg.short) {
      var x :| x in active && AnchoredAt(g, w, x, a);
      ReachTrans(g, a, x, pkg.short);
    }
  }

  lemma EnterAnchored(g: Graph, w: Walk, active: set<string>, pkg: Package)
    requires w.stacked <= w.index.Keys && Anchored(g, w, active)
    requires pkg.short in g && pkg.short !in w.index
    ensures Anchored(g, Pushed(w, pkg), active + {pkg.short})
  {
    hide Reach;
    var v, after := pkg.short, Pushed(w, pkg);
    ReachSelf(g, v);
    forall b | b in after.stacked ensures exists a :: a in active + {v} && AnchoredAt(g, after, a, b) {
      if b == v {
        assert AnchoredAt(g, after, v, v);
      } else {
        var a :| a in active && AnchoredAt(g, w, a, b);
        assert AnchoredAt(g, after, a, b);
      }
    }
  }

  lemma EnterStack(m: PackageMap, w: Walk, pkg: Package)
    requires StackOk(m, w) && w.stacked <= w.index.Keys && forall v :: v in w.index ==> w.index[v] < w.next
    requires pkg.short in m && m[pkg.short] == pkg && pkg.short !in w.index
    ensures StackOk(m, Pushed(w, pkg))
  {
    hide Shorts;
    ShortsAppend(w.stack, pkg);
  }

  lemma EnterExploring(g: Graph, m: PackageMap, w: Walk, pkg: Package)
    requires IndexOk(g, w) && StackOk(m, w) && pkg.short in g && pkg.short !in w.index
    ensures Exploring(g, w, Pushed(w, pkg), pkg.short, [])
  {
    hide Reach;
    ReachSelf(g, pkg.short);
  }

  /** Entering a package that every active package reaches. */
  lemma Enter(g: Graph, m: PackageMap, w: Walk, active: set<string>, pkg: Package)
    requires Inv(g, m, w, active)
    requires pkg.short in m && m[pkg.short] == pkg && pkg.short !in w.index
    requires forall a :: a in active ==> Reach(g, a, pkg.short)
    ensures Inv(g, m, Pushed(w, pkg), active + {pkg.short})
    ensures Exploring(g, w, Pushed(w, pkg), pkg.short, [])
  {
    hide Reach, StackReaches, Anchored, Emitted, Exploring, StackOk;
    assert Done(Pushed(w, pkg)) == Done(w);
    EnterStack(m, w, pkg);
    EnterReaches(g, w, active, pkg);
    EnterAnchored(g, w, active, pkg);
    EnterExploring(g, m, w, pkg);
  }

  ghost function Lowered(w: Walk, v: string, bound: nat): Walk
    requires v in w.low
  {
    w.(low := w.low[v := Min(w.low[v], bound)])
  }

  lemma TouchesFrom(g: Graph, w: Walk, v: string, target: string, at: nat)
    requires Edge(g, v, target) && Touches(g, w, target, at)
    ensures Touches(g, w, v, at)
  {
    hide Reach;
    ReachEdge(g, v, target);
    var x :| x in w.stacked && x in w.index && w.index[x] == at && Reach(g, target, x);
    ReachTrans(g, v, target, x);
  }

  lemma TouchesKept(g: Graph, mid: Walk, w: Walk, v: string, at: nat)
    requires Touches(g, mid, v, at) && Extends(mid, w) && mid.stacked <= w.stacked
    ensures Touches(g, w, v, at)
  {
    hide Reach;
    var x :| x in mid.stacked && x in mid.index && mid.index[x] == at && Reach(g, v, x);
    assert x in w.stacked;
  }

  /** Low links say nothing about which packages are touched. */
  lemma TouchesLowered(g: Graph, w: Walk, v: string, bound: nat)
    requires v in w.low
    ensures forall at :: Touches(g, w, v, at) ==> Touches(g, Lowered(w, v, bound), v, at)
  {
    hide Reach;
  }

  /** The visit of a new dependency has returned: the low link takes the smaller value. */
  lemma AfterVisit(g: Graph, before: Walk, mid: Walk, w: Walk, v: string, target: string, deps: seq<string>)
    requires w.index.Keys <= g.Keys && mid.stacked <= w.stacked
    requires mid.index.Keys == mid.low.Keys && before.stacked <= mid.stacked
    requires Exploring(g, before, mid, v, deps)
    requires Edge(g, v, target) && target !in mid.index
    requires VisitEnds(g, mid, w, target) && mid.index[v] < mid.next
    ensures Exploring(g, before, Lowered(w, v, w.low[target]), v, deps + [target])
  {
    hide Reach, Touches, Edge;
    TouchesKept(g, mid, w, v, mid.low[v]);
    if w.low[target] < w.low[v] {
      TouchesFrom(g, w, v, target, w.low[target]);
    }
    TouchesLowered(g, w, v, w.low[target]);
  }

  /** A dependency already on the stack bounds the low link by its number. */
  lemma AfterStacked(g: Graph, before: Walk, w: Walk, v: string, target: string, deps: seq<string>)
    requires Exploring(g, before, w, v, deps)
    requires Edge(g, v, target) && target in w.stacked && target in w.index
    ensures Exploring(g, before, Lowered(w, v, w.index[target]), v, deps + [target])
  {
    hide Reach, Edge;
    ReachEdge(g, v, target);
    TouchesLowered(g, w, v, w.index[target]);
  }

  /** A dependency outside the graph, or in an emitted component, changes nothing. */
  lemma AfterOther(g: Graph, before: Walk, w: Walk, v: string, target: string, deps: seq<string>)
    requires Exploring(g, before, w, v, deps) && before.stacked <= w.stacked
    requires target !in g || (target in w.index && target !in w.stacked)
    ensures Exploring(g, before, w, v, deps + [target])
  {
    hide Reach, Edge, Touches;
  }

  lemma LoweredKeepsInv(g: Graph, m: PackageMap, w: Walk, active: set<string>, v: string, bound: nat)
    requires Inv(g, m, w, active) && v in w.low
    ensures Inv(g, m, Lowered(w, v, bound), active)
  {
    hide Reach, Edge, Scc, Closed;
    var after := Lowered(w, v, bound);
    assert Done(after) == Done(w);
    assert forall a, b :: AnchoredAt(g, w, a, b) ==> AnchoredAt(g, after, a, b);
  }

  /** All dependencies of `v` have been seen. */
  lemma LeaveEdges(g: Graph, m: PackageMap, before: Walk, w: Walk, v: string)
    requires v in m && g == PeerGraph(m) && Exploring(g, before, w, v, m[v].deps)
    ensures forall b :: Edge(g, v, b) ==> b in w.index
    ensures BackEdges(g, before, w, {}, w.low[v])
  {
    hide Reach, Touches, Extends;
    assert forall b :: Edge(g, v, b) ==> b in m[v].deps && b in g;
  }

  lemma LeaveAnchored(g: Graph, w: Walk, active: set<string>, v: string)
    requires Anchored(g, w, active + {v}) && LowOk(g, w, v) && w.low[v] < w.index[v]
    ensures Anchored(g, w, active)
  {
    hide Reach;
    var x :| x in w.stacked && x in w.index && w.index[x] == w.low[v] && Reach(g, v, x);
    var a :| a in active + {v} && AnchoredAt(g, w, a, x);
    ReachTrans(g, v, x, a);
    forall b | b in w.stacked ensures exists a' :: a' in active && AnchoredAt(g, w, a', b) {
      var a' :| a' in active + {v} && AnchoredAt(g, w, a', b);
      if a' == v {
        ReachTrans(g, b, v, a);
        assert AnchoredAt(g, w, a, b);
      }
    }
  }

  /** The visit of `v` ends with its component still open: `v` is no longer active. */
  lemma Leave(g: Graph, m: PackageMap, before: Walk, w: Walk, active: set<string>, v: string)
    requires Inv(g, m, w, active + {v}) && v in m && v !in active && active <= before.stacked <= w.stacked
    requires Exploring(g, before, w, v, m[v].deps) && g == PeerGraph(m)
    requires w.low[v] < w.index[v]
    ensures Inv(g, m, w, active) && VisitEnds(g, before, w, v)
  {
    hide Reach, Scc, Closed, StackReaches, Emitted, StackOk, Done, Touches, Edge, Anchored;
    LeaveEdges(g, m, before, w, v);
    LeaveAnchored(g, w, active, v);
  }

  /** The state after the stack is cut back to length `base` and the packages cut off become a component. */
  ghost function Popped(w: Walk, base: nat, component: seq<Package>): Walk
    requires base <= |w.stack|
  {
    w.(stack := w.stack[..base], stacked := Shorts(w.stack[..base]), components := w.components + [component])
  }

  /** The stacked packages numbered before `v`. */
  ghost function Below(w: Walk, v: string): set<string> {
    set x | x in w.stacked && x in w.index && v in w.index && w.index[x] < w.index[v]
  }

  /** The packages cut off are those numbered from `v` on. */
  lemma CutOff(m: PackageMap, w: Walk, base: nat)
    requires StackOk(m, w) && base < |w.stack|
    ensures Shorts(w.stack[..base]) == Below(w, w.stack[base].short)
    ensures Shorts(w.stack[base..]) == w.stacked - Below(w, w.stack[base].short)
  {
    var below := Below(w, w.stack[base].short);
    forall x | x in w.stacked
      ensures x in Shorts(w.stack[..base]) <==> x in below
      ensures x in Shorts(w.stack[base..]) <==> x !in below
    {
      var i :| 0 <= i < |w.stack| && w.stack[i].short == x;
      if i < base {
        assert w.stack[i] in w.stack[..base];
      } else {
        assert w.stack[i] in w.stack[base..];
      }
    }
  }

  /** The packages from `v` up are mutually reachable, and nothing else is mutually reachable with them. */
  lemma CutIsScc(g: Graph, w: Walk, active: set<string>, v: string, cut: set<string>)
    requires IndexOk(g, w) && v in w.stacked && active <= w.stacked
    requires StackReaches(g, w) && Anchored(g, w, active + {v})
    requires forall a :: a in active ==> Reach(g, a, v)
    requires cut == w.stacked - Below(w, v)
    requires Closed(g, Done(w)) && Closed(g, Done(w) + cut)
    ensures Scc(g, cut)
  {
    hide Reach, Closed;
    assert v in cut;
    forall b | b in cut ensures Mutual(g, v, b) {
      var a :| a in active + {v} && AnchoredAt(g, w, a, b);
      if a != v { ReachTrans(g, b, a, v); }
    }
    forall a, b | a in cut && b in g ensures b in cut <==> Mutual(g, a, b) {
      if b in cut {
        MutualTrans(g, a, v, b);
      } else if Mutual(g, a, b) {
        ReachStays(g, Done(w) + cut, a, b);
        ReachStays(g, Done(w), b, a);
        assert false;
      }
    }
  }

  /** Nothing leads from the packages cut off to the rest of the stack. */
  lemma CutIsClosed(g: Graph, before: Walk, w: Walk, active: set<string>, v: string, cut: set<string>)
    requires IndexOk(g, w) && v in w.stacked && active <= before.stacked <= w.stacked
    requires Explored(g, w, active + {v}) && Closed(g, Done(w))
    requires forall b :: Edge(g, v, b) ==> b in w.index
    requires BackEdges(g, before, w, {}, w.index[v])
    requires before.stacked == Below(w, v)
    requires cut == w.stacked - Below(w, v)
    ensures Closed(g, Done(w) + cut)
  {
    hide Edge;
    forall a, b | a in Done(w) + cut && Edge(g, a, b) ensures b in Done(w) + cut {
      if a in cut {
        assert a == v || a !in active + {v};
        assert b in w.index;
      }
    }
  }

  lemma ClosedAnchored(g: Graph, w: Walk, active: set<string>, v: string, after: Walk)
    requires IndexOk(g, w) && v in w.stacked && active <= w.stacked
    requires Anchored(g, w, active + {v}) && StackReaches(g, w) && after.index == w.index
    requires after.stacked == Below(w, v)
    ensures Anchored(g, after, active) && StackReaches(g, after)
  {
    hide Reach;
    forall b | b in after.stacked ensures exists a :: a in active && AnchoredAt(g, after, a, b) {
      var a :| a in active + {v} && AnchoredAt(g, w, a, b);
      assert AnchoredAt(g, after, a, b);
    }
  }

  lemma EmittedGrows(g: Graph, m: PackageMap, components: seq<seq<Package>>, done: set<string>, c: seq<Package>)
    requires Emitted(g, m, components, done)
    requires Scc(g, Shorts(c)) && Distinct(c) && Within(c, m) && Shorts(c) !! done
    ensures Emitted(g, m, components + [c], done + Shorts(c))
  {
    hide Scc, Shorts, Distinct, Within;
    var after := components + [c];
    forall v | v in done + Shorts(c) ensures exists i :: 0 <= i < |after| && v in Shorts(after[i]) {
      if v in done {
        var i :| 0 <= i < |components| && v in Shorts(components[i]);
        assert after[i] == components[i];
      } else {
        assert after[|components|] == c;
      }
    }
  }

  /** A component popped from the stack: the packages above `base`, last first. */
  ghost predicate Reverses(component: seq<Package>, stack: seq<Package>, base: nat) {
    && base <= |stack| && |component| == |stack| - base
    && forall i :: 0 <= i < |component| ==> component[i] == stack[|stack| - 1 - i]
  }

  lemma ReversedComponent(m: PackageMap, w: Walk, base: nat, component: seq<Package>)
    requires StackOk(m, w) && Reverses(component, w.stack, base)
    ensures Shorts(component) == Shorts(w.stack[base..]) && Distinct(component) && Within(component, m)
  {
    forall p ensures p in component <==> p in w.stack[base..] {
      if p in component {
        var i :| 0 <= i < |component| && component[i] == p;
        assert w.stack[base..][|component| - 1 - i] == p;
      }
      if p in w.stack[base..] {
        var i :| 0 <= i < |component| && w.stack[base..][i] == p;
        assert component[|component| - 1 - i] == p;
      }
    }
  }

  /** What is known when the component of `v` is popped. */
  ghost predicate Closing(g: Graph, m: PackageMap, before: Walk, w: Walk, active: set<string>, v: string) {
    && v in m && g == PeerGraph(m) && Inv(g, m, w, active + {v}) && Exploring(g, before, w, v, m[v].deps)
    && v !in active && active <= before.stacked <= w.stacked && before.stacked == Shorts(before.stack)
    && (forall a :: a in active ==> Reach(g, a, v))
    && w.low[v] == w.index[v]
  }

  lemma IsClosing(g: Graph, m: PackageMap, before: Walk, w: Walk, active: set<string>, v: string)
    requires v in m && g == PeerGraph(m) && Inv(g, m, w, active + {v}) && Exploring(g, before, w, v, m[v].deps)
    requires v !in active && active <= before.stacked <= w.stacked && before.stacked == Shorts(before.stack)
    requires forall a :: a in active ==> Reach(g, a, v)
    requires v in w.low && v in w.index && w.low[v] == w.index[v]
    ensures Closing(g, m, before, w, active, v)
  {
    hide Inv, Exploring, Reach, PeerGraph;
  }

  lemma CloseCut(g: Graph, m: PackageMap, before: Walk, w: Walk, active: set<string>, v: string)
    returns (cut: set<string>)
    requires Closing(g, m, before, w, active, v)
    ensures w.stack[..|before.stack|] == before.stack
    ensures cut == Shorts(w.stack[|before.stack|..]) && Scc(g, cut) && cut == w.stacked - before.stacked
    ensures before.stacked == Below(w, v)
    ensures Closed(g, Done(w) + cut)
  {
    hide Reach, Scc, Closed, StackReaches, Anchored, Emitted, StackOk, Touches, Edge, Explored, BackEdges, Seen, Shorts;
    cut := w.stacked - Below(w, v);
    CutOff(m, w, |before.stack|);
    assert w.stack[..|before.stack|] == before.stack;
    LeaveEdges(g, m, before, w, v);
    CutIsClosed(g, before, w, active, v, cut);
    CutIsScc(g, w, active, v, cut);
  }

  lemma ClosedRest(g: Graph, m: PackageMap, before: Walk, w: Walk, after: Walk, active: set<string>, v: string)
    requires StackOk(m, w) && before.stack <= w.stack && before.stacked == Shorts(before.stack)
    requires after.stack == before.stack && after.stacked == before.stacked && after.index == w.index
    requires Explored(g, w, active + {v}) && forall b :: Edge(g, v, b) ==> b in w.index
    ensures StackOk(m, after) && Explored(g, after, active)
    ensures v in after.low ==> BackEdges(g, before, after, {}, after.low[v])
  {
    hide Edge, Shorts;
  }

  /** The visit of `v` ends with its component complete. */
  lemma Close(g: Graph, m: PackageMap, before: Walk, w: Walk, active: set<string>, v: string, component: seq<Package>)
    requires Closing(g, m, before, w, active, v) && Reverses(component, w.stack, |before.stack|)
    ensures Inv(g, m, Popped(w, |before.stack|, component), active)
    ensures VisitEnds(g, before, Popped(w, |before.stack|, component), v)
  {
    hide Reach, Scc, Closed, StackReaches, Anchored, Emitted, StackOk, Touches, Edge, Explored, BackEdges, Seen, Shorts;
    hide Reverses;
    var after := Popped(w, |before.stack|, component);
    var cut := CloseCut(g, m, before, w, active, v);
    assert Done(after) == Done(w) + cut;
    LeaveEdges(g, m, before, w, v);
    ClosedAnchored(g, w, active, v, after);
    ReversedComponent(m, w, |before.stack|, component);
    EmittedGrows(g, m, w.components, Done(w), component);
    ClosedRest(g, m, before, w, after, active, v);
  }

  lemma PeerEdge(m: PackageMap, v: string, target: string)
    requires v in m && target in m && target in m[v].deps
    ensures Edge(PeerGraph(m), v, target) && Reach(PeerGraph(m), v, target)
  {
    ReachEdge(PeerGraph(m), v, target);
  }

  lemma ReachVia(g: Graph, active: set<string>, v: string, target: string)
    requires Reach(g, v, target) && forall a :: a in active ==> Reach(g, a, v)
    ensures forall a :: a in active + {v} ==> Reach(g, a, target)
  {
    hide Reach;
    forall a | a in active ensures Reach(g, a, target) {
      ReachTrans(g, a, v, target);
    }
  }

  lemma AfterVisitInv(g: Graph, m: PackageMap, before: Walk, mid: Walk, w: Walk, active: set<string>, v: string,
                      target: string, deps: seq<string>)
    requires Inv(g, m, mid, active + {v}) && Exploring(g, before, mid, v, deps)
    requires before.stacked == Shorts(before.stack)
    requires Edge(g, v, target) && target !in mid.index
    requires Inv(g, m, w, active + {v}) && VisitEnds(g, mid, w, target)
    ensures v in w.low && target in w.low
    ensures Inv(g, m, Lowered(w, v, w.low[target]), active + {v})
    ensures Exploring(g, before, Lowered(w, v, w.low[target]), v, deps + [target])
  {
    hide Reach, Edge, StackReaches, Anchored, Emitted, Closed, Explored;
    AfterVisit(g, before, mid, w, v, target, deps);
    LoweredKeepsInv(g, m, w, active + {v}, v, w.low[target]);
  }

  lemma TopIsLast(m: PackageMap, w: Walk)
    requires StackOk(m, w) && w.stack != []
    ensures Shorts(w.stack[..|w.stack| - 1]) == w.stacked - {w.stack[|w.stack| - 1].short}
  {
    var rest, top := w.stack[..|w.stack| - 1], w.stack[|w.stack| - 1];
    assert rest + [top] == w.stack;
    ShortsAppend(rest, top);
    assert top.short !in Shorts(rest);
  }

  lemma PopKeepsStack(m: PackageMap, w: Walk)
    requires StackOk(m, w) && w.stack != []
    ensures var n := |w.stack| - 1;
            StackOk(m, w.(stack := w.stack[..n], stacked := w.stacked - {w.stack[n].short}))
  {
    TopIsLast(m, w);
    hide Shorts;
  }

  lemma StackedNames(m: PackageMap, w: Walk)
    requires StackOk(m, w)
    ensures w.stacked == Shorts(w.stack)
  {
  }

  lemma StackDistinct(m: PackageMap, w: Walk, i: nat, j: nat)
    requires StackOk(m, w) && i <= j < |w.stack| && w.stack[i] == w.stack[j]
    ensures i == j
  {
  }

  /** While the visit of `v` runs, the old stack stays below `v`. */
  lemma DuringVisit(g: Graph, m: PackageMap, before: Walk, w: Walk, active: set<string>, v: string, deps: seq<string>)
    requires Inv(g, m, before, active) && v !in before.index
    requires Inv(g, m, w, active + {v}) && Exploring(g, before, w, v, deps)
    ensures v in w.low && v in w.index && v in m && StackOk(m, w)
    ensures |before.stack| < |w.stack| && w.stack[|before.stack|] == m[v]
    ensures v !in active && active <= before.stacked <= w.stacked && before.stacked == Shorts(before.stack)
    ensures w.low[v] <= w.index[v] && g.Keys == m.Keys && before.index.Keys <= w.index.Keys
  {
    hide Reach, Edge, StackReaches, Anchored, Emitted, Closed, Explored, BackEdges, Touches, Done;
  }

  /** The traversal of the packages still to be ordered. */
  class Traversal {
    const remaining: PackageMap
    var nextIndex: nat
    var indices: map<string, nat>
    var lowLinks: map<string, nat>
    var stack: seq<Package>
    var stacked: set<string>
    var components: seq<seq<Package>>

    constructor (remaining: PackageMap)
      ensures this.remaining == remaining && State() == Walk(0, map[], map[], [], {}, [])
    {
      this.remaining := remaining;
      nextIndex, indices, lowLinks, stack, stacked, components := 0, map[], map[], [], {}, [];
    }

    ghost function State(): Walk
      reads this
    {
      Walk(nextIndex, indices, lowLinks, stack, stacked, components)
    }

    method Visit(pkg: Package, ghost active: set<string>)
      requires pkg.short in remaining && remaining[pkg.short] == pkg && pkg.short !in indices
      requires Inv(PeerGraph(remaining), remaining, State(), active)
      requires forall a :: a in active ==> Reach(PeerGraph(remaining), a, pkg.short)
      modifies this
      ensures Inv(PeerGraph(remaining), remaining, State(), active)
      ensures VisitEnds(PeerGraph(remaining), old(State()), State(), pkg.short)
      decreases remaining.Keys - indices.Keys
    {
      hide Inv, Exploring, VisitEnds, PeerGraph, Reach, Closing, StackOk, Reverses, Shorts, Edge;
      ghost var g, before := PeerGraph(remaining), State();
      var v := pkg.short;
      Enter(g, remaining, before, active, pkg);
      var index := nextIndex;
      nextIndex := nextIndex + 1;
      indices := indices[pkg.short := index];
      lowLinks := lowLinks[pkg.short := index];
      stack := stack + [pkg];
      stacked := stacked + {pkg.short};
      for i := 0 to |pkg.deps|
        invariant Inv(g, remaining, State(), active + {v})
        invariant Exploring(g, before, State(), v, pkg.deps[..i])
      {
        DuringVisit(g, remaining, before, State(), active, v, pkg.deps[..i]);
        var dependency := pkg.deps[i];
        assert pkg.deps[..i + 1] == pkg.deps[..i] + [dependency];
        ghost var mid := State();
        if dependency in remaining {
          var target := remaining[dependency];
          PeerEdge(remaining, v, target.short);
          if target.short !in indices {
            ReachVia(g, active, v, target.short);
            Visit(target, active + {v});
            AfterVisitInv(g, remaining, before, mid, State(), active, v, target.short, pkg.deps[..i]);
            LowerLink(v, RequiredValue(lowLinks, target.short));
          } else if target.short in stacked {
            AfterStacked(g, before, State(), v, target.short, pkg.deps[..i]);
            LoweredKeepsInv(g, remaining, State(), active + {v}, v, indices[target.short]);
            LowerLink(v, RequiredValue(indices, target.short));
          } else {
            AfterOther(g, before, State(), v, dependency, pkg.deps[..i]);
          }
        } else {
          AfterOther(g, before, State(), v, dependency, pkg.deps[..i]);
        }
      }
      assert pkg.deps[..|pkg.deps|] == pkg.deps;
      DuringVisit(g, remaining, before, State(), active, v, pkg.deps);
      if lowLinks[v] != indices[v] {
        Leave(g, remaining, before, State(), active, v);
        return;
      }
      ghost var whole := State();
      var component := PopComponent(pkg, |before.stack|);
      components := components + [component];
      assert Closing(g, remaining, before, whole, active, v) by { IsClosing(g, remaining, before, whole, active, v); }
      Close(g, remaining, before, whole, active, v, component);
    }

    /** Give `v` the smaller of its low link and `bound`; both lookups throw when their key is absent. */
    method LowerLink(v: string, bound: Result<nat, TraversalError>)
      requires v in lowLinks && bound.Ok?
      modifies this`lowLinks
      ensures lowLinks == old(lowLinks)[v := Min(old(lowLinks)[v], bound.value)]
    {
      var own := RequiredValue(lowLinks, v);
      lowLinks := lowLinks[v := Min(own.value, bound.value)];
    }

    /** Take the top of the stack; an empty stack is the traversal's other throw. */
    method Pop() returns (top: Result<Package, TraversalError>)
      requires StackOk(remaining, State())
      modifies this`stack, this`stacked
      ensures StackOk(remaining, State())
      ensures if old(stack) == [] then top == Err(LostActiveComponent) && stack == []
              else top == Ok(old(stack)[|old(stack)| - 1]) && stack == old(stack)[..|old(stack)| - 1]
    {
      if stack == [] {
        return Err(LostActiveComponent);
      }
      PopKeepsStack(remaining, State());
      hide StackOk;
      top := Ok(stack[|stack| - 1]);
      stack := stack[..|stack| - 1];
      stacked := stacked - {top.value.short};
    }

    /** Pop the stack down to and including `pkg`, which stands at `base`. */
    method PopComponent(pkg: Package, ghost base: nat) returns (component: seq<Package>)
      requires StackOk(remaining, State()) && base < |stack| && stack[base] == pkg
      modifies this`stack, this`stacked
      ensures StackOk(remaining, State())
      ensures stack == old(stack)[..base] && stacked == Shorts(stack)
      ensures Reverses(component, old(stack), base)
    {
      hide StackOk, Shorts;
      var first := Pop();
      component := [first.value];
      var member := first.value;
      while member != pkg
        invariant base <= |stack| < |old(stack)| && stack == old(stack)[..|stack|]
        invariant StackOk(remaining, State())
        invariant member == old(stack)[|stack|]
        invariant Reverses(component, old(stack), |stack|)
        decreases |stack|
      {
        var next := Pop();
        component := component + [next.value];
        member := next.value;
      }
      StackDistinct(remaining, old(State()), base, |stack|);
      StackedNames(remaining, State());
    }
  }

  /** The final filter: a cycle none of whose packages waits for a remaining package outside it. */
  predicate IsSinkCycle(component: seq<Package>, remaining: PackageMap)
    requires component != []
  {
    var names := set p | p in component :: p.short;
    && (|component| > 1 || component[0].short in component[0].deps)
    && forall p :: p in component ==> forall d :: d in p.deps ==> d !in remaining || d in names
  }

  lemma FilterCyclic(m: PackageMap, component: seq<Package>)
    requires component != [] && Distinct(component) && Within(component, m) && Scc(PeerGraph(m), Shorts(component))
    ensures Cyclic(PeerGraph(m), Shorts(component)) <==> |component| > 1 || component[0].short in component[0].deps
  {
    hide Reach, Scc, Cyclic;
    var g, names, first := PeerGraph(m), Shorts(component), component[0];
    assert first in component;
    CyclicComponent(g, names, first.short);
    if |component| > 1 {
      assert component[1] in component;
      assert component[1].short in names && component[1].short != first.short;
    } else {
      assert component == [first];
      assert names == {first.short};
    }
    assert Edge(g, first.short, first.short) <==> first.short in first.deps;
  }

  lemma FilterClosed(m: PackageMap, component: seq<Package>)
    requires Within(component, m)
    ensures Closed(PeerGraph(m), Shorts(component)) <==>
              forall p, d :: p in component && d in p.deps ==> d !in m || d in Shorts(component)
  {
    var g, names := PeerGraph(m), Shorts(component);
    forall p | p in component ensures p.short in names && p.short in m && m[p.short] == p {
      var i :| 0 <= i < |component| && component[i] == p;
    }
    if Closed(g, names) {
      forall p, d | p in component && d in p.deps && d in m ensures d in names { assert Edge(g, p.short, d); }
    }
  }

  lemma FilterMeaning(m: PackageMap, component: seq<Package>)
    requires component != [] && Distinct(component) && Within(component, m) && Scc(PeerGraph(m), Shorts(component))
    ensures IsSinkCycle(component, m) <==> SinkCycle(PeerGraph(m), Shorts(component))
  {
    hide Reach, Scc, Cyclic, Closed, Distinct, Within, PeerGraph;
    FilterCyclic(m, component);
    FilterClosed(m, component);
  }

  /** A state in which every package is indexed and no visit is under way. */
  lemma AllDone(g: Graph, m: PackageMap, w: Walk)
    requires Inv(g, m, w, {}) && m.Keys <= w.index.Keys
    ensures Emitted(g, m, w.components, m.Keys)
  {
    hide Reach, Emitted, StackReaches, Closed;
    assert w.stacked == {};
    assert Done(w) == m.Keys;
  }

  lemma FreshWalk(g: Graph, m: PackageMap)
    requires g.Keys == m.Keys
    ensures Inv(g, m, Walk(0, map[], map[], [], {}, []), {})
  {
  }

  ghost predicate SameComponent(component: seq<Package>, c: set<string>) {
    Shorts(component) == c
  }

  /** Every component of the graph is among the emitted ones. */
  lemma EmittedAll(g: Graph, m: PackageMap, components: seq<seq<Package>>, c: set<string>) returns (i: nat)
    requires Emitted(g, m, components, m.Keys) && g.Keys == m.Keys && Scc(g, c)
    ensures i < |components| && Shorts(components[i]) == c
  {
    hide Reach;
    var v :| v in c;
    i :| 0 <= i < |components| && v in Shorts(components[i]);
    SccUnique(g, Shorts(components[i]), c, v);
  }

  lemma PeerKeys(m: PackageMap)
    ensures PeerGraph(m).Keys == m.Keys
  {
  }

  lemma VisitIndexes(g: Graph, before: Walk, w: Walk, v: string)
    requires VisitEnds(g, before, w, v)
    ensures v in w.index && before.index.Keys <= w.index.Keys
  {
  }

  /** Return the components, in the order Tarjan's algorithm completes them. */
  method Components(order: seq<string>, remaining: PackageMap) returns (components: seq<seq<Package>>)
    requires forall k :: k in order <==> k in remaining
    ensures Emitted(PeerGraph(remaining), remaining, components, remaining.Keys)
  {
    hide Inv, VisitEnds, PeerGraph, Emitted, Edge;
    ghost var g := PeerGraph(remaining);
    PeerKeys(remaining);
    FreshWalk(g, remaining);
    var walk := new Traversal(remaining);
    for i := 0 to |order|
      invariant Inv(g, remaining, walk.State(), {}) && walk.remaining == remaining
      invariant forall j :: 0 <= j < i ==> order[j] in walk.indices
    {
      assert order[i] in order;
      var pkg := remaining[order[i]];
      if pkg.short !in walk.indices {
        ghost var was := walk.State();
        walk.Visit(pkg, {});
        VisitIndexes(g, was, walk.State(), pkg.short);
      }
    }
    AllDone(g, remaining, walk.State());
    components := walk.components;
  }

  lemma NonEmptyComponent(g: Graph, component: seq<Package>)
    requires Scc(g, Shorts(component))
    ensures component != []
  {
  }

  lemma SinkIsScc(g: Graph, c: set<string>)
    requires SinkCycle(g, c)
    ensures Scc(g, c)
  {
  }

  /** Return the cyclic components of the remaining packages that no edge leaves. */
  method SinkCycles(order: seq<string>, remaining: PackageMap) returns (cycles: seq<seq<Package>>)
    requires forall k :: k in order <==> k in remaining
    ensures forall i :: 0 <= i < |cycles| ==>
              SinkCycle(PeerGraph(remaining), Shorts(cycles[i])) && Distinct(cycles[i]) && Within(cycles[i], remaining)
    ensures forall i, j :: 0 <= i < j < |cycles| ==> Shorts(cycles[i]) !! Shorts(cycles[j])
    ensures forall c :: SinkCycle(PeerGraph(remaining), c) ==>
                          exists i :: 0 <= i < |cycles| && SameComponent(cycles[i], c)
  {
    hide PeerGraph, Edge, Scc, SinkCycle, Distinct, Within, IsSinkCycle;
    ghost var g := PeerGraph(remaining);
    var components := Components(order, remaining);
    cycles := [];
    for i := 0 to |components|
      invariant forall k :: 0 <= k < |cycles| ==>
                  SinkCycle(g, Shorts(cycles[k])) && Distinct(cycles[k]) && Within(cycles[k], remaining)
      invariant forall k :: 0 <= k < |cycles| ==> exists n :: 0 <= n < i && cycles[k] == components[n]
      invariant forall j, k :: 0 <= j < k < |cycles| ==> Shorts(cycles[j]) !! Shorts(cycles[k])
      invariant forall n :: 0 <= n < i && SinkCycle(g, Shorts(components[n])) ==> components[n] in cycles
    {
      NonEmptyComponent(g, components[i]);
      FilterMeaning(remaining, components[i]);
      if IsSinkCycle(components[i], remaining) {
        cycles := cycles + [components[i]];
      }
    }
    forall c | SinkCycle(g, c) ensures exists i :: 0 <= i < |cycles| && SameComponent(cycles[i], c) {
      PeerKeys(remaining);
      SinkIsScc(g, c);
      var n := EmittedAll(g, remaining, components, c);
      var i :| 0 <= i < |cycles| && cycles[i] == components[n];
      assert SameComponent(cycles[i], c);
    }
  }
}
