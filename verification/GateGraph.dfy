/** The checks on an aggregate of gates before any of them is run. */
module GateGraph {
  import opened Graphs
  import opened Ordering
  import opened Wrappers

  /** A gate: those that must pass before it starts, those that must have settled, and whether it may fail. */
  datatype Gate = Gate(id: string, needs: seq<string>, after: seq<string>, allowFailure: bool)

  datatype GraphError =
    | NoGates
    | DuplicateId(id: string)
    | UnknownNeed(gate: string, need: string)
    | UnknownPredecessor(gate: string, predecessor: string)
    | Cycle(path: seq<string>)

  type GateMap = m: map<string, Gate> | forall k :: k in m ==> m[k].id == k

  function ById(gates: seq<Gate>): GateMap {
    if gates == [] then map[]
    else
      var last := gates[|gates| - 1];
      ById(gates[..|gates| - 1])[last.id := last]
  }

  ghost predicate DistinctIds(gates: seq<Gate>) {
    forall i, j :: 0 <= i < j < |gates| ==> gates[i].id != gates[j].id
  }

  ghost predicate HasId(gates: seq<Gate>, id: string) {
    exists g :: g in gates && g.id == id
  }

  function Waits(g: Gate): seq<string> {
    g.needs + g.after
  }

  /** Each gate with those it waits for, in either way. */
  ghost function WaitGraph(m: GateMap): Graph {
    map k | k in m :: set d | d in Waits(m[k])
  }

  ghost predicate AllKnown(gates: seq<Gate>) {
    forall g, d :: g in gates && d in Waits(g) ==> HasId(gates, d)
  }

  /** What an aggregate must be like to be run. */
  ghost predicate Valid(gates: seq<Gate>) {
    gates != [] && DistinctIds(gates) && AllKnown(gates) && Acyclic(WaitGraph(ById(gates)))
  }

  lemma HasIdMore(rest: seq<Gate>, last: Gate, id: string)
    ensures HasId(rest + [last], id) <==> HasId(rest, id) || id == last.id
  {
    var gates := rest + [last];
    assert last in gates && forall g :: g in gates <==> g in rest || g == last;
    if HasId(rest, id) {
      var g :| g in rest && g.id == id;
      assert g in gates;
    }
  }

  lemma {:induction false} ByIdMembers(gates: seq<Gate>)
    ensures forall k :: k in ById(gates) <==> HasId(gates, k)
    ensures forall k :: k in ById(gates) ==> ById(gates)[k] in gates
  {
    if gates != [] {
      var rest, last := gates[..|gates| - 1], gates[|gates| - 1];
      assert gates == rest + [last];
      ByIdMembers(rest);
      hide HasId;
      forall k ensures HasId(gates, k) <==> HasId(rest, k) || k == last.id { HasIdMore(rest, last, k); }
    }
  }

  /** With distinct ids, a gate is the one found under its id. */
  lemma ByIdGate(gates: seq<Gate>, g: Gate)
    requires DistinctIds(gates) && g in gates
    ensures g.id in ById(gates) && ById(gates)[g.id] == g
  {
    ByIdMembers(gates);
    assert HasId(gates, g.id);
    var found := ById(gates)[g.id];
    var i :| 0 <= i < |gates| && gates[i] == g;
    var j :| 0 <= j < |gates| && gates[j] == found;
  }

  // ---------- Cycles ----------

  /** A closed walk. */
  ghost predicate IsCycle(g: Graph, c: seq<string>) {
    |c| > 1 && c[0] == c[|c| - 1] && forall i :: 0 <= i < |c| - 1 ==> Edge(g, c[i], c[i + 1])
  }

  lemma {:induction false} WalkReaches(g: Graph, c: seq<string>, i: nat, j: nat)
    requires i <= j < |c| && (forall k :: 0 <= k < |c| - 1 ==> Edge(g, c[k], c[k + 1])) && c[i] in g
    ensures Reach(g, c[i], c[j])
    decreases j - i
  {
    hide Reach;
    if i == j {
      ReachSelf(g, c[i]);
    } else {
      WalkReaches(g, c, i, j - 1);
      ReachEdge(g, c[j - 1], c[j]);
      ReachTrans(g, c[i], c[j - 1], c[j]);
    }
  }

  lemma CycleNotAcyclic(g: Graph, c: seq<string>)
    requires IsCycle(g, c)
    ensures !Acyclic(g)
  {
    hide Reach;
    WalkReaches(g, c, 1, |c| - 1);
    assert Edge(g, c[0], c[1]);
  }

  /** Each vertex comes after all it has an edge to. */
  ghost predicate Finished(g: Graph, order: seq<string>) {
    && NoRepeats(order)
    && forall i, b :: 0 <= i < |order| && Edge(g, order[i], b) ==> b in order[..i]
  }

  lemma {:induction false} PathDescends(g: Graph, order: seq<string>, i: nat, p: seq<string>, b: string)
    requires Finished(g, order) && i < |order| && IsPath(g, p, order[i], b)
    ensures b in order[..i + 1]
    decreases |p|
  {
    assert order[i] in order[..i + 1];
    if p != [] {
      assert p[0] in order[..i];
      var j :| 0 <= j < i && order[j] == p[0];
      PathDescends(g, order, j, p[1..], b);
      assert order[..j + 1] <= order[..i + 1];
    }
  }

  lemma NotEarlier(order: seq<string>, i: nat, j: nat)
    requires NoRepeats(order) && j < i < |order|
    ensures order[i] !in order[..j + 1]
  {
  }

  /** A graph all of whose vertices finish has no cycle. */
  lemma FinishedAcyclic(g: Graph, order: seq<string>)
    requires Finished(g, order) && forall a :: a in g ==> a in order
    ensures Acyclic(g)
  {
    forall a, b | Edge(g, a, b) ensures !Reach(g, b, a) {
      if Reach(g, b, a) {
        var i :| 0 <= i < |order| && order[i] == a;
        assert b in order[..i];
        var j :| 0 <= j < i && order[j] == b;
        var p :| IsPath(g, p, b, a);
        NotEarlier(order, i, j);
        PathDescends(g, order, j, p, a);
        assert false;
      }
    }
  }

  function Minus(active: map<string, nat>, id: string): map<string, nat> {
    map n | n in active && n != id :: active[n]
  }

  /** The search's state: what is complete, in the order of completion, and the path of the vertices under way. */
  ghost predicate Inv(g: Graph, complete: set<string>, active: map<string, nat>, path: seq<string>,
                      order: seq<string>) {
    && Finished(g, order) && (forall n :: n in order <==> n in complete)
    && (forall n :: n in complete ==> n in g)
    && (forall n :: n in active ==> active[n] < |path| && path[active[n]] == n)
    && (forall i :: 0 <= i < |path| ==>
          path[i] in g && path[i] in active && active[path[i]] == i && path[i] !in complete)
    && (forall i :: 0 <= i < |path| - 1 ==> Edge(g, path[i], path[i + 1]))
  }

  /** `id` is where the path goes on. */
  ghost predicate Onward(g: Graph, path: seq<string>, id: string) {
    path != [] && id in g ==> Edge(g, path[|path| - 1], id)
  }

  lemma CycleClosed(g: Graph, complete: set<string>, active: map<string, nat>, path: seq<string>, order: seq<string>,
                    id: string)
    requires Inv(g, complete, active, path, order) && id in active && Onward(g, path, id)
    ensures IsCycle(g, path[active[id]..] + [id])
  {
    hide Finished;
    var c := path[active[id]..] + [id];
    assert id in g;
    forall i | 0 <= i < |c| - 1 ensures Edge(g, c[i], c[i + 1]) {
      assert c[i] == path[active[id] + i];
    }
  }

  lemma EnterInv(g: Graph, complete: set<string>, active: map<string, nat>, path: seq<string>, order: seq<string>,
                 id: string)
    requires Inv(g, complete, active, path, order) && Onward(g, path, id) && id in g && id !in complete && id !in active
    ensures Inv(g, complete, active[id := |path|], path + [id], order)
  {
    hide Finished;
  }

  /** All that a vertex has an edge to is complete, and so is the vertex. */
  lemma LeaveInv(g: Graph, complete: set<string>, active: map<string, nat>, path: seq<string>, order: seq<string>,
                 id: string)
    requires Inv(g, complete, active, path, order) && path != [] && path[|path| - 1] == id
    requires forall b :: Edge(g, id, b) ==> b in complete
    ensures Inv(g, complete + {id}, Minus(active, id), path[..|path| - 1], order + [id])
  {
    var more := order + [id];
    assert id !in order;
    assert Finished(g, more) by {
      forall i, b | 0 <= i < |more| && Edge(g, more[i], b) ensures b in more[..i] {
        if i < |order| { assert more[..i] == order[..i]; } else { assert more[..i] == order; }
      }
    }
    hide Finished;
  }

  lemma WaitKeys(m: GateMap)
    ensures WaitGraph(m).Keys == m.Keys
  {
  }

  lemma InPath(g: Graph, complete: set<string>, active: map<string, nat>, path: seq<string>, order: seq<string>,
               id: string)
    requires Inv(g, complete, active, path, order) && id in active
    ensures active[id] < |path|
  {
  }

  lemma ActiveRestored(g: Graph, complete: set<string>, active: map<string, nat>, path: seq<string>, order: seq<string>,
                       id: string)
    requires Inv(g, complete, active, path, order) && id !in active
    ensures Minus(active[id := |path|], id) == active
  {
  }

  lemma NextOnward(m: GateMap, path: seq<string>, id: string, d: string)
    requires id in m && d in Waits(m[id])
    ensures Onward(WaitGraph(m), path + [id], d)
  {
  }

  lemma WaitEdges(m: GateMap, id: string, complete: set<string>)
    requires id in m && forall k :: 0 <= k < |Waits(m[id])| && Waits(m[id])[k] in m ==> Waits(m[id])[k] in complete
    ensures forall b :: Edge(WaitGraph(m), id, b) ==> b in complete
  {
  }

  class CycleSearch {
    const byId: GateMap
    var complete: set<string>
    var active: map<string, nat>
    var path: seq<string>
    ghost var order: seq<string>

    constructor (byId: GateMap)
      ensures this.byId == byId && complete == {} && active == map[] && path == [] && order == []
    {
      this.byId := byId;
      complete, active, path, order := {}, map[], [], [];
    }

    /** The cycle met from `id`, if any; otherwise `id` is complete, and the path is as it was. */
    method Visit(id: string) returns (cycle: Option<seq<string>>)
      requires Inv(WaitGraph(byId), complete, active, path, order) && Onward(WaitGraph(byId), path, id)
      modifies this
      ensures cycle.Some? ==> IsCycle(WaitGraph(byId), cycle.value)
      ensures cycle.None? ==> Inv(WaitGraph(byId), complete, active, path, order) && old(complete) <= complete
      ensures cycle.None? ==> active == old(active) && path == old(path) && (id in byId ==> id in complete)
      decreases byId.Keys - complete - active.Keys, 1
    {
      ghost var g := WaitGraph(byId);
      hide Inv, Edge, IsCycle, WaitGraph, Onward, Waits, Minus;
      if id in complete {
        return None;
      }
      if id in active {
        CycleClosed(g, complete, active, path, order, id);
        InPath(g, complete, active, path, order, id);
        return Some(path[active[id]..] + [id]);
      }
      if id !in byId {
        return None;
      }
      cycle := Enter(id);
    }

    /** The visit of a gate not met before: all it waits for is visited first. */
    method Enter(id: string) returns (cycle: Option<seq<string>>)
      requires Inv(WaitGraph(byId), complete, active, path, order) && Onward(WaitGraph(byId), path, id)
      requires id in byId && id !in complete && id !in active
      modifies this
      ensures cycle.Some? ==> IsCycle(WaitGraph(byId), cycle.value)
      ensures cycle.None? ==> Inv(WaitGraph(byId), complete, active, path, order) && old(complete) + {id} <= complete
      ensures cycle.None? ==> active == old(active) && path == old(path)
      decreases byId.Keys - complete - active.Keys, 0
    {
      ghost var g := WaitGraph(byId);
      hide Inv, Edge, IsCycle, WaitGraph, Onward, Waits, Minus;
      WaitKeys(byId);
      EnterInv(g, complete, active, path, order, id);
      active := active[id := |path|];
      path := path + [id];
      var waits := Waits(byId[id]);
      for i := 0 to |waits|
        invariant Inv(g, complete, active, path, order) && old(complete) <= complete
        invariant active == old(active)[id := |old(path)|] && path == old(path) + [id]
        invariant forall k :: 0 <= k < i && waits[k] in byId ==> waits[k] in complete
      {
        NextOnward(byId, old(path), id, waits[i]);
        assert active.Keys == old(active).Keys + {id};
        assert id in byId.Keys - old(complete) - old(active).Keys;
        cycle := Visit(waits[i]);
        if cycle.Some? {
          return;
        }
      }
      WaitEdges(byId, id, complete);
      LeaveInv(g, complete, active, path, order, id);
      ActiveRestored(g, old(complete), old(active), old(path), old(order), id);
      path := path[..|path| - 1];
      active := Minus(active, id);
      complete := complete + {id};
      order := order + [id];
      cycle := None;
    }
  }

  lemma NothingVisited(g: Graph)
    ensures Inv(g, {}, map[], [], [])
  {
  }

  lemma AllComplete(gates: seq<Gate>, complete: set<string>, active: map<string, nat>, path: seq<string>,
                    order: seq<string>)
    requires Inv(WaitGraph(ById(gates)), complete, active, path, order)
    requires forall k :: 0 <= k < |gates| ==> gates[k].id in complete
    ensures Acyclic(WaitGraph(ById(gates)))
  {
    ByIdMembers(gates);
    hide Finished, Acyclic, ById;
    forall a | a in WaitGraph(ById(gates)) ensures a in order {
      var gate :| gate in gates && gate.id == a;
      var k :| 0 <= k < |gates| && gates[k] == gate;
    }
    FinishedAcyclic(WaitGraph(ById(gates)), order);
  }

  /** A cycle of gates that wait for each other, if there is one. */
  method FindDependencyCycle(gates: seq<Gate>) returns (cycle: Option<seq<string>>)
    ensures cycle.None? <==> Acyclic(WaitGraph(ById(gates)))
    ensures cycle.Some? ==> IsCycle(WaitGraph(ById(gates)), cycle.value)
  {
    var search := new CycleSearch(ById(gates));
    ghost var g := WaitGraph(ById(gates));
    NothingVisited(g);
    ByIdMembers(gates);
    hide Inv, Edge, IsCycle, Acyclic, ById;
    for i := 0 to |gates|
      invariant fresh(search) && search.byId == ById(gates) && search.path == []
      invariant Inv(g, search.complete, search.active, search.path, search.order)
      invariant forall k :: 0 <= k < i ==> gates[k].id in search.complete
    {
      assert gates[i] in gates && HasId(gates, gates[i].id);
      cycle := search.Visit(gates[i].id);
      if cycle.Some? {
        CycleNotAcyclic(g, cycle.value);
        return;
      }
    }
    AllComplete(gates, search.complete, search.active, search.path, search.order);
    cycle := None;
  }

  ghost predicate NoneLost(gates: seq<Gate>, names: seq<string>) {
    forall n :: n in names ==> HasId(gates, n)
  }

  /** All that the gates before this one wait for are gates. */
  ghost predicate FirstLost(gates: seq<Gate>, i: nat) {
    i < |gates| && forall k :: 0 <= k < i ==> NoneLost(gates, gates[k].needs) && NoneLost(gates, gates[k].after)
  }

  /** The first of the names that is no gate's. */
  ghost predicate IsFirstLost(gates: seq<Gate>, names: seq<string>, name: string) {
    exists k :: 0 <= k < |names| && names[k] == name && !HasId(gates, name) && NoneLost(gates, names[..k])
  }

  /** What an error says about the gates. */
  ghost predicate Justified(gates: seq<Gate>, error: GraphError) {
    match error
    case NoGates => gates == []
    case DuplicateId(id) =>
      exists j :: 0 <= j < |gates| && gates[j].id == id && DistinctIds(gates[..j]) && HasId(gates[..j], id)
    case UnknownNeed(gate, need) =>
      && DistinctIds(gates)
      && exists i: nat :: FirstLost(gates, i) && gates[i].id == gate && IsFirstLost(gates, gates[i].needs, need)
    case UnknownPredecessor(gate, predecessor) =>
      && DistinctIds(gates)
      && exists i: nat :: FirstLost(gates, i) && gates[i].id == gate && NoneLost(gates, gates[i].needs)
                          && IsFirstLost(gates, gates[i].after, predecessor)
    case Cycle(path) => DistinctIds(gates) && AllKnown(gates) && IsCycle(WaitGraph(ById(gates)), path)
  }

  ghost predicate FirstOutside(names: seq<string>, ids: set<string>, k: nat) {
    k < |names| && names[k] !in ids && forall j :: 0 <= j < k ==> names[j] in ids
  }

  /** The first name not among the ids, if any. */
  function FirstUnknown(names: seq<string>, ids: set<string>): (r: Option<string>)
    ensures r.None? <==> forall n :: n in names ==> n in ids
    ensures r.Some? ==> exists k :: 0 <= k < |names| && names[k] == r.value && FirstOutside(names, ids, k)
  {
    if names == [] then None
    else if names[0] !in ids then
      assert FirstOutside(names, ids, 0);
      Some(names[0])
    else
      var rest := FirstUnknown(names[1..], ids);
      assert forall k: nat :: FirstOutside(names[1..], ids, k) ==>
                                FirstOutside(names, ids, k + 1) && names[k + 1] == names[1..][k];
      rest
  }

  lemma OutsideLost(gates: seq<Gate>, names: seq<string>, ids: set<string>, name: string)
    requires forall id :: id in ids <==> HasId(gates, id)
    requires exists k :: 0 <= k < |names| && names[k] == name && FirstOutside(names, ids, k)
    ensures IsFirstLost(gates, names, name) && name in names
  {
    hide HasId;
    var k :| 0 <= k < |names| && names[k] == name && FirstOutside(names, ids, k);
    forall n | n in names[..k] ensures HasId(gates, n) {
      var j :| 0 <= j < k && names[j] == n;
    }
  }

  /** The ids, each of which must be new. */
  method CollectIds(gates: seq<Gate>) returns (r: Result<set<string>, GraphError>)
    ensures r.Ok? <==> DistinctIds(gates)
    ensures r.Ok? ==> forall id :: id in r.value <==> HasId(gates, id)
    ensures r.Err? ==> r.error.DuplicateId? && Justified(gates, r.error)
  {
    hide ById, WaitGraph;
    var ids: set<string> := {};
    for i := 0 to |gates|
      invariant forall id :: id in ids <==> exists k :: 0 <= k < i && gates[k].id == id
      invariant forall a, b :: 0 <= a < b < i ==> gates[a].id != gates[b].id
    {
      if gates[i].id in ids {
        var k :| 0 <= k < i && gates[k].id == gates[i].id;
        assert gates[..i][k] in gates[..i];
        return Err(DuplicateId(gates[i].id));
      }
      ids := ids + {gates[i].id};
    }
    forall id ensures id in ids <==> HasId(gates, id) {
      if HasId(gates, id) { var g :| g in gates && g.id == id; var k :| 0 <= k < |gates| && gates[k] == g; }
      if k :| 0 <= k < |gates| && gates[k].id == id { assert gates[k] in gates; }
    }
    r := Ok(ids);
  }

  lemma NotAllKnown(gates: seq<Gate>, g: Gate, name: string)
    requires g in gates && (name in g.needs || name in g.after) && !HasId(gates, name)
    ensures !AllKnown(gates)
  {
    assert name in Waits(g);
  }

  lemma NoneLostKnown(gates: seq<Gate>)
    requires forall k :: 0 <= k < |gates| ==> NoneLost(gates, gates[k].needs) && NoneLost(gates, gates[k].after)
    ensures AllKnown(gates)
  {
    forall g, d | g in gates && d in Waits(g) ensures HasId(gates, d) {
      var k :| 0 <= k < |gates| && gates[k] == g;
    }
  }

  /** Nothing for an aggregate that can be run, otherwise the first thing that is wrong with it. */
  method ValidateGateGraph(gates: seq<Gate>) returns (wrong: Option<GraphError>)
    ensures wrong.None? <==> Valid(gates)
    ensures wrong.Some? ==> Justified(gates, wrong.value)
  {
    hide Acyclic, ById, WaitGraph, IsCycle, HasId, DistinctIds;
    if gates == [] {
      return Some(NoGates);
    }
    var ids := CollectIds(gates);
    if ids.Err? {
      return Some(ids.error);
    }
    for i := 0 to |gates|
      invariant forall k :: 0 <= k < i ==> NoneLost(gates, gates[k].needs) && NoneLost(gates, gates[k].after)
    {
      assert gates[i] in gates && FirstLost(gates, i);
      var need := FirstUnknown(gates[i].needs, ids.value);
      if need.Some? {
        OutsideLost(gates, gates[i].needs, ids.value, need.value);
        NotAllKnown(gates, gates[i], need.value);
        return Some(UnknownNeed(gates[i].id, need.value));
      }
      var predecessor := FirstUnknown(gates[i].after, ids.value);
      if predecessor.Some? {
        OutsideLost(gates, gates[i].after, ids.value, predecessor.value);
        NotAllKnown(gates, gates[i], predecessor.value);
        return Some(UnknownPredecessor(gates[i].id, predecessor.value));
      }
    }
    NoneLostKnown(gates);
    var cycle := FindDependencyCycle(gates);
    wrong := if cycle.Some? then Some(Cycle(cycle.value)) else None;
  }
}
