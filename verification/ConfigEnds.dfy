/** When the key-path walk ends. */
module ConfigEnds {
  import opened ConfigLookup
  import opened ConfigMarks
  import opened Wrappers

  /** A declaration and the path it is walked with. */
  type Call = (DeclId, seq<Step>)

  // ---------- Which calls a walk makes ----------

  ghost predicate Walked(world: World, id: DeclId) {
    id in world.decls && !world.decls[id].Enum?
  }

  ghost predicate NameCalls(world: World, file: string, name: string, steps: seq<Step>, call: Call) {
    (file, name) in world.names && call == (world.names[(file, name)], steps) && Walked(world, call.0)
  }

  /** Walking the type with the path `steps` walks the declaration `call.0` with the path `call.1`. */
  ghost predicate Calls(world: World, file: string, node: TypeNode, steps: seq<Step>, call: Call)
    decreases node
  {
    steps != [] && match node
      case Literal(members, _) =>
        steps[0].Member? && exists i :: 0 <= i < |members| && PropertyNamed(members, steps[0].name) == Some(members[i])
                                        && PropertyCalls(world, file, members[i], steps, call)
      case Parenthesized(inner) => Calls(world, file, inner, steps, call)
      case Intersection(parts) => exists i :: 0 <= i < |parts| && Calls(world, file, parts[i], steps, call)
      case Union(parts) => exists i :: 0 <= i < |parts| && Calls(world, file, parts[i], steps, call)
      case ArrayOf(element) => steps[0].Element? && Calls(world, file, element, steps[1..], call)
      case Operator(_, inner) => Calls(world, file, inner, steps, call)
      case Indexed(target, key) => key.Some? && Calls(world, file, target, [Member(key.value)] + steps, call)
      case Reference(head, qualified, args) =>
        if IsWrapper(head) && args != [] then Calls(world, file, args[0], steps, call)
        else if IsArrayName(head) && args != [] then steps[0].Element? && Calls(world, file, args[0], steps[1..], call)
        else !qualified && NameCalls(world, file, head, steps, call)
      case Other(_) => false
  }

  ghost predicate PropertyCalls(world: World, file: string, p: Property, steps: seq<Step>, call: Call)
    decreases p
  {
    |steps| > 1 && p.typ.Some? && Calls(world, file, p.typ.value, steps[1..], call)
  }

  /** One call makes another. */
  ghost predicate Makes(world: World, from: Call, call: Call) {
    Walked(world, from.0) && from.1 != [] && match world.decls[from.0]
      case Interface(members, _, bases) =>
        from.1[0].Member? &&
        (match PropertyNamed(members, from.1[0].name)
         case Some(p) => PropertyCalls(world, from.0.file, p, from.1, call)
         case None => exists i :: 0 <= i < |bases| && bases[i].Named? &&
                                  NameCalls(world, from.0.file, bases[i].name, from.1, call))
      case Alias(typ) => Calls(world, from.0.file, typ, from.1, call)
  }

  ghost predicate IsTrail(world: World, from: Call, trail: seq<Call>, to: Call)
    decreases |trail|
  {
    if trail == [] then from == to else Makes(world, from, trail[0]) && IsTrail(world, trail[0], trail[1..], to)
  }

  /** `call` is made by the walk `start` were it never to stop at a declaration. */
  ghost predicate Reachable(world: World, start: Call, call: Call) {
    exists trail :: IsTrail(world, start, trail, call)
  }

  lemma {:induction false} TrailMore(world: World, from: Call, trail: seq<Call>, to: Call, call: Call)
    requires IsTrail(world, from, trail, to) && Makes(world, to, call)
    ensures IsTrail(world, from, trail + [call], call)
    decreases |trail|
  {
    hide Makes;
    if trail == [] {
      assert [call][1..] == [];
    } else {
      TrailMore(world, trail[0], trail[1..], to, call);
      assert (trail + [call])[1..] == trail[1..] + [call];
    }
  }

  lemma ReachableMore(world: World, start: Call, to: Call, call: Call)
    requires Reachable(world, start, to) && Makes(world, to, call)
    ensures Reachable(world, start, call)
  {
    hide Makes, IsTrail;
    var trail :| IsTrail(world, start, trail, to);
    TrailMore(world, start, trail, to, call);
  }

  lemma ReachableSelf(world: World, start: Call)
    ensures Reachable(world, start, start)
  {
    assert IsTrail(world, start, [], start);
  }

  /** Every path the walk can come to is no longer than `longest`. */
  ghost predicate BoundedBy(world: World, start: Call, longest: nat) {
    forall call: Call :: Reachable(world, start, call) ==> |call.1| <= longest
  }

  ghost predicate Bounded(world: World, start: Call) {
    exists longest: nat :: BoundedBy(world, start, longest)
  }

  // ---------- Bounded paths are enough ----------

  /** All that the walk of the type calls is reachable. */
  ghost predicate Inside(world: World, start: Call, file: string, node: TypeNode, steps: seq<Step>) {
    forall call: Call :: Calls(world, file, node, steps, call) ==> Reachable(world, start, call)
  }

  ghost predicate AllInside(world: World, start: Call, file: string, nodes: seq<TypeNode>, steps: seq<Step>) {
    forall i :: 0 <= i < |nodes| ==> Inside(world, start, file, nodes[i], steps)
  }

  /** The same for the rest of a node's walk, with the path its inner node is walked with. */
  lemma InsideInner(world: World, start: Call, file: string, node: TypeNode, steps: seq<Step>, inner: TypeNode,
                    rest: seq<Step>)
    requires Inside(world, start, file, node, steps) && steps != []
    requires || ((node.Parenthesized? || node.Operator?) && node.inner == inner && rest == steps)
             || (node == ArrayOf(inner) && steps[0].Element? && rest == steps[1..])
             || (node.Indexed? && node.target == inner && node.key.Some? && rest == [Member(node.key.value)] + steps)
             || (node.Reference? && node.args != [] && node.args[0] == inner && IsWrapper(node.head) && rest == steps)
             || (node.Reference? && node.args != [] && node.args[0] == inner && !IsWrapper(node.head) &&
                 IsArrayName(node.head)
                 && steps[0].Element? && rest == steps[1..])
    ensures Inside(world, start, file, inner, rest)
  {
    hide Reachable;
    forall call: Call | Calls(world, file, inner, rest, call) ensures Reachable(world, start, call) {
      assert Calls(world, file, node, steps, call);
    }
  }

  lemma InsideParts(world: World, start: Call, file: string, node: TypeNode, steps: seq<Step>, parts: seq<TypeNode>)
    requires Inside(world, start, file, node, steps) && steps != []
    requires (node == Intersection(parts) || node == Union(parts))
    ensures AllInside(world, start, file, parts, steps)
  {
    hide Reachable;
    forall i, call: Call | 0 <= i < |parts| && Calls(world, file, parts[i], steps, call)
      ensures Reachable(world, start, call)
    {
      assert Calls(world, file, node, steps, call);
    }
  }

  lemma InsideProperty(world: World, start: Call, file: string, node: TypeNode, steps: seq<Step>)
    requires Inside(world, start, file, node, steps) && node.Literal? && |steps| > 1 && steps[0].Member?
    ensures var p := PropertyNamed(node.members, steps[0].name);
            p.Some? && p.value.typ.Some? ==> Inside(world, start, file, p.value.typ.value, steps[1..])
  {
    hide Reachable;
    var p := PropertyNamed(node.members, steps[0].name);
    PropertyNamedIs(node.members, steps[0].name);
    if p.Some? && p.value.typ.Some? {
      var i :| 0 <= i < |node.members| && node.members[i] == p.value;
      forall call: Call | Calls(world, file, p.value.typ.value, steps[1..], call)
        ensures Reachable(world, start, call)
      {
        assert PropertyCalls(world, file, node.members[i], steps, call);
        assert Calls(world, file, node, steps, call);
      }
    }
  }

  ghost predicate BaseInside(world: World, start: Call, file: string, base: Base, steps: seq<Step>) {
    base.Named? && (file, base.name) in world.names && Walked(world, world.names[(file, base.name)]) ==>
      Reachable(world, start, (world.names[(file, base.name)], steps))
  }

  ghost predicate BasesInside(world: World, start: Call, file: string, bases: seq<Base>, steps: seq<Step>) {
    forall i :: 0 <= i < |bases| ==> BaseInside(world, start, file, bases[i], steps)
  }

  lemma InsideAlias(world: World, start: Call, id: DeclId, steps: seq<Step>)
    requires Reachable(world, start, (id, steps)) && steps != [] && id in world.decls && world.decls[id].Alias?
    ensures Inside(world, start, id.file, world.decls[id].typ, steps)
  {
    hide Reachable;
    forall call: Call | Calls(world, id.file, world.decls[id].typ, steps, call) ensures Reachable(world, start, call) {
      ReachableMore(world, start, (id, steps), call);
    }
  }

  lemma InsideMember(world: World, start: Call, id: DeclId, steps: seq<Step>)
    requires Reachable(world, start, (id, steps)) && |steps| > 1 && steps[0].Member? && id in world.decls
    requires world.decls[id].Interface?
    ensures var p := PropertyNamed(world.decls[id].members, steps[0].name);
            p.Some? && p.value.typ.Some? ==> Inside(world, start, id.file, p.value.typ.value, steps[1..])
  {
    hide Reachable;
    var p := PropertyNamed(world.decls[id].members, steps[0].name);
    if p.Some? && p.value.typ.Some? {
      forall call: Call | Calls(world, id.file, p.value.typ.value, steps[1..], call)
        ensures Reachable(world, start, call)
      {
        assert PropertyCalls(world, id.file, p.value, steps, call);
        ReachableMore(world, start, (id, steps), call);
      }
    }
  }

  lemma InsideBases(world: World, start: Call, id: DeclId, steps: seq<Step>)
    requires Reachable(world, start, (id, steps)) && steps != [] && steps[0].Member? && id in world.decls
    requires world.decls[id].Interface?
    requires PropertyNamed(world.decls[id].members, steps[0].name).None?
    ensures BasesInside(world, start, id.file, world.decls[id].bases, steps)
  {
    hide Reachable;
    var bases := world.decls[id].bases;
    forall i | 0 <= i < |bases| ensures BaseInside(world, start, id.file, bases[i], steps) {
      if bases[i].Named? && (id.file, bases[i].name) in world.names &&
      Walked(world, world.names[(id.file, bases[i].name)]) {
        assert NameCalls(world, id.file, bases[i].name, steps, (world.names[(id.file, bases[i].name)], steps));
        ReachableMore(world, start, (id, steps), (world.names[(id.file, bases[i].name)], steps));
      }
    }
  }

  /** The keys marked since `seen` are those of reachable calls. */
  ghost predicate Traced(world: World, start: Call, seen: Seen, marks: Seen) {
    forall id, n: nat :: (id, n) in marks && (id, n) !in seen ==>
                           exists steps: seq<Step> :: |steps| == n && Reachable(world, start, (id, steps))
  }

  lemma TracedSelf(world: World, start: Call, seen: Seen)
    ensures Traced(world, start, seen, seen)
  {
  }

  lemma TracedMore(world: World, start: Call, seen: Seen, mid: Seen, marks: Seen)
    requires Traced(world, start, seen, mid) && Traced(world, start, mid, marks)
    ensures Traced(world, start, seen, marks)
  {
    hide Reachable;
  }

  lemma TracedVisit(world: World, start: Call, seen: Seen, id: DeclId, steps: seq<Step>, marks: Seen)
    requires Traced(world, start, seen + {(id, |steps|)}, marks) && Reachable(world, start, (id, steps))
    ensures Traced(world, start, seen, marks)
  {
    hide Reachable;
  }

  lemma InsideReference(world: World, start: Call, file: string, node: TypeNode, steps: seq<Step>)
    requires Inside(world, start, file, node, steps) && steps != [] && node.Reference? && !node.qualified
    requires !((IsWrapper(node.head) || IsArrayName(node.head)) && node.args != []) && (file, node.head) in world.names
    ensures var id := world.names[(file, node.head)]; Walked(world, id) ==> Reachable(world, start, (id, steps))
  {
    hide Reachable;
    var id := world.names[(file, node.head)];
    if Walked(world, id) { assert Calls(world, file, node, steps, (id, steps)); }
  }

  lemma {:induction false} MarksTraced(world: World, start: Call, file: string, node: TypeNode, steps: seq<Step>,
                                       seen: Seen, fuel: nat)
    requires Inside(world, start, file, node, steps)
    ensures Traced(world, start, seen, MarkWalk(world, file, node, steps, seen, fuel))
    decreases fuel, 1
  {
    TracedSelf(world, start, seen);
    hide Traced, Inside, AllInside, MarkReference, MarkAll, MarkProperty, PropertyNamed, IsWrapper, IsArrayName;
    if fuel > 0 && steps != [] {
      match node
      case Literal(members, others) =>
        if steps[0].Member? && PropertyNamed(members, steps[0].name).Some? {
          if |steps| > 1 { InsideProperty(world, start, file, node, steps); }
          PropertyTraced(world, start, file, PropertyNamed(members, steps[0].name).value, steps, seen, fuel - 1);
        }
      case Parenthesized(inner) =>
        InsideInner(world, start, file, node, steps, inner, steps);
        MarksTraced(world, start, file, inner, steps, seen, fuel - 1);
      case Intersection(parts) =>
        InsideParts(world, start, file, node, steps, parts);
        AllTraced(world, start, file, parts, steps, seen, fuel - 1);
      case Union(parts) =>
        InsideParts(world, start, file, node, steps, parts);
        AllTraced(world, start, file, parts, steps, seen, fuel - 1);
      case ArrayOf(element) =>
        if steps[0].Element? {
          InsideInner(world, start, file, node, steps, element, steps[1..]);
          MarksTraced(world, start, file, element, steps[1..], seen, fuel - 1);
        }
      case Operator(_, inner) =>
        InsideInner(world, start, file, node, steps, inner, steps);
        MarksTraced(world, start, file, inner, steps, seen, fuel - 1);
      case Indexed(target, key) =>
        if key.Some? {
          InsideInner(world, start, file, node, steps, target, [Member(key.value)] + steps);
          MarksTraced(world, start, file, target, [Member(key.value)] + steps, seen, fuel - 1);
        }
      case Reference(_, _, _) => ReferenceTraced(world, start, file, node, steps, seen, fuel);
      case Other(_) =>
    }
  }

  lemma {:induction false} ReferenceTraced(world: World, start: Call, file: string, node: TypeNode, steps: seq<Step>,
                                           seen: Seen, fuel: nat)
    requires fuel > 0 && steps != [] && node.Reference? && Inside(world, start, file, node, steps)
    ensures Traced(world, start, seen, MarkReference(world, file, node.head, node.qualified, node.args, steps, seen,
                                                     fuel))
    decreases fuel, 0
  {
    TracedSelf(world, start, seen);
    hide Traced, Inside, Reachable, IsWrapper, IsArrayName, MarkWalk, MarkDecl;
    if IsWrapper(node.head) && node.args != [] {
      InsideInner(world, start, file, node, steps, node.args[0], steps);
      MarksTraced(world, start, file, node.args[0], steps, seen, fuel - 1);
    } else if IsArrayName(node.head) && node.args != [] {
      if steps[0].Element? {
        InsideInner(world, start, file, node, steps, node.args[0], steps[1..]);
        MarksTraced(world, start, file, node.args[0], steps[1..], seen, fuel - 1);
      }
    } else if !node.qualified && (file, node.head) in world.names {
      InsideReference(world, start, file, node, steps);
      DeclTraced(world, start, world.names[(file, node.head)], steps, seen, fuel - 1);
    }
  }

  lemma {:induction false} PropertyTraced(world: World, start: Call, file: string, p: Property, steps: seq<Step>,
                                          seen: Seen, fuel: nat)
    requires steps != [] && (|steps| > 1 && p.typ.Some? ==> Inside(world, start, file, p.typ.value, steps[1..]))
    ensures Traced(world, start, seen, MarkProperty(world, file, p, steps, seen, fuel))
    decreases fuel, 2
  {
    TracedSelf(world, start, seen);
    hide Traced, Inside, MarkWalk;
    if |steps| > 1 && p.typ.Some? { MarksTraced(world, start, file, p.typ.value, steps[1..], seen, fuel); }
  }

  lemma {:induction false} DeclTraced(world: World, start: Call, id: DeclId, steps: seq<Step>, seen: Seen, fuel: nat)
    requires id in world.decls && (Walked(world, id) ==> Reachable(world, start, (id, steps)))
    ensures Traced(world, start, seen, MarkDecl(world, id, steps, seen, fuel))
    decreases fuel, 1
  {
    hide Traced, Reachable, MarkWalk, MarkProperty, MarkBases;
    TracedSelf(world, start, seen);
    if fuel > 0 && steps != [] && Walked(world, id) && (id, |steps|) !in seen {
      BodyTraced(world, start, id, steps, seen, fuel);
      hide MarkDecl;
      TracedVisit(world, start, seen, id, steps, MarkDecl(world, id, steps, seen, fuel));
    }
  }

  lemma {:induction false} BodyTraced(world: World, start: Call, id: DeclId, steps: seq<Step>, seen: Seen, fuel: nat)
    requires Walked(world, id) && Reachable(world, start, (id, steps))
    requires fuel > 0 && steps != [] && (id, |steps|) !in seen
    ensures Traced(world, start, seen + {(id, |steps|)}, MarkDecl(world, id, steps, seen, fuel))
    decreases fuel, 0
  {
    hide Traced, Reachable, Inside, BasesInside, MarkWalk, MarkProperty, MarkBases, PropertyNamed;
    var visit := (id, |steps|);
    TracedSelf(world, start, seen + {visit});
    match world.decls[id]
    case Interface(members, _, bases) =>
      if steps[0].Member? {
        var p := PropertyNamed(members, steps[0].name);
        if p.Some? {
          if |steps| > 1 { InsideMember(world, start, id, steps); }
          PropertyTraced(world, start, id.file, p.value, steps, seen + {visit}, fuel - 1);
        } else {
          InsideBases(world, start, id, steps);
          BasesTraced(world, start, id.file, bases, steps, seen + {visit}, fuel - 1);
        }
      }
    case Alias(typ) =>
      InsideAlias(world, start, id, steps);
      MarksTraced(world, start, id.file, typ, steps, seen + {visit}, fuel - 1);
  }

  lemma {:induction false} AllTraced(world: World, start: Call, file: string, nodes: seq<TypeNode>, steps: seq<Step>,
                                     seen: Seen, fuel: nat)
    requires AllInside(world, start, file, nodes, steps)
    ensures Traced(world, start, seen, MarkAll(world, file, nodes, steps, seen, fuel))
    decreases fuel, |nodes| + 1
  {
    TracedSelf(world, start, seen);
    hide Traced, Inside, MarkWalk, Lookup;
    if nodes != [] {
      MarksTraced(world, start, file, nodes[0], steps, seen, fuel);
      var mid := MarkWalk(world, file, nodes[0], steps, seen, fuel);
      assert forall i :: 0 <= i < |nodes| - 1 ==> nodes[1..][i] == nodes[i + 1];
      AllTraced(world, start, file, nodes[1..], steps, mid, fuel);
      TracedMore(world, start, seen, mid, MarkAll(world, file, nodes[1..], steps, mid, fuel));
    }
  }

  lemma {:induction false} BaseTraced(world: World, start: Call, file: string, base: Base, steps: seq<Step>, seen: Seen,
                                      fuel: nat)
    requires BaseInside(world, start, file, base, steps)
    ensures Traced(world, start, seen, MarkBase(world, file, base, steps, seen, fuel))
    decreases fuel, 2
  {
    TracedSelf(world, start, seen);
    hide Traced, Reachable, MarkDecl;
    if base.Named? && (file, base.name) in world.names {
      DeclTraced(world, start, world.names[(file, base.name)], steps, seen, fuel);
    }
  }

  lemma {:induction false} BasesTraced(world: World, start: Call, file: string, bases: seq<Base>, steps: seq<Step>,
                                       seen: Seen, fuel: nat)
    requires BasesInside(world, start, file, bases, steps)
    ensures Traced(world, start, seen, MarkBases(world, file, bases, steps, seen, fuel))
    decreases fuel, |bases| + 3
  {
    TracedSelf(world, start, seen);
    hide Traced, BaseInside, MarkBase, LookupBase;
    if bases != [] {
      BaseTraced(world, start, file, bases[0], steps, seen, fuel);
      var mid := MarkBase(world, file, bases[0], steps, seen, fuel);
      assert forall i :: 0 <= i < |bases| - 1 ==> bases[1..][i] == bases[i + 1];
      BasesTraced(world, start, file, bases[1..], steps, mid, fuel);
      TracedMore(world, start, seen, mid, MarkBases(world, file, bases[1..], steps, mid, fuel));
    }
  }

  /** When the paths the walk can come to are bounded in length, it ends, recursive types included. */
  lemma EndsIfBounded(world: World, id: DeclId, steps: seq<Step>)
    requires id in world.decls && Bounded(world, (id, steps))
    ensures Ends(world, id, steps)
  {
    hide MarkDecl, Reachable, Ends;
    var start: Call := (id, steps);
    var longest: nat :| BoundedBy(world, start, longest);
    ReachableSelf(world, start);
    forall fuel: nat ensures MarksWithin(MarkDecl(world, id, steps, {}, fuel), longest) {
      DeclTraced(world, start, id, steps, {}, fuel);
      var marks := MarkDecl(world, id, steps, {}, fuel);
      forall v | v in marks ensures v.1 <= longest {
        var path: seq<Step> :| |path| == v.1 && Reachable(world, start, (v.0, path));
        var call: Call := (v.0, path);
        assert |call.1| <= longest;
      }
    }
    EndsIfMarksWithin(world, id, steps, longest);
  }

  // ---------- A bound that can be read off the declarations ----------

  ghost predicate NameRanks(world: World, rank: map<DeclId, nat>, file: string, name: string, bound: int) {
    (file, name) in world.names && Walked(world, world.names[(file, name)]) ==>
      world.names[(file, name)] in rank && rank[world.names[(file, name)]] <= bound
  }

  /** References rank at most `bound`, less one for each enclosing indexed access, which makes the path longer, and plus
      one for each enclosing property, array or element type, which makes it shorter. */
  ghost predicate Tame(world: World, rank: map<DeclId, nat>, file: string, node: TypeNode, bound: int)
    decreases node
  {
    match node
    case Literal(members, _) =>
      forall i :: 0 <= i < |members| ==> PropertyTame(world, rank, file, members[i], bound + 1)
    case Parenthesized(inner) => Tame(world, rank, file, inner, bound)
    case Intersection(parts) => forall i :: 0 <= i < |parts| ==> Tame(world, rank, file, parts[i], bound)
    case Union(parts) => forall i :: 0 <= i < |parts| ==> Tame(world, rank, file, parts[i], bound)
    case ArrayOf(element) => Tame(world, rank, file, element, bound + 1)
    case Operator(_, inner) => Tame(world, rank, file, inner, bound)
    case Indexed(target, key) => key.Some? ==> Tame(world, rank, file, target, bound - 1)
    case Reference(head, qualified, args) =>
      if IsWrapper(head) && args != [] then Tame(world, rank, file, args[0], bound)
      else if IsArrayName(head) && args != [] then Tame(world, rank, file, args[0], bound + 1)
      else !qualified ==> NameRanks(world, rank, file, head, bound)
    case Other(_) => true
  }

  ghost predicate PropertyTame(world: World, rank: map<DeclId, nat>, file: string, p: Property, bound: int)
    decreases p
  {
    p.typ.Some? ==> Tame(world, rank, file, p.typ.value, bound)
  }

  ghost predicate DeclTame(world: World, rank: map<DeclId, nat>, id: DeclId)
    requires id in world.decls && id in rank
  {
    match world.decls[id]
    case Interface(members, _, bases) =>
      && (forall i :: 0 <= i < |members| ==> PropertyTame(world, rank, id.file, members[i], rank[id] + 1))
      && (forall i :: 0 <= i < |bases| && bases[i].Named? ==> NameRanks(world, rank, id.file, bases[i].name, rank[id]))
    case Alias(typ) => Tame(world, rank, id.file, typ, rank[id])
    case Enum => true
  }

  /** Every declaration is tame for its own rank: no cycle of references makes the path longer. */
  ghost predicate TameWorld(world: World, rank: map<DeclId, nat>) {
    rank.Keys == world.decls.Keys && forall id :: id in world.decls ==> DeclTame(world, rank, id)
  }

  /** In a tame type, a call's rank and path length together stay within the bound and the length of the path walked. */
  lemma {:induction false} TameCalls(world: World, rank: map<DeclId, nat>, file: string, node: TypeNode, bound: int,
                                     steps: seq<Step>, call: Call)
    requires Tame(world, rank, file, node, bound) && Calls(world, file, node, steps, call)
    ensures call.0 in rank && |call.1| + rank[call.0] <= |steps| + bound
    decreases node
  {
    match node
    case Literal(members, _) =>
      var i :| 0 <= i < |members| && PropertyNamed(members, steps[0].name) == Some(members[i])
               && PropertyCalls(world, file, members[i], steps, call);
      TamePropertyCalls(world, rank, file, members[i], bound + 1, steps, call);
    case Parenthesized(inner) => TameCalls(world, rank, file, inner, bound, steps, call);
    case Intersection(parts) =>
      var i :| 0 <= i < |parts| && Calls(world, file, parts[i], steps, call);
      TameCalls(world, rank, file, parts[i], bound, steps, call);
    case Union(parts) =>
      var i :| 0 <= i < |parts| && Calls(world, file, parts[i], steps, call);
      TameCalls(world, rank, file, parts[i], bound, steps, call);
    case ArrayOf(element) => TameCalls(world, rank, file, element, bound + 1, steps[1..], call);
    case Operator(_, inner) => TameCalls(world, rank, file, inner, bound, steps, call);
    case Indexed(target, key) => TameCalls(world, rank, file, target, bound - 1, [Member(key.value)] + steps, call);
    case Reference(head, qualified, args) =>
      if IsWrapper(head) && args != [] {
        TameCalls(world, rank, file, args[0], bound, steps, call);
      } else if IsArrayName(head) && args != [] {
        TameCalls(world, rank, file, args[0], bound + 1, steps[1..], call);
      }
  }

  lemma {:induction false} TamePropertyCalls(world: World, rank: map<DeclId, nat>, file: string, p: Property,
                                             bound: int, steps: seq<Step>, call: Call)
    requires PropertyTame(world, rank, file, p, bound) && PropertyCalls(world, file, p, steps, call)
    ensures call.0 in rank && |call.1| + rank[call.0] <= |steps| - 1 + bound
    decreases p
  {
    TameCalls(world, rank, file, p.typ.value, bound, steps[1..], call);
  }

  lemma TameMakes(world: World, rank: map<DeclId, nat>, from: Call, call: Call)
    requires TameWorld(world, rank) && Makes(world, from, call)
    ensures from.0 in rank && call.0 in rank && |call.1| + rank[call.0] <= |from.1| + rank[from.0]
  {
    assert DeclTame(world, rank, from.0);
    hide TameWorld, Tame, Calls;
    match world.decls[from.0]
    case Interface(members, _, bases) =>
      var p := PropertyNamed(members, from.1[0].name);
      PropertyNamedIs(members, from.1[0].name);
      if p.Some? {
        TamePropertyCalls(world, rank, from.0.file, p.value, rank[from.0] + 1, from.1, call);
      }
    case Alias(typ) => TameCalls(world, rank, from.0.file, typ, rank[from.0], from.1, call);
  }

  lemma {:induction false} TameTrail(world: World, rank: map<DeclId, nat>, from: Call, trail: seq<Call>, to: Call)
    requires TameWorld(world, rank) && from.0 in rank && IsTrail(world, from, trail, to)
    ensures to.0 in rank && |to.1| + rank[to.0] <= |from.1| + rank[from.0]
    decreases |trail|
  {
    hide TameWorld, Makes;
    if trail != [] {
      TameMakes(world, rank, from, trail[0]);
      TameTrail(world, rank, trail[0], trail[1..], to);
    }
  }

  /** In a tame program the walk of every path ends. */
  lemma TameEnds(world: World, rank: map<DeclId, nat>, id: DeclId, steps: seq<Step>)
    requires TameWorld(world, rank) && id in world.decls
    ensures Ends(world, id, steps)
  {
    var start: Call := (id, steps);
    assert id in rank;
    hide TameWorld, IsTrail, Ends;
    forall call: Call | Reachable(world, start, call) ensures |call.1| <= |steps| + rank[id] {
      var trail :| IsTrail(world, start, trail, call);
      TameTrail(world, rank, start, trail, call);
    }
    assert BoundedBy(world, start, |steps| + rank[id]);
    EndsIfBounded(world, id, steps);
  }

  /** `interface C { mode: string; fallback: C['mode'] }`: the property uses up the step the index adds. */
  lemma OwnPropertyTypeTame(c: DeclId)
    ensures var world: World := World(map[c := Interface([Property("mode", Some(Other("string"))),
                                                         Property("fallback",
                                                             Some(Indexed(Reference("C", false, []), Some("mode"))))],
                                                        [], [])], map[(c.file, "C") := c]);
            TameWorld(world, map[c := 0])
  {
    assert |"C"| == 1 && !IsWrapper("C") && !IsArrayName("C");
  }

  function Inner(): TypeNode {
    Literal([Property("b", Some(Other("string")))], [])
  }

  function Twice(): TypeNode {
    Indexed(Indexed(Reference("C", false, []), Some("a")), Some("b"))
  }

  function NestedMembers(): seq<Property> {
    [Property("a", Some(Inner())), Property("x", Some(Twice()))]
  }

  /** `interface C { a: { b: string }; x: C['a']['b'] }`. */
  function NestedIndex(c: DeclId): World {
    World(map[c := Interface(NestedMembers(), [], [])], map[(c.file, "C") := c])
  }

  lemma NestedMember(name: string)
    ensures PropertyNamed(NestedMembers(), name) ==
            if name == "a" then Some(NestedMembers()[0]) else if name == "x" then Some(NestedMembers()[1]) else None
  {
    assert "a"[0] != "x"[0];
    assert NestedMembers()[1..] == [NestedMembers()[1]] && NestedMembers()[1..][1..] == [];
    assert PropertyNamed(NestedMembers()[1..], name) == if name == "x" then Some(NestedMembers()[1]) else None;
  }

  lemma InnerCallsNothing(world: World, file: string, steps: seq<Step>, call: Call)
    ensures !Calls(world, file, Inner(), steps, call)
  {
    assert !PropertyCalls(world, file, Inner().members[0], steps, call);
  }

  lemma TwiceCalls(world: World, file: string, steps: seq<Step>, call: Call)
    requires Calls(world, file, Twice(), steps, call) && (file, "C") in world.names
    ensures call == (world.names[(file, "C")], [Member("a")] + ([Member("b")] + steps))
  {
    assert |"C"| == 1 && !IsWrapper("C") && !IsArrayName("C");
    assert Calls(world, file, Twice().target, [Member("b")] + steps, call);
    assert Calls(world, file, Reference("C", false, []), [Member("a")] + ([Member("b")] + steps), call);
  }

  /** Only its property `x` makes a call. */
  lemma NestedIndexMakes(c: DeclId, steps: seq<Step>, call: Call)
    requires Makes(NestedIndex(c), (c, steps), call)
    ensures steps != [] && steps[0] == Member("x") && call == (c, [Member("a")] + ([Member("b")] + steps[1..]))
  {
    var world := NestedIndex(c);
    NestedMember(steps[0].name);
    hide Calls, PropertyNamed;
    InnerCallsNothing(world, c.file, steps[1..], call);
    if steps[0].name == "x" { TwiceCalls(world, c.file, steps[1..], call); }
  }

  lemma NestedIndexTrail(c: DeclId, steps: seq<Step>, trail: seq<Call>, call: Call)
    requires IsTrail(NestedIndex(c), (c, steps), trail, call)
    ensures |call.1| <= |steps| + 1
  {
    hide Makes;
    if trail != [] {
      NestedIndexMakes(c, steps, trail[0]);
      if |trail| > 1 {
        assert "a"[0] != "x"[0];
        NestedIndexMakes(c, trail[0].1, trail[1..][0]);
        assert false;
      }
    }
  }

  lemma TwiceTame(world: World, rank: map<DeclId, nat>, file: string, bound: int)
    requires Tame(world, rank, file, Twice(), bound)
    ensures NameRanks(world, rank, file, "C", bound - 2)
  {
    assert |"C"| == 1 && !IsWrapper("C") && !IsArrayName("C");
    assert Tame(world, rank, file, Twice().target, bound - 1);
    assert Tame(world, rank, file, Reference("C", false, []), bound - 2);
  }

  lemma NestedIndexWild(c: DeclId, rank: map<DeclId, nat>)
    ensures !TameWorld(NestedIndex(c), rank)
  {
    var world := NestedIndex(c);
    if TameWorld(world, rank) {
      assert DeclTame(world, rank, c);
      hide Tame;
      assert PropertyTame(world, rank, c.file, NestedMembers()[1], rank[c] + 1);
      TwiceTame(world, rank, c.file, rank[c] + 1);
      assert false;
    }
  }

  /** Its walk ends with every path, though no rank makes it tame: the longer path finds the property `a`, not `x`. */
  lemma NestedIndexEnds(c: DeclId, steps: seq<Step>, rank: map<DeclId, nat>)
    ensures Ends(NestedIndex(c), c, steps) && !TameWorld(NestedIndex(c), rank)
  {
    var world, start: Call := NestedIndex(c), (c, steps);
    NestedIndexWild(c, rank);
    hide TameWorld, IsTrail, Ends;
    forall call: Call | Reachable(world, start, call) ensures |call.1| <= |steps| + 1 {
      var trail: seq<Call> :| IsTrail(world, start, trail, call);
      NestedIndexTrail(c, steps, trail, call);
    }
    assert BoundedBy(world, start, |steps| + 1);
    EndsIfBounded(world, c, steps);
  }
}
