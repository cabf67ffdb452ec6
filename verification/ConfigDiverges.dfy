/** When the key-path walk does not end. */
module ConfigDiverges {
  import opened ConfigEnds
  import opened ConfigLookup
  import opened ConfigMarks
  import opened Wrappers

  // ---------- A walk that ends has followed every call it made ----------

  ghost predicate Visited(call: Call, after: Seen) {
    (call.0, |call.1|) in after
  }

  /** All that the walk of the type calls has been visited. */
  ghost predicate Pursued(world: World, file: string, node: TypeNode, steps: seq<Step>, after: Seen) {
    forall call: Call :: Calls(world, file, node, steps, call) ==> Visited(call, after)
  }

  ghost predicate PropertyPursued(world: World, file: string, p: Property, steps: seq<Step>, after: Seen) {
    forall call: Call :: PropertyCalls(world, file, p, steps, call) ==> Visited(call, after)
  }

  ghost predicate BasePursued(world: World, file: string, base: Base, steps: seq<Step>, after: Seen) {
    base.Named? ==> forall call: Call :: NameCalls(world, file, base.name, steps, call) ==> Visited(call, after)
  }

  ghost predicate AllMade(world: World, from: Call, after: Seen) {
    forall call: Call :: Makes(world, from, call) ==> Visited(call, after)
  }

  /** The declaration was visited with a reachable path of `n` steps, and all it then called was visited too. */
  ghost predicate Accounted(world: World, start: Call, id: DeclId, n: nat, after: Seen) {
    exists steps: seq<Step> :: |steps| == n && Reachable(world, start, (id, steps)) &&
                               AllMade(world, (id, steps), after)
  }

  /** All visits since `seen` are accounted for. */
  ghost predicate Settled(world: World, start: Call, seen: Seen, after: Seen) {
    seen <= after && forall id, n: nat :: (id, n) in after && (id, n) !in seen ==> Accounted(world, start, id, n, after)
  }

  lemma AccountedMore(world: World, start: Call, id: DeclId, n: nat, mid: Seen, after: Seen)
    requires Accounted(world, start, id, n, mid) && mid <= after
    ensures Accounted(world, start, id, n, after)
  {
    hide Reachable, Makes;
    var steps: seq<Step> :| |steps| == n && Reachable(world, start, (id, steps)) && AllMade(world, (id, steps), mid);
    assert AllMade(world, (id, steps), after);
  }

  lemma SettledMore(world: World, start: Call, seen: Seen, mid: Seen, after: Seen)
    requires Settled(world, start, seen, mid) && Settled(world, start, mid, after)
    ensures Settled(world, start, seen, after)
  {
    hide Accounted;
    forall id, n: nat | (id, n) in after && (id, n) !in seen ensures Accounted(world, start, id, n, after) {
      if (id, n) in mid { AccountedMore(world, start, id, n, mid, after); }
    }
  }

  lemma SettledSelf(world: World, start: Call, seen: Seen)
    ensures Settled(world, start, seen, seen)
  {
  }

  /** The visit of a call, all of whose own calls have been visited, is accounted for. */
  lemma SettledVisit(world: World, start: Call, id: DeclId, steps: seq<Step>, seen: Seen, after: Seen)
    requires Settled(world, start, seen + {(id, |steps|)}, after)
    requires Reachable(world, start, (id, steps)) && AllMade(world, (id, steps), after)
    ensures Settled(world, start, seen, after) && (id, |steps|) in after
  {
    hide Reachable, AllMade;
  }

  lemma PursuedMore(world: World, file: string, node: TypeNode, steps: seq<Step>, mid: Seen, after: Seen)
    requires Pursued(world, file, node, steps, mid) && mid <= after
    ensures Pursued(world, file, node, steps, after)
  {
    hide Calls;
  }

  /** A node calls what its inner node calls. */
  lemma PursuedInner(world: World, file: string, node: TypeNode, steps: seq<Step>, inner: TypeNode, rest: seq<Step>,
                     after: Seen)
    requires Pursued(world, file, inner, rest, after) && steps != []
    requires || ((node.Parenthesized? || node.Operator?) && node.inner == inner && rest == steps)
             || (node == ArrayOf(inner) && steps[0].Element? && rest == steps[1..])
             || (node.Indexed? && node.target == inner && node.key.Some? && rest == [Member(node.key.value)] + steps)
             || (node.Reference? && node.args != [] && node.args[0] == inner && IsWrapper(node.head) && rest == steps)
             || (node.Reference? && node.args != [] && node.args[0] == inner && !IsWrapper(node.head) &&
                 IsArrayName(node.head)
                 && steps[0].Element? && rest == steps[1..])
    ensures Pursued(world, file, node, steps, after)
  {
    hide Visited;
    forall call: Call | Calls(world, file, node, steps, call) ensures Visited(call, after) {
      assert Calls(world, file, inner, rest, call);
    }
  }

  lemma PursuedParts(world: World, file: string, node: TypeNode, steps: seq<Step>, parts: seq<TypeNode>, after: Seen)
    requires (node == Intersection(parts) || node == Union(parts)) && forall i :: 0 <= i < |parts| ==>
              Pursued(world, file, parts[i], steps, after)
    ensures Pursued(world, file, node, steps, after)
  {
    hide Visited;
    forall call: Call | Calls(world, file, node, steps, call) ensures Visited(call, after) {
      var i :| 0 <= i < |parts| && Calls(world, file, parts[i], steps, call);
    }
  }

  lemma PursuedLiteral(world: World, file: string, node: TypeNode, steps: seq<Step>, after: Seen)
    requires node.Literal? && steps != []
    requires steps[0].Member? && PropertyNamed(node.members, steps[0].name).Some? ==>
               PropertyPursued(world, file, PropertyNamed(node.members, steps[0].name).value, steps, after)
    ensures Pursued(world, file, node, steps, after)
  {
    hide Visited, PropertyCalls;
  }

  /** Nodes, or paths, with which nothing is called. */
  lemma PursuedNone(world: World, file: string, node: TypeNode, steps: seq<Step>, after: Seen)
    requires || steps == [] || node.Other? || (node.ArrayOf? && !steps[0].Element?) || (node.Indexed? && node.key.None?)
    ensures Pursued(world, file, node, steps, after)
  {
  }

  lemma PursuedReference(world: World, file: string, node: TypeNode, steps: seq<Step>, after: Seen)
    requires node.Reference? && steps != [] && !(IsWrapper(node.head) && node.args != [])
    requires || (IsArrayName(node.head) && node.args != [] && !steps[0].Element?)
             || (!(IsArrayName(node.head) && node.args != [])
                 && (node.qualified || (file, node.head) !in world.names
                     || !Walked(world, world.names[(file, node.head)])
                     || Visited((world.names[(file, node.head)], steps), after)))
    ensures Pursued(world, file, node, steps, after)
  {
    hide Visited;
  }

  lemma AliasMade(world: World, id: DeclId, steps: seq<Step>, after: Seen)
    requires Walked(world, id) && world.decls[id].Alias? && Pursued(world, id.file, world.decls[id].typ, steps, after)
    ensures AllMade(world, (id, steps), after)
  {
    hide Calls, Visited;
  }

  lemma InterfaceMade(world: World, id: DeclId, steps: seq<Step>, after: Seen)
    requires Walked(world, id) && world.decls[id].Interface? && steps != []
    requires steps[0].Member? ==>
               match PropertyNamed(world.decls[id].members, steps[0].name)
               case Some(p) => PropertyPursued(world, id.file, p, steps, after)
               case None => forall i :: 0 <= i < |world.decls[id].bases| ==>
                                          BasePursued(world, id.file, world.decls[id].bases[i], steps, after)
    ensures AllMade(world, (id, steps), after)
  {
    hide PropertyCalls, NameCalls, Visited;
    var bases := world.decls[id].bases;
    forall call: Call | Makes(world, (id, steps), call) ensures Visited(call, after) {
      if PropertyNamed(world.decls[id].members, steps[0].name).None? {
        var i :| 0 <= i < |bases| && bases[i].Named? && NameCalls(world, id.file, bases[i].name, steps, call);
        assert BasePursued(world, id.file, bases[i], steps, after);
      }
    }
  }

  lemma BaseMore(world: World, file: string, base: Base, steps: seq<Step>, mid: Seen, after: Seen)
    requires BasePursued(world, file, base, steps, mid) && mid <= after
    ensures BasePursued(world, file, base, steps, after)
  {
    hide NameCalls;
  }

  lemma {:induction false} WalkSettles(world: World, start: Call, file: string, node: TypeNode, steps: seq<Step>,
                                       seen: Seen, fuel: nat)
    requires Lookup(world, file, node, steps, seen, fuel).Some? && Inside(world, start, file, node, steps)
    ensures Settled(world, start, seen, Lookup(world, file, node, steps, seen, fuel).value.1)
    ensures Pursued(world, file, node, steps, Lookup(world, file, node, steps, seen, fuel).value.1)
    decreases fuel, 1
  {
    SettledSelf(world, start, seen);
    hide Settled, Pursued, Inside, AllInside, LookupReference, LookupAll, LookupProperty, PropertyNamed, IsWrapper;
    hide IsArrayName;
    var after := Lookup(world, file, node, steps, seen, fuel).value.1;
    if steps == [] || node.Other? || (node.ArrayOf? && !steps[0].Element?) || (node.Indexed? && node.key.None?) {
      PursuedNone(world, file, node, steps, after);
    } else {
      match node
      case Literal(members, others) =>
        if steps[0].Member? && PropertyNamed(members, steps[0].name).Some? {
          if |steps| > 1 { InsideProperty(world, start, file, node, steps); }
          PropertySettles(world, start, file, PropertyNamed(members, steps[0].name).value, steps, seen, fuel - 1);
        }
        PursuedLiteral(world, file, node, steps, after);
      case Parenthesized(inner) =>
        InsideInner(world, start, file, node, steps, inner, steps);
        WalkSettles(world, start, file, inner, steps, seen, fuel - 1);
        PursuedInner(world, file, node, steps, inner, steps, after);
      case Intersection(parts) =>
        InsideParts(world, start, file, node, steps, parts);
        AllSettle(world, start, file, parts, steps, seen, fuel - 1);
        PursuedParts(world, file, node, steps, parts, after);
      case Union(parts) =>
        InsideParts(world, start, file, node, steps, parts);
        AllSettle(world, start, file, parts, steps, seen, fuel - 1);
        PursuedParts(world, file, node, steps, parts, after);
      case ArrayOf(element) =>
        InsideInner(world, start, file, node, steps, element, steps[1..]);
        WalkSettles(world, start, file, element, steps[1..], seen, fuel - 1);
        PursuedInner(world, file, node, steps, element, steps[1..], after);
      case Operator(_, inner) =>
        InsideInner(world, start, file, node, steps, inner, steps);
        WalkSettles(world, start, file, inner, steps, seen, fuel - 1);
        PursuedInner(world, file, node, steps, inner, steps, after);
      case Indexed(target, key) =>
        var rest := [Member(key.value)] + steps;
        InsideInner(world, start, file, node, steps, target, rest);
        WalkSettles(world, start, file, target, rest, seen, fuel - 1);
        PursuedInner(world, file, node, steps, target, rest, after);
      case Reference(_, _, _) => ReferenceSettles(world, start, file, node, steps, seen, fuel);
    }
  }

  lemma {:induction false} ReferenceSettles(world: World, start: Call, file: string, node: TypeNode, steps: seq<Step>,
                                            seen: Seen, fuel: nat)
    requires fuel > 0 && steps != [] && node.Reference? && Inside(world, start, file, node, steps)
    requires LookupReference(world, file, node.head, node.qualified, node.args, steps, seen, fuel).Some?
    ensures var after := LookupReference(world, file, node.head, node.qualified, node.args, steps, seen, fuel).value.1;
            Settled(world, start, seen, after) && Pursued(world, file, node, steps, after)
    decreases fuel, 0
  {
    SettledSelf(world, start, seen);
    hide Settled, Pursued, Inside, Reachable, Visited, IsWrapper, IsArrayName, Lookup, LookupDecl;
    var after := LookupReference(world, file, node.head, node.qualified, node.args, steps, seen, fuel).value.1;
    if IsWrapper(node.head) && node.args != [] {
      InsideInner(world, start, file, node, steps, node.args[0], steps);
      WalkSettles(world, start, file, node.args[0], steps, seen, fuel - 1);
      PursuedInner(world, file, node, steps, node.args[0], steps, after);
    } else if IsArrayName(node.head) && node.args != [] && steps[0].Element? {
      InsideInner(world, start, file, node, steps, node.args[0], steps[1..]);
      WalkSettles(world, start, file, node.args[0], steps[1..], seen, fuel - 1);
      PursuedInner(world, file, node, steps, node.args[0], steps[1..], after);
    } else {
      if !(IsArrayName(node.head) && node.args != []) && !node.qualified && (file, node.head) in world.names {
        InsideReference(world, start, file, node, steps);
        DeclSettles(world, start, world.names[(file, node.head)], steps, seen, fuel - 1);
      }
      PursuedReference(world, file, node, steps, after);
    }
  }

  lemma {:induction false} PropertySettles(world: World, start: Call, file: string, p: Property, steps: seq<Step>,
                                           seen: Seen, fuel: nat)
    requires steps != [] && LookupProperty(world, file, p, steps, seen, fuel).Some?
    requires |steps| > 1 && p.typ.Some? ==> Inside(world, start, file, p.typ.value, steps[1..])
    ensures Settled(world, start, seen, LookupProperty(world, file, p, steps, seen, fuel).value.1)
    ensures PropertyPursued(world, file, p, steps, LookupProperty(world, file, p, steps, seen, fuel).value.1)
    decreases fuel, 2
  {
    SettledSelf(world, start, seen);
    hide Settled, Inside, Lookup, Visited, Calls;
    if |steps| > 1 && p.typ.Some? { WalkSettles(world, start, file, p.typ.value, steps[1..], seen, fuel); }
  }

  lemma {:induction false} DeclSettles(world: World, start: Call, id: DeclId, steps: seq<Step>, seen: Seen, fuel: nat)
    requires id in world.decls && LookupDecl(world, id, steps, seen, fuel).Some?
    requires Walked(world, id) ==> Reachable(world, start, (id, steps))
    ensures Settled(world, start, seen, LookupDecl(world, id, steps, seen, fuel).value.1)
    ensures steps != [] && Walked(world, id) ==> Visited((id, steps), LookupDecl(world, id, steps, seen, fuel).value.1)
    decreases fuel, 1
  {
    var visit := (id, |steps|);
    SettledSelf(world, start, seen);
    hide Settled, Reachable;
    if steps != [] && Walked(world, id) && visit !in seen {
      BodySettles(world, start, id, steps, seen, fuel);
      hide LookupDecl, AllMade;
      SettledVisit(world, start, id, steps, seen, LookupDecl(world, id, steps, seen, fuel).value.1);
    }
  }

  lemma {:induction false} BodySettles(world: World, start: Call, id: DeclId, steps: seq<Step>, seen: Seen, fuel: nat)
    requires Walked(world, id) && fuel > 0 && steps != [] && (id, |steps|) !in seen
    requires Reachable(world, start, (id, steps))
    requires LookupDecl(world, id, steps, seen, fuel).Some?
    ensures Settled(world, start, seen + {(id, |steps|)}, LookupDecl(world, id, steps, seen, fuel).value.1)
    ensures AllMade(world, (id, steps), LookupDecl(world, id, steps, seen, fuel).value.1)
    decreases fuel, 0
  {
    hide Settled, Reachable, Inside, BasesInside, Lookup, LookupProperty, LookupBases, Pursued, AllMade, PropertyNamed;
    hide PropertyPursued, BasePursued, Combine;
    var visit := (id, |steps|);
    var after := LookupDecl(world, id, steps, seen, fuel).value.1;
    SettledSelf(world, start, seen + {visit});
    match world.decls[id]
    case Interface(members, _, bases) =>
      if steps[0].Member? {
        var p := PropertyNamed(members, steps[0].name);
        if p.Some? {
          if |steps| > 1 { InsideMember(world, start, id, steps); }
          PropertySettles(world, start, id.file, p.value, steps, seen + {visit}, fuel - 1);
        } else {
          InsideBases(world, start, id, steps);
          BasesSettle(world, start, id.file, bases, steps, seen + {visit}, fuel - 1);
        }
      }
      InterfaceMade(world, id, steps, after);
    case Alias(typ) =>
      InsideAlias(world, start, id, steps);
      WalkSettles(world, start, id.file, typ, steps, seen + {visit}, fuel - 1);
      AliasMade(world, id, steps, after);
  }

  lemma {:induction false} AllSettle(world: World, start: Call, file: string, nodes: seq<TypeNode>, steps: seq<Step>,
                                     seen: Seen, fuel: nat)
    requires LookupAll(world, file, nodes, steps, seen, fuel).Some? && AllInside(world, start, file, nodes, steps)
    ensures Settled(world, start, seen, LookupAll(world, file, nodes, steps, seen, fuel).value.1)
    ensures forall i :: 0 <= i < |nodes| ==> Pursued(world, file, nodes[i], steps,
                                                     LookupAll(world, file, nodes, steps, seen, fuel).value.1)
    decreases fuel, |nodes| + 1
  {
    SettledSelf(world, start, seen);
    hide Lookup, Inside, Pursued, Accounted;
    if nodes != [] {
      WalkSettles(world, start, file, nodes[0], steps, seen, fuel);
      var mid := Lookup(world, file, nodes[0], steps, seen, fuel).value.1;
      assert forall i :: 0 <= i < |nodes| - 1 ==> nodes[1..][i] == nodes[i + 1];
      AllSettle(world, start, file, nodes[1..], steps, mid, fuel);
      var after := LookupAll(world, file, nodes, steps, seen, fuel).value.1;
      SettledMore(world, start, seen, mid, after);
      PursuedMore(world, file, nodes[0], steps, mid, after);
      assert forall i :: 0 < i < |nodes| ==> nodes[i] == nodes[1..][i - 1];
    }
  }

  lemma {:induction false} BasesSettle(world: World, start: Call, file: string, bases: seq<Base>, steps: seq<Step>,
                                       seen: Seen, fuel: nat)
    requires steps != [] && LookupBases(world, file, bases, steps, seen, fuel).Some?
    requires BasesInside(world, start, file, bases, steps)
    ensures Settled(world, start, seen, LookupBases(world, file, bases, steps, seen, fuel).value.1)
    ensures forall i :: 0 <= i < |bases| ==> BasePursued(world, file, bases[i], steps,
                                                         LookupBases(world, file, bases, steps, seen, fuel).value.1)
    decreases fuel, |bases| + 3
  {
    SettledSelf(world, start, seen);
    hide LookupBase, BaseInside, BasePursued, Accounted;
    if bases != [] {
      BaseSettles(world, start, file, bases[0], steps, seen, fuel);
      var mid := LookupBase(world, file, bases[0], steps, seen, fuel).value.1;
      assert forall i :: 0 <= i < |bases| - 1 ==> bases[1..][i] == bases[i + 1];
      BasesSettle(world, start, file, bases[1..], steps, mid, fuel);
      var after := LookupBases(world, file, bases, steps, seen, fuel).value.1;
      SettledMore(world, start, seen, mid, after);
      BaseMore(world, file, bases[0], steps, mid, after);
      assert forall i :: 0 < i < |bases| ==> bases[i] == bases[1..][i - 1];
    }
  }

  lemma {:induction false} BaseSettles(world: World, start: Call, file: string, base: Base, steps: seq<Step>,
                                       seen: Seen, fuel: nat)
    requires steps != [] && LookupBase(world, file, base, steps, seen, fuel).Some?
    requires BaseInside(world, start, file, base, steps)
    ensures Settled(world, start, seen, LookupBase(world, file, base, steps, seen, fuel).value.1)
    ensures BasePursued(world, file, base, steps, LookupBase(world, file, base, steps, seen, fuel).value.1)
    decreases fuel, 2
  {
    SettledSelf(world, start, seen);
    hide Settled, LookupDecl, Reachable, Visited;
    if base.Named? && (file, base.name) in world.names {
      DeclSettles(world, start, world.names[(file, base.name)], steps, seen, fuel);
    }
  }

  // ---------- Exactly when the walk ends ----------

  /** No declaration is reached with two paths of one length, so that the guard tells all calls apart. */
  ghost predicate Unambiguous(world: World, start: Call) {
    forall a: Call, b: Call ::
      Reachable(world, start, a) && Reachable(world, start, b) && a.0 == b.0 && |a.1| == |b.1| ==> a.1 == b.1
  }

  /** Every call along a trail has been visited by a walk that ended. */
  lemma {:induction false} TrailVisited(world: World, start: Call, from: Call, trail: seq<Call>, to: Call, after: Seen)
    requires Unambiguous(world, start) && Settled(world, start, {}, after)
    requires Reachable(world, start, from) && Visited(from, after) && IsTrail(world, from, trail, to)
    ensures Visited(to, after)
    decreases |trail|
  {
    hide Reachable, Makes;
    if trail != [] {
      assert Accounted(world, start, from.0, |from.1|, after);
      var steps: seq<Step> :|
        |steps| == |from.1| && Reachable(world, start, (from.0, steps)) && AllMade(world, (from.0, steps), after);
      var same: Call := (from.0, steps);
      assert same == from;
      ReachableMore(world, start, from, trail[0]);
      TrailVisited(world, start, trail[0], trail[1..], to, after);
    }
  }

  /** A call that makes none reaches nothing but itself. */
  lemma ReachesItself(world: World, start: Call, call: Call)
    requires !Walked(world, start.0) || start.1 == []
    requires Reachable(world, start, call)
    ensures call == start
  {
  }

  lemma BoundedIfEnds(world: World, id: DeclId, steps: seq<Step>)
    requires id in world.decls && Unambiguous(world, (id, steps)) && Ends(world, id, steps)
    ensures Bounded(world, (id, steps))
  {
    var start: Call := (id, steps);
    if !Walked(world, id) || steps == [] {
      forall call: Call | Reachable(world, start, call) ensures |call.1| <= |steps| {
        ReachesItself(world, start, call);
      }
      assert BoundedBy(world, start, |steps|);
    } else {
      hide LookupDecl, IsTrail, Makes, Settled, Unambiguous, Walked;
      var fuel: nat :| LookupDecl(world, id, steps, {}, fuel).Some?;
      var after := LookupDecl(world, id, steps, {}, fuel).value.1;
      ReachableSelf(world, start);
      DeclSettles(world, start, id, steps, {}, fuel);
      var longest := LongestVisit(after);
      forall call: Call | Reachable(world, start, call) ensures |call.1| <= longest {
        var trail :| IsTrail(world, start, trail, call);
        TrailVisited(world, start, start, trail, call, after);
      }
      assert BoundedBy(world, start, longest);
    }
  }

  /** Where the guard tells all calls apart, the walk ends exactly when the paths it can come to are bounded in
      length. */
  lemma EndsExactlyIfBounded(world: World, id: DeclId, steps: seq<Step>)
    requires id in world.decls && Unambiguous(world, (id, steps))
    ensures Ends(world, id, steps) <==> Bounded(world, (id, steps))
  {
    hide Bounded, Unambiguous, Ends;
    if Bounded(world, (id, steps)) { EndsIfBounded(world, id, steps); }
    if Ends(world, id, steps) { BoundedIfEnds(world, id, steps); }
  }

  // ---------- The guard can end a walk whose paths are not bounded ----------

  function Grower(): TypeNode {
    Indexed(Indexed(Reference("B", false, []), Some("b")), Some("b"))
  }

  function GrowerMembers(): seq<Property> {
    [Property("a", Some(Other("string"))), Property("b", Some(Grower()))]
  }

  function Branches(): seq<TypeNode> {
    [Indexed(Reference("B", false, []), Some("a")), Indexed(Reference("B", false, []), Some("b"))]
  }

  /** `type A = B['a'] | B['b']` with `interface B { a: string; b: B['b']['b'] }`. */
  function Conflated(): World {
    World(map[DeclId("f", 0) := Alias(Union(Branches())), DeclId("f", 1) := Interface(GrowerMembers(), [], [])],
          map[("f", "B") := DeclId("f", 1)])
  }

  function Grown(k: nat, q: Step): seq<Step> {
    if k == 0 then [q] else [Member("b")] + Grown(k - 1, q)
  }

  lemma GrowerMember(name: string)
    requires name == "a" || name == "b"
    ensures PropertyNamed(GrowerMembers(), name) == Some(GrowerMembers()[if name == "a" then 0 else 1])
  {
    assert "a"[0] != "b"[0];
    assert GrowerMembers()[1..] == [GrowerMembers()[1]];
  }

  /** With the property `b`, each call of `B` makes one with a longer path. */
  lemma GrowerMakes(k: nat, q: Step)
    ensures Makes(Conflated(), (DeclId("f", 1), Grown(k + 1, q)), (DeclId("f", 1), Grown(k + 2, q)))
  {
    var world, steps, call: Call := Conflated(), Grown(k + 1, q), (DeclId("f", 1), Grown(k + 2, q));
    assert |"B"| == 1 && !IsWrapper("B") && !IsArrayName("B");
    GrowerMember("b");
    assert steps[1..] == Grown(k, q) && |Grown(k, q)| > 0;
    assert Grown(k + 2, q) == [Member("b")] + ([Member("b")] + Grown(k, q));
    assert Calls(world, "f", Reference("B", false, []), [Member("b")] + ([Member("b")] + Grown(k, q)), call);
    assert Calls(world, "f", Grower().target, [Member("b")] + Grown(k, q), call);
    assert Calls(world, "f", Grower(), steps[1..], call);
    assert PropertyCalls(world, "f", GrowerMembers()[1], steps, call);
  }

  /** `A` calls `B` to find the property `b`. */
  lemma BranchMakes(q: Step)
    ensures Makes(Conflated(), (DeclId("f", 0), [q]), (DeclId("f", 1), Grown(1, q)))
  {
    var world, call: Call := Conflated(), (DeclId("f", 1), Grown(1, q));
    assert |"B"| == 1 && !IsWrapper("B") && !IsArrayName("B");
    assert Grown(1, q) == [Member("b")] + Grown(0, q) && Grown(0, q) == [q];
    assert Calls(world, "f", Reference("B", false, []), [Member("b")] + [q], call);
    assert Calls(world, "f", Branches()[1], [q], call);
    assert Calls(world, "f", Union(Branches()), [q], call);
  }

  lemma {:induction false} GrownReached(k: nat, q: Step)
    ensures Reachable(Conflated(), (DeclId("f", 0), [q]), (DeclId("f", 1), Grown(k + 1, q)))
    ensures |Grown(k + 1, q)| > k
  {
    hide Makes, Reachable;
    var world, start: Call := Conflated(), (DeclId("f", 0), [q]);
    if k == 0 {
      BranchMakes(q);
      ReachableSelf(world, start);
      ReachableMore(world, start, start, (DeclId("f", 1), Grown(1, q)));
    } else {
      GrownReached(k - 1, q);
      GrowerMakes(k - 1, q);
      ReachableMore(world, start, (DeclId("f", 1), Grown(k, q)), (DeclId("f", 1), Grown(k + 1, q)));
    }
  }

  lemma ConflatedAnswers(q: Step)
    ensures LookupDecl(Conflated(), DeclId("f", 0), [q], {}, 7).Some?
  {
    var w, a, b := Conflated(), DeclId("f", 0), DeclId("f", 1);
    var s1: Seen := {} + {(a, 1)};
    var s2: Seen := s1 + {(b, 2)};
    assert |"B"| == 1 && !IsWrapper("B") && !IsArrayName("B");
    GrowerMember("a");
    var first, second := [Member("a")] + [q], [Member("b")] + [q];
    assert first[1..] == [q];
    assert LookupProperty(w, "f", GrowerMembers()[0], first, s2, 2) == Some((Unknown, s2));
    assert LookupDecl(w, b, first, s1, 3) == Some((Unknown, s2));
    assert Lookup(w, "f", Reference("B", false, []), first, s1, 4) == Some((Unknown, s2));
    assert Lookup(w, "f", Branches()[0], [q], s1, 5) == Some((Unknown, s2));
    assert LookupDecl(w, b, second, s2, 3) == Some((Unknown, s2));
    assert Lookup(w, "f", Reference("B", false, []), second, s2, 4) == Some((Unknown, s2));
    assert Lookup(w, "f", Branches()[1], [q], s2, 5) == Some((Unknown, s2));
    assert LookupAll(w, "f", Branches()[1..][1..], [q], s2, 5) == Some(([], s2));
    assert Branches()[1..][0] == Branches()[1];
    assert LookupAll(w, "f", Branches()[1..], [q], s2, 5).Some?;
    assert LookupAll(w, "f", Branches(), [q], s1, 5).Some?;
    assert Lookup(w, "f", Union(Branches()), [q], s1, 6).Some?;
  }

  /** The first branch visits `B` with a path of two steps, which stops the second where it would go on forever. */
  lemma ConflatedEnds(name: string)
    ensures Ends(Conflated(), DeclId("f", 0), [Member(name)]) && !Bounded(Conflated(), (DeclId("f", 0), [Member(name)]))
  {
    ConflatedAnswers(Member(name));
    var start: Call := (DeclId("f", 0), [Member(name)]);
    hide LookupDecl, Reachable;
    forall longest: nat ensures !BoundedBy(Conflated(), start, longest) {
      GrownReached(longest, Member(name));
      var call: Call := (DeclId("f", 1), Grown(longest + 1, Member(name)));
      assert Reachable(Conflated(), start, call) && |call.1| > longest;
    }
  }

  // ---------- Aliases that lead back to themselves ----------

  /** The walk of the type, with any path, also walks `target`, with `gain` more steps: nothing on the way uses up a
      step. */
  ghost predicate Leads(world: World, file: string, node: TypeNode, target: DeclId, gain: nat) {
    match node
    case Parenthesized(inner) => Leads(world, file, inner, target, gain)
    case Operator(_, inner) => Leads(world, file, inner, target, gain)
    case Intersection(parts) => exists i :: 0 <= i < |parts| && Leads(world, file, parts[i], target, gain)
    case Union(parts) => exists i :: 0 <= i < |parts| && Leads(world, file, parts[i], target, gain)
    case Indexed(inner, key) => key.Some? && gain > 0 && Leads(world, file, inner, target, gain - 1)
    case Reference(head, qualified, args) =>
      if IsWrapper(head) && args != [] then Leads(world, file, args[0], target, gain)
      else
        && !(IsArrayName(head) && args != []) && !qualified && gain == 0
        && (file, head) in world.names && world.names[(file, head)] == target && Walked(world, target)
    case _ => false
  }

  ghost predicate AliasLeads(world: World, a: DeclId, b: DeclId, gain: nat) {
    a in world.decls && world.decls[a].Alias? && Leads(world, a.file, world.decls[a].typ, b, gain)
  }

  /** From `a`, alias by alias, to `b`: each leads to the next with the gain listed for it. */
  ghost predicate Climbs(world: World, a: DeclId, trail: seq<(DeclId, nat)>, b: DeclId)
    decreases |trail|
  {
    if trail == [] then a == b
    else AliasLeads(world, a, trail[0].0, trail[0].1) && Climbs(world, trail[0].0, trail[1..], b)
  }

  function Gain(trail: seq<(DeclId, nat)>): nat {
    if trail == [] then 0 else trail[0].1 + Gain(trail[1..])
  }

  lemma {:induction false} LeadsCalls(world: World, file: string, node: TypeNode, target: DeclId, gain: nat,
                                      steps: seq<Step>)
    returns (rest: seq<Step>)
    requires steps != [] && Leads(world, file, node, target, gain)
    ensures |rest| == |steps| + gain && Calls(world, file, node, steps, (target, rest))
    decreases node
  {
    match node
    case Parenthesized(inner) => rest := LeadsCalls(world, file, inner, target, gain, steps);
    case Operator(_, inner) => rest := LeadsCalls(world, file, inner, target, gain, steps);
    case Intersection(parts) =>
      var i :| 0 <= i < |parts| && Leads(world, file, parts[i], target, gain);
      rest := LeadsCalls(world, file, parts[i], target, gain, steps);
    case Union(parts) =>
      var i :| 0 <= i < |parts| && Leads(world, file, parts[i], target, gain);
      rest := LeadsCalls(world, file, parts[i], target, gain, steps);
    case Indexed(inner, key) => rest := LeadsCalls(world, file, inner, target, gain - 1, [Member(key.value)] + steps);
    case Reference(head, qualified, args) =>
      if IsWrapper(head) && args != [] {
        rest := LeadsCalls(world, file, args[0], target, gain, steps);
      } else {
        rest := steps;
      }
  }

  lemma {:induction false} ClimbVisited(world: World, start: Call, a: DeclId, trail: seq<(DeclId, nat)>, b: DeclId,
                                        n: nat, after: Seen)
    requires Settled(world, start, {}, after) && n > 0 && (a, n) in after && Climbs(world, a, trail, b)
    ensures (b, n + Gain(trail)) in after
    decreases |trail|
  {
    hide Reachable, Leads;
    if trail != [] {
      assert Accounted(world, start, a, n, after);
      var steps: seq<Step> :| |steps| == n && Reachable(world, start, (a, steps)) && AllMade(world, (a, steps), after);
      var rest := LeadsCalls(world, a.file, world.decls[a].typ, trail[0].0, trail[0].1, steps);
      var call: Call := (trail[0].0, rest);
      assert Makes(world, (a, steps), call);
      assert Visited(call, after);
      ClimbVisited(world, start, trail[0].0, trail[1..], b, n + trail[0].1, after);
    }
  }

  lemma {:induction false} RoundsVisited(world: World, start: Call, a: DeclId, trail: seq<(DeclId, nat)>, n: nat,
                                         rounds: nat, after: Seen)
    returns (m: nat)
    requires Settled(world, start, {}, after) && n > 0 && (a, n) in after && Climbs(world, a, trail, a)
    requires Gain(trail) > 0
    ensures m >= rounds && m > 0 && (a, m) in after
  {
    hide Settled;
    if rounds == 0 {
      m := n;
    } else {
      m := RoundsVisited(world, start, a, trail, n, rounds - 1, after);
      ClimbVisited(world, start, a, trail, a, m, after);
      m := m + Gain(trail);
    }
  }

  lemma StartsAtAlias(world: World, id: DeclId, way: seq<(DeclId, nat)>, a: DeclId, trail: seq<(DeclId, nat)>)
    requires id in world.decls && Climbs(world, id, way, a) && Climbs(world, a, trail, a) && Gain(trail) > 0
    ensures Walked(world, id)
  {
    hide Leads;
  }

  /** A walk that comes, by aliases that use up no step, to aliases that lead back to themselves with a longer path does
      not end, whatever the path. */
  lemma ClimbingDiverges(world: World, id: DeclId, way: seq<(DeclId, nat)>, a: DeclId, trail: seq<(DeclId, nat)>,
                         steps: seq<Step>)
    requires id in world.decls && steps != [] && Climbs(world, id, way, a) && Climbs(world, a, trail, a)
    requires Gain(trail) > 0
    ensures !Ends(world, id, steps)
  {
    hide LookupDecl, Settled, AliasLeads, Reachable, Climbs, Gain, Walked;
    if Ends(world, id, steps) {
      var start: Call := (id, steps);
      StartsAtAlias(world, id, way, a, trail);
      var fuel: nat :| LookupDecl(world, id, steps, {}, fuel).Some?;
      var after := LookupDecl(world, id, steps, {}, fuel).value.1;
      ReachableSelf(world, start);
      DeclSettles(world, start, id, steps, {}, fuel);
      ClimbVisited(world, start, id, way, a, |steps|, after);
      var longest := LongestVisit(after);
      var m := RoundsVisited(world, start, a, trail, |steps| + Gain(way), longest + 1, after);
      assert false;
    }
  }

  /** `type A = A['x']`: each round of the walk makes the path longer, so the guard never stops it. */
  lemma IndexedCycleDiverges(a: DeclId, steps: seq<Step>)
    requires steps != []
    ensures var world: World := World(map[a := Alias(Indexed(Reference("A", false, []), Some("x")))],
                                      map[(a.file, "A") := a]);
            !Ends(world, a, steps)
  {
    var world: World := World(map[a := Alias(Indexed(Reference("A", false, []), Some("x")))], map[(a.file, "A") := a]);
    assert |"A"| == 1 && !IsWrapper("A") && !IsArrayName("A");
    assert Leads(world, a.file, Reference("A", false, []), a, 0);
    assert AliasLeads(world, a, a, 1);
    hide Ends, AliasLeads;
    assert Climbs(world, a, [], a);
    assert [(a, 1)][1..] == [];
    assert Climbs(world, a, [(a, 1)], a) && Gain([(a, 1)]) == 1 + Gain([]);
    ClimbingDiverges(world, a, [], a, [(a, 1)], steps);
  }
}
