/** What the answers of the key-path walk mean, however the parts of the program it cannot see are filled in. */
module ConfigMeaning {
  import opened ConfigGuard
  import opened ConfigLookup
  import opened Ordering
  import opened Wrappers

  /** A part of the program the walk cannot see into. */
  datatype Hole = NodeHole(file: string, node: TypeNode) | BaseHole(file: string, base: Base)
                | DeclHole(id: DeclId) | PropertyHole(file: string, property: Property)

  /** For each hole, the paths that what it stands for provides; and how a program is read. Reading through `keyof`
      takes it for its operand; otherwise what `keyof` yields is a hole too. Methods, accessors and index signatures are
      heeded or not. A union provides what all of its branches do or, split, what one of them does. */
  datatype Filling = Filling(through: bool, heeds: bool, splits: bool, holds: (Hole, seq<Step>) -> bool)

  /** The filling with the program read as it means. */
  ghost function Faithful(holds: (Hole, seq<Step>) -> bool): Filling {
    Filling(false, true, false, holds)
  }

  /** A method, an accessor or an index signature answers to the first step; what it holds beyond that is not known. */
  ghost predicate HasOther(filling: Filling, hole: Hole, others: seq<Option<string>>, steps: seq<Step>)
    requires steps != [] && steps[0].Member?
  {
    filling.heeds && PassedOver(others, steps[0].name) && (|steps| == 1 || filling.holds(hole, steps))
  }

  /** The types that have the members of their argument, and those of lists of it. */
  ghost predicate PassesThrough(head: string) {
    head == "Partial" || head == "Required" || head == "Readonly" || head == "NonNullable"
  }

  ghost predicate ListsArgument(head: string) {
    head == "Array" || head == "ReadonlyArray"
  }

  /** Under a filling, the type provides the path, by a derivation of depth at most `n`. */
  ghost predicate Has(world: World, filling: Filling, file: string, node: TypeNode, steps: seq<Step>, n: nat)
    decreases n, 1
  {
    if steps == [] then true
    else if n == 0 then false
    else match node
      case Literal(members, others) =>
        if steps[0].Element? then filling.holds(NodeHole(file, node), steps)
        else
          var p := PropertyNamed(members, steps[0].name);
          if p.Some? then HasProperty(world, filling, file, p.value, steps[1..], n - 1)
          else HasOther(filling, NodeHole(file, node), others, steps)
      case Parenthesized(inner) => Has(world, filling, file, inner, steps, n - 1)
      case Intersection(parts) => exists i :: 0 <= i < |parts| && Has(world, filling, file, parts[i], steps, n - 1)
      case Union(parts) =>
        if filling.splits && parts != [] then
          exists i :: 0 <= i < |parts| && Has(world, filling, file, parts[i], steps, n - 1)
        else forall i :: 0 <= i < |parts| ==> Has(world, filling, file, parts[i], steps, n - 1)
      case ArrayOf(element) =>
        if steps[0].Element? then Has(world, filling, file, element, steps[1..], n - 1)
        else filling.holds(NodeHole(file, node), steps)
      case Operator(keyof, inner) =>
        if keyof && !filling.through then filling.holds(NodeHole(file, node), steps)
        else Has(world, filling, file, inner, steps, n - 1)
      case Indexed(target, key) =>
        if key.Some? then Has(world, filling, file, target, [Member(key.value)] + steps, n - 1)
        else filling.holds(NodeHole(file, node), steps)
      case Reference(head, qualified, args) => HasReference(world, filling, file, head, qualified, args, steps, n)
      case Other(_) => filling.holds(NodeHole(file, node), steps)
  }

  ghost predicate HasReference(world: World, filling: Filling, file: string, head: string, qualified: bool,
                               args: seq<TypeNode>, steps: seq<Step>, n: nat)
    requires n > 0 && steps != []
    decreases n, 0
  {
    if PassesThrough(head) && args != [] then Has(world, filling, file, args[0], steps, n - 1)
    else if ListsArgument(head) && args != [] && steps[0].Element? then
      Has(world, filling, file, args[0], steps[1..], n - 1)
    else if (ListsArgument(head) && args != []) || qualified || (file, head) !in world.names then
      filling.holds(NodeHole(file, Reference(head, qualified, args)), steps)
    else HasDecl(world, filling, world.names[(file, head)], steps, n - 1)
  }

  ghost predicate HasProperty(world: World, filling: Filling, file: string, p: Property, rest: seq<Step>, n: nat)
    decreases n, 2
  {
    if rest == [] then true
    else if p.typ.Some? then Has(world, filling, file, p.typ.value, rest, n)
    else filling.holds(PropertyHole(file, p), rest)
  }

  ghost predicate HasDecl(world: World, filling: Filling, id: DeclId, steps: seq<Step>, n: nat)
    requires id in world.decls
    decreases n, 0
  {
    if steps == [] then true
    else if n == 0 then false
    else match world.decls[id]
      case Interface(members, others, bases) =>
        if steps[0].Element? then filling.holds(DeclHole(id), steps)
        else
          var p := PropertyNamed(members, steps[0].name);
          if p.Some? then HasProperty(world, filling, id.file, p.value, steps[1..], n - 1)
          else
            || HasOther(filling, DeclHole(id), others, steps)
            || exists i :: 0 <= i < |bases| && HasBase(world, filling, id.file, bases[i], steps, n - 1)
      case Alias(typ) => Has(world, filling, id.file, typ, steps, n - 1)
      case Enum => filling.holds(DeclHole(id), steps)
  }

  ghost predicate HasBase(world: World, filling: Filling, file: string, base: Base, steps: seq<Step>, n: nat)
    decreases n, 1
  {
    if base.Named? && (file, base.name) in world.names
    then HasDecl(world, filling, world.names[(file, base.name)], steps, n)
    else filling.holds(BaseHole(file, base), steps)
  }

  lemma WrapperNames(head: string)
    ensures IsWrapper(head) <==> PassesThrough(head)
    ensures IsArrayName(head) <==> ListsArgument(head)
  {
  }

  // ---------- Types without `keyof` ----------

  ghost predicate KeyofFree(node: TypeNode)
    decreases node
  {
    match node
    case Literal(members, _) => forall i :: 0 <= i < |members| ==> PropertyKeyofFree(members[i])
    case Parenthesized(inner) => KeyofFree(inner)
    case Intersection(parts) => forall i :: 0 <= i < |parts| ==> KeyofFree(parts[i])
    case Union(parts) => forall i :: 0 <= i < |parts| ==> KeyofFree(parts[i])
    case ArrayOf(element) => KeyofFree(element)
    case Operator(keyof, inner) => !keyof && KeyofFree(inner)
    case Indexed(target, _) => KeyofFree(target)
    case Reference(_, _, args) => forall i :: 0 <= i < |args| ==> KeyofFree(args[i])
    case Other(_) => true
  }

  ghost predicate PropertyKeyofFree(p: Property)
    decreases p
  {
    p.typ.Some? ==> KeyofFree(p.typ.value)
  }

  ghost predicate DeclKeyofFree(decl: Decl) {
    match decl
    case Interface(members, _, _) => forall i :: 0 <= i < |members| ==> PropertyKeyofFree(members[i])
    case Alias(typ) => KeyofFree(typ)
    case Enum => true
  }

  ghost predicate WorldKeyofFree(world: World) {
    forall id :: id in world.decls ==> DeclKeyofFree(world.decls[id])
  }

  /** The filling reads through `keyof`, or the program has none to read through. */
  ghost predicate Readable(world: World, filling: Filling) {
    filling.through || WorldKeyofFree(world)
  }

  ghost predicate NodeReadable(world: World, filling: Filling, node: TypeNode) {
    Readable(world, filling) && (filling.through || KeyofFree(node))
  }

  lemma MemberKeyofFree(members: seq<Property>, name: string)
    requires forall i :: 0 <= i < |members| ==> PropertyKeyofFree(members[i])
    ensures PropertyNamed(members, name).Some? ==> PropertyKeyofFree(PropertyNamed(members, name).value)
  {
    PropertyNamedIs(members, name);
  }

  // ---------- A found path is provided, if read through `keyof`, under every filling ----------

  lemma {:induction false} LookupSound(world: World, filling: Filling, file: string, node: TypeNode, steps: seq<Step>,
                                       seen: Seen, fuel: nat)
    requires NodeReadable(world, filling, node)
    requires Lookup(world, file, node, steps, seen, fuel).Some?
    ensures var r := Lookup(world, file, node, steps, seen, fuel).value.0;
            r == Found ==> Has(world, filling, file, node, steps, fuel)
    decreases fuel, 1
  {
    hide LookupReference, HasReference, LookupAll;
    if steps != [] {
      match node
      case Literal(members, others) =>
        if steps[0].Member? {
          var p := PropertyNamed(members, steps[0].name);
          if !filling.through { MemberKeyofFree(members, steps[0].name); }
          if p.Some? { PropertySound(world, filling, file, p.value, steps, seen, fuel - 1); }
        }
      case Parenthesized(inner) => LookupSound(world, filling, file, inner, steps, seen, fuel - 1);
      case Intersection(parts) => AllSound(world, filling, file, parts, steps, seen, fuel - 1);
      case Union(parts) =>
        AllSound(world, filling, file, parts, steps, seen, fuel - 1);
        var results := LookupAll(world, file, parts, steps, seen, fuel - 1).value.0;
        assert forall i :: 0 <= i < |parts| ==> results[i] in results;
        assert results != [] && Agree(results) == Found ==> Has(world, filling, file, parts[0], steps, fuel - 1);
      case ArrayOf(element) =>
        if steps[0].Element? { LookupSound(world, filling, file, element, steps[1..], seen, fuel - 1); }
      case Operator(_, inner) => LookupSound(world, filling, file, inner, steps, seen, fuel - 1);
      case Indexed(target, key) =>
        if key.Some? { LookupSound(world, filling, file, target, [Member(key.value)] + steps, seen, fuel - 1); }
      case Reference(head, qualified, args) => ReferenceSound(world, filling, file, head, qualified, args, steps, seen,
                                                              fuel);
      case Other(_) =>
    }
  }

  lemma {:induction false} ReferenceSound(world: World, filling: Filling, file: string, head: string, qualified: bool,
                                          args: seq<TypeNode>, steps: seq<Step>, seen: Seen, fuel: nat)
    requires NodeReadable(world, filling, Reference(head, qualified, args))
    requires fuel > 0 && steps != [] && LookupReference(world, file, head, qualified, args, steps, seen, fuel).Some?
    ensures var r := LookupReference(world, file, head, qualified, args, steps, seen, fuel).value.0;
            r == Found ==> HasReference(world, filling, file, head, qualified, args, steps, fuel)
    decreases fuel, 0
  {
    hide IsWrapper, IsArrayName, PassesThrough, ListsArgument, Lookup, LookupDecl, Has, HasDecl;
    WrapperNames(head);
    if IsWrapper(head) && args != [] {
      LookupSound(world, filling, file, args[0], steps, seen, fuel - 1);
    } else if IsArrayName(head) && args != [] {
      if steps[0].Element? { LookupSound(world, filling, file, args[0], steps[1..], seen, fuel - 1); }
    } else if !qualified && (file, head) in world.names {
      DeclSound(world, filling, world.names[(file, head)], steps, seen, fuel - 1);
    }
  }

  lemma {:induction false} PropertySound(world: World, filling: Filling, file: string, p: Property, steps: seq<Step>,
                                         seen: Seen, fuel: nat)
    requires Readable(world, filling) && (filling.through || PropertyKeyofFree(p))
    requires steps != [] && LookupProperty(world, file, p, steps, seen, fuel).Some?
    ensures var r := LookupProperty(world, file, p, steps, seen, fuel).value.0;
            r == Found ==> HasProperty(world, filling, file, p, steps[1..], fuel)
    decreases fuel, 2
  {
    if |steps| > 1 && p.typ.Some? { LookupSound(world, filling, file, p.typ.value, steps[1..], seen, fuel); }
  }

  lemma {:induction false} DeclSound(world: World, filling: Filling, id: DeclId, steps: seq<Step>, seen: Seen,
                                     fuel: nat)
    requires Readable(world, filling)
    requires id in world.decls && LookupDecl(world, id, steps, seen, fuel).Some?
    ensures var r := LookupDecl(world, id, steps, seen, fuel).value.0;
            r == Found ==> HasDecl(world, filling, id, steps, fuel)
    decreases fuel, 0
  {
    var key := (id, |steps|);
    if steps != [] && key !in seen {
      match world.decls[id]
      case Interface(members, others, bases) =>
        if steps[0].Member? {
          var p := PropertyNamed(members, steps[0].name);
          if !filling.through { MemberKeyofFree(members, steps[0].name); }
          if p.Some? {
            PropertySound(world, filling, id.file, p.value, steps, seen + {key}, fuel - 1);
          } else {
            BasesSound(world, filling, id.file, bases, steps, seen + {key}, fuel - 1);
          }
        }
      case Alias(typ) => LookupSound(world, filling, id.file, typ, steps, seen + {key}, fuel - 1);
      case Enum =>
    }
  }

  lemma {:induction false} AllSound(world: World, filling: Filling, file: string, nodes: seq<TypeNode>,
                                    steps: seq<Step>, seen: Seen, fuel: nat)
    requires Readable(world, filling) && (filling.through || forall i :: 0 <= i < |nodes| ==> KeyofFree(nodes[i]))
    requires LookupAll(world, file, nodes, steps, seen, fuel).Some?
    ensures var results := LookupAll(world, file, nodes, steps, seen, fuel).value.0;
            forall i :: 0 <= i < |nodes| ==>
              results[i] == Found ==> Has(world, filling, file, nodes[i], steps, fuel)
    decreases fuel, |nodes| + 1
  {
    if nodes != [] {
      LookupSound(world, filling, file, nodes[0], steps, seen, fuel);
      var mid := Lookup(world, file, nodes[0], steps, seen, fuel).value.1;
      AllSound(world, filling, file, nodes[1..], steps, mid, fuel);
      hide Has, Lookup;
      var results := LookupAll(world, file, nodes, steps, seen, fuel).value.0;
      var rest := LookupAll(world, file, nodes[1..], steps, mid, fuel).value.0;
      forall i | 0 <= i < |nodes|
        ensures results[i] == Found ==> Has(world, filling, file, nodes[i], steps, fuel)
      {
        if i > 0 { assert results[i] == rest[i - 1] && nodes[i] == nodes[1..][i - 1]; }
      }
    }
  }

  lemma {:induction false} BasesSound(world: World, filling: Filling, file: string, bases: seq<Base>, steps: seq<Step>,
                                      seen: Seen, fuel: nat)
    requires Readable(world, filling)
    requires LookupBases(world, file, bases, steps, seen, fuel).Some?
    ensures var results := LookupBases(world, file, bases, steps, seen, fuel).value.0;
            forall i :: 0 <= i < |bases| ==>
              results[i] == Found ==> HasBase(world, filling, file, bases[i], steps, fuel)
    decreases fuel, |bases| + 1
  {
    if bases != [] {
      var here := LookupBase(world, file, bases[0], steps, seen, fuel);
      if bases[0].Named? && (file, bases[0].name) in world.names {
        DeclSound(world, filling, world.names[(file, bases[0].name)], steps, seen, fuel);
      }
      BasesSound(world, filling, file, bases[1..], steps, here.value.1, fuel);
      hide HasDecl, LookupDecl;
      var results := LookupBases(world, file, bases, steps, seen, fuel).value.0;
      var rest := LookupBases(world, file, bases[1..], steps, here.value.1, fuel).value.0;
      forall i | 0 <= i < |bases|
        ensures results[i] == Found ==> HasBase(world, filling, file, bases[i], steps, fuel)
      {
        if i > 0 { assert results[i] == rest[i - 1] && bases[i] == bases[1..][i - 1]; }
      }
    }
  }

  // ---------- The verdict and the answer of an unguarded walk ----------

  /** The filling under which whatever the walk cannot see provides every path, or none. */
  ghost function Filled(all: bool): Filling {
    Faithful((hole: Hole, steps: seq<Step>) => all)
  }

  /** The same with the program read as the walk reads it: `keyof` for its operand, members that are not properties
      aside; and with unions split if every path is provided. */
  ghost function Walked(all: bool): Filling {
    Filling(true, false, all, (hole: Hole, steps: seq<Step>) => all)
  }

  /** What is asked of an unguarded walk: its verdict, or its answer. */
  datatype View = Verdicts(all: bool) | Answers(all: bool)

  ghost function Shown(view: View): Filling {
    match view
    case Verdicts(all) => Filled(all)
    case Answers(all) => Walked(all)
  }

  predicate AtVerdict(verdict: Verdict, all: bool) {
    if all then verdict.possible else verdict.sure
  }

  predicate AtAnswer(answer: PathLookup, all: bool) {
    if all then answer != Missing else answer == Found
  }

  predicate At(view: View, walk: Plain) {
    match view
    case Verdicts(all) => AtVerdict(walk.verdict, all)
    case Answers(all) => AtAnswer(walk.answer, all)
  }

  /** Of several walks: whether one suffices. */
  predicate AtSome(view: View, walks: Plains) {
    match view
    case Verdicts(all) => AtVerdict(walks.some, all)
    case Answers(all) => AtAnswer(Combine(walks.answers), all)
  }

  predicate AtEvery(view: View, walks: Plains) {
    match view
    case Verdicts(all) => AtVerdict(walks.every, all)
    case Answers(all) => AtAnswer(Agree(walks.answers), all)
  }

  lemma NextSome(view: View, first: Plain, rest: Plains)
    ensures AtSome(view, Next(first, Some(rest)).value) <==> At(view, first) || AtSome(view, rest)
  {
    assert Found in [first.answer] + rest.answers <==> first.answer == Found || Found in rest.answers;
    assert Unknown in [first.answer] + rest.answers <==> first.answer == Unknown || Unknown in rest.answers;
  }

  lemma AgreeNext(first: PathLookup, rest: seq<PathLookup>)
    ensures Agree([first] + rest) == Found <==> first == Found && Agree(rest) == Found
    ensures Agree([first] + rest) == Missing <==> first == Missing && (rest == [] || Agree(rest) == Missing)
  {
    var all := [first] + rest;
    assert first in all && (forall r :: r in all <==> r == first || r in rest);
    assert rest != [] ==> rest[0] in rest;
  }

  /** All of them are needed, or one when unions are split. */
  lemma NextEvery(view: View, first: Plain, rest: Plains)
    ensures AtEvery(view, Next(first, Some(rest)).value) <==>
              if Shown(view).splits then At(view, first) || (rest.answers != [] && AtEvery(view, rest))
              else At(view, first) && AtEvery(view, rest)
  {
    AgreeNext(first.answer, rest.answers);
    hide Agree;
  }

  lemma NoneAt(view: View)
    ensures !AtSome(view, NoPlains()) && AtEvery(view, NoPlains())
  {
  }

  /** A walk that arrives, and one that cannot see further. */
  lemma EndsAt(view: View)
    ensures At(view, Arrived()) && forall hole, steps :: At(view, NoAnswer()) <==> Shown(view).holds(hole, steps)
  {
  }

  function Less(k: nat): nat {
    if k == 0 then 0 else k - 1
  }

  /** Verdict and answer say, each of two extreme fillings, whether it provides the path: at the walk's own depth if so,
      and at no depth `k` if not. */
  lemma {:induction false} WalkDecides(world: World, view: View, file: string, node: TypeNode, steps: seq<Step>,
                                       fuel: nat, k: nat)
    requires PlainWalk(world, file, node, steps, fuel).Some?
    ensures if At(view, PlainWalk(world, file, node, steps, fuel).value)
            then Has(world, Shown(view), file, node, steps, fuel)
            else !Has(world, Shown(view), file, node, steps, k)
    decreases fuel, 1
  {
    hide PlainReference, HasReference, PlainAll, PlainProperty, HasProperty;
    if steps != [] {
      match node
      case Literal(members, others) =>
        if steps[0].Member? {
          var p := PropertyNamed(members, steps[0].name);
          if p.Some? { PropertyDecides(world, view, file, p.value, steps, fuel - 1, Less(k)); }
        }
      case Parenthesized(inner) => WalkDecides(world, view, file, inner, steps, fuel - 1, Less(k));
      case Intersection(parts) => AllDecide(world, view, file, parts, steps, fuel - 1, Less(k));
      case Union(parts) => AllDecide(world, view, file, parts, steps, fuel - 1, Less(k));
      case ArrayOf(element) =>
        if steps[0].Element? { WalkDecides(world, view, file, element, steps[1..], fuel - 1, Less(k)); }
      case Operator(keyof, inner) =>
        if !keyof || Shown(view).through { WalkDecides(world, view, file, inner, steps, fuel - 1, Less(k)); }
      case Indexed(target, key) =>
        if key.Some? { WalkDecides(world, view, file, target, [Member(key.value)] + steps, fuel - 1, Less(k)); }
      case Reference(head, qualified, args) =>
        ReferenceDecides(world, view, file, head, qualified, args, steps, fuel, if k == 0 then 1 else k);
      case Other(_) =>
    }
  }

  lemma {:induction false} ReferenceDecides(world: World, view: View, file: string, head: string, qualified: bool,
                                            args: seq<TypeNode>, steps: seq<Step>, fuel: nat, k: nat)
    requires fuel > 0 && k > 0 && steps != [] && PlainReference(world, file, head, qualified, args, steps, fuel).Some?
    ensures if At(view, PlainReference(world, file, head, qualified, args, steps, fuel).value)
            then HasReference(world, Shown(view), file, head, qualified, args, steps, fuel)
            else !HasReference(world, Shown(view), file, head, qualified, args, steps, k)
    decreases fuel, 0
  {
    hide IsWrapper, IsArrayName, PassesThrough, ListsArgument, PlainDecl, HasDecl, PlainWalk, Has;
    hide At, Shown, NoAnswer;
    WrapperNames(head);
    EndsAt(view);
    if IsWrapper(head) && args != [] {
      WalkDecides(world, view, file, args[0], steps, fuel - 1, k - 1);
    } else if IsArrayName(head) && args != [] {
      if steps[0].Element? { WalkDecides(world, view, file, args[0], steps[1..], fuel - 1, k - 1); }
    } else if !qualified && (file, head) in world.names {
      DeclDecides(world, view, world.names[(file, head)], steps, fuel - 1, k - 1);
    }
  }

  lemma {:induction false} PropertyDecides(world: World, view: View, file: string, p: Property, steps: seq<Step>,
                                           fuel: nat, k: nat)
    requires steps != [] && PlainProperty(world, file, p, steps, fuel).Some?
    ensures if At(view, PlainProperty(world, file, p, steps, fuel).value)
            then HasProperty(world, Shown(view), file, p, steps[1..], fuel)
            else !HasProperty(world, Shown(view), file, p, steps[1..], k)
    decreases fuel, 2
  {
    hide PlainWalk, Has;
    if |steps| > 1 && p.typ.Some? { WalkDecides(world, view, file, p.typ.value, steps[1..], fuel, k); }
  }

  lemma {:induction false} DeclDecides(world: World, view: View, id: DeclId, steps: seq<Step>, fuel: nat, k: nat)
    requires id in world.decls && PlainDecl(world, id, steps, fuel).Some? && steps != []
    ensures if At(view, PlainDecl(world, id, steps, fuel).value)
            then HasDecl(world, Shown(view), id, steps, fuel)
            else !HasDecl(world, Shown(view), id, steps, k)
    decreases fuel, 1
  {
    hide PlainWalk, Has, PlainProperty, HasProperty, PlainBases, HasBase;
    match world.decls[id]
    case Interface(members, others, bases) =>
      if steps[0].Member? {
        var p := PropertyNamed(members, steps[0].name);
        if p.Some? {
          PropertyDecides(world, view, id.file, p.value, steps, fuel - 1, Less(k));
        } else {
          BasesDecide(world, view, id.file, bases, steps, fuel - 1, Less(k));
        }
      }
    case Alias(typ) => WalkDecides(world, view, id.file, typ, steps, fuel - 1, Less(k));
    case Enum =>
  }

  lemma {:induction false} AllDecide(world: World, view: View, file: string, nodes: seq<TypeNode>, steps: seq<Step>,
                                     fuel: nat, k: nat)
    requires PlainAll(world, file, nodes, steps, fuel).Some? && steps != []
    ensures var walks := PlainAll(world, file, nodes, steps, fuel).value;
            && (if AtSome(view, walks) then exists i :: 0 <= i < |nodes| &&
                                                        Has(world, Shown(view), file, nodes[i], steps, fuel)
                else forall i :: 0 <= i < |nodes| ==> !Has(world, Shown(view), file, nodes[i], steps, k))
            && (!Shown(view).splits || nodes == [] ==>
                  if AtEvery(view, walks)
                  then forall i :: 0 <= i < |nodes| ==> Has(world, Shown(view), file, nodes[i], steps, fuel)
                  else exists i :: 0 <= i < |nodes| && !Has(world, Shown(view), file, nodes[i], steps, k))
            && (Shown(view).splits && nodes != [] ==>
                  if AtEvery(view, walks)
                  then exists i :: 0 <= i < |nodes| && Has(world, Shown(view), file, nodes[i], steps, fuel)
                  else forall i :: 0 <= i < |nodes| ==> !Has(world, Shown(view), file, nodes[i], steps, k))
    decreases fuel, |nodes| + 1
  {
    hide PlainWalk, Has, At, AtSome, AtEvery, Shown;
    NoneAt(view);
    if nodes != [] {
      var first, rest := PlainWalk(world, file, nodes[0], steps, fuel), PlainAll(world, file, nodes[1..], steps, fuel);
      assert rest.Some?;
      WalkDecides(world, view, file, nodes[0], steps, fuel, k);
      AllDecide(world, view, file, nodes[1..], steps, fuel, k);
      NextSome(view, first.value, rest.value);
      NextEvery(view, first.value, rest.value);
      assert forall i :: 0 < i < |nodes| ==> nodes[i] == nodes[1..][i - 1];
      assert forall i :: 0 <= i < |nodes| - 1 ==> nodes[1..][i] == nodes[i + 1];
    }
  }

  lemma {:induction false} BaseDecides(world: World, view: View, file: string, base: Base, steps: seq<Step>, fuel: nat,
                                       k: nat)
    requires PlainBase(world, file, base, steps, fuel).Some? && steps != []
    ensures if At(view, PlainBase(world, file, base, steps, fuel).value)
            then HasBase(world, Shown(view), file, base, steps, fuel)
            else !HasBase(world, Shown(view), file, base, steps, k)
    decreases fuel, 2
  {
    hide PlainDecl, HasDecl;
    if base.Named? && (file, base.name) in world.names {
      DeclDecides(world, view, world.names[(file, base.name)], steps, fuel, k);
    }
  }

  lemma {:induction false} BasesDecide(world: World, view: View, file: string, bases: seq<Base>, steps: seq<Step>,
                                       fuel: nat, k: nat)
    requires PlainBases(world, file, bases, steps, fuel).Some? && steps != []
    ensures if AtSome(view, PlainBases(world, file, bases, steps, fuel).value)
            then exists i :: 0 <= i < |bases| && HasBase(world, Shown(view), file, bases[i], steps, fuel)
            else forall i :: 0 <= i < |bases| ==> !HasBase(world, Shown(view), file, bases[i], steps, k)
    decreases fuel, |bases| + 3
  {
    hide PlainBase, HasBase, At, AtSome, Shown;
    NoneAt(view);
    if bases != [] {
      var first, rest := PlainBase(world, file, bases[0], steps, fuel), PlainBases(world, file, bases[1..], steps,
          fuel);
      assert rest.Some?;
      NextSome(view, first.value, rest.value);
      BaseDecides(world, view, file, bases[0], steps, fuel, k);
      BasesDecide(world, view, file, bases[1..], steps, fuel, k);
      assert forall i :: 0 < i < |bases| ==> bases[i] == bases[1..][i - 1];
      assert forall i :: 0 <= i < |bases| - 1 ==> bases[1..][i] == bases[i + 1];
    }
  }

  // ---------- Fuller fillings provide more ----------

  ghost predicate Below(a: Filling, b: Filling) {
    && a.through == b.through && a.heeds == b.heeds && a.splits == b.splits
    && forall hole, steps :: a.holds(hole, steps) ==> b.holds(hole, steps)
  }

  lemma {:induction false} HasMore(world: World, a: Filling, b: Filling, file: string, node: TypeNode, steps: seq<Step>,
                                   n: nat)
    requires Below(a, b) && Has(world, a, file, node, steps, n)
    ensures Has(world, b, file, node, steps, n)
    decreases n, 1
  {
    if steps != [] {
      match node
      case Literal(members, others) =>
        if steps[0].Member? {
          var p := PropertyNamed(members, steps[0].name);
          if p.Some? { PropertyMore(world, a, b, file, p.value, steps[1..], n - 1); }
        }
      case Parenthesized(inner) => HasMore(world, a, b, file, inner, steps, n - 1);
      case Intersection(parts) =>
        var i :| 0 <= i < |parts| && Has(world, a, file, parts[i], steps, n - 1);
        HasMore(world, a, b, file, parts[i], steps, n - 1);
      case Union(parts) =>
        if a.splits && parts != [] {
          var i :| 0 <= i < |parts| && Has(world, a, file, parts[i], steps, n - 1);
          HasMore(world, a, b, file, parts[i], steps, n - 1);
        } else {
          UnionMore(world, a, b, file, parts, steps, n);
        }
      case ArrayOf(element) => if steps[0].Element? { HasMore(world, a, b, file, element, steps[1..], n - 1); }
      case Operator(keyof, inner) => if !(keyof && !a.through) { HasMore(world, a, b, file, inner, steps, n - 1); }
      case Indexed(target, key) => if key.Some? {
        HasMore(world, a, b, file, target, [Member(key.value)] + steps, n - 1);
      }
      case Reference(head, qualified, args) => ReferenceMore(world, a, b, file, head, qualified, args, steps, n);
      case Other(_) =>
    }
  }

  lemma {:induction false} UnionMore(world: World, a: Filling, b: Filling, file: string, parts: seq<TypeNode>,
                                     steps: seq<Step>, n: nat)
    requires n > 0 && Below(a, b) && forall i :: 0 <= i < |parts| ==> Has(world, a, file, parts[i], steps, n - 1)
    ensures forall i :: 0 <= i < |parts| ==> Has(world, b, file, parts[i], steps, n - 1)
    decreases n, 0
  {
    forall i | 0 <= i < |parts| ensures Has(world, b, file, parts[i], steps, n - 1) {
      HasMore(world, a, b, file, parts[i], steps, n - 1);
    }
  }

  lemma {:induction false} ReferenceMore(world: World, a: Filling, b: Filling, file: string, head: string,
                                         qualified: bool, args: seq<TypeNode>, steps: seq<Step>, n: nat)
    requires n > 0 && steps != [] && Below(a, b) && HasReference(world, a, file, head, qualified, args, steps, n)
    ensures HasReference(world, b, file, head, qualified, args, steps, n)
    decreases n, 0
  {
    hide PassesThrough, ListsArgument;
    if PassesThrough(head) && args != [] {
      HasMore(world, a, b, file, args[0], steps, n - 1);
    } else if ListsArgument(head) && args != [] {
      if steps[0].Element? { HasMore(world, a, b, file, args[0], steps[1..], n - 1); }
    } else if !qualified && (file, head) in world.names {
      DeclMore(world, a, b, world.names[(file, head)], steps, n - 1);
    }
  }

  lemma {:induction false} PropertyMore(world: World, a: Filling, b: Filling, file: string, p: Property,
                                        rest: seq<Step>, n: nat)
    requires Below(a, b) && HasProperty(world, a, file, p, rest, n)
    ensures HasProperty(world, b, file, p, rest, n)
    decreases n, 2
  {
    if rest != [] && p.typ.Some? { HasMore(world, a, b, file, p.typ.value, rest, n); }
  }

  lemma {:induction false} DeclMore(world: World, a: Filling, b: Filling, id: DeclId, steps: seq<Step>, n: nat)
    requires id in world.decls && Below(a, b) && HasDecl(world, a, id, steps, n)
    ensures HasDecl(world, b, id, steps, n)
    decreases n, 0
  {
    if steps != [] {
      match world.decls[id]
      case Interface(members, others, bases) =>
        if steps[0].Member? {
          var p := PropertyNamed(members, steps[0].name);
          if p.Some? {
            PropertyMore(world, a, b, id.file, p.value, steps[1..], n - 1);
          } else if !HasOther(a, DeclHole(id), others, steps) {
            var i :| 0 <= i < |bases| && HasBase(world, a, id.file, bases[i], steps, n - 1);
            BaseMore(world, a, b, id.file, bases[i], steps, n - 1);
          }
        }
      case Alias(typ) => HasMore(world, a, b, id.file, typ, steps, n - 1);
      case Enum =>
    }
  }

  lemma {:induction false} BaseMore(world: World, a: Filling, b: Filling, file: string, base: Base, steps: seq<Step>,
                                    n: nat)
    requires Below(a, b) && HasBase(world, a, file, base, steps, n)
    ensures HasBase(world, b, file, base, steps, n)
    decreases n, 1
  {
    if base.Named? && (file, base.name) in world.names {
      DeclMore(world, a, b, world.names[(file, base.name)], steps, n);
    }
  }

  // ---------- What the answers mean ----------

  /** Under a filling, the declaration provides the path. */
  ghost predicate Provides(world: World, filling: Filling, id: DeclId, steps: seq<Step>)
    requires id in world.decls
  {
    exists n: nat :: HasDecl(world, filling, id, steps, n)
  }

  /** The path is there whatever the holes hold, what `keyof` yields among them. */
  ghost predicate Always(world: World, id: DeclId, steps: seq<Step>)
    requires id in world.decls
  {
    forall holds: (Hole, seq<Step>) -> bool :: Provides(world, Faithful(holds), id, steps)
  }

  ghost predicate Never(world: World, id: DeclId, steps: seq<Step>)
    requires id in world.decls
  {
    forall holds: (Hole, seq<Step>) -> bool :: !Provides(world, Faithful(holds), id, steps)
  }

  /** A path is always there exactly when some derivation of it uses no hole and crosses no `keyof`, and never there
      exactly when the fullest filling does not provide it. */
  lemma ExtremesDecide(world: World, id: DeclId, steps: seq<Step>)
    requires id in world.decls
    ensures Always(world, id, steps) <==> Provides(world, Filled(false), id, steps)
    ensures Never(world, id, steps) <==> !Provides(world, Filled(true), id, steps)
  {
    hide HasDecl;
    forall holds: (Hole, seq<Step>) -> bool
      ensures Provides(world, Filled(false), id, steps) ==> Provides(world, Faithful(holds), id, steps)
      ensures Provides(world, Faithful(holds), id, steps) ==> Provides(world, Filled(true), id, steps)
    {
      var filling := Faithful(holds);
      if n: nat :| HasDecl(world, Filled(false), id, steps, n) {
        DeclMore(world, Filled(false), filling, id, steps, n);
      }
      if n: nat :| HasDecl(world, filling, id, steps, n) { DeclMore(world, filling, Filled(true), id, steps, n); }
    }
  }

  lemma ViewAt(world: World, id: DeclId, steps: seq<Step>, fuel: nat, view: View)
    requires id in world.decls && PlainDecl(world, id, steps, fuel).Some? && steps != []
    ensures Provides(world, Shown(view), id, steps) <==> At(view, PlainDecl(world, id, steps, fuel).value)
  {
    hide PlainDecl, HasDecl;
    if At(view, PlainDecl(world, id, steps, fuel).value) {
      DeclDecides(world, view, id, steps, fuel, 0);
    } else {
      forall n: nat ensures !HasDecl(world, Shown(view), id, steps, n) { DeclDecides(world, view, id, steps, fuel, n); }
    }
  }

  /** Where the unguarded walk ends, its verdict is exactly this. */
  lemma PlainVerdict(world: World, id: DeclId, steps: seq<Step>, fuel: nat)
    requires id in world.decls && PlainDecl(world, id, steps, fuel).Some?
    ensures Always(world, id, steps) <==> PlainDecl(world, id, steps, fuel).value.verdict.sure
    ensures Never(world, id, steps) <==> !PlainDecl(world, id, steps, fuel).value.verdict.possible
  {
    ExtremesDecide(world, id, steps);
    if steps == [] {
      assert HasDecl(world, Filled(false), id, steps, 0) && HasDecl(world, Filled(true), id, steps, 0);
    } else {
      ViewAt(world, id, steps, fuel, Verdicts(false));
      ViewAt(world, id, steps, fuel, Verdicts(true));
    }
  }

  /** Where it ends, it answers missing exactly when no choice of one branch for each union provides the path even if
      the holes hold everything, and found exactly when the path is provided though they hold nothing. */
  lemma PlainAnswer(world: World, id: DeclId, steps: seq<Step>, fuel: nat)
    requires id in world.decls && PlainDecl(world, id, steps, fuel).Some?
    ensures PlainDecl(world, id, steps, fuel).value.answer == Missing <==> !Provides(world, Walked(true), id, steps)
    ensures PlainDecl(world, id, steps, fuel).value.answer == Found <==> Provides(world, Walked(false), id, steps)
  {
    if steps == [] {
      assert HasDecl(world, Walked(false), id, steps, 0) && HasDecl(world, Walked(true), id, steps, 0);
    } else {
      ViewAt(world, id, steps, fuel, Answers(false));
      ViewAt(world, id, steps, fuel, Answers(true));
    }
  }

  /** The unguarded walk ends without going through a declaration twice with as much of the path left. */
  ghost predicate Unrepeated(world: World, id: DeclId, steps: seq<Step>, fuel: nat)
    requires id in world.decls
  {
    PlainDecl(world, id, steps, fuel).Some? && NoRepeats(PlainDecl(world, id, steps, fuel).value.visited)
  }

  /** The walk answers missing exactly when it must: when the unguarded walk ends unrepeated and no choice of branches
      provides the path. Unrepeated, it also answers found exactly when the path is provided. */
  lemma AnswersWhen(world: World, id: DeclId, steps: seq<Step>, fuel: nat)
    requires id in world.decls && LookupDecl(world, id, steps, {}, fuel).Some?
    ensures LookupDecl(world, id, steps, {}, fuel).value.0 == Missing <==>
              Unrepeated(world, id, steps, fuel) && !Provides(world, Walked(true), id, steps)
    ensures Unrepeated(world, id, steps, fuel) ==>
              (LookupDecl(world, id, steps, {}, fuel).value.0 == Found <==> Provides(world, Walked(false), id, steps))
  {
    hide LookupDecl, PlainDecl, Provides;
    GuardKeepsMissing(world, id, steps, fuel);
    if PlainDecl(world, id, steps, fuel).Some? { PlainAnswer(world, id, steps, fuel); }
  }

  /** A found path is provided under every filling that reads through `keyof`. It is always there exactly when some
      derivation uses no hole and crosses no `keyof`, which the verdict says if the unguarded walk ends, and which is so
      if the program has no `keyof`. A missing path is never there exactly when the unguarded walk, which then ends,
      leaves it no possibility by way of a `keyof` or of a method, accessor or index signature that could answer. */
  lemma DefiniteAnswers(world: World, id: DeclId, steps: seq<Step>, fuel: nat)
    requires id in world.decls && LookupDecl(world, id, steps, {}, fuel).Some?
    ensures LookupDecl(world, id, steps, {}, fuel).value.0 == Found ==>
              && (forall filling: Filling :: Readable(world, filling) ==> Provides(world, filling, id, steps))
              && (Always(world, id, steps) <==> Provides(world, Filled(false), id, steps))
              && (PlainDecl(world, id, steps, fuel).Some? ==>
                    (Always(world, id, steps) <==> PlainDecl(world, id, steps, fuel).value.verdict.sure))
    ensures LookupDecl(world, id, steps, {}, fuel).value.0 == Missing ==>
              && PlainDecl(world, id, steps, fuel).Some?
              && (Never(world, id, steps) <==> !PlainDecl(world, id, steps, fuel).value.verdict.possible)
  {
    hide LookupDecl, HasDecl, PlainDecl, Always, Never, Readable;
    if LookupDecl(world, id, steps, {}, fuel).value.0 == Found {
      forall filling: Filling | Readable(world, filling) ensures Provides(world, filling, id, steps) {
        DeclSound(world, filling, id, steps, {}, fuel);
      }
      ExtremesDecide(world, id, steps);
    }
    GuardKeepsMissing(world, id, steps, fuel);
    if PlainDecl(world, id, steps, fuel).Some? { PlainVerdict(world, id, steps, fuel); }
  }

  /** In a program without `keyof` a found path is always there. */
  lemma FoundAlways(world: World, id: DeclId, steps: seq<Step>, fuel: nat)
    requires id in world.decls && LookupDecl(world, id, steps, {}, fuel).Some? && WorldKeyofFree(world)
    ensures LookupDecl(world, id, steps, {}, fuel).value.0 == Found ==> Always(world, id, steps)
  {
    hide LookupDecl, HasDecl, PlainDecl, WorldKeyofFree;
    DefiniteAnswers(world, id, steps, fuel);
  }

  /** `type A = keyof { x: string }`: the walk finds `x`, which is not there. */
  lemma KeyofFound(name: string)
    ensures var w: World := World(map[DeclId("f", 0) := Alias(Operator(true, Literal([Property(name, None)], [])))],
                                  map[]);
            && LookupDecl(w, DeclId("f", 0), [Member(name)], {}, 4).Some?
            && LookupDecl(w, DeclId("f", 0), [Member(name)], {}, 4).value.0 == Found
            && !Always(w, DeclId("f", 0), [Member(name)])
  {
    var w: World := World(map[DeclId("f", 0) := Alias(Operator(true, Literal([Property(name, None)], [])))], map[]);
    var a, steps := DeclId("f", 0), [Member(name)];
    var inner := Literal([Property(name, None)], []);
    assert PropertyNamed(inner.members, name) == Some(inner.members[0]);
    assert Lookup(w, "f", inner, steps, {} + {(a, 1)}, 2) == Some((Found, {} + {(a, 1)}));
    assert Lookup(w, "f", Operator(true, inner), steps, {} + {(a, 1)}, 3) == Some((Found, {} + {(a, 1)}));
    forall n: nat ensures !HasDecl(w, Filled(false), a, steps, n) {
      if n > 0 { assert !Has(w, Filled(false), "f", Operator(true, inner), steps, n - 1); }
    }
    assert !Provides(w, Filled(false), a, steps);
  }

  // ---------- The guard is shared by all branches ----------

  /** `D extends B, C` where both extend the empty `A`. */
  function Diamond(): World {
    World(map[DeclId("f", 0) := Interface([], [], []),
              DeclId("f", 1) := Interface([], [], [Named("A")]),
              DeclId("f", 2) := Interface([], [], [Named("A")]),
              DeclId("f", 3) := Interface([], [], [Named("B"), Named("C")])],
          map[("f", "A") := DeclId("f", 0), ("f", "B") := DeclId("f", 1), ("f", "C") := DeclId("f", 2)])
  }

  function Absent(): Verdict {
    Verdict(false, false)
  }

  lemma DiamondArm(arm: nat, name: string)
    requires arm == 1 || arm == 2
    ensures PlainDecl(Diamond(), DeclId("f", arm), [Member(name)], 3) ==
            Some(Plain(Missing, [(DeclId("f", arm), 1), (DeclId("f", 0), 1)], Absent()))
  {
    var w, steps := Diamond(), [Member(name)];
    assert PlainBases(w, "f", [], steps, 1) == Some(NoPlains());
    assert PlainDecl(w, DeclId("f", 0), steps, 2) == Some(Plain(Missing, [(DeclId("f", 0), 1)] + [], Absent()));
    assert PlainBases(w, "f", [Named("A")][1..], steps, 2) == Some(NoPlains());
    assert PlainBase(w, "f", Named("A"), steps, 2) == PlainDecl(w, DeclId("f", 0), steps, 2);
    var all := Plains([Missing], [(DeclId("f", 0), 1)], Absent(), Absent());
    assert [Missing] + [] == [Missing] && [(DeclId("f", 0), 1)] + [] == [(DeclId("f", 0), 1)];
    assert PlainBases(w, "f", [Named("A")], steps, 2) == Some(all);
    assert Inherited(Absent(), Some(all)) == Some(Plain(Missing, all.visited, Absent()));
    assert w.decls[DeclId("f", arm)] == Interface([], [], [Named("A")]);
    assert PlainBody(w, DeclId("f", arm), steps, 3) == Inherited(Absent(), Some(all));
    assert [(DeclId("f", arm), 1)] + all.visited == [(DeclId("f", arm), 1), (DeclId("f", 0), 1)];
  }

  /** The walk goes through `A` twice, so a member that no filling provides is not reported missing. */
  lemma SharedGuardHidesMissing(name: string)
    ensures var steps := [Member(name)];
            && LookupDecl(Diamond(), DeclId("f", 3), steps, {}, 4).Some?
            && LookupDecl(Diamond(), DeclId("f", 3), steps, {}, 4).value.0 == Unknown
            && Never(Diamond(), DeclId("f", 3), steps)
  {
    var w, steps, d := Diamond(), [Member(name)], DeclId("f", 3);
    var a, b, c := (DeclId("f", 0), 1), (DeclId("f", 1), 1), (DeclId("f", 2), 1);
    DiamondArm(1, name);
    DiamondArm(2, name);
    var bases := [Named("B"), Named("C")];
    assert PlainBases(w, "f", bases[1..][1..], steps, 3) == Some(NoPlains());
    assert PlainBase(w, "f", bases[1..][0], steps, 3) == PlainDecl(w, DeclId("f", 2), steps, 3);
    assert PlainBases(w, "f", bases[1..], steps, 3) == Some(Plains([Missing] + [], [c, a] + [], Absent(), Absent()));
    assert PlainBase(w, "f", bases[0], steps, 3) == PlainDecl(w, DeclId("f", 1), steps, 3);
    var visited := [b, a] + ([c, a] + []);
    var answers := [Missing] + ([Missing] + []);
    assert PlainBases(w, "f", bases, steps, 3) == Some(Plains(answers, visited, Absent(), Absent()));
    var plain := PlainDecl(w, d, steps, 4);
    assert plain == Some(Plain(Missing, [(d, 1)] + visited, Absent()));
    assert plain.value.visited[2] == plain.value.visited[4] == a;
    hide LookupDecl, PlainDecl;
    GuardKeepsMissing(w, d, steps, 4);
    PlainVerdict(w, d, steps, 4);
  }

  /** `interface A { m(): void }`: the method is there, and the walk reports it missing. */
  lemma SkippedMethodMissing(name: string)
    ensures var w: World := World(map[DeclId("f", 0) := Interface([], [Some(name)], [])], map[]);
            && LookupDecl(w, DeclId("f", 0), [Member(name)], {}, 2).Some?
            && LookupDecl(w, DeclId("f", 0), [Member(name)], {}, 2).value.0 == Missing
            && Always(w, DeclId("f", 0), [Member(name)])
  {
    var w: World := World(map[DeclId("f", 0) := Interface([], [Some(name)], [])], map[]);
    var a, steps := DeclId("f", 0), [Member(name)];
    assert LookupBases(w, "f", [], steps, {} + {(a, 1)}, 1) == Some(([], {} + {(a, 1)}));
    forall holds: (Hole, seq<Step>) -> bool ensures Provides(w, Faithful(holds), a, steps) {
      assert HasDecl(w, Faithful(holds), a, steps, 1);
    }
  }
}
