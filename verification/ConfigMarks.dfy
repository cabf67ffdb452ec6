/** The keys the recursion guard marks, and that the walk ends exactly when they are bounded. */
module ConfigMarks {
  import opened ConfigLookup
  import opened Wrappers

  /** Some number of nested calls suffices for the guarded walk. */
  ghost predicate Ends(world: World, id: DeclId, steps: seq<Step>)
    requires id in world.decls
  {
    exists fuel: nat :: LookupDecl(world, id, steps, {}, fuel).Some?
  }

  // ---------- The keys marked, as far as the walk gets ----------

  /** The keys seen or marked by the walk of a type when `fuel` nested calls are allowed, whether or not they
      suffice. */
  function MarkWalk(world: World, file: string, node: TypeNode, steps: seq<Step>, seen: Seen, fuel: nat): Seen
    decreases fuel, 1
  {
    if fuel == 0 || steps == [] then seen
    else match node
      case Literal(members, _) =>
        if steps[0].Member? && PropertyNamed(members, steps[0].name).Some?
        then MarkProperty(world, file, PropertyNamed(members, steps[0].name).value, steps, seen, fuel - 1)
        else seen
      case Parenthesized(inner) => MarkWalk(world, file, inner, steps, seen, fuel - 1)
      case Intersection(parts) => MarkAll(world, file, parts, steps, seen, fuel - 1)
      case Union(parts) => MarkAll(world, file, parts, steps, seen, fuel - 1)
      case ArrayOf(element) =>
        if steps[0].Element? then MarkWalk(world, file, element, steps[1..], seen, fuel - 1) else seen
      case Operator(_, inner) => MarkWalk(world, file, inner, steps, seen, fuel - 1)
      case Indexed(target, key) =>
        if key.Some? then MarkWalk(world, file, target, [Member(key.value)] + steps, seen, fuel - 1) else seen
      case Reference(head, qualified, args) => MarkReference(world, file, head, qualified, args, steps, seen, fuel)
      case Other(_) => seen
  }

  function MarkReference(world: World, file: string, head: string, qualified: bool, args: seq<TypeNode>,
                         steps: seq<Step>, seen: Seen, fuel: nat): Seen
    requires fuel > 0 && steps != []
    decreases fuel, 0
  {
    if IsWrapper(head) && args != [] then MarkWalk(world, file, args[0], steps, seen, fuel - 1)
    else if IsArrayName(head) && args != [] then
      if steps[0].Element? then MarkWalk(world, file, args[0], steps[1..], seen, fuel - 1) else seen
    else if qualified || (file, head) !in world.names then seen
    else MarkDecl(world, world.names[(file, head)], steps, seen, fuel - 1)
  }

  function MarkProperty(world: World, file: string, p: Property, steps: seq<Step>, seen: Seen, fuel: nat): Seen
    requires steps != []
    decreases fuel, 2
  {
    if |steps| > 1 && p.typ.Some? then MarkWalk(world, file, p.typ.value, steps[1..], seen, fuel) else seen
  }

  /** The keys seen or marked by the walk of a declaration. */
  function MarkDecl(world: World, id: DeclId, steps: seq<Step>, seen: Seen, fuel: nat): Seen
    requires id in world.decls
    decreases fuel, 0
  {
    var key := (id, |steps|);
    if fuel == 0 || steps == [] || key in seen then seen
    else match world.decls[id]
      case Interface(members, _, bases) =>
        if steps[0].Element? then seen + {key}
        else
          var p := PropertyNamed(members, steps[0].name);
          if p.Some? then MarkProperty(world, id.file, p.value, steps, seen + {key}, fuel - 1)
          else MarkBases(world, id.file, bases, steps, seen + {key}, fuel - 1)
      case Alias(typ) => MarkWalk(world, id.file, typ, steps, seen + {key}, fuel - 1)
      case Enum => seen
  }

  /** An alternative is walked once the one before it has been answered. */
  function MarkAll(world: World, file: string, nodes: seq<TypeNode>, steps: seq<Step>, seen: Seen, fuel: nat): Seen
    decreases fuel, |nodes| + 1
  {
    if nodes == [] then seen
    else
      var first := MarkWalk(world, file, nodes[0], steps, seen, fuel);
      if Lookup(world, file, nodes[0], steps, seen, fuel).None? then first
      else MarkAll(world, file, nodes[1..], steps, first, fuel)
  }

  function MarkBase(world: World, file: string, base: Base, steps: seq<Step>, seen: Seen, fuel: nat): Seen
    decreases fuel, 1
  {
    if base.Named? && (file, base.name) in world.names then
      MarkDecl(world, world.names[(file, base.name)], steps, seen, fuel)
    else seen
  }

  function MarkBases(world: World, file: string, bases: seq<Base>, steps: seq<Step>, seen: Seen, fuel: nat): Seen
    decreases fuel, |bases| + 2
  {
    if bases == [] then seen
    else
      var first := MarkBase(world, file, bases[0], steps, seen, fuel);
      if LookupBase(world, file, bases[0], steps, seen, fuel).None? then first
      else MarkBases(world, file, bases[1..], steps, first, fuel)
  }

  // ---------- An answer comes with exactly the keys marked ----------

  /** What a walk marks with `fuel` nested calls, and with more. */
  ghost predicate Grows(seen: Seen, answer: Option<Seen>, marks: Seen, more: Seen) {
    seen <= marks <= more && (answer.Some? ==> answer.value == marks == more)
  }

  function After(answer: Answer): Option<Seen> {
    if answer.None? then None else Some(answer.value.1)
  }

  function AfterAll(answer: Option<(seq<PathLookup>, Seen)>): Option<Seen> {
    if answer.None? then None else Some(answer.value.1)
  }

  lemma {:induction false} WalkGrows(world: World, file: string, node: TypeNode, steps: seq<Step>, seen: Seen,
                                     fuel: nat, more: nat)
    requires fuel <= more
    ensures Grows(seen, After(Lookup(world, file, node, steps, seen, fuel)),
                  MarkWalk(world, file, node, steps, seen, fuel),
                  MarkWalk(world, file, node, steps, seen, more))
    decreases more, 1
  {
    hide LookupReference, LookupAll, LookupProperty, MarkReference, MarkAll, MarkProperty, PropertyNamed;
    if more > 0 && steps != [] {
      var less := if fuel == 0 then 0 else fuel - 1;
      match node
      case Literal(members, others) =>
        if steps[0].Member? && PropertyNamed(members, steps[0].name).Some? {
          PropertyGrows(world, file, PropertyNamed(members, steps[0].name).value, steps, seen, less, more - 1);
        }
      case Parenthesized(inner) => WalkGrows(world, file, inner, steps, seen, less, more - 1);
      case Intersection(parts) => AllGrow(world, file, parts, steps, seen, less, more - 1);
      case Union(parts) => AllGrow(world, file, parts, steps, seen, less, more - 1);
      case ArrayOf(element) =>
        if steps[0].Element? { WalkGrows(world, file, element, steps[1..], seen, less, more - 1); }
      case Operator(_, inner) => WalkGrows(world, file, inner, steps, seen, less, more - 1);
      case Indexed(target, key) =>
        if key.Some? { WalkGrows(world, file, target, [Member(key.value)] + steps, seen, less, more - 1); }
      case Reference(head, qualified, args) =>
        ReferenceGrows(world, file, head, qualified, args, steps, seen, if fuel == 0 then 1 else fuel, more);
      case Other(_) =>
    }
  }

  lemma {:induction false} ReferenceGrows(world: World, file: string, head: string, qualified: bool,
                                          args: seq<TypeNode>, steps: seq<Step>, seen: Seen, fuel: nat, more: nat)
    requires 0 < fuel <= more && steps != []
    ensures Grows(seen, After(LookupReference(world, file, head, qualified, args, steps, seen, fuel)),
                  MarkReference(world, file, head, qualified, args, steps, seen, fuel),
                  MarkReference(world, file, head, qualified, args, steps, seen, more))
    decreases more, 0
  {
    hide IsWrapper, IsArrayName, Lookup, MarkWalk, LookupDecl, MarkDecl;
    if IsWrapper(head) && args != [] {
      WalkGrows(world, file, args[0], steps, seen, fuel - 1, more - 1);
    } else if IsArrayName(head) && args != [] {
      if steps[0].Element? { WalkGrows(world, file, args[0], steps[1..], seen, fuel - 1, more - 1); }
    } else if !qualified && (file, head) in world.names {
      DeclGrows(world, world.names[(file, head)], steps, seen, fuel - 1, more - 1);
    }
  }

  lemma {:induction false} PropertyGrows(world: World, file: string, p: Property, steps: seq<Step>, seen: Seen,
                                         fuel: nat, more: nat)
    requires fuel <= more && steps != []
    ensures Grows(seen, After(LookupProperty(world, file, p, steps, seen, fuel)),
                  MarkProperty(world, file, p, steps, seen, fuel),
                  MarkProperty(world, file, p, steps, seen, more))
    decreases more, 2
  {
    hide Lookup, MarkWalk;
    if |steps| > 1 && p.typ.Some? { WalkGrows(world, file, p.typ.value, steps[1..], seen, fuel, more); }
  }

  lemma {:induction false} DeclGrows(world: World, id: DeclId, steps: seq<Step>, seen: Seen, fuel: nat, more: nat)
    requires fuel <= more && id in world.decls
    ensures Grows(seen, After(LookupDecl(world, id, steps, seen, fuel)), MarkDecl(world, id, steps, seen, fuel),
                  MarkDecl(world, id, steps, seen, more))
    decreases more, 0
  {
    hide Lookup, MarkWalk, LookupProperty, MarkProperty, LookupBases, MarkBases, PropertyNamed;
    var key, less := (id, |steps|), if fuel == 0 then 0 else fuel - 1;
    if more > 0 && steps != [] && key !in seen {
      match world.decls[id]
      case Interface(members, _, bases) =>
        if steps[0].Member? {
          var p := PropertyNamed(members, steps[0].name);
          if p.Some? {
            PropertyGrows(world, id.file, p.value, steps, seen + {key}, less, more - 1);
          } else {
            BasesGrow(world, id.file, bases, steps, seen + {key}, less, more - 1);
          }
        }
      case Alias(typ) => WalkGrows(world, id.file, typ, steps, seen + {key}, less, more - 1);
      case Enum =>
    }
  }

  lemma {:induction false} AllGrow(world: World, file: string, nodes: seq<TypeNode>, steps: seq<Step>, seen: Seen,
                                   fuel: nat, more: nat)
    requires fuel <= more
    ensures Grows(seen, AfterAll(LookupAll(world, file, nodes, steps, seen, fuel)),
                  MarkAll(world, file, nodes, steps, seen, fuel),
                  MarkAll(world, file, nodes, steps, seen, more))
    decreases more, |nodes| + 1
  {
    hide Lookup, MarkWalk;
    if nodes != [] {
      WalkGrows(world, file, nodes[0], steps, seen, fuel, more);
      WalkGrows(world, file, nodes[0], steps, seen, more, more);
      if Lookup(world, file, nodes[0], steps, seen, fuel).Some? {
        LookupStable(world, file, nodes[0], steps, seen, fuel, more);
      }
      AllGrow(world, file, nodes[1..], steps, MarkWalk(world, file, nodes[0], steps, seen, more), fuel, more);
    }
  }

  lemma {:induction false} BaseGrows(world: World, file: string, base: Base, steps: seq<Step>, seen: Seen, fuel: nat,
                                     more: nat)
    requires fuel <= more
    ensures Grows(seen, After(LookupBase(world, file, base, steps, seen, fuel)),
                  MarkBase(world, file, base, steps, seen, fuel),
                  MarkBase(world, file, base, steps, seen, more))
    ensures LookupBase(world, file, base, steps, seen, fuel).Some? ==>
              LookupBase(world, file, base, steps, seen, more) == LookupBase(world, file, base, steps, seen, fuel)
    decreases more, 1
  {
    hide LookupDecl, MarkDecl;
    if base.Named? && (file, base.name) in world.names {
      var id := world.names[(file, base.name)];
      DeclGrows(world, id, steps, seen, fuel, more);
      if LookupDecl(world, id, steps, seen, fuel).Some? { DeclStable(world, id, steps, seen, fuel, more); }
    }
  }

  lemma {:induction false} BasesGrow(world: World, file: string, bases: seq<Base>, steps: seq<Step>, seen: Seen,
                                     fuel: nat, more: nat)
    requires fuel <= more
    ensures Grows(seen, AfterAll(LookupBases(world, file, bases, steps, seen, fuel)),
                  MarkBases(world, file, bases, steps, seen, fuel),
                  MarkBases(world, file, bases, steps, seen, more))
    decreases more, |bases| + 2
  {
    hide LookupBase, MarkBase;
    if bases != [] {
      BaseGrows(world, file, bases[0], steps, seen, fuel, more);
      BaseGrows(world, file, bases[0], steps, seen, more, more);
      BasesGrow(world, file, bases[1..], steps, MarkBase(world, file, bases[0], steps, seen, more), fuel, more);
    }
  }

  // ---------- How deep types nest ----------

  /** No more than `h` nodes nest. */
  ghost predicate Nests(node: TypeNode, h: nat)
    decreases h, 0
  {
    h > 0 && match node
      case Literal(members, _) => MembersNest(members, h - 1)
      case Parenthesized(inner) => Nests(inner, h - 1)
      case Intersection(parts) => AllNest(parts, h - 1)
      case Union(parts) => AllNest(parts, h - 1)
      case ArrayOf(element) => Nests(element, h - 1)
      case Operator(_, inner) => Nests(inner, h - 1)
      case Indexed(target, _) => Nests(target, h - 1)
      case Reference(_, _, args) => AllNest(args, h - 1)
      case Other(_) => true
  }

  ghost predicate AllNest(nodes: seq<TypeNode>, h: nat)
    decreases h, 1
  {
    forall t :: t in nodes ==> Nests(t, h)
  }

  ghost predicate MembersNest(members: seq<Property>, h: nat)
    decreases h, 1
  {
    forall p :: p in members && p.typ.Some? ==> Nests(p.typ.value, h)
  }

  ghost predicate DeclNests(decl: Decl, h: nat) {
    match decl
    case Interface(members, _, _) => MembersNest(members, h)
    case Alias(typ) => Nests(typ, h)
    case Enum => true
  }

  ghost predicate WorldNests(world: World, h: nat) {
    forall id :: id in world.decls ==> DeclNests(world.decls[id], h)
  }

  lemma {:induction false} NestsMore(node: TypeNode, h: nat, more: nat)
    requires Nests(node, h) && h <= more
    ensures Nests(node, more)
    decreases h, 0
  {
    match node
    case Literal(members, _) =>
      forall p | p in members && p.typ.Some? ensures Nests(p.typ.value, more - 1) {
        NestsMore(p.typ.value, h - 1, more - 1);
      }
    case Parenthesized(inner) => NestsMore(inner, h - 1, more - 1);
    case Intersection(parts) => AllNestMore(parts, h - 1, more - 1);
    case Union(parts) => AllNestMore(parts, h - 1, more - 1);
    case ArrayOf(element) => NestsMore(element, h - 1, more - 1);
    case Operator(_, inner) => NestsMore(inner, h - 1, more - 1);
    case Indexed(target, _) => NestsMore(target, h - 1, more - 1);
    case Reference(_, _, args) => AllNestMore(args, h - 1, more - 1);
    case Other(_) =>
  }

  lemma {:induction false} AllNestMore(nodes: seq<TypeNode>, h: nat, more: nat)
    requires AllNest(nodes, h) && h <= more
    ensures AllNest(nodes, more)
    decreases h, 1
  {
    forall t | t in nodes ensures Nests(t, more) { NestsMore(t, h, more); }
  }

  lemma {:induction false} NestingExists(node: TypeNode) returns (h: nat)
    ensures h > 0 && Nests(node, h)
    decreases node, 2
  {
    match node
    case Literal(members, _) =>
      h := MembersNesting(node, members, |members|);
      assert members[..|members|] == members;
      h := h + 1;
    case Parenthesized(inner) => h := NestingExists(inner); h := h + 1;
    case Intersection(parts) => h := PartsNesting(node, parts, |parts|); assert parts[..|parts|] == parts; h := h + 1;
    case Union(parts) => h := PartsNesting(node, parts, |parts|); assert parts[..|parts|] == parts; h := h + 1;
    case ArrayOf(element) => h := NestingExists(element); h := h + 1;
    case Operator(_, inner) => h := NestingExists(inner); h := h + 1;
    case Indexed(target, _) => h := NestingExists(target); h := h + 1;
    case Reference(_, _, args) => h := PartsNesting(node, args, |args|); assert args[..|args|] == args; h := h + 1;
    case Other(_) => h := 1;
  }

  lemma {:induction false} PartsNesting(node: TypeNode, parts: seq<TypeNode>, n: nat) returns (h: nat)
    requires n <= |parts| && forall i :: 0 <= i < n ==> parts[i] < node
    ensures AllNest(parts[..n], h)
    decreases node, 1, n
  {
    h := 0;
    if n > 0 {
      var first := PartsNesting(node, parts, n - 1);
      var last := NestingExists(parts[n - 1]);
      h := first + last;
      AllNestMore(parts[..n - 1], first, h);
      NestsMore(parts[n - 1], last, h);
      assert parts[..n] == parts[..n - 1] + [parts[n - 1]];
    }
  }

  lemma {:induction false} MembersNesting(node: TypeNode, members: seq<Property>, n: nat) returns (h: nat)
    requires n <= |members| && forall i :: 0 <= i < n && members[i].typ.Some? ==> members[i].typ.value < node
    ensures MembersNest(members[..n], h)
    decreases node, 1, n
  {
    h := 0;
    if n > 0 {
      var first := MembersNesting(node, members, n - 1);
      var p, last := members[n - 1], 0;
      if p.typ.Some? { last := NestingExists(p.typ.value); }
      h := first + last;
      forall q | q in members[..n - 1] && q.typ.Some? ensures Nests(q.typ.value, h) {
        NestsMore(q.typ.value, first, h);
      }
      if p.typ.Some? { NestsMore(p.typ.value, last, h); }
      assert members[..n] == members[..n - 1] + [p];
    }
  }

  lemma DeclNesting(decl: Decl) returns (h: nat)
    ensures DeclNests(decl, h)
  {
    match decl
    case Interface(members, _, _) =>
      var whole := Literal(members, []);
      h := NestingExists(whole);
      h := h - 1;
    case Alias(typ) => h := NestingExists(typ);
    case Enum => h := 0;
  }

  lemma DeclNestsMore(decl: Decl, h: nat, more: nat)
    requires DeclNests(decl, h) && h <= more
    ensures DeclNests(decl, more)
  {
    match decl
    case Interface(members, _, _) =>
      forall p | p in members && p.typ.Some? ensures Nests(p.typ.value, more) { NestsMore(p.typ.value, h, more); }
    case Alias(typ) => NestsMore(typ, h, more);
    case Enum =>
  }

  /** Finitely many declarations nest to some depth. */
  lemma {:induction false} NestingOf(world: World, ids: set<DeclId>) returns (h: nat)
    requires ids <= world.decls.Keys
    ensures forall id :: id in ids ==> DeclNests(world.decls[id], h)
    decreases |ids|
  {
    hide DeclNests;
    h := 0;
    if ids != {} {
      var id :| id in ids;
      var rest := NestingOf(world, ids - {id});
      var own := DeclNesting(world.decls[id]);
      h := rest + own;
      forall other | other in ids ensures DeclNests(world.decls[other], h) {
        DeclNestsMore(world.decls[other], if other == id then own else rest, h);
      }
    }
  }

  lemma MemberNests(members: seq<Property>, name: string, h: nat)
    requires MembersNest(members, h) && PropertyNamed(members, name).Some?
    ensures var p := PropertyNamed(members, name).value; p.typ.Some? ==> Nests(p.typ.value, h)
  {
    PropertyNamedIs(members, name);
  }

  // ---------- Enough nested calls for bounded keys ----------

  /** The guard's keys that can still be added when paths stay no longer than `longest`. */
  ghost function Unseen(world: World, longest: nat, seen: Seen): set<(DeclId, nat)> {
    (set d, k: nat | d in world.decls && k <= longest :: (d, k)) - seen
  }

  function Budget(unseen: nat, height: nat): nat {
    if unseen == 0 then 0 else Budget(unseen - 1, height) + height + 2
  }

  lemma {:induction false} BudgetGrows(a: nat, b: nat, height: nat)
    requires a <= b
    ensures Budget(a, height) <= Budget(b, height)
    decreases b
  {
    if a < b { BudgetGrows(a, b - 1, height); }
  }

  /** Enough nested calls for the keys not yet seen. */
  ghost predicate Enough(world: World, longest: nat, seen: Seen, height: nat, fuel: int) {
    Budget(|Unseen(world, longest, seen)|, height) <= fuel
  }

  lemma EnoughPositive(world: World, longest: nat, seen: Seen, height: nat, fuel: int)
    requires Enough(world, longest, seen, height, fuel)
    ensures fuel >= 0
  {
  }

  lemma SeenMore(world: World, longest: nat, seen: Seen, after: Seen, height: nat, fuel: int)
    requires seen <= after && Enough(world, longest, seen, height, fuel)
    ensures Enough(world, longest, after, height, fuel)
  {
    var a, b := Unseen(world, longest, after), Unseen(world, longest, seen);
    assert b == a + (b - a);
    BudgetGrows(|a|, |b|, height);
  }

  lemma SeenOne(world: World, longest: nat, seen: Seen, id: DeclId, k: nat, height: nat, fuel: int)
    requires id in world.decls && k <= longest && (id, k) !in seen && Enough(world, longest, seen, height, fuel)
    ensures Enough(world, longest, seen + {(id, k)}, height, fuel - height - 2)
  {
    var a, b := Unseen(world, longest, seen + {(id, k)}), Unseen(world, longest, seen);
    assert (id, k) in b;
    assert a == b - {(id, k)};
  }

  /** No key marked has a path longer than `longest`. */
  ghost predicate MarksWithin(marks: Seen, longest: nat) {
    forall v :: v in marks ==> v.1 <= longest
  }

  /** The keys the rest of the walk marks are bounded, and enough nested calls are left for them. */
  ghost predicate Fueled(world: World, longest: nat, height: nat, seen: Seen, marks: Seen, fuel: int) {
    WorldNests(world, height) && MarksWithin(marks, longest) && Enough(world, longest, seen, height, fuel)
  }

  lemma FueledPositive(world: World, longest: nat, height: nat, seen: Seen, marks: Seen, fuel: int)
    requires Fueled(world, longest, height, seen, marks, fuel)
    ensures fuel >= 0
  {
    EnoughPositive(world, longest, seen, height, fuel);
  }

  lemma FueledLeft(world: World, longest: nat, height: nat, seen: Seen, marks: Seen, fuel: int, more: int)
    requires Fueled(world, longest, height, seen, marks, fuel) && fuel <= more
    ensures Fueled(world, longest, height, seen, marks, more)
  {
  }

  lemma FueledMore(world: World, longest: nat, height: nat, seen: Seen, marks: Seen, fuel: int, after: Seen, less: Seen)
    requires Fueled(world, longest, height, seen, marks, fuel) && seen <= after && less <= marks
    ensures Fueled(world, longest, height, after, less, fuel)
  {
    hide Enough, WorldNests;
    SeenMore(world, longest, seen, after, height, fuel);
  }

  /** Marking a new key uses up some of what is left. */
  lemma FueledVisit(world: World, longest: nat, height: nat, seen: Seen, marks: Seen, fuel: int, id: DeclId, n: nat)
    requires Fueled(world, longest, height, seen, marks, fuel) && id in world.decls && (id, n) !in seen
    requires (id, n) in marks
    ensures Fueled(world, longest, height, seen + {(id, n)}, marks, fuel - height - 2)
    ensures DeclNests(world.decls[id], height)
  {
    hide Enough;
    SeenOne(world, longest, seen, id, n, height, fuel);
  }

  /** A declaration the guard lets through marks its key. */
  lemma Marks(world: World, id: DeclId, steps: seq<Step>, seen: Seen, fuel: nat)
    requires id in world.decls && !world.decls[id].Enum? && fuel > 0 && steps != [] && (id, |steps|) !in seen
    ensures (id, |steps|) in MarkDecl(world, id, steps, seen, fuel)
  {
    hide Lookup, LookupProperty, LookupBases, MarkWalk, MarkProperty, MarkBases, PropertyNamed;
    var after := seen + {(id, |steps|)};
    match world.decls[id]
    case Interface(members, _, bases) =>
      if steps[0].Member? {
        var p := PropertyNamed(members, steps[0].name);
        if p.Some? { PropertyGrows(world, id.file, p.value, steps, after, fuel - 1, fuel - 1); }
        BasesGrow(world, id.file, bases, steps, after, fuel - 1, fuel - 1);
      }
    case Alias(typ) => WalkGrows(world, id.file, typ, steps, after, fuel - 1, fuel - 1);
  }

  lemma {:induction false} WalkAnswers(world: World, longest: nat, height: nat, file: string, node: TypeNode, h: nat,
                                       steps: seq<Step>, seen: Seen, fuel: nat)
    requires Fueled(world, longest, height, seen, MarkWalk(world, file, node, steps, seen, fuel), fuel - h - 1)
    requires Nests(node, h)
    ensures Lookup(world, file, node, steps, seen, fuel).Some?
    decreases fuel, 1
  {
    hide Fueled, AllNest, MembersNest, LookupReference, MarkReference, LookupAll, MarkAll, LookupProperty, MarkProperty;
    hide PropertyNamed;
    FueledPositive(world, longest, height, seen, MarkWalk(world, file, node, steps, seen, fuel), fuel - h - 1);
    if steps != [] {
      match node
      case Literal(members, others) =>
        if steps[0].Member? && PropertyNamed(members, steps[0].name).Some? {
          MemberNests(members, steps[0].name, h - 1);
          PropertyAnswers(world, longest, height, file, PropertyNamed(members, steps[0].name).value, h - 1, steps, seen,
                          fuel - 1);
        }
      case Parenthesized(inner) => WalkAnswers(world, longest, height, file, inner, h - 1, steps, seen, fuel - 1);
      case Intersection(parts) => AllAnswer(world, longest, height, file, parts, h - 1, steps, seen, fuel - 1);
      case Union(parts) => AllAnswer(world, longest, height, file, parts, h - 1, steps, seen, fuel - 1);
      case ArrayOf(element) =>
        if steps[0].Element? { WalkAnswers(world, longest, height, file, element, h - 1, steps[1..], seen, fuel - 1); }
      case Operator(_, inner) => WalkAnswers(world, longest, height, file, inner, h - 1, steps, seen, fuel - 1);
      case Indexed(target, key) =>
        if key.Some? {
          WalkAnswers(world, longest, height, file, target, h - 1, [Member(key.value)] + steps, seen, fuel - 1);
        }
      case Reference(head, qualified, args) =>
        ReferenceAnswers(world, longest, height, file, head, qualified, args, h, steps, seen, fuel);
      case Other(_) =>
    }
  }

  lemma {:induction false} ReferenceAnswers(world: World, longest: nat, height: nat, file: string, head: string,
      qualified: bool, args: seq<TypeNode>, h: nat, steps: seq<Step>, seen: Seen, fuel: nat)
    requires steps != [] && fuel > 0 && h > 0 && AllNest(args, h - 1)
    requires Fueled(world, longest, height, seen, MarkReference(world, file, head, qualified, args, steps, seen, fuel),
                    fuel - h - 1)
    ensures LookupReference(world, file, head, qualified, args, steps, seen, fuel).Some?
    decreases fuel, 0
  {
    assert args != [] ==> args[0] in args && Nests(args[0], h - 1);
    hide Fueled, AllNest, Nests, Lookup, MarkWalk, LookupDecl, MarkDecl, IsWrapper, IsArrayName;
    var marks := MarkReference(world, file, head, qualified, args, steps, seen, fuel);
    FueledPositive(world, longest, height, seen, marks, fuel - h - 1);
    if IsWrapper(head) && args != [] {
      WalkAnswers(world, longest, height, file, args[0], h - 1, steps, seen, fuel - 1);
    } else if IsArrayName(head) && args != [] {
      if steps[0].Element? { WalkAnswers(world, longest, height, file, args[0], h - 1, steps[1..], seen, fuel - 1); }
    } else if !qualified && (file, head) in world.names {
      FueledLeft(world, longest, height, seen, marks, fuel - h - 1, fuel - 2);
      DeclAnswers(world, longest, height, world.names[(file, head)], steps, seen, fuel - 1);
    }
  }

  lemma {:induction false} PropertyAnswers(world: World, longest: nat, height: nat, file: string, p: Property, h: nat,
                                           steps: seq<Step>, seen: Seen, fuel: nat)
    requires steps != [] && (p.typ.Some? ==> Nests(p.typ.value, h))
    requires Fueled(world, longest, height, seen, MarkProperty(world, file, p, steps, seen, fuel), fuel - h - 1)
    ensures LookupProperty(world, file, p, steps, seen, fuel).Some?
    decreases fuel, 2
  {
    hide Fueled, Nests, Lookup, MarkWalk;
    if |steps| > 1 && p.typ.Some? { WalkAnswers(world, longest, height, file, p.typ.value, h, steps[1..], seen, fuel); }
  }

  lemma {:induction false} DeclAnswers(world: World, longest: nat, height: nat, id: DeclId, steps: seq<Step>,
                                       seen: Seen, fuel: nat)
    requires id in world.decls && fuel > 0
    requires Fueled(world, longest, height, seen, MarkDecl(world, id, steps, seen, fuel), fuel - 1)
    ensures LookupDecl(world, id, steps, seen, fuel).Some?
    decreases fuel, 1
  {
    var key := (id, |steps|);
    hide Fueled, Nests, MembersNest, Lookup, MarkWalk, LookupProperty, MarkProperty, LookupBases, MarkBases;
    hide PropertyNamed, Combine;
    if steps != [] && key !in seen && !world.decls[id].Enum? {
      var marks := MarkDecl(world, id, steps, seen, fuel);
      Marks(world, id, steps, seen, fuel);
      FueledVisit(world, longest, height, seen, marks, fuel - 1, id, |steps|);
      FueledPositive(world, longest, height, seen + {key}, marks, fuel - 1 - height - 2);
      FueledLeft(world, longest, height, seen + {key}, marks, fuel - 1 - height - 2, fuel - 1 - height - 1);
      FueledLeft(world, longest, height, seen + {key}, marks, fuel - 1 - height - 2, fuel - 2);
      match world.decls[id]
      case Interface(members, _, bases) =>
        if steps[0].Member? {
          var p := PropertyNamed(members, steps[0].name);
          if p.Some? {
            MemberNests(members, steps[0].name, height);
            PropertyAnswers(world, longest, height, id.file, p.value, height, steps, seen + {key}, fuel - 1);
          } else {
            BasesAnswer(world, longest, height, id.file, bases, steps, seen + {key}, fuel - 1);
          }
        }
      case Alias(typ) => WalkAnswers(world, longest, height, id.file, typ, height, steps, seen + {key}, fuel - 1);
    }
  }

  lemma {:induction false} AllAnswer(world: World, longest: nat, height: nat, file: string, nodes: seq<TypeNode>,
                                     h: nat, steps: seq<Step>, seen: Seen, fuel: nat)
    requires Fueled(world, longest, height, seen, MarkAll(world, file, nodes, steps, seen, fuel), fuel - h - 1)
    requires AllNest(nodes, h)
    ensures LookupAll(world, file, nodes, steps, seen, fuel).Some?
    decreases fuel, |nodes| + 1
  {
    hide Fueled, Nests, Lookup, MarkWalk;
    if nodes != [] {
      assert nodes[0] in nodes;
      var marks := MarkAll(world, file, nodes, steps, seen, fuel);
      var mid := MarkWalk(world, file, nodes[0], steps, seen, fuel);
      WalkGrows(world, file, nodes[0], steps, seen, fuel, fuel);
      AllGrow(world, file, nodes[1..], steps, mid, fuel, fuel);
      FueledMore(world, longest, height, seen, marks, fuel - h - 1, seen, mid);
      WalkAnswers(world, longest, height, file, nodes[0], h, steps, seen, fuel);
      FueledMore(world, longest, height, seen, marks, fuel - h - 1, mid, marks);
      AllAnswer(world, longest, height, file, nodes[1..], h, steps, mid, fuel);
    }
  }

  lemma {:induction false} BaseAnswers(world: World, longest: nat, height: nat, file: string, base: Base,
                                       steps: seq<Step>, seen: Seen, fuel: nat)
    requires fuel > 0 && Fueled(world, longest, height, seen, MarkBase(world, file, base, steps, seen, fuel), fuel - 1)
    ensures LookupBase(world, file, base, steps, seen, fuel).Some?
    decreases fuel, 2
  {
    hide Fueled, LookupDecl, MarkDecl;
    if base.Named? && (file, base.name) in world.names {
      DeclAnswers(world, longest, height, world.names[(file, base.name)], steps, seen, fuel);
    }
  }

  lemma {:induction false} BasesAnswer(world: World, longest: nat, height: nat, file: string, bases: seq<Base>,
                                       steps: seq<Step>, seen: Seen, fuel: nat)
    requires fuel > 0
    requires Fueled(world, longest, height, seen, MarkBases(world, file, bases, steps, seen, fuel), fuel - 1)
    ensures LookupBases(world, file, bases, steps, seen, fuel).Some?
    decreases fuel, |bases| + 3
  {
    hide Fueled, LookupBase, MarkBase;
    if bases != [] {
      var marks := MarkBases(world, file, bases, steps, seen, fuel);
      var mid := MarkBase(world, file, bases[0], steps, seen, fuel);
      BaseGrows(world, file, bases[0], steps, seen, fuel, fuel);
      BasesGrow(world, file, bases[1..], steps, mid, fuel, fuel);
      FueledMore(world, longest, height, seen, marks, fuel - 1, seen, mid);
      BaseAnswers(world, longest, height, file, bases[0], steps, seen, fuel);
      FueledMore(world, longest, height, seen, marks, fuel - 1, mid, marks);
      BasesAnswer(world, longest, height, file, bases[1..], steps, mid, fuel);
    }
  }

  // ---------- Exactly when the walk ends ----------

  /** However many nested calls are allowed, no key marked has a path longer than `longest`. */
  ghost predicate MarksStayWithin(world: World, id: DeclId, steps: seq<Step>, longest: nat)
    requires id in world.decls
  {
    forall fuel: nat :: MarksWithin(MarkDecl(world, id, steps, {}, fuel), longest)
  }

  lemma EndsIfMarksWithin(world: World, id: DeclId, steps: seq<Step>, longest: nat)
    requires id in world.decls && MarksStayWithin(world, id, steps, longest)
    ensures Ends(world, id, steps)
  {
    hide LookupDecl, MarkDecl, DeclNests, Budget, Unseen, MarksWithin;
    var height := NestingOf(world, world.decls.Keys);
    var fuel := Budget(|Unseen(world, longest, {})|, height) + 1;
    DeclAnswers(world, longest, height, id, steps, {}, fuel);
  }

  lemma {:induction false} LongestVisit(after: Seen) returns (longest: nat)
    ensures MarksWithin(after, longest)
    decreases |after|
  {
    if after == {} {
      longest := 0;
    } else {
      var v :| v in after;
      longest := LongestVisit(after - {v});
      if longest < v.1 { longest := v.1; }
    }
  }

  /** Some bound holds for the keys marked. */
  ghost predicate MarksBounded(world: World, id: DeclId, steps: seq<Step>)
    requires id in world.decls
  {
    exists longest: nat :: MarksStayWithin(world, id, steps, longest)
  }

  /** The walk ends exactly when the lengths of the paths with which it marks declarations are bounded. */
  lemma EndsExactlyIfMarksBounded(world: World, id: DeclId, steps: seq<Step>)
    requires id in world.decls
    ensures Ends(world, id, steps) <==> MarksBounded(world, id, steps)
  {
    hide LookupDecl, MarkDecl;
    if Ends(world, id, steps) {
      var enough: nat :| LookupDecl(world, id, steps, {}, enough).Some?;
      var longest := LongestVisit(MarkDecl(world, id, steps, {}, enough));
      forall fuel: nat ensures MarksWithin(MarkDecl(world, id, steps, {}, fuel), longest) {
        if fuel <= enough {
          DeclGrows(world, id, steps, {}, fuel, enough);
        } else {
          DeclGrows(world, id, steps, {}, enough, fuel);
        }
      }
      assert MarksStayWithin(world, id, steps, longest);
    }
    if MarksBounded(world, id, steps) {
      var longest: nat :| MarksStayWithin(world, id, steps, longest);
      EndsIfMarksWithin(world, id, steps, longest);
    }
  }
}
