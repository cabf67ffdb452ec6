/** The three-valued walk of a path through declared types. */
module ConfigLookup {
  import opened Wrappers

  /** A path is a list of these: the property of a name, or any element of an array. */
  datatype Step = Member(name: string) | Element

  datatype Property = Property(name: string, typ: Option<TypeNode>)

  /** A type as written. `Other` stands for every node kind the walk does not look through. Beside its properties, a
      literal type has the names of its methods and accessors, and no name for an index signature. */
  datatype TypeNode =
    | Reference(head: string, qualified: bool, args: seq<TypeNode>)
    | Literal(members: seq<Property>, others: seq<Option<string>>)
    | Parenthesized(inner: TypeNode)
    | Intersection(parts: seq<TypeNode>)
    | Union(parts: seq<TypeNode>)
    | ArrayOf(element: TypeNode)
    | Operator(keyof: bool, inner: TypeNode)
    | Indexed(target: TypeNode, key: Option<string>)
    | Other(text: string)

  /** A heritage clause entry: a type name, or any other expression. */
  datatype Base = Named(name: string) | Expression(text: string)

  datatype Decl =
    | Interface(members: seq<Property>, others: seq<Option<string>>, bases: seq<Base>)
    | Alias(typ: TypeNode)
    | Enum

  /** A declaration's identity: its file and position. */
  datatype DeclId = DeclId(file: string, pos: nat)

  /** The declarations, and the declaration each type name resolves to from each file. */
  datatype WorldData = World(decls: map<DeclId, Decl>, names: map<(string, string), DeclId>)

  type World = w: WorldData | forall k :: k in w.names ==> w.names[k] in w.decls witness World(map[], map[])

  datatype PathLookup = Found | Missing | Unknown

  type Seen = set<(DeclId, nat)>

  const PASSTHROUGH_WRAPPERS: set<string> := {"Partial", "Required", "Readonly", "NonNullable"}

  predicate IsWrapper(name: string) {
    name in PASSTHROUGH_WRAPPERS
  }

  predicate IsArrayName(name: string) {
    name == "Array" || name == "ReadonlyArray"
  }

  /** The answer of alternatives one of which suffices: the best of them, unknown ranking above missing. */
  function Combine(results: seq<PathLookup>): PathLookup {
    if Found in results then Found else if Unknown in results then Unknown else Missing
  }

  /** The answer of alternatives all of which are needed: theirs if it is one definite answer, else unknown. */
  function Agree(results: seq<PathLookup>): PathLookup {
    if forall r :: r in results ==> r == Found then Found
    else if forall r :: r in results ==> r == Missing then Missing
    else Unknown
  }

  /** The first property of a given name. */
  function PropertyNamed(members: seq<Property>, name: string): Option<Property> {
    if members == [] then None
    else if members[0].name == name then Some(members[0])
    else PropertyNamed(members[1..], name)
  }

  ghost predicate FirstNamed(members: seq<Property>, name: string, i: nat) {
    i < |members| && members[i].name == name && forall j :: 0 <= j < i ==> members[j].name != name
  }

  lemma {:induction false} PropertyNamedIs(members: seq<Property>, name: string)
    ensures PropertyNamed(members, name).None? <==> forall i :: 0 <= i < |members| ==> members[i].name != name
    ensures forall i: nat :: FirstNamed(members, name, i) ==> PropertyNamed(members, name) == Some(members[i])
    ensures PropertyNamed(members, name).Some? ==> PropertyNamed(members, name).value in members
  {
    if members != [] && members[0].name != name {
      PropertyNamedIs(members[1..], name);
      forall i: nat | FirstNamed(members, name, i) ensures PropertyNamed(members, name) == Some(members[i]) {
        assert FirstNamed(members[1..], name, i - 1);
      }
      assert forall i :: 0 < i < |members| ==> members[i] == members[1..][i - 1];
    }
  }

  /** The walk's answer and the declarations it has marked; none when `fuel` nested calls do not suffice. */
  type Answer = Option<(PathLookup, Seen)>

  /** The walk of a type as written. */
  function Lookup(world: World, file: string, node: TypeNode, steps: seq<Step>, seen: Seen, fuel: nat): Answer
    decreases fuel, 1
  {
    if fuel == 0 then None
    else if steps == [] then Some((Found, seen))
    else match node
      case Literal(members, others) =>
        if steps[0].Element? then Some((Unknown, seen))
        else
          var p := PropertyNamed(members, steps[0].name);
          if p.None? then Some((Missing, seen)) else LookupProperty(world, file, p.value, steps, seen, fuel - 1)
      case Parenthesized(inner) => Lookup(world, file, inner, steps, seen, fuel - 1)
      case Intersection(parts) =>
        (match LookupAll(world, file, parts, steps, seen, fuel - 1)
         case None => None
         case Some((results, after)) => Some((Combine(results), after)))
      case Union(parts) =>
        (match LookupAll(world, file, parts, steps, seen, fuel - 1)
         case None => None
         case Some((results, after)) => Some((Agree(results), after)))
      case ArrayOf(element) =>
        if steps[0].Element? then Lookup(world, file, element, steps[1..], seen, fuel - 1) else Some((Unknown, seen))
      case Operator(_, inner) => Lookup(world, file, inner, steps, seen, fuel - 1)
      case Indexed(target, key) =>
        if key.Some? then Lookup(world, file, target, [Member(key.value)] + steps, seen, fuel - 1)
        else Some((Unknown, seen))
      case Reference(head, qualified, args) => LookupReference(world, file, head, qualified, args, steps, seen, fuel)
      case Other(_) => Some((Unknown, seen))
  }

  /** Look through a pass-through wrapper or an array type, or follow the name to its declaration. */
  function LookupReference(world: World, file: string, head: string, qualified: bool, args: seq<TypeNode>,
                           steps: seq<Step>, seen: Seen, fuel: nat): Answer
    requires fuel > 0 && steps != []
    decreases fuel, 0
  {
    if IsWrapper(head) && args != [] then Lookup(world, file, args[0], steps, seen, fuel - 1)
    else if IsArrayName(head) && args != [] then
      if steps[0].Element? then Lookup(world, file, args[0], steps[1..], seen, fuel - 1) else Some((Unknown, seen))
    else if qualified || (file, head) !in world.names then Some((Unknown, seen))
    else LookupDecl(world, world.names[(file, head)], steps, seen, fuel - 1)
  }

  /** Descend into a property that the first of `steps` names. */
  function LookupProperty(world: World, file: string, p: Property, steps: seq<Step>, seen: Seen, fuel: nat): Answer
    requires steps != []
    decreases fuel, 2
  {
    if |steps| == 1 then Some((Found, seen))
    else if p.typ.Some? then Lookup(world, file, p.typ.value, steps[1..], seen, fuel)
    else Some((Unknown, seen))
  }

  /** The walk of a named declaration; a repeated visit at the same remaining length bails out. */
  function LookupDecl(world: World, id: DeclId, steps: seq<Step>, seen: Seen, fuel: nat): Answer
    requires id in world.decls
    decreases fuel, 0
  {
    var key := (id, |steps|);
    if fuel == 0 then None
    else if steps == [] then Some((Found, seen))
    else if world.decls[id].Enum? then Some((Unknown, seen))
    else if key in seen then Some((Unknown, seen))
    else match world.decls[id]
      case Interface(members, others, bases) =>
        if steps[0].Element? then Some((Unknown, seen + {key}))
        else
          var p := PropertyNamed(members, steps[0].name);
          if p.Some? then LookupProperty(world, id.file, p.value, steps, seen + {key}, fuel - 1)
          else (match LookupBases(world, id.file, bases, steps, seen + {key}, fuel - 1)
            case None => None
            case Some((results, after)) => Some((if bases == [] then Missing else Combine(results), after)))
      case Alias(typ) => Lookup(world, id.file, typ, steps, seen + {key}, fuel - 1)
      case Enum => Some((Unknown, seen))
  }

  function LookupAll(world: World, file: string, nodes: seq<TypeNode>, steps: seq<Step>, seen: Seen, fuel: nat):
    (r: Option<(seq<PathLookup>, Seen)>)
    ensures r.Some? ==> |r.value.0| == |nodes|
    decreases fuel, |nodes| + 1
  {
    if nodes == [] then Some(([], seen))
    else match Lookup(world, file, nodes[0], steps, seen, fuel)
      case None => None
      case Some((first, mid)) =>
        match LookupAll(world, file, nodes[1..], steps, mid, fuel)
        case None => None
        case Some((rest, after)) => Some(([first] + rest, after))
  }

  /** The walk of one heritage clause entry. */
  function LookupBase(world: World, file: string, base: Base, steps: seq<Step>, seen: Seen, fuel: nat): Answer
    decreases fuel, 1
  {
    if base.Named? && (file, base.name) in world.names
    then LookupDecl(world, world.names[(file, base.name)], steps, seen, fuel)
    else Some((Unknown, seen))
  }

  function LookupBases(world: World, file: string, bases: seq<Base>, steps: seq<Step>, seen: Seen, fuel: nat):
    (r: Option<(seq<PathLookup>, Seen)>)
    ensures r.Some? ==> |r.value.0| == |bases|
    decreases fuel, |bases| + 2
  {
    if bases == [] then Some(([], seen))
    else match LookupBase(world, file, bases[0], steps, seen, fuel)
      case None => None
      case Some((first, mid)) =>
        match LookupBases(world, file, bases[1..], steps, mid, fuel)
        case None => None
        case Some((rest, after)) => Some(([first] + rest, after))
  }

  // ---------- The answer does not depend on the bound on nested calls ----------

  lemma {:induction false} LookupStable(world: World, file: string, node: TypeNode, steps: seq<Step>, seen: Seen,
                                        fuel: nat, more: nat)
    requires fuel <= more && Lookup(world, file, node, steps, seen, fuel).Some?
    ensures Lookup(world, file, node, steps, seen, more) == Lookup(world, file, node, steps, seen, fuel)
    decreases fuel, 1
  {
    hide LookupReference, LookupAll, LookupDecl;
    if steps != [] {
      match node
      case Literal(members, others) =>
        if steps[0].Member? {
          var p := PropertyNamed(members, steps[0].name);
          if p.Some? { PropertyStable(world, file, p.value, steps, seen, fuel - 1, more - 1); }
        }
      case Parenthesized(inner) => LookupStable(world, file, inner, steps, seen, fuel - 1, more - 1);
      case Intersection(parts) => AllStable(world, file, parts, steps, seen, fuel - 1, more - 1);
      case Union(parts) => AllStable(world, file, parts, steps, seen, fuel - 1, more - 1);
      case ArrayOf(element) =>
        if steps[0].Element? { LookupStable(world, file, element, steps[1..], seen, fuel - 1, more - 1); }
      case Operator(_, inner) => LookupStable(world, file, inner, steps, seen, fuel - 1, more - 1);
      case Indexed(target, key) =>
        if key.Some? { LookupStable(world, file, target, [Member(key.value)] + steps, seen, fuel - 1, more - 1); }
      case Reference(head, qualified, args) => ReferenceStable(world, file, head, qualified, args, steps, seen, fuel,
                                                               more);
      case Other(_) =>
    }
  }

  lemma {:induction false} ReferenceStable(world: World, file: string, head: string, qualified: bool,
                                           args: seq<TypeNode>, steps: seq<Step>, seen: Seen, fuel: nat, more: nat)
    requires 0 < fuel <= more && steps != []
    requires LookupReference(world, file, head, qualified, args, steps, seen, fuel).Some?
    ensures LookupReference(world, file, head, qualified, args, steps, seen, more)
         == LookupReference(world, file, head, qualified, args, steps, seen, fuel)
    decreases fuel, 0
  {
    hide IsWrapper, IsArrayName, Lookup, LookupDecl;
    if IsWrapper(head) && args != [] {
      LookupStable(world, file, args[0], steps, seen, fuel - 1, more - 1);
    } else if IsArrayName(head) && args != [] {
      if steps[0].Element? { LookupStable(world, file, args[0], steps[1..], seen, fuel - 1, more - 1); }
    } else if !qualified && (file, head) in world.names {
      DeclStable(world, world.names[(file, head)], steps, seen, fuel - 1, more - 1);
    }
  }

  lemma {:induction false} PropertyStable(world: World, file: string, p: Property, steps: seq<Step>, seen: Seen,
                                          fuel: nat, more: nat)
    requires fuel <= more && steps != [] && LookupProperty(world, file, p, steps, seen, fuel).Some?
    ensures LookupProperty(world, file, p, steps, seen, more) == LookupProperty(world, file, p, steps, seen, fuel)
    decreases fuel, 2
  {
    hide Lookup;
    if |steps| > 1 && p.typ.Some? { LookupStable(world, file, p.typ.value, steps[1..], seen, fuel, more); }
  }

  lemma {:induction false} DeclStable(world: World, id: DeclId, steps: seq<Step>, seen: Seen, fuel: nat, more: nat)
    requires fuel <= more && id in world.decls && LookupDecl(world, id, steps, seen, fuel).Some?
    ensures LookupDecl(world, id, steps, seen, more) == LookupDecl(world, id, steps, seen, fuel)
    decreases fuel, 0
  {
    hide Lookup, LookupProperty, LookupBases;
    var after := seen + {(id, |steps|)};
    if steps != [] && (id, |steps|) !in seen {
      match world.decls[id]
      case Interface(members, others, bases) =>
        if steps[0].Member? {
          var p := PropertyNamed(members, steps[0].name);
          if p.Some? {
            PropertyStable(world, id.file, p.value, steps, after, fuel - 1, more - 1);
          } else {
            BasesStable(world, id.file, bases, steps, after, fuel - 1, more - 1);
          }
        }
      case Alias(typ) => LookupStable(world, id.file, typ, steps, after, fuel - 1, more - 1);
      case Enum =>
    }
  }

  lemma {:induction false} AllStable(world: World, file: string, nodes: seq<TypeNode>, steps: seq<Step>, seen: Seen,
                                     fuel: nat, more: nat)
    requires fuel <= more && LookupAll(world, file, nodes, steps, seen, fuel).Some?
    ensures LookupAll(world, file, nodes, steps, seen, more) == LookupAll(world, file, nodes, steps, seen, fuel)
    decreases fuel, |nodes| + 1
  {
    hide Lookup;
    if nodes != [] {
      LookupStable(world, file, nodes[0], steps, seen, fuel, more);
      var mid := Lookup(world, file, nodes[0], steps, seen, fuel).value.1;
      AllStable(world, file, nodes[1..], steps, mid, fuel, more);
    }
  }

  lemma {:induction false} BasesStable(world: World, file: string, bases: seq<Base>, steps: seq<Step>, seen: Seen,
                                       fuel: nat, more: nat)
    requires fuel <= more && LookupBases(world, file, bases, steps, seen, fuel).Some?
    ensures LookupBases(world, file, bases, steps, seen, more) == LookupBases(world, file, bases, steps, seen, fuel)
    decreases fuel, |bases| + 1
  {
    hide LookupDecl;
    if bases != [] {
      if bases[0].Named? && (file, bases[0].name) in world.names {
        DeclStable(world, world.names[(file, bases[0].name)], steps, seen, fuel, more);
      }
      BasesStable(world, file, bases[1..], steps, LookupBase(world, file, bases[0], steps, seen, fuel).value.1, fuel,
                  more);
    }
  }
}
