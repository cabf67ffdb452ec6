/** What the recursion guard of the key-path walk changes: the walk beside one that never stops at a declaration. */
module ConfigGuard {
  import opened ConfigLookup
  import opened Ordering
  import opened Wrappers

  type Visit = (DeclId, nat)

  /** Whether a path is there for sure, whatever is in the parts of the program not seen into, and whether it is
      possibly there, if everything is in them. */
  datatype Verdict = Verdict(sure: bool, possible: bool)

  /** An unguarded walk: its answer, the declarations it goes through, each with the length of the path left, and what
      can be said beyond the answer by one who heeds methods, accessors, index signatures and `keyof`. */
  datatype Plain = Plain(answer: PathLookup, visited: seq<Visit>, verdict: Verdict)

  /** The walks of several alternatives: their visits in turn, and the verdicts if one suffices and if all are
      needed. */
  datatype Plains = Plains(answers: seq<PathLookup>, visited: seq<Visit>, some: Verdict, every: Verdict)

  function Either(a: Verdict, b: Verdict): Verdict {
    Verdict(a.sure || b.sure, a.possible || b.possible)
  }

  function Both(a: Verdict, b: Verdict): Verdict {
    Verdict(a.sure && b.sure, a.possible && b.possible)
  }

  /** A member that is not a property could answer to `name`: one of that name, or an index signature. */
  predicate PassedOver(others: seq<Option<string>>, name: string) {
    None in others || Some(name) in others
  }

  /** The walk cannot see further. */
  function NoAnswer(): Plain {
    Plain(Unknown, [], Verdict(false, true))
  }

  function Arrived(): Plain {
    Plain(Found, [], Verdict(true, true))
  }

  /** A member that is not a property has the name it is asked for, and nothing known beyond. */
  function OtherVerdict(others: seq<Option<string>>, steps: seq<Step>): Verdict
    requires steps != [] && steps[0].Member?
  {
    var answers := PassedOver(others, steps[0].name);
    Verdict(answers && |steps| == 1, answers)
  }

  /** What `keyof` yields is not the operand, whose walk is all the same made. */
  function ReadAsOperand(keyof: bool, inner: Option<Plain>): Option<Plain> {
    if keyof && inner.Some? then Some(inner.value.(verdict := Verdict(false, true))) else inner
  }

  /** Alternatives one of which suffices. */
  function Combined(all: Option<Plains>): Option<Plain> {
    if all.None? then None else Some(Plain(Combine(all.value.answers), all.value.visited, all.value.some))
  }

  /** Alternatives all of which are needed. */
  function Agreed(all: Option<Plains>): Option<Plain> {
    if all.None? then None else Some(Plain(Agree(all.value.answers), all.value.visited, all.value.every))
  }

  /** What an interface without the property has from its bases. */
  function Inherited(own: Verdict, all: Option<Plains>): Option<Plain> {
    if all.None? then None
    else Some(Plain(if all.value.answers == [] then Missing else Combine(all.value.answers), all.value.visited,
                    Either(own, all.value.some)))
  }

  /** A walk that goes through one more declaration first. */
  function Through(visit: Visit, rest: Option<Plain>): Option<Plain> {
    if rest.None? then None else Some(rest.value.(visited := [visit] + rest.value.visited))
  }

  /** One alternative's walk and then the walks of the others. */
  function Next(first: Plain, rest: Option<Plains>): (r: Option<Plains>) {
    if rest.None? then None
    else Some(Plains([first.answer] + rest.value.answers, first.visited + rest.value.visited,
                     Either(first.verdict, rest.value.some), Both(first.verdict, rest.value.every)))
  }

  /** No alternatives. */
  function NoPlains(): Plains {
    Plains([], [], Verdict(false, false), Verdict(true, true))
  }

  /** The walk of a type as written, without the guard. */
  function PlainWalk(world: World, file: string, node: TypeNode, steps: seq<Step>, fuel: nat): Option<Plain>
    decreases fuel, 1
  {
    if fuel == 0 then None
    else if steps == [] then Some(Arrived())
    else match node
      case Literal(members, others) =>
        if steps[0].Element? then Some(NoAnswer())
        else
          var p := PropertyNamed(members, steps[0].name);
          if p.None? then Some(Plain(Missing, [], OtherVerdict(others, steps)))
          else PlainProperty(world, file, p.value, steps, fuel - 1)
      case Parenthesized(inner) => PlainWalk(world, file, inner, steps, fuel - 1)
      case Intersection(parts) => Combined(PlainAll(world, file, parts, steps, fuel - 1))
      case Union(parts) => Agreed(PlainAll(world, file, parts, steps, fuel - 1))
      case ArrayOf(element) =>
        if steps[0].Element? then PlainWalk(world, file, element, steps[1..], fuel - 1) else Some(NoAnswer())
      case Operator(keyof, inner) => ReadAsOperand(keyof, PlainWalk(world, file, inner, steps, fuel - 1))
      case Indexed(target, key) =>
        if key.Some? then PlainWalk(world, file, target, [Member(key.value)] + steps, fuel - 1) else Some(NoAnswer())
      case Reference(head, qualified, args) => PlainReference(world, file, head, qualified, args, steps, fuel)
      case Other(_) => Some(NoAnswer())
  }

  function PlainReference(world: World, file: string, head: string, qualified: bool, args: seq<TypeNode>,
                          steps: seq<Step>, fuel: nat): Option<Plain>
    requires fuel > 0 && steps != []
    decreases fuel, 0
  {
    if IsWrapper(head) && args != [] then PlainWalk(world, file, args[0], steps, fuel - 1)
    else if IsArrayName(head) && args != [] then
      if steps[0].Element? then PlainWalk(world, file, args[0], steps[1..], fuel - 1) else Some(NoAnswer())
    else if qualified || (file, head) !in world.names then Some(NoAnswer())
    else PlainDecl(world, world.names[(file, head)], steps, fuel - 1)
  }

  function PlainProperty(world: World, file: string, p: Property, steps: seq<Step>, fuel: nat): Option<Plain>
    requires steps != []
    decreases fuel, 2
  {
    if |steps| == 1 then Some(Arrived())
    else if p.typ.Some? then PlainWalk(world, file, p.typ.value, steps[1..], fuel)
    else Some(NoAnswer())
  }

  function PlainDecl(world: World, id: DeclId, steps: seq<Step>, fuel: nat): Option<Plain>
    requires id in world.decls
    decreases fuel, 1
  {
    if fuel == 0 then None
    else if steps == [] then Some(Arrived())
    else if world.decls[id].Enum? then Some(NoAnswer())
    else Through((id, |steps|), PlainBody(world, id, steps, fuel))
  }

  function PlainBody(world: World, id: DeclId, steps: seq<Step>, fuel: nat): Option<Plain>
    requires id in world.decls && !world.decls[id].Enum? && fuel > 0 && steps != []
    decreases fuel, 0
  {
    match world.decls[id]
    case Interface(members, others, bases) =>
      if steps[0].Element? then Some(NoAnswer())
      else
        var p := PropertyNamed(members, steps[0].name);
        if p.Some? then PlainProperty(world, id.file, p.value, steps, fuel - 1)
        else Inherited(OtherVerdict(others, steps), PlainBases(world, id.file, bases, steps, fuel - 1))
    case Alias(typ) => PlainWalk(world, id.file, typ, steps, fuel - 1)
  }

  function PlainAll(world: World, file: string, nodes: seq<TypeNode>, steps: seq<Step>, fuel: nat): (r: Option<Plains>)
    ensures r.Some? ==> |r.value.answers| == |nodes|
    decreases fuel, |nodes| + 1
  {
    if nodes == [] then Some(NoPlains())
    else match PlainWalk(world, file, nodes[0], steps, fuel)
      case None => None
      case Some(first) => Next(first, PlainAll(world, file, nodes[1..], steps, fuel))
  }

  /** The walk of one heritage clause entry. */
  function PlainBase(world: World, file: string, base: Base, steps: seq<Step>, fuel: nat): Option<Plain>
    decreases fuel, 2
  {
    if base.Named? && (file, base.name) in world.names then
      PlainDecl(world, world.names[(file, base.name)], steps, fuel)
    else Some(NoAnswer())
  }

  function PlainBases(world: World, file: string, bases: seq<Base>, steps: seq<Step>, fuel: nat): (r: Option<Plains>)
    ensures r.Some? ==> |r.value.answers| == |bases|
    decreases fuel, |bases| + 3
  {
    if bases == [] then Some(NoPlains())
    else match PlainBase(world, file, bases[0], steps, fuel)
      case None => None
      case Some(first) => Next(first, PlainBases(world, file, bases[1..], steps, fuel))
  }

  // ---------- When the guard stays out of the way ----------

  /** No visit repeats another or one seen before. */
  ghost predicate Fresh(visited: seq<Visit>, seen: Seen) {
    NoRepeats(visited) && forall v :: v in visited ==> v !in seen
  }

  ghost function Marked(seen: Seen, visited: seq<Visit>): Seen {
    seen + set v | v in visited
  }

  /** The guarded walk answers as the plain one while visits are fresh; once one is not, a missing path is unknown. */
  ghost predicate Follows(p: Plain, answer: (PathLookup, Seen), seen: Seen) {
    if Fresh(p.visited, seen) then answer == (p.answer, Marked(seen, p.visited))
    else p.answer == Missing ==> answer.0 == Unknown
  }

  /** What the two walks of one place have to do with each other. */
  ghost predicate Related(plain: Option<Plain>, guarded: Answer, seen: Seen) {
    && (plain.Some? ==> guarded.Some? && Follows(plain.value, guarded.value, seen))
    && (guarded.Some? && guarded.value.0 == Missing ==>
          plain.Some? && plain.value.answer == Missing && Fresh(plain.value.visited, seen))
  }

  ghost predicate AllMissing(answers: seq<PathLookup>) {
    forall a :: a in answers ==> a == Missing
  }

  ghost predicate AllFollow(p: Plains, answer: (seq<PathLookup>, Seen), seen: Seen) {
    if Fresh(p.visited, seen) then answer == (p.answers, Marked(seen, p.visited))
    else AllMissing(p.answers) ==> Found !in answer.0 && Unknown in answer.0
  }

  ghost predicate AllRelated(plain: Option<Plains>, guarded: Option<(seq<PathLookup>, Seen)>, seen: Seen) {
    && (plain.Some? ==>
          && guarded.Some? && |guarded.value.0| == |plain.value.answers|
          && AllFollow(plain.value, guarded.value, seen))
    && (guarded.Some? && AllMissing(guarded.value.0) ==>
          plain.Some? && AllMissing(plain.value.answers) && Fresh(plain.value.visited, seen))
  }

  lemma FreshCons(visit: Visit, visited: seq<Visit>, seen: Seen)
    ensures Fresh([visit] + visited, seen) <==> visit !in seen && Fresh(visited, seen + {visit})
    ensures Marked(seen, [visit] + visited) == Marked(seen + {visit}, visited)
  {
    var all := [visit] + visited;
    if Fresh(all, seen) {
      assert all[0] in all && forall v :: v in visited ==> v in all;
      assert forall i :: 0 <= i < |visited| ==> visited[i] == all[i + 1];
    }
    if visit !in seen && Fresh(visited, seen + {visit}) {
      forall i, j | 0 <= i < j < |all| ensures all[i] != all[j] {
        assert all[j] == visited[j - 1] && visited[j - 1] in visited;
      }
    }
  }

  lemma {:induction false} FreshConcat(a: seq<Visit>, b: seq<Visit>, seen: Seen)
    ensures Fresh(a + b, seen) <==> Fresh(a, seen) && Fresh(b, Marked(seen, a))
    ensures Marked(seen, a + b) == Marked(Marked(seen, a), b)
  {
    if a == [] {
      assert a + b == b && Marked(seen, a) == seen;
    } else {
      FreshConcat(a[1..], b, seen + {a[0]});
      FreshCons(a[0], a[1..], seen);
      FreshCons(a[0], a[1..] + b, seen);
      assert a == [a[0]] + a[1..] && a + b == [a[0]] + (a[1..] + b);
    }
  }

  /** The guard lets a declaration through: the rest of the walk starts with one more visit seen. */
  lemma ThroughRelated(visit: Visit, rest: Option<Plain>, guarded: Answer, seen: Seen)
    requires visit !in seen && Related(rest, guarded, seen + {visit})
    ensures Related(Through(visit, rest), guarded, seen)
  {
    hide Fresh, Marked;
    if rest.Some? { FreshCons(visit, rest.value.visited, seen); }
  }

  /** The guard stops at a declaration. */
  lemma StoppedRelated(visit: Visit, rest: Option<Plain>, seen: Seen)
    requires visit in seen
    ensures Related(Through(visit, rest), Some((Unknown, seen)), seen)
  {
    hide Fresh, Marked;
    if rest.Some? { FreshCons(visit, rest.value.visited, seen); }
  }

  function GuardedNext(first: (PathLookup, Seen), rest: Option<(seq<PathLookup>, Seen)>):
    Option<(seq<PathLookup>, Seen)>
  {
    if rest.None? then None else Some(([first.0] + rest.value.0, rest.value.1))
  }

  lemma NextFollows(plain: Plain, first: (PathLookup, Seen), others: Plains, rest: (seq<PathLookup>, Seen), seen: Seen)
    requires Follows(plain, first, seen) && AllFollow(others, rest, first.1) && |rest.0| == |others.answers|
    requires Fresh(plain.visited + others.visited, seen) <==>
             Fresh(plain.visited, seen) && Fresh(others.visited, Marked(seen, plain.visited))
    requires Marked(seen, plain.visited + others.visited) == Marked(Marked(seen, plain.visited), others.visited)
    ensures AllFollow(Next(plain, Some(others)).value, ([first.0] + rest.0, rest.1), seen)
  {
    hide Fresh, Marked;
    var all := [plain.answer] + others.answers;
    if !Fresh(plain.visited + others.visited, seen) && AllMissing(all) {
      assert plain.answer in all && forall a :: a in others.answers ==> a in all;
      assert rest.0 == others.answers || Unknown in rest.0;
    }
  }

  /** One alternative and then the others, which start from what it has marked. */
  lemma NextRelated(plain: Option<Plain>, first: (PathLookup, Seen), others: Option<Plains>,
                    rest: Option<(seq<PathLookup>, Seen)>, seen: Seen)
    requires Related(plain, Some(first), seen) && AllRelated(others, rest, first.1)
    ensures AllRelated(if plain.None? then None else Next(plain.value, others), GuardedNext(first, rest), seen)
  {
    hide Fresh, Marked;
    if plain.Some? && others.Some? {
      FreshConcat(plain.value.visited, others.value.visited, seen);
      NextFollows(plain.value, first, others.value, rest.value, seen);
    }
    if rest.Some? && AllMissing(GuardedNext(first, rest).value.0) {
      assert AllMissing(rest.value.0) by {
        assert forall a :: a in rest.value.0 ==> a in GuardedNext(first, rest).value.0;
      }
      assert first.0 in GuardedNext(first, rest).value.0;
    }
  }

  /** Where the walk ends without a visit the guard has no part. */
  lemma NoVisits(seen: Seen)
    ensures forall answer, verdict :: Related(Some(Plain(answer, [], verdict)), Some((answer, seen)), seen)
    ensures Related(None, None, seen)
  {
    assert Fresh([], seen) && Marked(seen, []) == seen;
  }

  lemma CombineRelated(plain: Option<Plains>, guarded: Option<(seq<PathLookup>, Seen)>, seen: Seen)
    requires AllRelated(plain, guarded, seen)
    ensures Related(Combined(plain), if guarded.None? then None else Some((Combine(guarded.value.0), guarded.value.1)),
                    seen)
  {
    hide Fresh, Marked;
  }

  lemma AgreeCases(answers: seq<PathLookup>)
    ensures Agree(answers) == Missing ==> AllMissing(answers) && answers != []
    ensures Found !in answers && Unknown in answers ==> Agree(answers) == Unknown
  {
  }

  lemma AgreeRelated(plain: Option<Plains>, guarded: Option<(seq<PathLookup>, Seen)>, seen: Seen)
    requires AllRelated(plain, guarded, seen)
    ensures Related(Agreed(plain), if guarded.None? then None else Some((Agree(guarded.value.0), guarded.value.1)),
                    seen)
  {
    hide Fresh, Marked;
    AgreeCases(if guarded.None? then [] else guarded.value.0);
    AgreeCases(if plain.None? then [] else plain.value.answers);
  }

  lemma InheritedRelated(own: Verdict, plain: Option<Plains>, guarded: Option<(seq<PathLookup>, Seen)>, seen: Seen)
    requires AllRelated(plain, guarded, seen)
    ensures Related(Inherited(own, plain),
                    if guarded.None? then None else Some((Combine(guarded.value.0), guarded.value.1)), seen)
  {
    hide Fresh, Marked;
  }

  /** Without bases there is nothing to combine. */
  lemma NoBases(world: World, file: string, bases: seq<Base>, steps: seq<Step>, seen: Seen, fuel: nat)
    ensures bases == [] ==> LookupBases(world, file, bases, steps, seen, fuel) == Some(([], seen))
    ensures Combine([]) == Missing
  {
  }

  lemma NoAlternatives(seen: Seen)
    ensures AllRelated(Some(NoPlains()), Some(([], seen)), seen)
  {
    assert Fresh([], seen) && Marked(seen, []) == seen;
  }

  lemma BothEndless(plain: Option<Plain>, seen: Seen)
    requires Related(plain, None, seen)
    ensures plain.None? && AllRelated(None, None, seen)
  {
  }

  lemma ReadRelated(keyof: bool, plain: Option<Plain>, guarded: Answer, seen: Seen)
    requires Related(plain, guarded, seen)
    ensures Related(ReadAsOperand(keyof, plain), guarded, seen)
  {
    hide Fresh, Marked;
  }

  lemma {:induction false} WalkRelated(world: World, file: string, node: TypeNode, steps: seq<Step>, seen: Seen,
                                       fuel: nat)
    ensures Related(PlainWalk(world, file, node, steps, fuel), Lookup(world, file, node, steps, seen, fuel), seen)
    decreases fuel, 1
  {
    NoVisits(seen);
    hide Related, PlainReference, LookupReference, PlainAll, LookupAll, Combine, Agree;
    if fuel > 0 && steps != [] {
      match node
      case Literal(members, others) =>
        if steps[0].Member? {
          var p := PropertyNamed(members, steps[0].name);
          if p.Some? { PropertyRelated(world, file, p.value, steps, seen, fuel - 1); }
        }
      case Parenthesized(inner) => WalkRelated(world, file, inner, steps, seen, fuel - 1);
      case Intersection(parts) =>
        AllWalksRelated(world, file, parts, steps, seen, fuel - 1);
        CombineRelated(PlainAll(world, file, parts, steps, fuel - 1),
                       LookupAll(world, file, parts, steps, seen, fuel - 1), seen);
      case Union(parts) =>
        AllWalksRelated(world, file, parts, steps, seen, fuel - 1);
        AgreeRelated(PlainAll(world, file, parts, steps, fuel - 1),
                     LookupAll(world, file, parts, steps, seen, fuel - 1), seen);
      case ArrayOf(element) =>
        if steps[0].Element? { WalkRelated(world, file, element, steps[1..], seen, fuel - 1); }
      case Operator(keyof, inner) =>
        WalkRelated(world, file, inner, steps, seen, fuel - 1);
        ReadRelated(keyof, PlainWalk(world, file, inner, steps, fuel - 1),
                    Lookup(world, file, inner, steps, seen, fuel - 1), seen);
      case Indexed(target, key) =>
        if key.Some? { WalkRelated(world, file, target, [Member(key.value)] + steps, seen, fuel - 1); }
      case Reference(head, qualified, args) => ReferenceRelated(world, file, head, qualified, args, steps, seen, fuel);
      case Other(_) =>
    }
  }

  lemma {:induction false} ReferenceRelated(world: World, file: string, head: string, qualified: bool,
                                            args: seq<TypeNode>, steps: seq<Step>, seen: Seen, fuel: nat)
    requires fuel > 0 && steps != []
    ensures Related(PlainReference(world, file, head, qualified, args, steps, fuel),
                    LookupReference(world, file, head, qualified, args, steps, seen, fuel), seen)
    decreases fuel, 0
  {
    NoVisits(seen);
    hide Related, IsWrapper, IsArrayName, Lookup, LookupDecl, PlainWalk, PlainDecl;
    if IsWrapper(head) && args != [] {
      WalkRelated(world, file, args[0], steps, seen, fuel - 1);
    } else if IsArrayName(head) && args != [] {
      if steps[0].Element? { WalkRelated(world, file, args[0], steps[1..], seen, fuel - 1); }
    } else if !qualified && (file, head) in world.names {
      DeclRelated(world, world.names[(file, head)], steps, seen, fuel - 1);
    }
  }

  lemma {:induction false} PropertyRelated(world: World, file: string, p: Property, steps: seq<Step>, seen: Seen,
                                           fuel: nat)
    requires steps != []
    ensures Related(PlainProperty(world, file, p, steps, fuel), LookupProperty(world, file, p, steps, seen, fuel), seen)
    decreases fuel, 2
  {
    NoVisits(seen);
    hide Related, Lookup, PlainWalk;
    if |steps| > 1 && p.typ.Some? { WalkRelated(world, file, p.typ.value, steps[1..], seen, fuel); }
  }

  lemma {:induction false} DeclRelated(world: World, id: DeclId, steps: seq<Step>, seen: Seen, fuel: nat)
    requires id in world.decls
    ensures Related(PlainDecl(world, id, steps, fuel), LookupDecl(world, id, steps, seen, fuel), seen)
    decreases fuel, 1
  {
    NoVisits(seen);
    hide Related, PlainBody;
    if fuel > 0 && steps != [] && !world.decls[id].Enum? {
      var visit := (id, |steps|);
      if visit in seen {
        StoppedRelated(visit, PlainBody(world, id, steps, fuel), seen);
      } else {
        BodyRelated(world, id, steps, seen, fuel);
        hide LookupDecl;
        ThroughRelated(visit, PlainBody(world, id, steps, fuel), LookupDecl(world, id, steps, seen, fuel), seen);
      }
    }
  }

  lemma {:induction false} BodyRelated(world: World, id: DeclId, steps: seq<Step>, seen: Seen, fuel: nat)
    requires id in world.decls && !world.decls[id].Enum? && fuel > 0 && steps != [] && (id, |steps|) !in seen
    ensures Related(PlainBody(world, id, steps, fuel), LookupDecl(world, id, steps, seen, fuel), seen + {(id, |steps|)})
    decreases fuel, 0
  {
    var after := seen + {(id, |steps|)};
    NoVisits(after);
    hide Related, Lookup, PlainWalk, LookupProperty, PlainProperty, LookupBases, PlainBases, Combine, Inherited;
    match world.decls[id]
    case Interface(members, others, bases) =>
      if steps[0].Member? {
        var p := PropertyNamed(members, steps[0].name);
        if p.Some? {
          PropertyRelated(world, id.file, p.value, steps, after, fuel - 1);
        } else {
          BasesRelated(world, id.file, bases, steps, after, fuel - 1);
          NoBases(world, id.file, bases, steps, after, fuel - 1);
          InheritedRelated(OtherVerdict(others, steps), PlainBases(world, id.file, bases, steps, fuel - 1),
                           LookupBases(world, id.file, bases, steps, after, fuel - 1), after);
        }
      }
    case Alias(typ) => WalkRelated(world, id.file, typ, steps, after, fuel - 1);
  }

  lemma {:induction false} AllWalksRelated(world: World, file: string, nodes: seq<TypeNode>, steps: seq<Step>,
                                           seen: Seen, fuel: nat)
    ensures AllRelated(PlainAll(world, file, nodes, steps, fuel), LookupAll(world, file, nodes, steps, seen, fuel),
                       seen)
    decreases fuel, |nodes| + 1
  {
    NoAlternatives(seen);
    hide AllRelated, Related, Lookup, PlainWalk;
    if nodes != [] {
      WalkRelated(world, file, nodes[0], steps, seen, fuel);
      var plain := PlainWalk(world, file, nodes[0], steps, fuel);
      var guarded := Lookup(world, file, nodes[0], steps, seen, fuel);
      if guarded.Some? {
        AllWalksRelated(world, file, nodes[1..], steps, guarded.value.1, fuel);
        NextRelated(plain, guarded.value, PlainAll(world, file, nodes[1..], steps, fuel),
                    LookupAll(world, file, nodes[1..], steps, guarded.value.1, fuel), seen);
      } else {
        BothEndless(plain, seen);
      }
    }
  }

  lemma {:induction false} BasesRelated(world: World, file: string, bases: seq<Base>, steps: seq<Step>, seen: Seen,
                                        fuel: nat)
    ensures AllRelated(PlainBases(world, file, bases, steps, fuel), LookupBases(world, file, bases, steps, seen, fuel),
                       seen)
    decreases fuel, |bases| + 3
  {
    NoAlternatives(seen);
    NoVisits(seen);
    hide AllRelated, Related, LookupDecl, PlainDecl, Combine;
    if bases != [] {
      if bases[0].Named? && (file, bases[0].name) in world.names {
        DeclRelated(world, world.names[(file, bases[0].name)], steps, seen, fuel);
      }
      var plain := PlainBase(world, file, bases[0], steps, fuel);
      var guarded := LookupBase(world, file, bases[0], steps, seen, fuel);
      assert Related(plain, guarded, seen);
      if guarded.Some? {
        BasesRelated(world, file, bases[1..], steps, guarded.value.1, fuel);
        NextRelated(plain, guarded.value, PlainBases(world, file, bases[1..], steps, fuel),
                    LookupBases(world, file, bases[1..], steps, guarded.value.1, fuel), seen);
      } else {
        BothEndless(plain, seen);
      }
    }
  }

  /** The guard keeps "missing" exactly when the plain walk answers it without going through a declaration twice with
      as much of the path left; otherwise it turns that answer into "unknown". */
  lemma GuardKeepsMissing(world: World, id: DeclId, steps: seq<Step>, fuel: nat)
    requires id in world.decls
    ensures var plain, guarded := PlainDecl(world, id, steps, fuel), LookupDecl(world, id, steps, {}, fuel);
            && ((guarded.Some? && guarded.value.0 == Missing) <==>
                (plain.Some? && plain.value.answer == Missing && NoRepeats(plain.value.visited)))
            && (plain.Some? && plain.value.answer == Missing && !NoRepeats(plain.value.visited) ==>
                guarded.Some? && guarded.value.0 == Unknown)
            && (plain.Some? && NoRepeats(plain.value.visited) ==>
              guarded.Some? && guarded.value.0 == plain.value.answer)
  {
    hide LookupDecl, PlainDecl;
    DeclRelated(world, id, steps, {}, fuel);
  }
}
