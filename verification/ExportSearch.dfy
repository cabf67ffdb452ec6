/** The search for a type declaration through re-export clauses. */
module ExportSearch {
  import opened Ordering
  import opened Wrappers

  /** What a re-export clause re-exports: everything, listed elements with the names they have in the target, or the
      whole target under one name. */
  datatype Clause = Star | Listed(elements: seq<(string, string)>) | Namespace

  /** A clause, and the file it re-exports from when that is a package-local path with the explicit extension. */
  datatype Export = Export(target: Option<string>, clause: Clause)

  datatype File = File(decls: set<string>, exports: seq<Export>)

  /** The files that can be read, by absolute path. */
  type Files = map<string, File>

  /** A file, and the name looked for in it. */
  type Place = (string, string)

  /** What the first element exported as `name` is called in the target. */
  function NameInTarget(elements: seq<(string, string)>, name: string): Option<string> {
    if elements == [] then None
    else if elements[0].0 == name then Some(elements[0].1)
    else NameInTarget(elements[1..], name)
  }

  /** The name to look for in a clause's target, if the clause re-exports `name`. */
  function LookFor(clause: Clause, name: string): Option<string> {
    match clause
    case Star => Some(name)
    case Listed(elements) => NameInTarget(elements, name)
    case Namespace => None
  }

  predicate Declares(files: Files, place: Place) {
    place.0 in files && place.1 in files[place.0].decls
  }

  /** The place a clause leads to from a place. */
  function LeadsTo(e: Export, name: string): Option<Place> {
    if e.target.None? || LookFor(e.clause, name).None? then None
    else Some((e.target.value, LookFor(e.clause, name).value))
  }

  // ---------- Re-exports, said of the clauses themselves ----------

  /** What the clause re-exports as `name` is `original` in its target: the same name, or that of the first element
      exported as `name`. */
  ghost predicate ReExports(clause: Clause, name: string, original: string) {
    match clause
    case Star => original == name
    case Listed(elements) =>
      exists i :: 0 <= i < |elements| && elements[i] == (name, original)
                  && forall j :: 0 <= j < i ==> elements[j].0 != name
    case Namespace => false
  }

  ghost predicate Leads(e: Export, name: string, to: Place) {
    e.target == Some(to.0) && ReExports(e.clause, name, to.1)
  }

  lemma ReExportsRest(elements: seq<(string, string)>, name: string, original: string)
    requires elements != [] && elements[0].0 != name
    ensures ReExports(Listed(elements), name, original) <==> ReExports(Listed(elements[1..]), name, original)
  {
    if i :| 0 <= i < |elements| - 1 && elements[1..][i] == (name, original)
            && forall j :: 0 <= j < i ==> elements[1..][j].0 != name
    {
      assert elements[i + 1] == (name, original);
      assert forall j :: 0 < j < i + 1 ==> elements[j] == elements[1..][j - 1];
    }
    if i :| 0 <= i < |elements| && elements[i] == (name, original) && forall j :: 0 <= j < i ==> elements[j].0 != name {
      assert elements[1..][i - 1] == (name, original);
      assert forall j :: 0 <= j < i - 1 ==> elements[1..][j] == elements[j + 1];
    }
  }

  lemma {:induction false} NameInTargetIs(elements: seq<(string, string)>, name: string, original: string)
    ensures NameInTarget(elements, name) == Some(original) <==> ReExports(Listed(elements), name, original)
  {
    if elements != [] {
      if elements[0].0 == name {
        assert elements[0] == (name, elements[0].1);
      } else {
        ReExportsRest(elements, name, original);
        NameInTargetIs(elements[1..], name, original);
      }
    }
  }

  lemma LeadsToIs(e: Export, name: string, to: Place)
    ensures LeadsTo(e, name) == Some(to) <==> Leads(e, name, to)
  {
    if e.clause.Listed? { NameInTargetIs(e.clause.elements, name, to.1); }
  }

  // ---------- Paths through the clauses ----------

  ghost predicate Follows(files: Files, from: Place, to: Place) {
    && from.0 in files
    && exists i :: 0 <= i < |files[from.0].exports| && Leads(files[from.0].exports[i], from.1, to)
  }

  ghost predicate IsTrail(files: Files, from: Place, trail: seq<Place>, to: Place)
    decreases |trail|
  {
    if trail == [] then from == to else Follows(files, from, trail[0]) && IsTrail(files, trail[0], trail[1..], to)
  }

  /** `to` is reached from `from` through the export clauses. */
  ghost predicate Reaches(files: Files, from: Place, to: Place) {
    exists trail :: IsTrail(files, from, trail, to)
  }

  lemma {:induction false} TrailMore(files: Files, from: Place, trail: seq<Place>, to: Place, next: Place)
    requires IsTrail(files, from, trail, to) && Follows(files, to, next)
    ensures IsTrail(files, from, trail + [next], next)
    decreases |trail|
  {
    hide Follows;
    if trail == [] {
      assert [next][1..] == [];
    } else {
      TrailMore(files, trail[0], trail[1..], to, next);
      assert (trail + [next])[1..] == trail[1..] + [next];
    }
  }

  lemma ReachesMore(files: Files, from: Place, to: Place, next: Place)
    requires Reaches(files, from, to) && Follows(files, to, next)
    ensures Reaches(files, from, next)
  {
    hide IsTrail, Follows;
    var trail :| IsTrail(files, from, trail, to);
    TrailMore(files, from, trail, to, next);
  }

  lemma {:induction false} TrailInside(files: Files, places: set<Place>, from: Place, trail: seq<Place>, to: Place)
    requires from in places && IsTrail(files, from, trail, to)
    requires forall a, b :: a in places && Follows(files, a, b) ==> b in places
    ensures to in places
    decreases |trail|
  {
    hide Follows;
    if trail != [] { TrailInside(files, places, trail[0], trail[1..], to); }
  }

  // ---------- Finitely many places ----------

  function NamesIn(clause: Clause): set<string> {
    match clause
    case Listed(elements) => set e | e in elements :: e.1
    case _ => {}
  }

  /** Every name that can be looked for, starting from `name`. */
  ghost function Names(files: Files, name: string): set<string> {
    {name} + set f, e, n | f in files && e in files[f].exports && n in NamesIn(e.clause) :: n
  }

  ghost function Places(files: Files, name: string): set<Place> {
    set f, n | f in files && n in Names(files, name) :: (f, n)
  }

  lemma {:induction false} NameListed(elements: seq<(string, string)>, name: string)
    ensures NameInTarget(elements, name).Some? ==>
              exists e :: e in elements && e.1 == NameInTarget(elements, name).value
  {
    if elements != [] && elements[0].0 != name { NameListed(elements[1..], name); }
  }

  lemma LookForName(clause: Clause, name: string)
    ensures LookFor(clause, name).Some? ==>
              LookFor(clause, name).value == name || LookFor(clause, name).value in NamesIn(clause)
  {
    if clause.Listed? { NameListed(clause.elements, name); }
  }

  lemma PlaceFollows(files: Files, name: string, from: Place, to: Place)
    requires from in Places(files, name) && Follows(files, from, to) && to.0 in files
    ensures to in Places(files, name)
  {
    var i :| 0 <= i < |files[from.0].exports| && Leads(files[from.0].exports[i], from.1, to);
    var e := files[from.0].exports[i];
    LeadsToIs(e, from.1, to);
    LookForName(e.clause, from.1);
    assert e in files[from.0].exports;
  }

  // ---------- Which declaration comes first ----------

  /** Taking the clause numbered `turn` leads from one place to the next. */
  ghost predicate Takes(files: Files, from: Place, turn: nat, to: Place) {
    from.0 in files && turn < |files[from.0].exports| && Leads(files[from.0].exports[turn], from.1, to)
  }

  /** The places come to by taking these clauses one after the other. */
  ghost predicate IsRoute(files: Files, start: Place, places: seq<Place>, turns: seq<nat>) {
    && |places| == |turns| + 1 && places[0] == start
    && forall k :: 0 <= k < |turns| ==> Takes(files, places[k], turns[k], places[k + 1])
  }

  /** A route that comes to no place twice and ends at a declaration. */
  ghost predicate Arrives(files: Files, start: Place, places: seq<Place>, turns: seq<nat>) {
    IsRoute(files, start, places, turns) && NoRepeats(places) && Declares(files, places[|turns|])
  }

  ghost predicate PartsAt(a: seq<nat>, b: seq<nat>, k: nat) {
    k <= |a| && k < |b| && a[..k] == b[..k] && (k == |a| || a[k] < b[k])
  }

  /** Where they part, `a` takes the earlier clause, or ends. */
  ghost predicate Sooner(a: seq<nat>, b: seq<nat>) {
    exists k :: PartsAt(a, b, k)
  }

  ghost predicate NoneSooner(files: Files, start: Place, turns: seq<nat>) {
    forall places, q :: Arrives(files, start, places, q) ==> !Sooner(q, turns)
  }

  ghost predicate NoneThrough(files: Files, start: Place, turns: seq<nat>) {
    forall places, q :: Arrives(files, start, places, q) ==> !(turns <= q)
  }

  /** No route to a declaration is sooner than one to this. */
  ghost predicate FirstDeclared(files: Files, start: Place, hit: Place) {
    exists places, turns :: Arrives(files, start, places, turns) && places[|turns|] == hit
                            && NoneSooner(files, start, turns)
  }

  lemma TakesOnce(files: Files, from: Place, turn: nat, a: Place, b: Place)
    requires Takes(files, from, turn, a) && Takes(files, from, turn, b)
    ensures a == b
  {
    LeadsToIs(files[from.0].exports[turn], from.1, a);
    LeadsToIs(files[from.0].exports[turn], from.1, b);
  }

  /** The same clauses lead to the same places. */
  lemma {:induction false} SameRoute(files: Files, start: Place, places: seq<Place>, turns: seq<nat>, more: seq<Place>,
                                     q: seq<nat>, k: nat)
    requires IsRoute(files, start, places, turns) && IsRoute(files, start, more, q) && turns <= q && k <= |turns|
    ensures places[k] == more[k]
  {
    if k > 0 {
      SameRoute(files, start, places, turns, more, q, k - 1);
      TakesOnce(files, places[k - 1], turns[k - 1], places[k], more[k]);
    }
  }

  lemma PartsFurther(q: seq<nat>, turns: seq<nat>, i: nat, k: nat)
    requires PartsAt(q, turns + [i + 1], k)
    ensures Sooner(q, turns + [i]) || turns + [i] <= q
  {
    assert (turns + [i])[..|turns|] == turns && (turns + [i + 1])[..|turns|] == turns;
    if k < |turns| {
      assert (turns + [i])[..k] == (turns + [i + 1])[..k];
      assert PartsAt(q, turns + [i], k);
    } else if |q| == k || q[k] < i {
      assert PartsAt(q, turns + [i], k);
    } else {
      assert q[..k + 1] == turns + [i];
    }
  }

  /** Nothing sooner than a clause, and nothing through it: nothing sooner than the next clause. */
  lemma PastClause(files: Files, start: Place, turns: seq<nat>, i: nat)
    requires NoneSooner(files, start, turns + [i]) && NoneThrough(files, start, turns + [i])
    ensures NoneSooner(files, start, turns + [i + 1])
  {
    hide Arrives;
    forall places, q | Arrives(files, start, places, q) ensures !Sooner(q, turns + [i + 1]) {
      if Sooner(q, turns + [i + 1]) {
        var k :| PartsAt(q, turns + [i + 1], k);
        PartsFurther(q, turns, i, k);
      }
    }
  }

  lemma PartsInside(q: seq<nat>, turns: seq<nat>, k: nat)
    requires PartsAt(q, turns + [0], k)
    ensures Sooner(q, turns) || q == turns
  {
    assert (turns + [0])[..|turns|] == turns;
    if k < |turns| {
      assert (turns + [0])[..k] == turns[..k];
      assert PartsAt(q, turns, k);
    }
  }

  lemma IntoPlace(files: Files, start: Place, places: seq<Place>, turns: seq<nat>)
    requires IsRoute(files, start, places, turns) && !Declares(files, places[|turns|])
    requires NoneSooner(files, start, turns)
    ensures NoneSooner(files, start, turns + [0])
  {
    hide Declares;
    forall more, q | Arrives(files, start, more, q) ensures !Sooner(q, turns + [0]) {
      if Sooner(q, turns + [0]) {
        var k :| PartsAt(q, turns + [0], k);
        PartsInside(q, turns, k);
        if q == turns { SameRoute(files, start, places, turns, more, q, |turns|); }
      }
    }
  }

  /** A route on through a place takes one of its clauses. */
  lemma OnThrough(files: Files, start: Place, places: seq<Place>, turns: seq<nat>, more: seq<Place>, q: seq<nat>)
    requires IsRoute(files, start, places, turns) && !Declares(files, places[|turns|]) && places[|turns|].0 in files
    requires Arrives(files, start, more, q) && turns <= q
    ensures Sooner(q, turns + [|files[places[|turns|].0].exports|])
  {
    hide Declares, Leads;
    var k, n := |turns|, |files[places[|turns|].0].exports|;
    SameRoute(files, start, places, turns, more, q, k);
    assert Takes(files, more[k], q[k], more[k + 1]);
    assert (turns + [n])[..k] == turns == q[..k];
    assert PartsAt(q, turns + [n], k);
  }

  lemma OutOfPlace(files: Files, start: Place, places: seq<Place>, turns: seq<nat>)
    requires IsRoute(files, start, places, turns) && !Declares(files, places[|turns|]) && places[|turns|].0 in files
    requires NoneSooner(files, start, turns + [|files[places[|turns|].0].exports|])
    ensures NoneThrough(files, start, turns)
  {
    hide Declares, Arrives, Sooner, IsRoute;
    forall more, q | Arrives(files, start, more, q) ensures !(turns <= q) {
      if turns <= q { OnThrough(files, start, places, turns, more, q); }
    }
  }

  lemma NoClause(files: Files, start: Place, places: seq<Place>, turns: seq<nat>, i: nat)
    requires IsRoute(files, start, places, turns) && places[|turns|].0 in files
    requires i < |files[places[|turns|].0].exports|
    requires LeadsTo(files[places[|turns|].0].exports[i], places[|turns|].1).None?
    ensures NoneThrough(files, start, turns + [i])
  {
    hide Declares, Leads, LeadsTo;
    var place := places[|turns|];
    forall more, q | Arrives(files, start, more, q) ensures !(turns + [i] <= q) {
      if turns + [i] <= q {
        assert turns <= q && q[|turns|] == i;
        SameRoute(files, start, places, turns, more, q, |turns|);
        assert Takes(files, more[|turns|], q[|turns|], more[|turns| + 1]);
        LeadsToIs(files[place.0].exports[i], place.1, more[|turns| + 1]);
      }
    }
  }

  lemma RouteMore(files: Files, start: Place, places: seq<Place>, turns: seq<nat>, i: nat, next: Place)
    requires IsRoute(files, start, places, turns) && places[|turns|].0 in files
    requires i < |files[places[|turns|].0].exports|
    requires LeadsTo(files[places[|turns|].0].exports[i], places[|turns|].1) == Some(next)
    ensures IsRoute(files, start, places + [next], turns + [i])
  {
    hide Leads, LeadsTo;
    LeadsToIs(files[places[|turns|].0].exports[i], places[|turns|].1, next);
  }

  // ---------- The search ----------

  /** The places seen are reached, hold no declaration, and all that follows them has been seen too, but for the places
      of `active`. */
  ghost predicate Inv(files: Files, start: Place, seen: set<Place>, active: set<Place>) {
    && (forall p :: p in seen ==> p in Places(files, start.1) && Reaches(files, start, p) && !Declares(files, p))
    && (forall a, b :: a in seen && a !in active && Follows(files, a, b) ==> b in seen)
  }

  /** A clause of a reached place leads to a file that cannot be read. */
  ghost predicate Unreadable(files: Files, start: Place, path: string) {
    path !in files && exists a, b: Place :: Reaches(files, start, a) && Follows(files, a, b) && b.0 == path
  }

  lemma EnterInv(files: Files, start: Place, seen: set<Place>, active: set<Place>, place: Place)
    requires Inv(files, start, seen, active) && !Declares(files, place)
    requires place in Places(files, start.1) && Reaches(files, start, place)
    ensures Inv(files, start, seen + {place}, active + {place})
  {
    hide Reaches, Follows, Declares, Places;
  }

  lemma LeaveInv(files: Files, start: Place, seen: set<Place>, active: set<Place>, place: Place)
    requires Inv(files, start, seen, active + {place}) && place.0 in files
    requires forall i :: 0 <= i < |files[place.0].exports| ==>
               var next := LeadsTo(files[place.0].exports[i], place.1); next.Some? ==> next.value in seen
    ensures Inv(files, start, seen, active)
  {
    hide Reaches, Declares, Places, Leads, LeadsTo;
    forall b: Place | Follows(files, place, b) ensures b in seen {
      var i :| 0 <= i < |files[place.0].exports| && Leads(files[place.0].exports[i], place.1, b);
      LeadsToIs(files[place.0].exports[i], place.1, b);
    }
  }

  /** What the search answers: a declaration reached, or none, in which case none was passed by; or a file not
      readable. */
  ghost predicate Answers(files: Files, start: Place, r: Result<Option<Place>, string>) {
    match r
    case Ok(Some(hit)) => Declares(files, hit) && Reaches(files, start, hit)
    case Ok(None) => true
    case Err(path) => Unreadable(files, start, path)
  }

  lemma PlaceFile(files: Files, name: string, place: Place)
    requires place in Places(files, name)
    ensures place.0 in files
  {
  }

  lemma IsFollowed(files: Files, start: Place, place: Place, i: nat, next: Place)
    requires place.0 in files && i < |files[place.0].exports|
    requires LeadsTo(files[place.0].exports[i], place.1) == Some(next)
    requires Reaches(files, start, place)
    ensures Follows(files, place, next)
    ensures next.0 !in files ==> Unreadable(files, start, next.0)
  {
    hide Reaches, Leads, LeadsTo;
    LeadsToIs(files[place.0].exports[i], place.1, next);
  }

  lemma TakesFollows(files: Files, from: Place, turn: nat, to: Place)
    requires Takes(files, from, turn, to)
    ensures Follows(files, from, to)
  {
    hide Leads;
  }

  lemma {:induction false} StaysSeen(files: Files, start: Place, seen: set<Place>, before: seq<Place>,
                                     places: seq<Place>, turns: seq<nat>, n: nat, k: nat)
    requires IsRoute(files, start, places, turns) && NoRepeats(places) && n <= k <= |turns|
    requires before == places[..n] && places[n] in seen && Inv(files, start, seen, set p | p in before)
    ensures places[k] in seen
    decreases k
  {
    hide Declares, Takes, Reaches, Places, Follows;
    if k > n {
      StaysSeen(files, start, seen, before, places, turns, n, k - 1);
      TakesFollows(files, places[k - 1], turns[k - 1], places[k]);
      assert places[k - 1] !in before;
    }
  }

  /** The search is about to look at the end of the route. */
  ghost predicate Ready(files: Files, start: Place, seen: set<Place>, places: seq<Place>, turns: seq<nat>) {
    && IsRoute(files, start, places, turns) && NoneSooner(files, start, turns)
    && NoRepeats(places[..|turns|]) && (forall p :: p in places[..|turns|] ==> p in seen)
    && Inv(files, start, seen, set p | p in places[..|turns|])
    && places[|turns|] in Places(files, start.1) && Reaches(files, start, places[|turns|])
  }

  /** It has looked there, and found nothing through it. */
  ghost predicate Back(files: Files, start: Place, seen: set<Place>, places: seq<Place>, turns: seq<nat>) {
    && |places| == |turns| + 1 && places[|turns|] in seen && NoneThrough(files, start, turns)
    && Inv(files, start, seen, set p | p in places[..|turns|])
  }

  /** A place seen has been searched, so that nothing is found through it. */
  lemma SeenBefore(files: Files, start: Place, seen: set<Place>, places: seq<Place>, turns: seq<nat>)
    requires Ready(files, start, seen, places, turns) && places[|turns|] in seen
    ensures Back(files, start, seen, places, turns)
  {
    hide Declares, Takes, Reaches, Places, Follows, NoneSooner;
    forall more, q | Arrives(files, start, more, q) ensures !(turns <= q) {
      if turns <= q {
        forall k | 0 <= k <= |turns| ensures places[k] == more[k] {
          SameRoute(files, start, places, turns, more, q, k);
        }
        StaysSeen(files, start, seen, places[..|turns|], more, q, |turns|, |q|);
      }
    }
  }

  /** A declaration come to with nothing sooner. */
  lemma FirstHit(files: Files, start: Place, places: seq<Place>, turns: seq<nat>, seen: set<Place>)
    requires Ready(files, start, seen, places, turns) && Declares(files, places[|turns|]) && places[|turns|] !in seen
    ensures FirstDeclared(files, start, places[|turns|])
  {
    hide Declares, Takes, NoneSooner, Inv, Places, Reaches;
    assert places == places[..|turns|] + [places[|turns|]];
    assert Arrives(files, start, places, turns);
  }

  lemma PathMore(places: seq<Place>, turns: seq<nat>, seen: set<Place>)
    requires |places| == |turns| + 1 && NoRepeats(places[..|turns|])
    requires (forall p :: p in places[..|turns|] ==> p in seen) && places[|turns|] !in seen
    ensures NoRepeats(places) && forall p :: p in places ==> p in seen + {places[|turns|]}
    ensures (set p | p in places) == (set p | p in places[..|turns|]) + {places[|turns|]}
  {
    assert places == places[..|turns|] + [places[|turns|]];
  }

  /** It has followed the first `i` clauses at the end of the route. */
  ghost predicate Midway(files: Files, start: Place, seen: set<Place>, places: seq<Place>, turns: seq<nat>, i: nat) {
    && IsRoute(files, start, places, turns) && NoneSooner(files, start, turns + [i])
    && NoRepeats(places) && (forall p :: p in places ==> p in seen) && Inv(files, start, seen, set p | p in places)
    && places[|turns|] in Places(files, start.1) && Reaches(files, start, places[|turns|])
    && places[|turns|].0 in files && !Declares(files, places[|turns|])
    && var exports := files[places[|turns|].0].exports;
       i <= |exports| && forall k :: 0 <= k < i ==>
         var next := LeadsTo(exports[k], places[|turns|].1); next.Some? ==> next.value in seen
  }

  lemma IsReady(files: Files, start: Place, seen: set<Place>, places: seq<Place>, turns: seq<nat>)
    requires Ready(files, start, seen, places, turns)
    ensures |places| == |turns| + 1 && places[|turns|] in Places(files, start.1) && places[|turns|].0 in files
    ensures Reaches(files, start, places[|turns|])
  {
    PlaceFile(files, start.1, places[|turns|]);
  }

  lemma GoInto(files: Files, start: Place, seen: set<Place>, places: seq<Place>, turns: seq<nat>)
    requires Ready(files, start, seen, places, turns)
    requires places[|turns|] !in seen && !Declares(files, places[|turns|])
    ensures Midway(files, start, seen + {places[|turns|]}, places, turns, 0)
  {
    hide Inv, Places, Reaches, NoneSooner, NoRepeats, Declares;
    PlaceFile(files, start.1, places[|turns|]);
    EnterInv(files, start, seen, (set p | p in places[..|turns|]), places[|turns|]);
    PathMore(places, turns, seen);
    IntoPlace(files, start, places, turns);
  }

  lemma GoOn(files: Files, start: Place, seen: set<Place>, places: seq<Place>, turns: seq<nat>, i: nat, next: Place)
    requires Midway(files, start, seen, places, turns, i) && i < |files[places[|turns|].0].exports|
    requires LeadsTo(files[places[|turns|].0].exports[i], places[|turns|].1) == Some(next)
    ensures next.0 in files ==> Ready(files, start, seen, places + [next], turns + [i])
    ensures next.0 !in files ==> Unreadable(files, start, next.0)
  {
    hide Inv, Places, Reaches, NoneSooner, NoRepeats, Declares, LeadsTo, Unreadable, Follows;
    IsFollowed(files, start, places[|turns|], i, next);
    RouteMore(files, start, places, turns, i, next);
    hide IsRoute;
    if next.0 in files {
      PlaceFollows(files, start.1, places[|turns|], next);
      ReachesMore(files, start, places[|turns|], next);
      assert (places + [next])[..|turns| + 1] == places;
    }
  }

  lemma ComeBack(files: Files, start: Place, before: set<Place>, seen: set<Place>, places: seq<Place>, turns: seq<nat>,
                 i: nat, next: Place)
    requires Midway(files, start, before, places, turns, i) && i < |files[places[|turns|].0].exports|
    requires LeadsTo(files[places[|turns|].0].exports[i], places[|turns|].1) == Some(next)
    requires before <= seen && Back(files, start, seen, places + [next], turns + [i])
    ensures Midway(files, start, seen, places, turns, i + 1)
  {
    hide Inv, Places, Reaches, NoneSooner, NoneThrough, NoRepeats, Declares, LeadsTo;
    PastClause(files, start, turns, i);
    assert (places + [next])[..|turns| + 1] == places;
  }

  lemma PassOver(files: Files, start: Place, seen: set<Place>, places: seq<Place>, turns: seq<nat>, i: nat)
    requires Midway(files, start, seen, places, turns, i) && i < |files[places[|turns|].0].exports|
    requires LeadsTo(files[places[|turns|].0].exports[i], places[|turns|].1).None?
    ensures Midway(files, start, seen, places, turns, i + 1)
  {
    hide Inv, Places, Reaches, NoneSooner, NoneThrough, NoRepeats, Declares, LeadsTo;
    NoClause(files, start, places, turns, i);
    PastClause(files, start, turns, i);
  }

  lemma GoBack(files: Files, start: Place, seen: set<Place>, places: seq<Place>, turns: seq<nat>)
    requires |places| == |turns| + 1 && places[|turns|].0 in files
    requires Midway(files, start, seen, places, turns, |files[places[|turns|].0].exports|)
    ensures Back(files, start, seen, places, turns)
  {
    OutOfPlace(files, start, places, turns);
    hide Inv, Places, Reaches, NoneSooner, NoneThrough, Declares, LeadsTo, IsRoute;
    assert places == places[..|turns|] + [places[|turns|]];
    assert (set p | p in places) == (set p | p in places[..|turns|]) + {places[|turns|]};
    assert places[|turns|] in places;
    LeaveInv(files, start, seen, (set p | p in places[..|turns|]), places[|turns|]);
  }

  class Search {
    const files: Files
    var seen: set<Place>

    constructor (files: Files)
      ensures this.files == files && seen == {}
    {
      this.files := files;
      seen := {};
    }

    method FindExported(place: Place, ghost start: Place, ghost places: seq<Place>, ghost turns: seq<nat>)
      returns (r: Result<Option<Place>, string>)
      requires Ready(files, start, seen, places, turns) && places[|places| - 1] == place
      modifies this
      ensures Answers(files, start, r)
      ensures r.Ok? && r.value.Some? ==> FirstDeclared(files, start, r.value.value)
      ensures r == Ok(None) ==> Back(files, start, seen, places, turns) && old(seen) <= seen
      decreases Places(files, start.1) - seen
    {
      hide Ready, Back, Midway, Declares, Places, LeadsTo, FirstDeclared, Reaches, Unreadable;
      IsReady(files, start, seen, places, turns);
      if place in seen {
        SeenBefore(files, start, seen, places, turns);
        return Ok(None);
      }
      if Declares(files, place) {
        FirstHit(files, start, places, turns, seen);
        seen := seen + {place};
        return Ok(Some(place));
      }
      GoInto(files, start, seen, places, turns);
      seen := seen + {place};
      var exports := files[place.0].exports;
      for i := 0 to |exports|
        invariant Midway(files, start, seen, places, turns, i) && old(seen) + {place} <= seen
      {
        var next := LeadsTo(exports[i], place.1);
        if next.None? {
          PassOver(files, start, seen, places, turns, i);
          continue;
        }
        GoOn(files, start, seen, places, turns, i, next.value);
        if next.value.0 !in files {
          return Err(next.value.0);
        }
        ghost var before := seen;
        var hit := FindExported(next.value, start, places + [next.value], turns + [i]);
        if hit != Ok(None) {
          return hit;
        }
        ComeBack(files, start, before, seen, places, turns, i, next.value);
      }
      GoBack(files, start, seen, places, turns);
      r := Ok(None);
    }
  }

  lemma StartInv(files: Files, start: Place)
    requires start.0 in files
    ensures Ready(files, start, {}, [start], [])
  {
    assert IsTrail(files, start, [], start);
  }

  lemma NothingReached(files: Files, start: Place, seen: set<Place>)
    requires Back(files, start, seen, [start], [])
    ensures forall p: Place :: Reaches(files, start, p) ==> !Declares(files, p)
  {
    hide Follows, Declares, IsTrail, Places;
    assert (set p | p in [start][..0]) == {};
    forall p: Place | Reaches(files, start, p) ensures !Declares(files, p) {
      var trail :| IsTrail(files, start, trail, p);
      TrailInside(files, seen, start, trail, p);
    }
  }

  /** Find the declaration a name exported from a file stands for, however the re-exports circle. When every file met
      can be read, one is found exactly when one is reached through the export clauses; and it is the one come to by
      taking the earliest clauses. */
  method FindExportedTypeDecl(files: Files, file: string, name: string) returns (r: Result<Option<Place>, string>)
    requires file in files
    ensures r.Ok? && r.value.Some? ==>
              var (at, declared) := r.value.value;
              at in files && declared in files[at].decls && Reaches(files, (file, name), (at, declared))
    ensures r.Ok? ==> (r.value.Some? <==> exists p: Place :: Reaches(files, (file, name), p) && Declares(files, p))
    ensures r.Ok? && r.value.Some? ==> FirstDeclared(files, (file, name), r.value.value)
    ensures r.Err? ==> Unreadable(files, (file, name), r.error)
  {
    hide Ready, Back, FirstDeclared, Reaches, Unreadable;
    var search := new Search(files);
    var start: Place := (file, name);
    StartInv(files, start);
    r := search.FindExported(start, start, [start], []);
    if r == Ok(None) { NothingReached(files, start, search.seen); }
  }
}
