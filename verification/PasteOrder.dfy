/** The order in which a worklist discovers names: breadth first, as the declarations mention them. */
module PasteOrder {
  /** A declaration's place in the order, and a place among its references. */
  type Place = (nat, nat)

  predicate Earlier(a: Place, b: Place) {
    a.0 < b.0 || (a.0 == b.0 && a.1 < b.1)
  }

  /** The declaration mentions the name there. */
  predicate MetAt(lists: seq<seq<string>>, name: string, at: Place) {
    at.0 < |lists| && at.1 < |lists[at.0]| && lists[at.0][at.1] == name
  }

  /** No declaration of the order mentions the name earlier. */
  ghost predicate FirstMet(lists: seq<seq<string>>, name: string, at: Place) {
    MetAt(lists, name, at) && forall e: Place :: MetAt(lists, name, e) ==> !Earlier(e, at)
  }

  ghost predicate MetBefore(lists: seq<seq<string>>, name: string, j: nat) {
    exists at: Place :: FirstMet(lists, name, at) && at.0 < j
  }

  ghost predicate MetInTurn(lists: seq<seq<string>>, a: string, b: string) {
    forall at: Place, later: Place :: FirstMet(lists, a, at) && FirstMet(lists, b, later) ==> Earlier(at, later)
  }

  /** The names are in the order in which a breadth-first search meets them: the first name first; every other one is
      mentioned by a declaration before it, and those first mentioned earlier stand earlier. The declaration of the
      `k`-th name mentions `lists[k]`. */
  ghost predicate BreadthFirst(first: string, order: seq<string>, lists: seq<seq<string>>) {
    && |lists| == |order| > 0 && order[0] == first
    && (forall j :: 0 < j < |order| ==> MetBefore(lists, order[j], j))
    && (forall i, j :: 0 < i < j < |order| ==> MetInTurn(lists, order[i], order[j]))
  }

  /** All names put on the worklist, where each was met, how many have been taken off, and which of these taken was the
      first of each name of the order. */
  datatype Trace = Trace(all: seq<string>, met: seq<Place>, taken: nat, at: seq<nat>)

  ghost predicate MetWhere(all: seq<string>, met: seq<Place>, lists: seq<seq<string>>) {
    && |met| == |all|
    && (forall t :: 0 < t < |all| ==> MetAt(lists, all[t], met[t]))
    && (forall s, t :: 0 < s < t < |all| ==> Earlier(met[s], met[t]))
  }

  /** The mention was put on the worklist, or an earlier one of the same name in the same declaration. */
  ghost predicate QueuedFor(all: seq<string>, met: seq<Place>, mention: Place, name: string) {
    |met| == |all| && exists t :: 0 < t < |all| && met[t].0 == mention.0 && met[t].1 <= mention.1 && all[t] == name
  }

  ghost predicate MetAll(all: seq<string>, met: seq<Place>, lists: seq<seq<string>>, skipped: set<string>) {
    forall name, mention: Place :: MetAt(lists, name, mention) && name !in skipped ==>
                                     QueuedFor(all, met, mention, name)
  }

  ghost predicate FirstTaken(trace: Trace, order: seq<string>) {
    && |trace.at| == |order| && trace.taken <= |trace.all| == |trace.met|
    && (forall j :: 0 <= j < |order| ==> trace.at[j] < trace.taken && trace.all[trace.at[j]] == order[j])
    && (forall j, t :: 0 <= j < |order| && 0 <= t < trace.at[j] ==> trace.all[t] != order[j])
    && (forall i, j :: 0 <= i < j < |order| ==> trace.at[i] < trace.at[j])
    && (forall j :: 0 < j < |order| ==> trace.met[trace.at[j]].0 < j)
  }

  ghost predicate Traced(trace: Trace, first: string, order: seq<string>, lists: seq<seq<string>>, skipped: set<string>)
  {
    && |lists| == |order| && trace.all != [] && trace.all[0] == first
    && (forall t :: 0 < t < |trace.all| ==> trace.all[t] !in skipped)
    && MetWhere(trace.all, trace.met, lists) && MetAll(trace.all, trace.met, lists, skipped) && FirstTaken(trace, order)
    && (trace.taken > 0 ==> order != [] && order[0] == first)
  }

  ghost predicate PickedFor(names: seq<string>, references: seq<string>, places: seq<nat>, r: nat)
    requires r < |references|
  {
    |places| == |names| && exists i :: 0 <= i < |places| && places[i] <= r && names[i] == references[r]
  }

  /** Where a declaration's references that are put on the worklist stand among them. */
  ghost predicate Picks(names: seq<string>, references: seq<string>, places: seq<nat>, skipped: set<string>) {
    && |places| == |names| && (forall n :: n in names ==> n !in skipped)
    && (forall i :: 0 <= i < |places| ==> places[i] < |references| && references[places[i]] == names[i])
    && (forall i, j :: 0 <= i < j < |places| ==> places[i] < places[j])
    && (forall r :: 0 <= r < |references| && references[r] !in skipped ==> PickedFor(names, references, places, r))
  }

  lemma StartTraced(first: string, skipped: set<string>)
    ensures Traced(Trace([first], [(0, 0)], 0, []), first, [], [], skipped)
  {
  }

  /** A name taken that adds none to the order. */
  lemma TakeAgain(trace: Trace, first: string, order: seq<string>, lists: seq<seq<string>>, skipped: set<string>)
    requires Traced(trace, first, order, lists, skipped) && trace.taken < |trace.all|
    requires order != [] && order[0] == first
    ensures Traced(trace.(taken := trace.taken + 1), first, order, lists, skipped)
  {
    hide MetAll, MetWhere;
  }

  ghost function NewPlaces(k: nat, places: seq<nat>): seq<Place> {
    seq(|places|, i requires 0 <= i < |places| => (k, places[i]))
  }

  ghost function AfterNew(trace: Trace, k: nat, names: seq<string>, places: seq<nat>): Trace {
    Trace(trace.all + names, trace.met + NewPlaces(k, places), trace.taken + 1, trace.at + [trace.taken])
  }

  lemma NewMetWhere(all: seq<string>, met: seq<Place>, lists: seq<seq<string>>, references: seq<string>,
                    names: seq<string>, places: seq<nat>, skipped: set<string>)
    requires MetWhere(all, met, lists) && Picks(names, references, places, skipped) && all != []
    ensures MetWhere(all + names, met + NewPlaces(|lists|, places), lists + [references])
  {
    hide PickedFor;
    var moreAll, moreMet, n := all + names, met + NewPlaces(|lists|, places), |all|;
    forall t | 0 < t < |moreAll| ensures MetAt(lists + [references], moreAll[t], moreMet[t]) {
      if t < n {
        assert MetAt(lists, all[t], met[t]);
      } else {
        assert moreAll[t] == names[t - n];
      }
    }
    forall s, t | 0 < s < t < |moreAll| ensures Earlier(moreMet[s], moreMet[t]) {
      if s < n { assert MetAt(lists, all[s], met[s]); }
    }
  }

  lemma QueuedMore(all: seq<string>, met: seq<Place>, mention: Place, name: string, names: seq<string>,
                   places: seq<Place>)
    requires QueuedFor(all, met, mention, name) && |names| == |places|
    ensures QueuedFor(all + names, met + places, mention, name)
  {
    var t :| 0 < t < |all| && met[t].0 == mention.0 && met[t].1 <= mention.1 && all[t] == name;
    assert (met + places)[t] == met[t] && (all + names)[t] == all[t];
  }

  lemma QueuedNew(all: seq<string>, met: seq<Place>, k: nat, r: nat, references: seq<string>, names: seq<string>,
                  places: seq<nat>)
    requires |met| == |all| > 0 && r < |references| && PickedFor(names, references, places, r)
    ensures QueuedFor(all + names, met + NewPlaces(k, places), (k, r), references[r])
  {
    var i :| 0 <= i < |places| && places[i] <= r && names[i] == references[r];
    var t := |all| + i;
    assert (met + NewPlaces(k, places))[t] == (k, places[i]) && (all + names)[t] == names[i];
  }

  lemma NewSize(k: nat, places: seq<nat>)
    ensures |NewPlaces(k, places)| == |places|
  {
  }

  lemma NewMetAll(all: seq<string>, met: seq<Place>, lists: seq<seq<string>>, references: seq<string>,
                  names: seq<string>, places: seq<nat>, skipped: set<string>)
    requires |met| == |all| > 0 && MetAll(all, met, lists, skipped) && Picks(names, references, places, skipped)
    ensures MetAll(all + names, met + NewPlaces(|lists|, places), lists + [references], skipped)
  {
    hide QueuedFor, PickedFor, NewPlaces;
    forall name, mention: Place | MetAt(lists + [references], name, mention) && name !in skipped
      ensures QueuedFor(all + names, met + NewPlaces(|lists|, places), mention, name)
    {
      if mention.0 < |lists| {
        assert MetAt(lists, name, mention);
        assert |NewPlaces(|lists|, places)| == |names| by { hide *; NewSize(|lists|, places); }
        QueuedMore(all, met, mention, name, names, NewPlaces(|lists|, places));
      } else {
        QueuedNew(all, met, |lists|, mention.1, references, names, places);
      }
    }
  }

  lemma NewFirstTaken(trace: Trace, order: seq<string>, lists: seq<seq<string>>, names: seq<string>,
                      places: seq<nat>)
    requires FirstTaken(trace, order) && |lists| == |order| && trace.taken < |trace.all| && |places| == |names|
    requires order != [] ==> MetAt(lists, trace.all[trace.taken], trace.met[trace.taken])
    requires forall t :: 0 <= t < trace.taken ==> trace.all[t] != trace.all[trace.taken]
    ensures FirstTaken(AfterNew(trace, |lists|, names, places), order + [trace.all[trace.taken]])
  {
  }

  /** A name taken that is new to the order, with what its declaration mentions. */
  lemma TakeNew(trace: Trace, first: string, order: seq<string>, lists: seq<seq<string>>, references: seq<string>,
                names: seq<string>, places: seq<nat>, skipped: set<string>)
    requires Traced(trace, first, order, lists, skipped) && trace.taken < |trace.all|
    requires forall t :: 0 <= t < trace.taken ==> trace.all[t] != trace.all[trace.taken]
    requires Picks(names, references, places, skipped)
    ensures Traced(AfterNew(trace, |lists|, names, places), first, order + [trace.all[trace.taken]],
                   lists + [references],
                   skipped)
  {
    NewMetWhere(trace.all, trace.met, lists, references, names, places, skipped);
    NewMetAll(trace.all, trace.met, lists, references, names, places, skipped);
    if order != [] { assert trace.at[0] < trace.taken; }
    NewFirstTaken(trace, order, lists, names, places);
    hide MetAll, MetWhere, FirstTaken, PickedFor;
    var more := AfterNew(trace, |lists|, names, places);
    forall t | 0 < t < |more.all| ensures more.all[t] !in skipped {
      if t >= |trace.all| { assert more.all[t] in names; }
    }
  }

  lemma FirstUnique(lists: seq<seq<string>>, name: string, a: Place, b: Place)
    requires FirstMet(lists, name, a) && FirstMet(lists, name, b)
    ensures a == b
  {
  }

  lemma NotBefore(trace: Trace, lists: seq<seq<string>>, order: seq<string>, j: nat, e: Place)
    requires MetWhere(trace.all, trace.met, lists) && FirstTaken(trace, order) && j < |order| && 0 < trace.at[j]
    requires QueuedFor(trace.all, trace.met, e, order[j])
    ensures !Earlier(e, trace.met[trace.at[j]])
  {
    hide MetAt;
    var s :| 0 < s < |trace.all| && trace.met[s].0 == e.0 && trace.met[s].1 <= e.1 && trace.all[s] == order[j];
    assert s >= trace.at[j];
  }

  lemma NotEarlier(trace: Trace, lists: seq<seq<string>>, order: seq<string>, skipped: set<string>, j: nat, e: Place)
    requires MetWhere(trace.all, trace.met, lists) && MetAll(trace.all, trace.met, lists, skipped)
    requires FirstTaken(trace, order) && j < |order| && 0 < trace.at[j] && order[j] !in skipped
    requires MetAt(lists, order[j], e)
    ensures !Earlier(e, trace.met[trace.at[j]])
  {
    assert QueuedFor(trace.all, trace.met, e, order[j]);
    hide MetAll, MetAt;
    NotBefore(trace, lists, order, j, e);
  }

  /** The first mention of a name of the order is where the item first taken under it was met. */
  lemma MetFirst(trace: Trace, first: string, order: seq<string>, lists: seq<seq<string>>, skipped: set<string>, j: nat)
    requires Traced(trace, first, order, lists, skipped) && 0 < j < |order|
    ensures 0 < trace.at[j] < |trace.all| == |trace.met|
    ensures trace.met[trace.at[j]].0 < j && FirstMet(lists, order[j], trace.met[trace.at[j]])
  {
    hide MetAt;
    var t := trace.at[j];
    assert trace.at[0] < t;
    assert MetAt(lists, trace.all[t], trace.met[t]);
    forall e: Place | MetAt(lists, order[j], e) ensures !Earlier(e, trace.met[t]) {
      NotEarlier(trace, lists, order, skipped, j, e);
    }
  }

  lemma InTurn(trace: Trace, first: string, order: seq<string>, lists: seq<seq<string>>, skipped: set<string>,
               i: nat, j: nat, at: Place, later: Place)
    requires Traced(trace, first, order, lists, skipped)
    requires 0 < i < j < |order| && FirstMet(lists, order[i], at) && FirstMet(lists, order[j], later)
    ensures Earlier(at, later)
  {
    hide FirstMet, MetAll, MetAt;
    MetFirst(trace, first, order, lists, skipped, i);
    MetFirst(trace, first, order, lists, skipped, j);
    FirstUnique(lists, order[i], at, trace.met[trace.at[i]]);
    FirstUnique(lists, order[j], later, trace.met[trace.at[j]]);
  }

  lemma TracedBreadthFirst(trace: Trace, first: string, order: seq<string>, lists: seq<seq<string>>,
                           skipped: set<string>)
    requires Traced(trace, first, order, lists, skipped) && trace.taken > 0
    ensures BreadthFirst(first, order, lists)
  {
    hide FirstMet, MetAll, MetWhere, FirstTaken;
    forall j | 0 < j < |order| ensures MetBefore(lists, order[j], j) {
      MetFirst(trace, first, order, lists, skipped, j);
    }
    forall i, j | 0 < i < j < |order| ensures MetInTurn(lists, order[i], order[j]) {
      forall at: Place, later: Place | FirstMet(lists, order[i], at) && FirstMet(lists, order[j], later)
        ensures Earlier(at, later)
      {
        InTurn(trace, first, order, lists, skipped, i, j, at, later);
      }
    }
  }
}
