/** The scheduler of an aggregate of gates. */
module GateRunner {
  import opened GateGraph
  import opened Graphs
  import opened Numbers
  import opened Ordering
  import opened Wrappers

  datatype Status = Passed | Failed | Skipped

  datatype GateState = Pending | Running | Done(status: Status)

  /** What aborted the aggregate. */
  datatype AbortCause = FailureOf(id: string) | HostInterruption

  /** Why a result is what it is: its process settled, some of its needs did not pass, or the aggregate was aborted. */
  datatype Reason = Ran | Blocked(failed: seq<string>) | Cut(cause: AbortCause)

  datatype GateResult = GateResult(gate: Gate, status: Status, reason: Reason)

  /** What can be seen of a run, in order. */
  datatype Event =
    | Started(id: string)
    | Observed(id: string, status: Status, reason: Reason)
    | Aborted(cause: AbortCause)

  /** What a gate's process comes to, and whether the abort ended it. */
  datatype Outcome = Outcome(status: Status, aborted: bool)

  datatype RunError =
    | Invalid(error: GraphError)
    | BadConcurrency
    | SignalsWithoutFailFast
    | Stalled
    | MissingResult(id: string)

  datatype Options = Options(failFast: bool, forwardProcessSignals: bool)

  /** What happens outside: at the `n`-th wait, which running gate settles first, how, and whether the host
      interrupts. */
  datatype Outside = Outside(first: nat -> nat, outcome: (nat, string) -> Outcome, interrupted: nat -> bool)

  datatype Setup = Setup(maxActive: int, options: Options, outside: Outside)

  // ---------- What a log says ----------

  function StateIn(log: seq<Event>, id: string): GateState {
    if log == [] then Pending
    else match log[|log| - 1]
      case Started(x) => if x == id then Running else StateIn(log[..|log| - 1], id)
      case Observed(x, status, _) => if x == id then Done(status) else StateIn(log[..|log| - 1], id)
      case Aborted(_) => StateIn(log[..|log| - 1], id)
  }

  function AbortIn(log: seq<Event>): Option<AbortCause> {
    if log == [] then None
    else if log[|log| - 1].Aborted? then Some(log[|log| - 1].cause)
    else AbortIn(log[..|log| - 1])
  }

  ghost function RunningIn(gates: seq<Gate>, log: seq<Event>): set<string> {
    set g | g in gates && StateIn(log, g.id) == Running :: g.id
  }

  predicate HasFailed(state: GateState) {
    state == Done(Failed) || state == Done(Skipped)
  }

  /** The needs that failed or were skipped. */
  function FailedNeeds(needs: seq<string>, log: seq<Event>): seq<string> {
    Filter(needs, (n: string) => HasFailed(StateIn(log, n)))
  }

  predicate IsReady(g: Gate, log: seq<Event>) {
    && (forall n :: n in g.needs ==> StateIn(log, n) == Done(Passed))
    && (forall n :: n in g.after ==> StateIn(log, n).Done?)
  }

  predicate IsPending(g: Gate, log: seq<Event>) {
    StateIn(log, g.id) == Pending
  }

  predicate IsStartable(g: Gate, log: seq<Event>) {
    IsPending(g, log) && IsReady(g, log)
  }

  predicate SomeNeedFailed(g: Gate, log: seq<Event>) {
    exists n :: n in g.needs && HasFailed(StateIn(log, n))
  }

  predicate IsBlocked(g: Gate, log: seq<Event>) {
    IsPending(g, log) && SomeNeedFailed(g, log)
  }

  function Find(gates: seq<Gate>, keep: Gate -> bool): (r: Option<Gate>)
    ensures r.Some? ==> r.value in gates && keep(r.value)
    ensures r.None? <==> forall g :: g in gates ==> !keep(g)
  {
    if gates == [] then None else if keep(gates[0]) then Some(gates[0]) else Find(gates[1..], keep)
  }

  function NextPending(gates: seq<Gate>, log: seq<Event>): Option<Gate> {
    Find(gates, (g: Gate) => IsPending(g, log))
  }

  function NextStartable(gates: seq<Gate>, log: seq<Event>): Option<Gate> {
    Find(gates, (g: Gate) => IsStartable(g, log))
  }

  function NextBlocked(gates: seq<Gate>, log: seq<Event>): Option<Gate> {
    Find(gates, (g: Gate) => IsBlocked(g, log))
  }

  predicate Settles(log: seq<Event>, event: Event) {
    event.Observed? && StateIn(log, event.id) == Running
  }

  /** The gates whose running came to an end, in order: one for each wait. */
  function Settlings(log: seq<Event>): seq<string> {
    if log == [] then []
    else
      var before, last := log[..|log| - 1], log[|log| - 1];
      Settlings(before) + if Settles(before, last) then [last.id] else []
  }

  predicate Names(gate: Option<Gate>, id: string) {
    gate.Some? && gate.value.id == id
  }

  /** What may happen after a log. */
  ghost predicate May(gates: seq<Gate>, setup: Setup, log: seq<Event>, event: Event) {
    match event
    case Started(id) =>
      && AbortIn(log).None? && HasId(gates, id) && StateIn(log, id) == Pending
      && (forall g :: g in gates && g.id == id ==> IsReady(g, log)) && |RunningIn(gates, log)| < setup.maxActive
    case Observed(id, status, reason) =>
      && HasId(gates, id)
      && (match reason
          case Ran => StateIn(log, id) == Running
          case Blocked(failed) =>
            && StateIn(log, id) == Pending && status == Skipped && AbortIn(log).None? && failed != []
            && forall g :: g in gates && g.id == id ==> failed == FailedNeeds(g.needs, log)
          case Cut(cause) => !StateIn(log, id).Done? && status == Skipped && AbortIn(log) == Some(cause))
    case Aborted(cause) =>
      && AbortIn(log).None? && setup.options.failFast
      && (match cause
          case FailureOf(id) =>
            && log != [] && log[|log| - 1] == Observed(id, Failed, Ran) && HasId(gates, id)
            && forall g :: g in gates && g.id == id ==> !g.allowFailure
          case HostInterruption => setup.options.forwardProcessSignals)
  }

  /** A gate has just failed that aborts the aggregate. */
  ghost predicate Due(gates: seq<Gate>, setup: Setup, log: seq<Event>) {
    && AbortIn(log).None? && setup.options.failFast && log != []
    && exists g :: g in gates && log[|log| - 1] == Observed(g.id, Failed, Ran) && !g.allowFailure
  }

  /** Something is running, and there is nothing to do but wait for it. */
  ghost predicate Awaits(gates: seq<Gate>, setup: Setup, log: seq<Event>) {
    && RunningIn(gates, log) != {}
    && match AbortIn(log)
       case None => NextStartable(gates, log).None? || |RunningIn(gates, log)| >= setup.maxActive
       case Some(FailureOf(_)) => NextPending(gates, log).None?
       case Some(HostInterruption) => true
  }

  /** What a running gate that settles at a wait is observed to be. */
  ghost predicate Settled(gates: seq<Gate>, setup: Setup, log: seq<Event>, event: Event)
    requires event.Observed?
  {
    var outcome := setup.outside.outcome(|Settlings(log)|, event.id);
    && Awaits(gates, setup, log)
    && (setup.options.forwardProcessSignals && AbortIn(log).None? ==> !setup.outside.interrupted(|Settlings(log)|))
    && if AbortIn(log).Some? && outcome.aborted then event.reason.Cut?
       else event.reason == Ran && event.status == outcome.status
  }

  /** When what may happen does: gates start in their order as soon as they can, a blocking failure aborts at once, and
      the rest waits until nothing can start. */
  ghost predicate Now(gates: seq<Gate>, setup: Setup, log: seq<Event>, event: Event) {
    && (Due(gates, setup, log) ==> event.Aborted? && event.cause.FailureOf?)
    && match event
       case Started(id) => Names(NextStartable(gates, log), id)
       case Observed(id, _, reason) =>
         if StateIn(log, id) == Running then Settled(gates, setup, log, event)
         else if reason.Blocked? then
           && RunningIn(gates, log) == {} && NextStartable(gates, log).None?
           && Names(NextBlocked(gates, log), id)
         else
           && Names(NextPending(gates, log), id)
           && (AbortIn(log) == Some(HostInterruption) ==> RunningIn(gates, log) == {})
       case Aborted(cause) =>
         cause == HostInterruption ==> Awaits(gates, setup, log) && setup.outside.interrupted(|Settlings(log)|)
  }

  /** The log of a run: each event is what was due after those before it. */
  ghost predicate Legal(gates: seq<Gate>, setup: Setup, log: seq<Event>) {
    log == [] ||
    var before, last := log[..|log| - 1], log[|log| - 1];
    Legal(gates, setup, before) && May(gates, setup, before, last) && Now(gates, setup, before, last)
  }

  lemma Push(gates: seq<Gate>, setup: Setup, log: seq<Event>, event: Event)
    requires Legal(gates, setup, log) && May(gates, setup, log, event) && Now(gates, setup, log, event)
    ensures Legal(gates, setup, log + [event])
  {
    assert (log + [event])[..|log|] == log;
  }

  lemma StatePush(log: seq<Event>, event: Event)
    ensures forall id :: StateIn(log + [event], id) ==
              match event {
                case Started(x) => if x == id then Running else StateIn(log, id)
                case Observed(x, status, _) => if x == id then Done(status) else StateIn(log, id)
                case Aborted(_) => StateIn(log, id)
              }
    ensures AbortIn(log + [event]) == if event.Aborted? then Some(event.cause) else AbortIn(log)
    ensures Settlings(log + [event]) == Settlings(log) + if Settles(log, event) then [event.id] else []
  {
    assert (log + [event])[..|log|] == log;
  }

  // ---------- What every legal log promises ----------

  /** A gate known to have passed was seen to, by its process. */
  lemma {:induction false} PassedSeen(gates: seq<Gate>, setup: Setup, log: seq<Event>, id: string)
    requires Legal(gates, setup, log) && StateIn(log, id) == Done(Passed)
    ensures Observed(id, Passed, Ran) in log
  {
    var n := |log| - 1;
    if log[n] != Observed(id, Passed, Ran) { PassedSeen(gates, setup, log[..n], id); }
  }

  lemma {:induction false} SettledSeen(log: seq<Event>, id: string)
    requires StateIn(log, id).Done?
    ensures exists e :: e in log && e.Observed? && e.id == id && e.status == StateIn(log, id).status
  {
    var n := |log| - 1;
    if log[n].Observed? && log[n].id == id {
      assert log[n] in log;
    } else {
      SettledSeen(log[..n], id);
    }
  }

  lemma {:induction false} LegalBefore(gates: seq<Gate>, setup: Setup, log: seq<Event>, k: nat)
    requires Legal(gates, setup, log) && k < |log|
    ensures Legal(gates, setup, log[..k]) && May(gates, setup, log[..k], log[k])
    ensures Now(gates, setup, log[..k], log[k])
  {
    hide May, Now;
    var n := |log| - 1;
    if k < n {
      LegalBefore(gates, setup, log[..n], k);
      assert log[..n][..k] == log[..k];
    }
  }

  /** No gate starts before all it needs have passed and all it comes after have settled, or once the aggregate is
      aborted. */
  lemma StartsAfterNeeds(gates: seq<Gate>, setup: Setup, log: seq<Event>, k: nat, g: Gate)
    requires Legal(gates, setup, log) && k < |log| && g in gates && log[k] == Started(g.id)
    ensures AbortIn(log[..k]).None?
    ensures forall n :: n in g.needs ==> Observed(n, Passed, Ran) in log[..k]
    ensures forall n :: n in g.after ==> exists e :: e in log[..k] && e.Observed? && e.id == n
  {
    LegalBefore(gates, setup, log, k);
    assert IsReady(g, log[..k]);
    hide Legal, May;
    forall n | n in g.needs ensures Observed(n, Passed, Ran) in log[..k] {
      PassedSeen(gates, setup, log[..k], n);
    }
    forall n | n in g.after ensures exists e :: e in log[..k] && e.Observed? && e.id == n { SettledSeen(log[..k], n); }
  }

  lemma LegalUpTo(gates: seq<Gate>, setup: Setup, log: seq<Event>, k: nat)
    requires Legal(gates, setup, log) && k <= |log|
    ensures Legal(gates, setup, log[..k])
  {
    hide May, Now, Legal;
    if k < |log| { LegalBefore(gates, setup, log, k); } else { assert log[..k] == log; }
  }

  /** What has settled stays as it was. */
  lemma {:induction false} StaysDone(gates: seq<Gate>, setup: Setup, log: seq<Event>, k: nat, id: string)
    requires Legal(gates, setup, log) && k <= |log| && StateIn(log[..k], id).Done?
    ensures StateIn(log, id) == StateIn(log[..k], id)
  {
    hide Now, IsReady, RunningIn, AbortIn, FailedNeeds;
    var n := |log| - 1;
    if k == |log| {
      assert log[..k] == log;
    } else {
      assert log[..n][..k] == log[..k];
      StaysDone(gates, setup, log[..n], k, id);
    }
  }

  /** What was observed of a gate is its state from then on. */
  lemma StateFrom(gates: seq<Gate>, setup: Setup, log: seq<Event>, i: nat, k: nat)
    requires Legal(gates, setup, log) && i < k <= |log| && log[i].Observed?
    ensures StateIn(log[..k], log[i].id) == Done(log[i].status)
  {
    hide May, Now, Legal;
    LegalUpTo(gates, setup, log, k);
    assert log[..k][..i + 1] == log[..i] + [log[i]];
    StatePush(log[..i], log[i]);
    StaysDone(gates, setup, log[..k], i + 1, log[i].id);
  }

  /** A gate is skipped unrun only for an abort, or for needs that failed or were skipped before: for all of them. */
  lemma SkippedForNeeds(gates: seq<Gate>, setup: Setup, log: seq<Event>, k: nat, g: Gate)
    requires Legal(gates, setup, log) && k < |log| && g in gates
    requires log[k].Observed? && log[k].id == g.id && log[k].reason.Blocked?
    ensures AbortIn(log[..k]).None? && log[k].reason.failed != []
    ensures forall n :: n in log[k].reason.failed <==>
              n in g.needs && exists e :: e in log[..k] && e.Observed? && e.id == n && e.status != Passed
  {
    LegalBefore(gates, setup, log, k);
    assert log[k].reason.failed == FailedNeeds(g.needs, log[..k]);
    hide Legal, May;
    forall n | n in log[k].reason.failed
      ensures n in g.needs && exists e :: e in log[..k] && e.Observed? && e.id == n && e.status != Passed
    {
      assert HasFailed(StateIn(log[..k], n));
      SettledSeen(log[..k], n);
    }
    forall n, e | n in g.needs && e in log[..k] && e.Observed? && e.id == n && e.status != Passed
      ensures n in log[k].reason.failed
    {
      var i :| 0 <= i < k && log[..k][i] == e;
      StateFrom(gates, setup, log, i, k);
    }
  }

  /** No gate has two results. */
  lemma OneResult(gates: seq<Gate>, setup: Setup, log: seq<Event>, i: nat, j: nat)
    requires Legal(gates, setup, log) && i < j < |log| && log[i].Observed? && log[j].Observed?
    ensures log[i].id != log[j].id
  {
    hide Now, IsReady, RunningIn, AbortIn, FailedNeeds, Legal, Settlings;
    LegalBefore(gates, setup, log, j);
    if log[i].id == log[j].id {
      var id := log[i].id;
      assert log[..j][..i + 1] == log[..i] + [log[i]];
      StatePush(log[..i], log[i]);
      StaysDone(gates, setup, log[..j], i + 1, id);
      assert false;
    }
  }

  lemma {:induction false} StaysStarted(gates: seq<Gate>, setup: Setup, log: seq<Event>, k: nat, id: string)
    requires Legal(gates, setup, log) && k < |log| && log[k] == Started(id)
    ensures StateIn(log, id) != Pending
  {
    hide Now, IsReady, RunningIn, AbortIn, FailedNeeds;
    var n := |log| - 1;
    if k < n { StaysStarted(gates, setup, log[..n], k, id); }
  }

  /** No gate starts twice. */
  lemma OneStart(gates: seq<Gate>, setup: Setup, log: seq<Event>, i: nat, j: nat)
    requires Legal(gates, setup, log) && i < j < |log| && log[i].Started? && log[j].Started?
    ensures log[i].id != log[j].id
  {
    hide Now, IsReady, RunningIn, AbortIn, FailedNeeds, Legal, Settlings;
    LegalBefore(gates, setup, log, j);
    if log[i].id == log[j].id {
      StaysStarted(gates, setup, log[..j], i, log[i].id);
      assert false;
    }
  }

  /** Never more gates are running than allowed. */
  lemma {:induction false} ActiveBound(gates: seq<Gate>, setup: Setup, log: seq<Event>)
    requires Legal(gates, setup, log)
    ensures RunningIn(gates, log) == {} || |RunningIn(gates, log)| <= setup.maxActive
  {
    if log != [] {
      var n := |log| - 1;
      var before, after := RunningIn(gates, log[..n]), RunningIn(gates, log);
      ActiveBound(gates, setup, log[..n]);
      if log[n].Started? {
        SubsetSize(after, before + {log[n].id});
      } else {
        SubsetSize(after, before);
      }
    } else {
      assert RunningIn(gates, log) == {};
    }
  }

  // ---------- One run for each order of settling ----------

  ghost predicate AllDone(gates: seq<Gate>, log: seq<Event>) {
    forall g :: g in gates ==> StateIn(log, g.id).Done?
  }

  /** The log of a run that has come to its end. */
  ghost predicate Whole(gates: seq<Gate>, setup: Setup, log: seq<Event>) {
    Legal(gates, setup, log) && AllDone(gates, log) && !Due(gates, setup, log)
  }

  /** Either the same gate settles next, or it is settled what comes next. */
  lemma NextDetermined(gates: seq<Gate>, setup: Setup, log: seq<Event>, a: Event, b: Event)
    requires May(gates, setup, log, a) && Now(gates, setup, log, a)
    requires May(gates, setup, log, b) && Now(gates, setup, log, b)
    requires Settles(log, a) && Settles(log, b) ==> a.id == b.id
    ensures a == b
  {
  }

  lemma {:induction false} SettlingsBefore(log: seq<Event>, k: nat)
    requires k <= |log|
    ensures Settlings(log[..k]) <= Settlings(log)
  {
    if k == |log| {
      assert log[..k] == log;
    } else {
      assert log[..|log| - 1][..k] == log[..k];
      SettlingsBefore(log[..|log| - 1], k);
    }
  }

  lemma SettlesAt(log: seq<Event>, k: nat)
    requires k < |log| && Settles(log[..k], log[k])
    ensures |Settlings(log[..k])| < |Settlings(log)| && Settlings(log)[|Settlings(log[..k])|] == log[k].id
  {
    assert log[..k + 1] == log[..k] + [log[k]];
    StatePush(log[..k], log[k]);
    hide Settlings;
    SettlingsBefore(log, k + 1);
  }

  lemma {:induction false} PrefixDetermined(gates: seq<Gate>, setup: Setup, a: seq<Event>, b: seq<Event>, k: nat)
    requires Legal(gates, setup, a) && Legal(gates, setup, b) && Settlings(a) == Settlings(b)
    requires k <= |a| && k <= |b|
    ensures a[..k] == b[..k]
  {
    hide Legal, May, Now, Settlings, Settles;
    if k > 0 {
      PrefixDetermined(gates, setup, a, b, k - 1);
      LegalBefore(gates, setup, a, k - 1);
      LegalBefore(gates, setup, b, k - 1);
      if Settles(a[..k - 1], a[k - 1]) && Settles(b[..k - 1], b[k - 1]) {
        SettlesAt(a, k - 1);
        SettlesAt(b, k - 1);
      }
      NextDetermined(gates, setup, a[..k - 1], a[k - 1], b[k - 1]);
    }
  }

  lemma NothingNext(gates: seq<Gate>, setup: Setup, log: seq<Event>, event: Event)
    requires AllDone(gates, log) && !Due(gates, setup, log)
    ensures !May(gates, setup, log, event) || !Now(gates, setup, log, event)
  {
  }

  /** What happens outside and the order in which gates settle determine the whole run. */
  lemma RunDetermined(gates: seq<Gate>, setup: Setup, a: seq<Event>, b: seq<Event>)
    requires Whole(gates, setup, a) && Whole(gates, setup, b) && Settlings(a) == Settlings(b)
    ensures a == b
  {
    hide Legal, May, Now, Settlings, AllDone, Due;
    assert a[..|a|] == a && b[..|b|] == b;
    if |a| < |b| {
      PrefixDetermined(gates, setup, a, b, |a|);
      LegalBefore(gates, setup, b, |a|);
      NothingNext(gates, setup, a, b[|a|]);
    } else if |b| < |a| {
      PrefixDetermined(gates, setup, a, b, |b|);
      LegalBefore(gates, setup, a, |b|);
      NothingNext(gates, setup, b, a[|b|]);
    } else {
      PrefixDetermined(gates, setup, a, b, |a|);
    }
  }

  // ---------- The scheduler ----------

  /** The scheduler's variables at one moment. */
  datatype Run = Run(
    states: map<string, GateState>,
    results: map<string, GateResult>,
    running: seq<Gate>,
    abortCause: Option<AbortCause>,
    waits: nat,
    log: seq<Event>)

  ghost predicate Tracked(gates: seq<Gate>, states: map<string, GateState>, log: seq<Event>) {
    && (forall id :: id in states <==> HasId(gates, id))
    && (forall id :: id in states ==> states[id] == StateIn(log, id))
  }

  ghost predicate Listed(gates: seq<Gate>, running: seq<Gate>, log: seq<Event>) {
    && NoRepeats(running)
    && forall g :: g in running <==> g in gates && StateIn(log, g.id) == Running
  }

  ghost predicate Collected(gates: seq<Gate>, results: map<string, GateResult>, log: seq<Event>) {
    forall g :: g in gates && StateIn(log, g.id).Done? ==>
      && g.id in results && results[g.id].gate == g
      && Observed(g.id, results[g.id].status, results[g.id].reason) in log
  }

  /** The variables agree with the log, and the log is legal. */
  ghost predicate Good(gates: seq<Gate>, setup: Setup, run: Run) {
    && Legal(gates, setup, run.log) && run.abortCause == AbortIn(run.log)
    && Tracked(gates, run.states, run.log) && Listed(gates, run.running, run.log)
    && Collected(gates, run.results, run.log) && run.waits == |Settlings(run.log)|
  }

  function Begin(run: Run, g: Gate): Run {
    run.(states := run.states[g.id := Running], running := run.running + [g], log := run.log + [Started(g.id)])
  }

  function Record(run: Run, g: Gate, status: Status, reason: Reason): Run {
    run.(states := run.states[g.id := Done(status)], results := run.results[g.id := GateResult(g, status, reason)],
         log := run.log + [Observed(g.id, status, reason)])
  }

  function Remove(run: Run, i: nat): Run
    requires i < |run.running|
  {
    run.(running := run.running[..i] + run.running[i + 1..], waits := run.waits + 1)
  }

  function Abort(run: Run, cause: AbortCause): Run {
    run.(abortCause := Some(cause), log := run.log + [Aborted(cause)])
  }

  lemma GateHasId(gates: seq<Gate>, g: Gate)
    requires g in gates
    ensures HasId(gates, g.id)
  {
  }

  lemma SameGate(gates: seq<Gate>, g: Gate, h: Gate)
    requires DistinctIds(gates) && g in gates && h in gates && g.id == h.id
    ensures g == h
  {
    ByIdGate(gates, g);
    ByIdGate(gates, h);
  }

  lemma LastApart(rest: seq<Gate>, last: Gate, gates: seq<Gate>)
    requires NoRepeats(rest + [last]) && DistinctIds(gates) && forall g :: g in rest + [last] ==> g in gates
    ensures NoRepeats(rest) && forall g :: g in rest ==> g in gates && g.id != last.id
  {
    hide DistinctIds;
    var running := rest + [last];
    assert last in running;
    forall g | g in rest ensures g in gates && g.id != last.id {
      var i :| 0 <= i < |rest| && rest[i] == g;
      assert running[i] == g && running[|rest|] == last;
      assert g in running;
      if g.id == last.id { SameGate(gates, g, last); }
    }
    assert forall i :: 0 <= i < |rest| ==> running[i] == rest[i];
  }

  lemma {:induction false} DistinctSize(running: seq<Gate>, gates: seq<Gate>)
    requires NoRepeats(running) && DistinctIds(gates) && forall g :: g in running ==> g in gates
    ensures |set g | g in running :: g.id| == |running|
  {
    hide DistinctIds, NoRepeats;
    var ids := set g | g in running :: g.id;
    if running != [] {
      var rest, last := running[..|running| - 1], running[|running| - 1];
      assert running == rest + [last];
      LastApart(rest, last, gates);
      DistinctSize(rest, gates);
      var before := set g | g in rest :: g.id;
      assert ids == before + {last.id};
    }
  }

  lemma RunningSize(gates: seq<Gate>, running: seq<Gate>, log: seq<Event>)
    requires Listed(gates, running, log) && DistinctIds(gates)
    ensures |RunningIn(gates, log)| == |running|
  {
    hide StateIn, DistinctIds, NoRepeats;
    DistinctSize(running, gates);
    assert RunningIn(gates, log) == set g | g in running :: g.id;
  }

  lemma MayBegin(gates: seq<Gate>, setup: Setup, run: Run, g: Gate)
    requires Good(gates, setup, run) && DistinctIds(gates) && !Due(gates, setup, run.log)
    requires run.abortCause.None? && NextStartable(gates, run.log) == Some(g) && |run.running| < setup.maxActive
    ensures g in gates && StateIn(run.log, g.id) == Pending
    ensures May(gates, setup, run.log, Started(g.id)) && Now(gates, setup, run.log, Started(g.id))
  {
    assert g in gates && IsPending(g, run.log) && IsReady(g, run.log);
    hide Due, NextStartable, RunningIn;
    hide Legal, StateIn, AbortIn, IsReady, DistinctIds, Tracked, Collected, Listed, HasId;
    GateHasId(gates, g);
    forall h | h in gates && h.id == g.id ensures IsReady(h, run.log) { SameGate(gates, h, g); }
    RunningSize(gates, run.running, run.log);
  }

  lemma DueObserved(gates: seq<Gate>, setup: Setup, log: seq<Event>, event: Event)
    requires Due(gates, setup, log + [event])
    ensures event.Observed? && event.status == Failed && event.reason == Ran
  {
  }

  lemma BeginGood(gates: seq<Gate>, setup: Setup, run: Run, g: Gate)
    requires Good(gates, setup, run) && DistinctIds(gates) && !Due(gates, setup, run.log)
    requires run.abortCause.None? && NextStartable(gates, run.log) == Some(g) && |run.running| < setup.maxActive
    ensures Good(gates, setup, Begin(run, g)) && !Due(gates, setup, Begin(run, g).log)
    ensures g in gates && StateIn(run.log, g.id) == Pending
  {
    hide Legal, May, Now, HasId, StateIn, AbortIn, DistinctIds, NextStartable, Due, Settlings, IsReady, RunningIn;
    var event := Started(g.id);
    MayBegin(gates, setup, run, g);
    GateHasId(gates, g);
    Push(gates, setup, run.log, event);
    StatePush(run.log, event);
    if Due(gates, setup, run.log + [event]) { DueObserved(gates, setup, run.log, event); }
    forall h | h in gates && StateIn(run.log + [event], h.id) == Running ensures h in run.running + [g] {
      if h.id == g.id { SameGate(gates, h, g); }
    }
  }

  /** A result is recorded for a gate that is not running, or no longer listed as running. */
  lemma RecordGood(gates: seq<Gate>, setup: Setup, run: Run, g: Gate, status: Status, reason: Reason)
    requires Legal(gates, setup, run.log) && run.abortCause == AbortIn(run.log) && DistinctIds(gates)
    requires g in gates
    requires Tracked(gates, run.states, run.log) && Collected(gates, run.results, run.log) && NoRepeats(run.running)
    requires forall h :: h in run.running <==> h in gates && StateIn(run.log, h.id) == Running && h != g
    requires May(gates, setup, run.log, Observed(g.id, status, reason))
    requires Now(gates, setup, run.log, Observed(g.id, status, reason))
    requires run.waits == |Settlings(run.log)| + if StateIn(run.log, g.id) == Running then 1 else 0
    ensures Good(gates, setup, Record(run, g, status, reason))
  {
    hide Legal, May, Now, HasId, StateIn, AbortIn, DistinctIds, Reach;
    var event := Observed(g.id, status, reason);
    GateHasId(gates, g);
    Push(gates, setup, run.log, event);
    StatePush(run.log, event);
    forall h | h in gates && h.id == g.id ensures h == g { SameGate(gates, h, g); }
    assert event in run.log + [event];
  }

  lemma AbortGood(gates: seq<Gate>, setup: Setup, run: Run, cause: AbortCause)
    requires Good(gates, setup, run) && May(gates, setup, run.log, Aborted(cause))
    requires Now(gates, setup, run.log, Aborted(cause))
    ensures Good(gates, setup, Abort(run, cause)) && !Due(gates, setup, Abort(run, cause).log)
  {
    hide Legal, May, Now, HasId, StateIn, AbortIn;
    Push(gates, setup, run.log, Aborted(cause));
    StatePush(run.log, Aborted(cause));
  }

  // ---------- It ends ----------

  function WorkOf(state: GateState): nat {
    match state
    case Pending => 2
    case Running => 1
    case Done(_) => 0
  }

  function Work(gates: seq<Gate>, log: seq<Event>): nat {
    if gates == [] then 0 else Work(gates[..|gates| - 1], log) + WorkOf(StateIn(log, gates[|gates| - 1].id))
  }

  lemma {:induction false} WorkLess(gates: seq<Gate>, log: seq<Event>, more: seq<Event>)
    requires forall g :: g in gates ==> WorkOf(StateIn(more, g.id)) <= WorkOf(StateIn(log, g.id))
    ensures Work(gates, more) <= Work(gates, log)
    ensures (exists g :: g in gates && WorkOf(StateIn(more, g.id)) < WorkOf(StateIn(log, g.id))) ==>
              Work(gates, more) < Work(gates, log)
  {
    if gates != [] {
      var rest, last := gates[..|gates| - 1], gates[|gates| - 1];
      assert gates == rest + [last];
      WorkLess(rest, log, more);
    }
  }

  /** Starting a pending gate, or settling one that has not, leaves less to do; an abort leaves no more. */
  lemma EventWork(gates: seq<Gate>, log: seq<Event>, event: Event)
    requires event.Started? ==> StateIn(log, event.id) == Pending
    ensures Work(gates, log + [event]) <= Work(gates, log)
    ensures !event.Aborted? && HasId(gates, event.id) && !StateIn(log, event.id).Done? ==>
              Work(gates, log + [event]) < Work(gates, log)
  {
    StatePush(log, event);
    hide StateIn;
    WorkLess(gates, log, log + [event]);
    if !event.Aborted? && HasId(gates, event.id) && !StateIn(log, event.id).Done? {
      var g :| g in gates && g.id == event.id;
      assert WorkOf(StateIn(log + [event], g.id)) < WorkOf(StateIn(log, g.id));
    }
  }

  // ---------- It does not stall ----------

  ghost predicate WaitsIn(g: Graph, some: set<string>, a: string) {
    exists b :: b in some && Edge(g, a, b)
  }

  ghost function Inner(g: Graph, some: set<string>): Graph
    requires some <= g.Keys
  {
    map k | k in some :: g[k]
  }

  lemma InnerEdges(g: Graph, some: set<string>)
    requires some <= g.Keys
    ensures Inner(g, some).Keys == some
    ensures forall a, b :: Edge(Inner(g, some), a, b) <==> a in some && b in some && Edge(g, a, b)
  {
  }

  lemma CycleEdge(g: Graph, c: set<string>) returns (a: string, b: string)
    requires SinkCycle(g, c)
    ensures Edge(g, a, b) && Reach(g, b, a)
  {
    hide Reach, Edge;
    a, b :| a in c && b in c && Edge(g, a, b);
    assert Mutual(g, a, b);
  }

  ghost predicate Successors(g: Graph) {
    forall a :: a in g ==> exists b :: Edge(g, a, b)
  }

  lemma SinkCycleOf(g: Graph) returns (c: set<string>)
    requires g.Keys != {} && Successors(g)
    ensures SinkCycle(g, c)
  {
    hide SinkCycle;
    c := SinkCycleExists(g);
  }

  lemma InnerSuccessors(g: Graph, some: set<string>)
    requires some <= g.Keys && forall a :: a in some ==> WaitsIn(g, some, a)
    ensures Successors(Inner(g, some))
  {
    InnerEdges(g, some);
    hide Edge, Inner;
    forall a | a in Inner(g, some) ensures exists b :: Edge(Inner(g, some), a, b) {
      assert WaitsIn(g, some, a);
      var b :| b in some && Edge(g, a, b);
      assert Edge(Inner(g, some), a, b);
    }
  }

  /** Where every vertex of a set has an edge into the set, an edge can be gone back. */
  lemma InnerCycle(g: Graph, some: set<string>) returns (a: string, b: string)
    requires some != {} && some <= g.Keys && forall a :: a in some ==> WaitsIn(g, some, a)
    ensures Edge(g, a, b) && Reach(g, b, a)
  {
    hide Reach, Edge, Inner, WaitsIn, Successors, SinkCycle;
    InnerSuccessors(g, some);
    InnerEdges(g, some);
    var inner := Inner(g, some);
    var c := SinkCycleOf(inner);
    a, b := CycleEdge(inner, c);
    ReachMonotone(inner, g, b, a);
  }

  /** In an acyclic graph not every vertex of a non-empty set has an edge into the set. */
  lemma NotAllWait(g: Graph, some: set<string>)
    requires Acyclic(g) && some != {} && some <= g.Keys
    ensures exists a :: a in some && !WaitsIn(g, some, a)
  {
    hide Reach, Edge, WaitsIn;
    if forall a :: a in some ==> WaitsIn(g, some, a) {
      var a, b := InnerCycle(g, some);
      assert false;
    }
  }

  ghost function PendingIn(gates: seq<Gate>, log: seq<Event>): set<string> {
    set g | g in gates && StateIn(log, g.id) == Pending :: g.id
  }

  /** A gate that waits for no pending one waits only for settled ones, when nothing runs. */
  lemma WaitsSettled(gates: seq<Gate>, log: seq<Event>, g: Gate, d: string)
    requires g in gates && d in Waits(g) && DistinctIds(gates) && AllKnown(gates) && Listed(gates, [], log)
    requires !WaitsIn(WaitGraph(ById(gates)), PendingIn(gates, log), g.id)
    ensures StateIn(log, d).Done?
  {
    var m := ById(gates);
    ByIdMembers(gates);
    ByIdGate(gates, g);
    assert HasId(gates, d);
    assert Edge(WaitGraph(m), g.id, d);
    assert m[d] in gates && m[d].id == d;
    assert m[d] !in [];
    hide StateIn;
  }

  lemma PendingKnown(gates: seq<Gate>, log: seq<Event>)
    ensures PendingIn(gates, log) <= WaitGraph(ById(gates)).Keys
    ensures (exists g :: g in gates && StateIn(log, g.id) == Pending) ==> PendingIn(gates, log) != {}
  {
    ByIdMembers(gates);
    forall g | g in gates ensures HasId(gates, g.id) { GateHasId(gates, g); }
    hide StateIn, HasId;
    if exists g :: g in gates && StateIn(log, g.id) == Pending {
      var g :| g in gates && StateIn(log, g.id) == Pending;
      assert g.id in PendingIn(gates, log);
    }
  }

  /** A gate that is not ready though all it waits for has settled needs one that has failed. */
  lemma BlockedNeed(g: Gate, log: seq<Event>)
    requires !IsReady(g, log) && forall d :: d in Waits(g) ==> StateIn(log, d).Done?
    ensures SomeNeedFailed(g, log)
  {
    hide StateIn;
    assert forall n :: n in g.needs ==> n in Waits(g);
    assert forall n :: n in g.after ==> n in Waits(g);
    var n :| n in g.needs && StateIn(log, n) != Done(Passed);
    assert n in Waits(g);
    assert StateIn(log, n).status == Failed || StateIn(log, n).status == Skipped;
  }

  /** When nothing runs, a pending gate that nothing pending holds back is ready, or some of its needs has failed. */
  lemma NotStalled(gates: seq<Gate>, log: seq<Event>) returns (blocked: Gate)
    requires Valid(gates) && Listed(gates, [], log)
    requires exists g :: g in gates && StateIn(log, g.id) == Pending
    requires NextStartable(gates, log).None?
    ensures blocked in gates && StateIn(log, blocked.id) == Pending && SomeNeedFailed(blocked, log)
  {
    var graph, pending := WaitGraph(ById(gates)), PendingIn(gates, log);
    ByIdMembers(gates);
    PendingKnown(gates, log);
    assert forall g :: g in gates ==> !IsStartable(g, log);
    hide StateIn, Reach, Acyclic, ById, WaitGraph, WaitsIn, DistinctIds, AllKnown, Listed;
    NotAllWait(graph, pending);
    var first :| first in pending && !WaitsIn(graph, pending, first);
    blocked :| blocked in gates && StateIn(log, blocked.id) == Pending && blocked.id == first;
    forall d | d in Waits(blocked) ensures StateIn(log, d).Done? { WaitsSettled(gates, log, blocked, d); }
    BlockedNeed(blocked, log);
  }

  // ---------- The script ----------

  predicate StateIs(states: map<string, GateState>, id: string, state: GateState) {
    id in states && states[id] == state
  }

  predicate PredecessorsReady(g: Gate, states: map<string, GateState>) {
    && (forall n :: n in g.needs ==> StateIs(states, n, Done(Passed)))
    && (forall n :: n in g.after ==> n in states && states[n].Done?)
  }

  predicate NeedFailed(states: map<string, GateState>, id: string) {
    id in states && HasFailed(states[id])
  }

  function BlockedBy(states: map<string, GateState>): Gate -> bool {
    (g: Gate) => exists n :: n in g.needs && NeedFailed(states, n)
  }

  /** The first gate with a failed need, or the script's throw when there is none. */
  function FindOrThrow(gates: seq<Gate>, states: map<string, GateState>): Result<Gate, RunError> {
    match Find(gates, BlockedBy(states))
    case Some(g) => Ok(g)
    case None => Err(Stalled)
  }

  /** A gate's result, or the script's last throw. */
  function ResultOrThrow(results: map<string, GateResult>, id: string): Result<GateResult, RunError> {
    if id in results then Ok(results[id]) else Err(MissingResult(id))
  }

  lemma StatesAgree(gates: seq<Gate>, states: map<string, GateState>, log: seq<Event>, g: Gate)
    requires Tracked(gates, states, log) && AllKnown(gates) && g in gates
    ensures PredecessorsReady(g, states) <==> IsReady(g, log)
    ensures forall n :: n in g.needs ==> (NeedFailed(states, n) <==> HasFailed(StateIn(log, n)))
    ensures g.id in states && states[g.id] == StateIn(log, g.id)
  {
    hide StateIn, HasId;
    GateHasId(gates, g);
    assert forall n :: n in g.needs ==> n in Waits(g);
    assert forall n :: n in g.after ==> n in Waits(g);
  }

  ghost predicate NonePending(gates: seq<Gate>, log: seq<Event>) {
    forall g :: g in gates ==> StateIn(log, g.id) != Pending
  }

  lemma DoneWhen(gates: seq<Gate>, setup: Setup, run: Run)
    requires Good(gates, setup, run) && NonePending(gates, run.log) && run.running == []
    ensures AllDone(gates, run.log)
  {
    hide StateIn, Legal, AbortIn;
    forall g | g in gates ensures StateIn(run.log, g.id).Done? { assert g !in run.running; }
  }

  lemma {:induction false} FindSame(gates: seq<Gate>, keep: Gate -> bool, same: Gate -> bool)
    requires forall g :: g in gates ==> (keep(g) <==> same(g))
    ensures Find(gates, keep) == Find(gates, same)
  {
    if gates != [] {
      assert gates[0] in gates;
      FindSame(gates[1..], keep, same);
    }
  }

  /** The next gate to start: the first that is pending and ready. */
  method NextReady(gates: seq<Gate>, ghost setup: Setup, run: Run) returns (ready: Option<Gate>)
    requires Good(gates, setup, run) && AllKnown(gates)
    ensures ready == NextStartable(gates, run.log)
  {
    hide StateIn, Legal, AbortIn, IsReady, PredecessorsReady, AllKnown, Tracked;
    forall g | g in gates
      ensures g.id in run.states && run.states[g.id] == StateIn(run.log, g.id)
      ensures PredecessorsReady(g, run.states) <==> IsReady(g, run.log)
    {
      StatesAgree(gates, run.states, run.log, g);
    }
    var isReady := (g: Gate) => StateIs(run.states, g.id, Pending) && PredecessorsReady(g, run.states);
    FindSame(gates, isReady, (g: Gate) => IsStartable(g, run.log));
    ready := Find(gates, isReady);
  }

  lemma {:induction false} FindAt(gates: seq<Gate>, keep: Gate -> bool, i: nat)
    requires i < |gates| && keep(gates[i]) && forall k :: 0 <= k < i ==> !keep(gates[k])
    ensures Find(gates, keep) == Some(gates[i])
  {
    if i > 0 { FindAt(gates[1..], keep, i - 1); }
  }

  lemma MayCut(gates: seq<Gate>, setup: Setup, run: Run, i: nat, cause: AbortCause)
    requires Good(gates, setup, run) && i < |gates| && run.abortCause == Some(cause) && DistinctIds(gates)
    requires StateIn(run.log, gates[i].id) == Pending
    requires forall k :: 0 <= k < i ==> StateIn(run.log, gates[k].id) != Pending
    requires cause.FailureOf? || run.running == []
    ensures May(gates, setup, run.log, Observed(gates[i].id, Skipped, Cut(cause)))
    ensures Now(gates, setup, run.log, Observed(gates[i].id, Skipped, Cut(cause)))
  {
    hide Legal, StateIn, AbortIn, HasId, RunningIn, DistinctIds, Tracked, Collected, Settlings, NextStartable, Settled;
    GateHasId(gates, gates[i]);
    FindAt(gates, (g: Gate) => IsPending(g, run.log), i);
    RunningSize(gates, run.running, run.log);
  }

  lemma StateKnown(gates: seq<Gate>, setup: Setup, run: Run, g: Gate)
    requires Good(gates, setup, run) && g in gates
    ensures g.id in run.states && run.states[g.id] == StateIn(run.log, g.id)
  {
    hide StateIn, Legal, AbortIn, HasId;
    GateHasId(gates, g);
  }

  lemma PendingNotRunning(gates: seq<Gate>, setup: Setup, run: Run, g: Gate)
    requires Good(gates, setup, run) && g in gates && StateIn(run.log, g.id) == Pending
    ensures Legal(gates, setup, run.log) && run.abortCause == AbortIn(run.log)
    ensures Tracked(gates, run.states, run.log) && Collected(gates, run.results, run.log) && NoRepeats(run.running)
    ensures forall h :: h in run.running <==> h in gates && StateIn(run.log, h.id) == Running && h != g
    ensures run.waits == |Settlings(run.log)|
  {
    hide StateIn, Legal, AbortIn, HasId, Tracked, Collected;
  }

  /** Give every pending gate the result of an abort. */
  method SkipPending(gates: seq<Gate>, ghost setup: Setup, run0: Run, cause: AbortCause)
    returns (run: Run)
    requires Good(gates, setup, run0) && DistinctIds(gates) && run0.abortCause == Some(cause)
    requires cause.FailureOf? || run0.running == []
    ensures Good(gates, setup, run) && NonePending(gates, run.log)
    ensures run.running == run0.running && run.abortCause == run0.abortCause
    ensures Work(gates, run.log) <= Work(gates, run0.log)
  {
    hide StateIn, Legal, AbortIn, May, Now, Good, DistinctIds, Work, Settlings, Due;
    run := run0;
    for i := 0 to |gates|
      invariant Good(gates, setup, run)
      invariant run.running == run0.running && run.abortCause == run0.abortCause
      invariant Work(gates, run.log) <= Work(gates, run0.log)
      invariant forall k :: 0 <= k < i ==> StateIn(run.log, gates[k].id) != Pending
    {
      var g := gates[i];
      StateKnown(gates, setup, run, g);
      if StateIs(run.states, g.id, Pending) {
        MayCut(gates, setup, run, i, cause);
        PendingNotRunning(gates, setup, run, g);
        RecordGood(gates, setup, run, g, Skipped, Cut(cause));
        EventWork(gates, run.log, Observed(g.id, Skipped, Cut(cause)));
        StatePush(run.log, Observed(g.id, Skipped, Cut(cause)));
        run := Record(run, g, Skipped, Cut(cause));
      }
    }
  }

  /** Start gates, first ready first, up to the limit. */
  method StartReady(gates: seq<Gate>, setup: Setup, run0: Run) returns (run: Run, madeProgress: bool)
    requires Good(gates, setup, run0) && DistinctIds(gates) && AllKnown(gates) && run0.abortCause.None?
    requires !Due(gates, setup, run0.log)
    ensures Good(gates, setup, run) && run.abortCause.None? && !Due(gates, setup, run.log)
    ensures if madeProgress then run.running != [] && Work(gates, run.log) < Work(gates, run0.log) else run == run0
    ensures |run.running| < setup.maxActive ==> NextStartable(gates, run.log).None?
  {
    hide Good, DistinctIds, AllKnown, Work, StateIn, NextStartable, Due;
    run, madeProgress := run0, false;
    while |run.running| < setup.maxActive
      invariant Good(gates, setup, run) && run.abortCause.None? && !Due(gates, setup, run.log)
      invariant if madeProgress then run.running != [] && Work(gates, run.log) < Work(gates, run0.log) else run == run0
      decreases Work(gates, run.log)
    {
      var ready := NextReady(gates, setup, run);
      if ready.None? {
        return;
      }
      BeginGood(gates, setup, run, ready.value);
      GateHasId(gates, ready.value);
      EventWork(gates, run.log, Started(ready.value.id));
      run := Begin(run, ready.value);
      madeProgress := true;
    }
  }

  lemma BlockedIs(gates: seq<Gate>, log: seq<Event>, g: Gate)
    requires NextBlocked(gates, log) == Some(g)
    ensures g in gates && StateIn(log, g.id) == Pending && SomeNeedFailed(g, log)
  {
  }

  lemma MayBlock(gates: seq<Gate>, setup: Setup, run: Run, g: Gate)
    requires Good(gates, setup, run) && DistinctIds(gates) && run.abortCause.None? && !Due(gates, setup, run.log)
    requires NextBlocked(gates, run.log) == Some(g) && run.running == [] && NextStartable(gates, run.log).None?
    ensures g in gates && StateIn(run.log, g.id) == Pending
    ensures May(gates, setup, run.log, Observed(g.id, Skipped, Blocked(FailedNeeds(g.needs, run.log))))
    ensures Now(gates, setup, run.log, Observed(g.id, Skipped, Blocked(FailedNeeds(g.needs, run.log))))
  {
    hide StateIn, Legal, AbortIn, DistinctIds, Tracked, Collected, RunningIn, NextStartable, NextBlocked, Due, HasId;
    BlockedIs(gates, run.log, g);
    GateHasId(gates, g);
    RunningSize(gates, run.running, run.log);
    forall h | h in gates && h.id == g.id ensures FailedNeeds(g.needs, run.log) == FailedNeeds(h.needs, run.log) {
      SameGate(gates, h, g);
    }
    var n :| n in g.needs && HasFailed(StateIn(run.log, n));
    assert n in FailedNeeds(g.needs, run.log);
  }

  /** The failed needs, as the variables have them. */
  lemma SameFailures(needs: seq<string>, states: map<string, GateState>, log: seq<Event>)
    requires forall n :: n in needs ==> (NeedFailed(states, n) <==> HasFailed(StateIn(log, n)))
    ensures Filter(needs, (n: string) => NeedFailed(states, n)) == FailedNeeds(needs, log)
  {
    hide StateIn, NeedFailed;
    if needs != [] { SameFailures(needs[..|needs| - 1], states, log); }
  }

  lemma {:induction false} FindConcat(some: seq<Gate>, more: seq<Gate>, keep: Gate -> bool)
    ensures Find(some + more, keep) == if Find(some, keep).Some? then Find(some, keep) else Find(more, keep)
  {
    if some == [] {
      assert [] + more == more;
    } else {
      assert (some + more)[1..] == some[1..] + more;
      FindConcat(some[1..], more, keep);
    }
  }

  /** The first of those kept. */
  lemma {:induction false} FindFiltered(gates: seq<Gate>, kept: Gate -> bool, keep: Gate -> bool)
    ensures Find(Filter(gates, kept), keep) == Find(gates, (g: Gate) => kept(g) && keep(g))
  {
    if gates != [] {
      var rest, last := gates[..|gates| - 1], gates[|gates| - 1];
      assert gates == rest + [last];
      FindFiltered(rest, kept, keep);
      FindConcat(rest, [last], (g: Gate) => kept(g) && keep(g));
      FindConcat(Filter(rest, kept), [last], keep);
      assert [last][1..] == [];
    }
  }

  /** Some pending gate has a failed need, and the first such is found. */
  lemma FindsBlocked(gates: seq<Gate>, setup: Setup, run: Run, pending: seq<Gate>)
    requires Good(gates, setup, run) && Valid(gates) && run.running == [] && NextStartable(gates, run.log).None?
    requires pending == Filter(gates, (g: Gate) => StateIs(run.states, g.id, Pending)) && pending != []
    ensures FindOrThrow(pending, run.states).Ok?
    ensures NextBlocked(gates, run.log) == Some(FindOrThrow(pending, run.states).value)
  {
    hide Acyclic, ById, HasId, Collected, Legal, AbortIn, NextStartable;
    assert pending[0] in pending;
    hide StateIn;
    forall g | g in gates
      ensures StateIs(run.states, g.id, Pending) <==> IsPending(g, run.log)
      ensures (exists n :: n in g.needs && NeedFailed(run.states, n)) <==> SomeNeedFailed(g, run.log)
    {
      StatesAgree(gates, run.states, run.log, g);
    }
    var blocked := NotStalled(gates, run.log);
    var isPending, isBlocked := (g: Gate) => StateIs(run.states, g.id, Pending), BlockedBy(run.states);
    hide StateIs, NeedFailed, SomeNeedFailed;
    FindFiltered(gates, isPending, isBlocked);
    FindSame(gates, (g: Gate) => isPending(g) && isBlocked(g), (g: Gate) => IsBlocked(g, run.log));
  }

  /** Skip a pending gate that needs one that has failed. */
  method SkipBlocked(gates: seq<Gate>, ghost setup: Setup, run0: Run, pending: seq<Gate>) returns (run: Run)
    requires Good(gates, setup, run0) && Valid(gates) && run0.running == [] && NextStartable(gates, run0.log).None?
    requires run0.abortCause.None? && !Due(gates, setup, run0.log)
    requires pending == Filter(gates, (g: Gate) => StateIs(run0.states, g.id, Pending)) && pending != []
    ensures Good(gates, setup, run) && run.abortCause.None? && !Due(gates, setup, run.log)
    ensures Work(gates, run.log) < Work(gates, run0.log)
  {
    assert DistinctIds(gates) && AllKnown(gates);
    assert run0.abortCause == AbortIn(run0.log) && Tracked(gates, run0.states, run0.log);
    hide Good, Valid, DistinctIds, AllKnown, Work, StateIn, NextStartable, May, Now, FindOrThrow, NextBlocked, Tracked;
    FindsBlocked(gates, setup, run0, pending);
    var g := FindOrThrow(pending, run0.states).value;
    MayBlock(gates, setup, run0, g);
    StatesAgree(gates, run0.states, run0.log, g);
    SameFailures(g.needs, run0.states, run0.log);
    var failedDeps := Filter(g.needs, (n: string) => NeedFailed(run0.states, n));
    PendingNotRunning(gates, setup, run0, g);
    GateHasId(gates, g);
    RecordGood(gates, setup, run0, g, Skipped, Blocked(failedDeps));
    EventWork(gates, run0.log, Observed(g.id, Skipped, Blocked(failedDeps)));
    run := Record(run0, g, Skipped, Blocked(failedDeps));
  }

  lemma RemoveListed(gates: seq<Gate>, running: seq<Gate>, log: seq<Event>, i: nat)
    requires Listed(gates, running, log) && i < |running|
    ensures NoRepeats(running[..i] + running[i + 1..])
    ensures forall h :: h in running[..i] + running[i + 1..] <==>
              h in gates && StateIn(log, h.id) == Running && h != running[i]
  {
    hide StateIn;
    assert running == running[..i] + [running[i]] + running[i + 1..];
    forall h ensures h in running[..i] + running[i + 1..] <==> h in running && h != running[i] {
      if h in running && h != running[i] {
        var k :| 0 <= k < |running| && running[k] == h;
      }
    }
  }

  lemma MayObserve(gates: seq<Gate>, setup: Setup, run: Run, g: Gate, status: Status, reason: Reason)
    requires Good(gates, setup, run) && g in run.running && !Due(gates, setup, run.log)
    requires Settled(gates, setup, run.log, Observed(g.id, status, reason))
    requires reason == Ran || (status == Skipped && run.abortCause.Some? && reason == Cut(run.abortCause.value))
    ensures g in gates && StateIn(run.log, g.id) == Running
    ensures May(gates, setup, run.log, Observed(g.id, status, reason))
    ensures Now(gates, setup, run.log, Observed(g.id, status, reason))
  {
    hide Settled, Due, Legal;
    GateHasId(gates, g);
  }

  lemma MayAbort(gates: seq<Gate>, setup: Setup, run: Run, g: Gate)
    requires Good(gates, setup, run) && DistinctIds(gates) && g in gates
    requires run.abortCause.None? && setup.options.failFast && !g.allowFailure
    requires run.log != [] && run.log[|run.log| - 1] == Observed(g.id, Failed, Ran)
    ensures May(gates, setup, run.log, Aborted(FailureOf(g.id)))
    ensures Now(gates, setup, run.log, Aborted(FailureOf(g.id)))
  {
    hide StateIn, Legal, DistinctIds;
    GateHasId(gates, g);
    forall h | h in gates && h.id == g.id ensures h == g { SameGate(gates, h, g); }
  }

  lemma NotDue(gates: seq<Gate>, setup: Setup, log: seq<Event>, g: Gate, status: Status, reason: Reason)
    requires DistinctIds(gates) && g in gates
    requires AbortIn(log).None? && setup.options.failFast && status == Failed && reason == Ran ==> g.allowFailure
    ensures !Due(gates, setup, log + [Observed(g.id, status, reason)])
  {
    StatePush(log, Observed(g.id, status, reason));
    hide AbortIn, DistinctIds, StateIn;
    forall h | h in gates && h.id == g.id ensures h == g { SameGate(gates, h, g); }
  }

  /** After an abort for a failure no gate is pending. */
  ghost predicate Cleared(gates: seq<Gate>, run: Run) {
    run.abortCause.Some? && run.abortCause.value.FailureOf? ==> NextPending(gates, run.log).None?
  }

  lemma MustAwait(gates: seq<Gate>, setup: Setup, run: Run)
    requires Good(gates, setup, run) && DistinctIds(gates) && run.running != []
    requires run.abortCause.None? ==> NextStartable(gates, run.log).None? || |run.running| >= setup.maxActive
    requires Cleared(gates, run)
    ensures Awaits(gates, setup, run.log)
  {
    hide StateIn, Legal, DistinctIds, Tracked, Collected, NextStartable, NextPending, RunningIn, AbortIn;
    RunningSize(gates, run.running, run.log);
  }

  lemma StaysCleared(gates: seq<Gate>, log: seq<Event>, event: Event)
    requires NextPending(gates, log).None?
    ensures NextPending(gates, log + [event]).None?
  {
    StatePush(log, event);
    assert forall g :: g in gates ==> !IsPending(g, log);
    hide StateIn;
  }

  /** Record the settling of the running gate at `i`. */
  method Settle(gates: seq<Gate>, ghost setup: Setup, run0: Run, i: nat, outcome: Outcome)
    returns (run: Run, observed: Status)
    requires Good(gates, setup, run0) && DistinctIds(gates) && i < |run0.running|
    requires !Due(gates, setup, run0.log) && Awaits(gates, setup, run0.log) && Cleared(gates, run0)
    requires outcome == setup.outside.outcome(run0.waits, run0.running[i].id)
    requires setup.options.forwardProcessSignals && run0.abortCause.None? ==> !setup.outside.interrupted(run0.waits)
    ensures Good(gates, setup, run) && Cleared(gates, run) && run.abortCause == run0.abortCause
    ensures run0.running[i] in gates && Work(gates, run.log) < Work(gates, run0.log)
    ensures var g := run0.running[i];
            if run.abortCause.None? && setup.options.failFast && observed == Failed && !g.allowFailure
            then run.log != [] && run.log[|run.log| - 1] == Observed(g.id, Failed, Ran)
            else !Due(gates, setup, run.log)
  {
    assert Listed(gates, run0.running, run0.log) && run0.abortCause == AbortIn(run0.log);
    assert Tracked(gates, run0.states, run0.log) && Collected(gates, run0.results, run0.log);
    assert Legal(gates, setup, run0.log) && run0.waits == |Settlings(run0.log)|;
    hide Good, DistinctIds, Work, StateIn, May, Now, Legal, Tracked, Collected, AbortIn, Due, Awaits, Settlings;
    hide NextPending;
    var g := run0.running[i];
    var removed := Remove(run0, i);
    var reason: Reason;
    observed, reason := outcome.status, Ran;
    if run0.abortCause.Some? && outcome.aborted {
      observed, reason := Skipped, Cut(run0.abortCause.value);
    }
    MayObserve(gates, setup, run0, g, observed, reason);
    RemoveListed(gates, run0.running, run0.log, i);
    GateHasId(gates, g);
    hide Listed, NoRepeats;
    RecordGood(gates, setup, removed, g, observed, reason);
    EventWork(gates, run0.log, Observed(g.id, observed, reason));
    if Cleared(gates, run0) && run0.abortCause.Some? && run0.abortCause.value.FailureOf? {
      StaysCleared(gates, run0.log, Observed(g.id, observed, reason));
    }
    if !(run0.abortCause.None? && setup.options.failFast && observed == Failed && !g.allowFailure) {
      NotDue(gates, setup, run0.log, g, observed, reason);
    }
    run := Record(removed, g, observed, reason);
  }

  lemma MayInterrupt(gates: seq<Gate>, setup: Setup, run: Run)
    requires Good(gates, setup, run) && run.abortCause.None? && setup.options.forwardProcessSignals
    requires setup.options.failFast && !Due(gates, setup, run.log) && Awaits(gates, setup, run.log)
    requires setup.outside.interrupted(run.waits)
    ensures May(gates, setup, run.log, Aborted(HostInterruption))
    ensures Now(gates, setup, run.log, Aborted(HostInterruption))
  {
    hide Due, Awaits;
  }

  lemma StillAwaits(gates: seq<Gate>, setup: Setup, log: seq<Event>)
    requires Awaits(gates, setup, log)
    ensures Awaits(gates, setup, log + [Aborted(HostInterruption)])
  {
    StatePush(log, Aborted(HostInterruption));
    hide StateIn, AbortIn;
    assert RunningIn(gates, log + [Aborted(HostInterruption)]) == RunningIn(gates, log);
  }

  lemma ClearedWhen(gates: seq<Gate>, setup: Setup, run: Run)
    requires Good(gates, setup, run) && run.abortCause.Some? && NonePending(gates, run.log)
    ensures Cleared(gates, run) && !Due(gates, setup, run.log)
  {
  }

  /** Wait until a running gate settles, and abort the aggregate if that is what its failure, or the host, calls for. */
  method AwaitFirst(gates: seq<Gate>, setup: Setup, run0: Run) returns (run: Run)
    requires Good(gates, setup, run0) && DistinctIds(gates) && run0.running != [] && !Due(gates, setup, run0.log)
    requires run0.abortCause.None? ==> NextStartable(gates, run0.log).None? || |run0.running| >= setup.maxActive
    requires Cleared(gates, run0)
    requires setup.options.forwardProcessSignals ==> setup.options.failFast
    ensures Good(gates, setup, run) && Cleared(gates, run) && !Due(gates, setup, run.log)
    ensures Work(gates, run.log) < Work(gates, run0.log)
  {
    MustAwait(gates, setup, run0);
    hide Good, DistinctIds, Work, StateIn, Legal, Due, Awaits, NextStartable, NextPending;
    run := run0;
    if setup.options.forwardProcessSignals && setup.outside.interrupted(run.waits) && run.abortCause.None? {
      MayInterrupt(gates, setup, run);
      AbortGood(gates, setup, run, HostInterruption);
      EventWork(gates, run.log, Aborted(HostInterruption));
      StillAwaits(gates, setup, run.log);
      run := Abort(run, HostInterruption);
    }
    hide May, Now;
    var i := setup.outside.first(run.waits) % |run.running|;
    var g := run.running[i];
    var observed;
    run, observed := Settle(gates, setup, run, i, setup.outside.outcome(run.waits, g.id));
    if run.abortCause.None? && setup.options.failFast && observed == Failed && !g.allowFailure {
      MayAbort(gates, setup, run, g);
      AbortGood(gates, setup, run, FailureOf(g.id));
      EventWork(gates, run.log, Aborted(FailureOf(g.id)));
      run := Abort(run, FailureOf(g.id));
      run := SkipPending(gates, setup, run, FailureOf(g.id));
      ClearedWhen(gates, setup, run);
    }
  }

  lemma NothingDone(gates: seq<Gate>, setup: Setup, states: map<string, GateState>)
    requires forall id :: id in states <==> HasId(gates, id)
    requires forall id :: id in states ==> states[id] == Pending
    ensures Good(gates, setup, Run(states, map[], [], None, 0, []))
  {
  }

  method InitialStates(gates: seq<Gate>) returns (states: map<string, GateState>)
    ensures forall id :: id in states <==> HasId(gates, id)
    ensures forall id :: id in states ==> states[id] == Pending
  {
    states := map[];
    for i := 0 to |gates|
      invariant forall id :: id in states <==> HasId(gates[..i], id)
      invariant forall id :: id in states ==> states[id] == Pending
    {
      assert gates[..i + 1] == gates[..i] + [gates[i]];
      forall id ensures HasId(gates[..i + 1], id) <==> HasId(gates[..i], id) || id == gates[i].id {
        HasIdMore(gates[..i], gates[i], id);
      }
      states := states[gates[i].id := Pending];
    }
    assert gates[..|gates|] == gates;
  }

  /** The results in the order of the gates, as they were observed. */
  ghost predicate Results(gates: seq<Gate>, results: seq<GateResult>, log: seq<Event>) {
    && |results| == |gates|
    && forall i :: 0 <= i < |gates| ==>
         results[i].gate == gates[i] && Observed(gates[i].id, results[i].status, results[i].reason) in log
  }

  method CollectResults(gates: seq<Gate>, ghost setup: Setup, run: Run)
    returns (results: seq<GateResult>)
    requires Good(gates, setup, run) && AllDone(gates, run.log)
    ensures Results(gates, results, run.log)
  {
    hide StateIn, Legal, AbortIn, Tracked, Listed;
    results := [];
    for i := 0 to |gates|
      invariant |results| == i
      invariant forall k :: 0 <= k < i ==>
                  results[k].gate == gates[k] && Observed(gates[k].id, results[k].status, results[k].reason) in run.log
    {
      assert gates[i] in gates;
      var result := ResultOrThrow(run.results, gates[i].id);
      results := results + [result.value];
    }
  }

  /** What an error found beforehand says. */
  ghost predicate Refused(gates: seq<Gate>, setup: Setup, error: RunError) {
    match error
    case Invalid(e) => Justified(gates, e)
    case BadConcurrency => Valid(gates) && !(1 <= setup.maxActive <= MAX_SAFE_INTEGER)
    case SignalsWithoutFailFast => Valid(gates) && setup.options.forwardProcessSignals && !setup.options.failFast
    case _ => false
  }

  lemma NoPending(gates: seq<Gate>, setup: Setup, run: Run)
    requires Good(gates, setup, run) && forall g :: g in gates ==> !StateIs(run.states, g.id, Pending)
    ensures NonePending(gates, run.log)
  {
    hide StateIn, Legal;
    forall g | g in gates ensures StateIn(run.log, g.id) != Pending { StateKnown(gates, setup, run, g); }
  }

  lemma LegalRun(gates: seq<Gate>, setup: Setup, run: Run)
    requires Good(gates, setup, run)
    ensures Legal(gates, setup, run.log)
  {
  }

  /** Run an aggregate. Whatever happens outside, it fails only for what it can check beforehand; otherwise the log is
      that of a whole run, and every gate has the result observed for it. */
  method RunGates(gates: seq<Gate>, setup: Setup) returns (r: Result<seq<GateResult>, RunError>, log: seq<Event>)
    ensures r.Ok? <==>
              && Valid(gates) && 1 <= setup.maxActive <= MAX_SAFE_INTEGER
              && (setup.options.forwardProcessSignals ==> setup.options.failFast)
    ensures r.Ok? ==> Whole(gates, setup, log) && Results(gates, r.value, log)
    ensures r.Err? ==> log == [] && Refused(gates, setup, r.error)
  {
    log := [];
    var wrong := ValidateGateGraph(gates);
    if wrong.Some? {
      return Err(Invalid(wrong.value)), [];
    }
    if !(1 <= setup.maxActive <= MAX_SAFE_INTEGER) {
      return Err(BadConcurrency), [];
    }
    if setup.options.forwardProcessSignals && !setup.options.failFast {
      return Err(SignalsWithoutFailFast), [];
    }
    assert DistinctIds(gates) && AllKnown(gates);
    var states := InitialStates(gates);
    NothingDone(gates, setup, states);
    var run := Run(states, map[], [], None, 0, []);
    hide Good, Valid, DistinctIds, AllKnown, Work, StateIn, Legal, AllDone, NonePending, NextStartable;
    hide Due, NextPending;
    while true
      invariant Good(gates, setup, run) && Cleared(gates, run) && !Due(gates, setup, run.log)
      decreases Work(gates, run.log)
    {
      var madeProgress := false;
      if run.abortCause.None? {
        run, madeProgress := StartReady(gates, setup, run);
      }
      if run.running == [] {
        if run.abortCause.Some? {
          run := SkipPending(gates, setup, run, run.abortCause.value);
          ClearedWhen(gates, setup, run);
          DoneWhen(gates, setup, run);
          break;
        }
        var now := run.states;
        var pending := Filter(gates, (g: Gate) => StateIs(now, g.id, Pending));
        if pending == [] {
          NoPending(gates, setup, run);
          DoneWhen(gates, setup, run);
          break;
        }
        run := SkipBlocked(gates, setup, run, pending);
      } else if !madeProgress {
        run := AwaitFirst(gates, setup, run);
      }
    }
    LegalRun(gates, setup, run);
    var results := CollectResults(gates, setup, run);
    r, log := Ok(results), run.log;
  }
}
