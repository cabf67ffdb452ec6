/** Every interleaving of the workers of the bounded concurrent map. */
module ConcurrentMap {
  import opened Numbers
  import opened Wrappers

  /** A worker has not started, awaits the operation on one index, or has returned. */
  datatype Worker = Ready | Awaiting(index: nat) | Returned

  /** The shared counter and results, the workers, and the indices whose operation was started or has rejected, in
      order. */
  datatype State<R> = State(next: nat, workers: seq<Worker>, results: map<nat, R>, started: seq<nat>,
                            rejected: seq<nat>)

  function Init<R(!new)>(n: nat, jobs: nat): State<R> {
    State(0, seq(Min(jobs, n), _ => Ready), map[], [], [])
  }

  /** From the loop test to the next await: claim an index and start its operation, or return. */
  function LoopHead<T(!new), R(!new)>(values: seq<Option<T>>, s: State<R>, w: nat): State<R>
    requires w < |s.workers|
  {
    if s.next >= |values| then s.(workers := s.workers[w := Returned])
    else
      var index := s.next;
      var claimed := s.(next := s.next + 1);
      if values[index].None? then claimed.(workers := s.workers[w := Returned])
      else claimed.(workers := s.workers[w := Awaiting(index)], started := s.started + [index])
  }

  /** The operation on index `i`, which worker `w` awaits, has settled: a rejection ends the worker. */
  function Settle<T(!new), R(!new)>(values: seq<Option<T>>, op: T -> Option<R>, s: State<R>, w: nat, i: nat): State<R>
    requires w < |s.workers| && i < |values| && values[i].Some?
  {
    match op(values[i].value)
    case Some(result) => s.(results := s.results[i := result])
    case None => s.(workers := s.workers[w := Returned], rejected := s.rejected + [i])
  }

  /** Worker `w` runs until it next awaits: from its start, or from the settling of its operation, none standing for a
      rejection. */
  function Resume<T(!new), R(!new)>(values: seq<Option<T>>, op: T -> Option<R>, s: State<R>, w: nat): State<R>
    requires w < |s.workers| && !s.workers[w].Returned?
    requires s.workers[w].Awaiting? ==> s.workers[w].index < |values| && values[s.workers[w].index].Some?
  {
    match s.workers[w]
    case Awaiting(i) =>
      var settled := Settle(values, op, s, w, i);
      if op(values[i].value).None? then settled else LoopHead(values, settled, w)
    case _ => LoopHead(values, s, w)
  }

  predicate CanResume<T(!new), R(!new)>(values: seq<Option<T>>, s: State<R>, w: nat) {
    && w < |s.workers| && !s.workers[w].Returned?
    && (s.workers[w].Awaiting? ==> s.workers[w].index < |values| && values[s.workers[w].index].Some?)
  }

  predicate Complete<R(!new)>(s: State<R>) {
    forall w :: 0 <= w < |s.workers| ==> s.workers[w].Returned?
  }

  /** A schedule: which worker resumes at each step. The states it passes through, if every step is possible. */
  ghost predicate Runs<T(!new), R(!new)>(values: seq<Option<T>>, op: T -> Option<R>, jobs: nat, schedule: seq<nat>,
                                         s: State<R>)
    decreases |schedule|, 1
  {
    if schedule == [] then s == Init(|values|, jobs)
    else exists before: State<R> :: RunStep(values, op, jobs, schedule, before, s)
  }

  ghost predicate RunStep<T(!new), R(!new)>(values: seq<Option<T>>, op: T -> Option<R>, jobs: nat, schedule: seq<nat>,
                                            before: State<R>, s: State<R>)
    requires schedule != []
    decreases |schedule|, 0
  {
    var w := schedule[|schedule| - 1];
    && Runs(values, op, jobs, schedule[..|schedule| - 1], before)
    && CanResume(values, before, w) && s == Resume(values, op, before, w)
  }

  /** The operation on `i` has a result or has rejected. */
  ghost predicate Settled<R(!new)>(s: State<R>, i: nat) {
    i in s.results || i in s.rejected
  }

  ghost predicate Awaits<R(!new)>(s: State<R>, w: nat, i: nat) {
    w < |s.workers| && s.workers[w] == Awaiting(i)
  }

  /** The started indices are the claimed ones that have a value, each once, in order. */
  ghost predicate Claims<T(!new), R(!new)>(values: seq<Option<T>>, s: State<R>) {
    && s.next <= |values|
    && (forall i :: 0 <= i < |s.started| ==> s.started[i] < s.next && values[s.started[i]].Some?)
    && (forall i, j :: 0 <= i < j < |s.started| ==> s.started[i] < s.started[j])
    && (forall i :: 0 <= i < s.next && values[i].Some? ==> i in s.started)
  }

  /** The stored results and rejections are those of started operations. */
  ghost predicate Stored<T(!new), R(!new)>(values: seq<Option<T>>, op: T -> Option<R>, s: State<R>)
    requires Claims(values, s)
  {
    && (forall i :: i in s.results ==> i in s.started && op(values[i].value) == Some(s.results[i]))
    && (forall i :: i in s.rejected ==> i in s.started && op(values[i].value) == None)
  }

  /** Workers other than `free` await distinct started indices that have not settled. */
  ghost predicate Separate<R(!new)>(s: State<R>, free: Option<nat>) {
    && (forall w: nat, i: nat :: Awaits(s, w, i) && free != Some(w) ==> i in s.started && !Settled(s, i))
    && (forall v: nat, w: nat, i: nat :: Awaits(s, v, i) && Awaits(s, w, i) && free != Some(v) && free != Some(w) ==>
                                           v == w)
  }

  /** Every started index that has not settled is awaited by a worker other than `free`. */
  ghost predicate Pending<R(!new)>(s: State<R>, free: Option<nat>) {
    forall i :: i in s.started && !Settled(s, i) ==> exists w: nat :: Awaits(s, w, i) && free != Some(w)
  }

  /** A worker ends only when the values are exhausted, one was undefined or an operation has rejected. */
  ghost predicate Justified<T(!new), R(!new)>(values: seq<Option<T>>, s: State<R>)
    requires s.next <= |values|
  {
    (exists w :: 0 <= w < |s.workers| && s.workers[w].Returned?) ==>
      s.next == |values| || s.rejected != [] || exists i :: 0 <= i < s.next && values[i].None?
  }

  /** What holds at every await point; while a worker runs, it is `free`. */
  ghost predicate Inv<T(!new), R(!new)>(values: seq<Option<T>>, op: T -> Option<R>, jobs: nat, s: State<R>,
                                        free: Option<nat>) {
    && |s.workers| == Min(jobs, |values|)
    && Claims(values, s) && Stored(values, op, s) && Separate(s, free) && Pending(s, free) && Justified(values, s)
  }

  lemma InitInv<T(!new), R(!new)>(values: seq<Option<T>>, op: T -> Option<R>, jobs: nat)
    ensures Inv(values, op, jobs, Init(|values|, jobs), None)
  {
  }

  lemma SettleInv<T(!new), R(!new)>(values: seq<Option<T>>, op: T -> Option<R>, jobs: nat, s: State<R>, w: nat, i: nat)
    requires Inv(values, op, jobs, s, None) && Awaits(s, w, i) && i < |values| && values[i].Some?
    ensures Inv(values, op, jobs, Settle(values, op, s, w, i), if op(values[i].value).Some? then Some(w) else None)
  {
    var after := Settle(values, op, s, w, i);
    assert forall v: nat, j: nat :: v != w ==> (Awaits(after, v, j) <==> Awaits(s, v, j));
    assert forall j :: Settled(after, j) <==> Settled(s, j) || j == i;
    forall j | j in after.started && !Settled(after, j) ensures exists v: nat :: Awaits(after, v, j) && v != w {
      var v: nat :| Awaits(s, v, j);
      assert Awaits(after, v, j);
    }
  }

  lemma StartInv<T(!new), R(!new)>(values: seq<Option<T>>, op: T -> Option<R>, jobs: nat, s: State<R>, w: nat)
    requires Inv(values, op, jobs, s, None) && w < |s.workers| && s.workers[w].Ready?
    ensures Inv(values, op, jobs, s, Some(w))
  {
  }

  lemma LoopHeadClaims<T(!new), R(!new)>(values: seq<Option<T>>, op: T -> Option<R>, s: State<R>, w: nat)
    requires w < |s.workers| && Claims(values, s) && Stored(values, op, s) && Justified(values, s)
    ensures var after := LoopHead(values, s, w);
            Claims(values, after) && Stored(values, op, after) && Justified(values, after)
  {
    var after := LoopHead(values, s, w);
    assert forall i :: i in after.started <==>
              i in s.started || (s.next < |values| && values[s.next].Some? && i == s.next);
    if exists v :: 0 <= v < |after.workers| && after.workers[v].Returned? {
      var v :| 0 <= v < |after.workers| && after.workers[v].Returned?;
      if v != w { assert s.workers[v].Returned?; }
    }
  }

  lemma LoopHeadWorkers<T(!new), R(!new)>(values: seq<Option<T>>, s: State<R>, w: nat)
    requires w < |s.workers| && Claims(values, s) && Separate(s, Some(w)) && Pending(s, Some(w))
    requires forall i :: Settled(s, i) ==> i in s.started
    ensures var after := LoopHead(values, s, w); Separate(after, None) && Pending(after, None)
  {
    var after := LoopHead(values, s, w);
    assert forall v: nat, i: nat :: v != w ==> (Awaits(after, v, i) <==> Awaits(s, v, i));
    assert s.next !in s.started;
    assert forall i :: Settled(after, i) <==> Settled(s, i);
    hide Claims, Settled;
    forall i | i in after.started && !Settled(after, i) ensures exists v: nat :: Awaits(after, v, i) {
      if i in s.started {
        var v: nat :| Awaits(s, v, i) && Some(w) != Some(v);
        assert Awaits(after, v, i);
      } else {
        assert Awaits(after, w, s.next);
      }
    }
  }

  lemma LoopHeadInv<T(!new), R(!new)>(values: seq<Option<T>>, op: T -> Option<R>, jobs: nat, s: State<R>, w: nat)
    requires w < |s.workers| && Inv(values, op, jobs, s, Some(w))
    ensures Inv(values, op, jobs, LoopHead(values, s, w), None)
  {
    hide Claims, Separate, Pending, Justified;
    LoopHeadClaims(values, op, s, w);
    LoopHeadWorkers(values, s, w);
  }

  /** Every step of every schedule keeps the invariant. */
  lemma {:induction false} RunsInv<T(!new), R(!new)>(values: seq<Option<T>>, op: T -> Option<R>, jobs: nat,
                                                     schedule: seq<nat>, s: State<R>)
    requires Runs(values, op, jobs, schedule, s)
    ensures Inv(values, op, jobs, s, None)
  {
    hide Inv, LoopHead;
    if schedule == [] {
      InitInv(values, op, jobs);
    } else {
      var before: State<R> :| RunStep(values, op, jobs, schedule, before, s);
      var w := schedule[|schedule| - 1];
      RunsInv(values, op, jobs, schedule[..|schedule| - 1], before);
      match before.workers[w]
      case Awaiting(i) =>
        SettleInv(values, op, jobs, before, w, i);
        if op(values[i].value).Some? { LoopHeadInv(values, op, jobs, Settle(values, op, before, w, i), w); }
      case Ready =>
        StartInv(values, op, jobs, before, w);
        LoopHeadInv(values, op, jobs, before, w);
    }
  }

  // ---------- What every run promises ----------

  /** The indices awaited by the first `k` workers. */
  ghost function AwaitedBy<R(!new)>(s: State<R>, k: nat): set<nat>
    requires k <= |s.workers|
  {
    if k == 0 then {}
    else AwaitedBy(s, k - 1) + if s.workers[k - 1].Awaiting? then {s.workers[k - 1].index} else {}
  }

  lemma {:induction false} AwaitedByBound<R(!new)>(s: State<R>, k: nat)
    requires k <= |s.workers|
    ensures |AwaitedBy(s, k)| <= k
    ensures forall w: nat, i: nat :: w < k && Awaits(s, w, i) ==> i in AwaitedBy(s, k)
  {
    if k > 0 { AwaitedByBound(s, k - 1); }
  }

  /** The indices whose operation was started and has not settled. */
  ghost function InFlight<R(!new)>(s: State<R>): set<nat> {
    set i | i in s.started && !Settled(s, i)
  }

  /** At any time: no operation has been started twice, and at most `min(jobs, n)` are in flight. */
  lemma InFlightBound<T(!new), R(!new)>(values: seq<Option<T>>, op: T -> Option<R>, jobs: nat, schedule: seq<nat>,
                                        s: State<R>)
    requires Runs(values, op, jobs, schedule, s)
    ensures forall i, j :: 0 <= i < j < |s.started| ==> s.started[i] != s.started[j]
    ensures |InFlight(s)| <= Min(jobs, |values|)
  {
    RunsInv(values, op, jobs, schedule, s);
    hide Runs;
    AwaitedByBound(s, |s.workers|);
    forall i | i in InFlight(s) ensures i in AwaitedBy(s, |s.workers|) {
      var w: nat :| Awaits(s, w, i);
    }
    assert |s.workers| == Min(jobs, |values|);
    hide *;
    SubsetSize(InFlight(s), AwaitedBy(s, |s.workers|));
  }

  /** Every index has a value, and its operation succeeds on it. */
  ghost predicate AllSucceed<T(!new), R(!new)>(values: seq<Option<T>>, op: T -> Option<R>) {
    forall i :: 0 <= i < |values| ==> values[i].Some? && op(values[i].value).Some?
  }

  ghost predicate HasAll<R(!new)>(n: nat, s: State<R>) {
    forall i :: 0 <= i < n ==> i in s.results
  }

  /** When no worker awaits, every started operation has settled, and a rejection is one of these. */
  lemma CompletedSettled<T(!new), R(!new)>(values: seq<Option<T>>, op: T -> Option<R>, jobs: nat, s: State<R>)
    requires Inv(values, op, jobs, s, None) && Complete(s)
    ensures forall i :: i in s.started ==> Settled(s, i)
    ensures s.rejected == [] <==> forall i :: i in s.started ==>
                                                i < |values| && values[i].Some? && op(values[i].value).Some?
  {
    assert forall w: nat, i: nat :: !Awaits(s, w, i);
    assert forall i :: i in s.started ==> Settled(s, i);
    hide Awaits, Separate, Pending, Justified;
    assert s.rejected != [] ==> s.rejected[0] in s.rejected;
  }

  /** The indices of `n` values, in order. */
  function Indices(n: nat): (r: seq<nat>)
    ensures |r| == n && forall i :: 0 <= i < n ==> r[i] == i
  {
    seq(n, i => i)
  }

  /** An increasing list of exactly the indices lists each once. */
  lemma {:induction false} ListsIndices(started: seq<nat>, n: nat)
    requires forall i, j :: 0 <= i < j < |started| ==> started[i] < started[j]
    requires forall k: nat :: k in started <==> k < n
    ensures started == Indices(n)
  {
    assert |started| > 0 ==> started[0] in started;
    if n > 0 {
      var top: nat := n - 1;
      assert top in started;
      var last := |started| - 1;
      var i :| 0 <= i <= last && started[i] == top;
      assert started[last] in started;
      assert started[last] == top;
      var rest := started[..last];
      assert started == rest + [top];
      forall k: nat ensures k in rest <==> k < n - 1 {
        assert k in started <==> k in rest || k == top;
        if k in rest {
          var j :| 0 <= j < last && rest[j] == k;
          assert started[j] < started[last];
        }
      }
      ListsIndices(rest, n - 1);
      assert Indices(n) == Indices(n - 1) + [top];
    }
  }

  /** A completed run: each result is its own index's; the call rejects exactly if an operation it started does; when it
      does not, every index has a result exactly when every input is defined; and every index has one at all exactly
      when every input is defined and every operation succeeds, each of which has then run once. */
  lemma CompletedRun<T(!new), R(!new)>(values: seq<Option<T>>, op: T -> Option<R>, jobs: nat, schedule: seq<nat>,
                                       s: State<R>)
    requires Runs(values, op, jobs, schedule, s) && Complete(s) && jobs >= 1
    ensures forall i :: i in s.results ==> i < |values| && values[i].Some? && op(values[i].value) == Some(s.results[i])
    ensures s.rejected == [] <==> forall i :: i in s.started ==>
                                                i < |values| && values[i].Some? && op(values[i].value).Some?
    ensures s.rejected == [] ==> (HasAll(|values|, s) <==> forall i :: 0 <= i < |values| ==> values[i].Some?)
    ensures HasAll(|values|, s) <==> AllSucceed(values, op)
    ensures AllSucceed(values, op) ==> s.rejected == [] && s.started == Indices(|values|)
  {
    RunsInv(values, op, jobs, schedule, s);
    hide Runs, Indices;
    CompletedSettled(values, op, jobs, s);
    hide Separate, Pending;
    if s.rejected == [] && forall i :: 0 <= i < |values| ==> values[i].Some? {
      if |values| > 0 { assert s.workers[0].Returned?; }
      assert s.next == |values|;
      forall i | 0 <= i < |values| ensures i in s.results { assert i in s.started && Settled(s, i); }
      hide Awaits, Justified, Stored;
      ListsIndices(s.started, |values|);
    }
  }

  /** A run that has not completed can go on. */
  lemma Progress<T(!new), R(!new)>(values: seq<Option<T>>, op: T -> Option<R>, jobs: nat, schedule: seq<nat>,
                                   s: State<R>)
    requires Runs(values, op, jobs, schedule, s) && !Complete(s)
    ensures exists w :: CanResume(values, s, w)
  {
    RunsInv(values, op, jobs, schedule, s);
    hide Runs;
    var w :| 0 <= w < |s.workers| && !s.workers[w].Returned?;
    if s.workers[w].Awaiting? { assert Awaits(s, w, s.workers[w].index); }
    assert CanResume(values, s, w);
  }

  function Weight(workers: seq<Worker>): nat {
    if workers == [] then 0
    else Weight(workers[..|workers| - 1])
         + match workers[|workers| - 1] { case Ready => 2 case Awaiting(_) => 1 case Returned => 0 }
  }

  lemma {:induction false} WeightChange(workers: seq<Worker>, w: nat, to: Worker)
    requires w < |workers| && !workers[w].Returned? && !to.Ready?
    ensures Weight(workers[w := to]) + (if workers[w].Ready? then 2 else 1)
         == Weight(workers) + if to.Awaiting? then 1 else 0
  {
    var n := |workers| - 1;
    if w < n {
      WeightChange(workers[..n], w, to);
      assert workers[w := to][..n] == workers[..n][w := to];
    } else {
      assert workers[w := to][..n] == workers[..n];
    }
  }

  lemma {:induction false} WeightReady(m: nat)
    ensures Weight(seq(m, _ => Ready)) == 2 * m
  {
    if m > 0 {
      assert seq(m, _ => Ready)[..m - 1] == seq(m - 1, _ => Ready);
      WeightReady(m - 1);
    }
  }

  /** A step uses up one unit of what remains: an index to claim, or a worker's weight. */
  lemma StepWeight<T(!new), R(!new)>(values: seq<Option<T>>, op: T -> Option<R>, jobs: nat, schedule: seq<nat>,
                                     before: State<R>, s: State<R>)
    requires schedule != [] && RunStep(values, op, jobs, schedule, before, s)
    requires before.next <= |values| && s.next <= |values|
    ensures (|values| - s.next) + Weight(s.workers) + 1 <= (|values| - before.next) + Weight(before.workers)
  {
    hide Runs, Weight;
    var w := schedule[|schedule| - 1];
    WeightChange(before.workers, w, s.workers[w]);
  }

  /** No schedule goes on for more than `n + 2 min(jobs, n)` steps. */
  lemma {:induction false} RunsEnd<T(!new), R(!new)>(values: seq<Option<T>>, op: T -> Option<R>, jobs: nat,
                                                     schedule: seq<nat>, s: State<R>)
    requires Runs(values, op, jobs, schedule, s)
    ensures |schedule| + (|values| - s.next) + Weight(s.workers) <= |values| + 2 * Min(jobs, |values|)
  {
    RunsInv(values, op, jobs, schedule, s);
    if schedule == [] {
      WeightReady(Min(jobs, |values|));
    } else {
      var before: State<R> :| RunStep(values, op, jobs, schedule, before, s);
      RunsInv(values, op, jobs, schedule[..|schedule| - 1], before);
      RunsEnd(values, op, jobs, schedule[..|schedule| - 1], before);
      StepWeight(values, op, jobs, schedule, before, s);
    }
  }
}
