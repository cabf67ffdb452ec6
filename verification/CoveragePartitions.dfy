/** Longest-processing-time assignment of test files to coverage partitions. */
module CoveragePartitions {
  import opened BucketHeap
  import opened FilledBuckets
  import opened GreedySchedule
  import opened Ordering
  import opened ScheduleBounds
  import opened Sums
  import opened Wrappers

  const UNKNOWN_FILE_WEIGHT: real := 1.0

  function WeightIn(weights: map<string, real>): string -> real {
    (file: string) => if file in weights then weights[file] else UNKNOWN_FILE_WEIGHT
  }

  datatype PartitionError = HeapIndexOutOfBounds | BucketMissing

  /** Heavier files first, then by name. */
  function HeavierFirst(weights: map<string, real>, locale: (string, string) -> int): (string, string) -> int {
    (a: string, b: string) =>
      if WeightIn(weights)(a) > WeightIn(weights)(b) then -1
      else if WeightIn(weights)(a) < WeightIn(weights)(b) then 1
      else locale(a, b)
  }

  /** A recorded file weighs what was recorded, any other as much as one. */
  lemma RecordedWeight(weights: map<string, real>, file: string)
    ensures Sum(WeightIn(weights), [file]) == if file in weights then weights[file] else 1.0
  {
  }

  /** The order in which files are placed. */
  function PlacementOrder(files: seq<string>, weights: map<string, real>,
                          locale: (string, string) -> int): seq<string> {
    Sort(files, HeavierFirst(weights, locale))
  }

  lemma HeavierFirstConsistent(weights: map<string, real>, locale: (string, string) -> int)
    requires Consistent(locale)
    ensures Consistent(HeavierFirst(weights, locale))
  {
    var compare := HeavierFirst(weights, locale);
    forall a: string, b: string ensures compare(a, b) < 0 <==> compare(b, a) > 0 { }
    forall a: string, b: string, c: string | compare(a, b) <= 0 && compare(b, c) <= 0 ensures compare(a, c) <= 0 { }
  }

  /** Files of one weight are in the order of their names. */
  ghost predicate NamedInOrder(w: string -> real, order: seq<string>, locale: (string, string) -> int) {
    forall i, j :: 0 <= i < j < |order| && w(order[i]) == w(order[j]) ==> locale(order[i], order[j]) <= 0
  }

  lemma WeightOrder(weights: map<string, real>, files: seq<string>, locale: (string, string) -> int)
    requires Consistent(locale)
    ensures var order := PlacementOrder(files, weights, locale);
            && Descending(WeightIn(weights), order) && multiset(order) == multiset(files)
            && NamedInOrder(WeightIn(weights), order, locale)
  {
    var compare := HeavierFirst(weights, locale);
    HeavierFirstConsistent(weights, locale);
    hide Consistent;
    SortSorts(files, compare);
    var order := Sort(files, compare);
    assert forall i, j :: 0 <= i < j < |order| ==> compare(order[i], order[j]) <= 0;
  }

  lemma {:induction false} InsertSize(x: string, s: seq<string>, compare: (string, string) -> int)
    ensures |Insert(x, s, compare)| == |s| + 1
  {
    if s != [] { InsertSize(x, s[1..], compare); }
  }

  lemma {:induction false} PlacementSize(files: seq<string>, weights: map<string, real>,
                                         locale: (string, string) -> int)
    ensures |PlacementOrder(files, weights, locale)| == |files|
  {
    var compare := HeavierFirst(weights, locale);
    if files != [] {
      PlacementSize(files[1..], weights, locale);
      InsertSize(files[0], Sort(files[1..], compare), compare);
    }
  }

  lemma GreedyStarts(w: string -> real, order: seq<string>, m: nat)
    ensures Greedy(w, order[..0], m, seq(m, _ => Bucket(0.0, [])))
  {
  }

  lemma NothingPlaced(files: seq<string>, weights: map<string, real>, m: nat, locale: (string, string) -> int)
    requires files == []
    ensures Greedy(WeightIn(weights), PlacementOrder(files, weights, locale), m, seq(m, _ => Bucket(0.0, [])))
  {
  }

  lemma LeastWithin(buckets: seq<Bucket>, b: nat)
    requires IsLeast(buckets, b)
    ensures b < |buckets|
  {
  }

  lemma GreedyGoesOn(w: string -> real, order: seq<string>, k: nat, m: nat, before: seq<Bucket>, b: nat)
    requires k < |order| && Greedy(w, order[..k], m, before) && IsLeast(before, b)
    ensures Greedy(w, order[..k + 1], m, Put(w, before, b, order[k]))
  {
    hide IsLeast;
    assert order[..k + 1][..k] == order[..k];
    assert b < |before| by { hide *; LeastWithin(before, b); }
    assert GreedyStep(w, order[..k + 1], m, before, b, Put(w, before, b, order[k]));
  }

  /** Assign files to partitions, heavier files first, each to the lightest partition. */
  method AssignWeightedPartitions(files: seq<string>, weights: map<string, real>, partitions: nat,
                                  locale: (string, string) -> int)
    returns (r: Result<seq<seq<string>>, PartitionError>, ghost buckets: seq<Bucket>)
    ensures r.Ok? <==> files == [] || partitions > 0
    ensures r.Err? ==> r.error == HeapIndexOutOfBounds
    ensures r.Ok? ==> Greedy(WeightIn(weights), PlacementOrder(files, weights, locale), partitions, buckets)
                      && r.value == FilesOf(buckets)
  {
    hide Greedy, PlacementOrder, WeightIn;
    ghost var w := WeightIn(weights);
    buckets := seq(partitions, _ => Bucket(0.0, []));
    if files == [] {
      NothingPlaced(files, weights, partitions, locale);
      return Ok(seq(partitions, _ => [])), buckets;
    }
    var weighted := PlacementOrder(files, weights, locale);
    PlacementSize(files, weights, locale);
    GreedyStarts(w, weighted, partitions);
    var held := new Bucket[partitions](_ => Bucket(0.0, []));
    var heap := new nat[partitions](i => i);
    NewHeap(partitions);
    assert heap[..] == seq(partitions, i => i) && held[..] == buckets;
    for k := 0 to |weighted|
      invariant partitions == 0 ==> k == 0
      invariant held.Length == partitions && Covers(heap[..], partitions) && HeapOrdered(held[..], heap[..])
      invariant Greedy(w, weighted[..k], partitions, held[..])
    {
      if heap.Length == 0 {
        return Err(HeapIndexOutOfBounds), buckets;
      }
      var top, file := heap[0], weighted[k];
      ghost var before := held[..];
      RootIsLeast(before, heap[..]);
      GrowRoot(w, before, heap[..], file);
      held[top] := Bucket(held[top].sum + WeightIn(weights)(file), held[top].files + [file]);
      assert held[..] == Put(w, before, top, file);
      GreedyGoesOn(w, weighted, k, partitions, before, top);
      SiftDown(held, heap, 0);
    }
    assert weighted[..|weighted|] == weighted;
    buckets := held[..];
    r := Ok(FilesOf(held[..]));
  }

  // ---------- The coordinator ----------

  /** The total weight of a partition's files. */
  function PartitionWeight(weights: map<string, real>, files: seq<string>): real {
    Sum(WeightIn(weights), files)
  }

  function HeavierPartition(weights: map<string, real>): (seq<string>, seq<string>) -> int {
    (a: seq<string>, b: seq<string>) =>
      if PartitionWeight(weights, a) > PartitionWeight(weights, b) then -1
      else if PartitionWeight(weights, a) < PartitionWeight(weights, b) then 1
      else 0
  }

  ghost predicate NoneEmpty(groups: seq<seq<string>>) {
    forall i :: 0 <= i < |groups| ==> groups[i] != []
  }

  /** The first partition without files, which the coordinator refuses to run. */
  function FirstEmpty(assignments: seq<seq<string>>): (r: Option<nat>)
    ensures r.Some? ==> r.value < |assignments| && assignments[r.value] == [] && NoneEmpty(assignments[..r.value])
    ensures r.None? <==> NoneEmpty(assignments)
  {
    if assignments == [] then None
    else if assignments[0] == [] then Some(0)
    else match FirstEmpty(assignments[1..])
      case None => None
      case Some(i) => Some(i + 1)
  }

  /** No partition weighs more in all than one before it. */
  ghost predicate Heavier(w: string -> real, groups: seq<seq<string>>) {
    forall i, j :: 0 <= i < j < |groups| ==> Sum(w, groups[i]) >= Sum(w, groups[j])
  }

  /** The partitions hold all the files, the heaviest partition first. */
  ghost predicate HeaviestFirst(weights: map<string, real>, files: seq<string>, partitions: nat,
                                groups: seq<seq<string>>) {
    && |groups| == partitions && multiset(Flatten(groups)) == multiset(files)
    && Heavier(WeightIn(weights), groups)
  }

  lemma IsHeaviestFirst(files: seq<string>, weights: map<string, real>, partitions: nat, groups: seq<seq<string>>)
    requires |groups| == partitions && multiset(Flatten(groups)) == multiset(files)
    requires Heavier(WeightIn(weights), groups)
    ensures HeaviestFirst(weights, files, partitions, groups)
  {
  }

  /** At most 4/3 - 1/(3m) times as much. */
  ghost predicate WithinBound(m: nat, load: real, best: real) {
    3.0 * m as real * load <= (4.0 * m as real - 1.0) * best
  }

  /** The heaviest partition is within the bound of that of any assignment of the same files to as many partitions. */
  ghost predicate NearBest(w: string -> real, files: seq<string>, groups: seq<seq<string>>) {
    groups != [] && forall other: seq<seq<string>> :: |other| == |groups| &&
                                                      multiset(Flatten(other)) == multiset(files) ==>
      WithinBound(|groups|, Heaviest(w, groups), Heaviest(w, other))
  }

  lemma OtherBound(w: string -> real, order: seq<string>, m: nat, buckets: seq<Bucket>, other: seq<seq<string>>)
    requires Greedy(w, order, m, buckets) && NonNegative(w, order) && Descending(w, order)
    requires m > 0 && |other| == m && multiset(Flatten(other)) == multiset(order)
    ensures |buckets| == m && WithinBound(m, Heaviest(w, FilesOf(buckets)), Heaviest(w, other))
  {
    hide Greedy, Descending, Flatten, Heaviest;
    LongestFirstBound(w, order, m, buckets, other);
  }

  lemma OrderBound(w: string -> real, files: seq<string>, order: seq<string>, m: nat, buckets: seq<Bucket>)
    requires Greedy(w, order, m, buckets) && Descending(w, order) && multiset(order) == multiset(files) && m > 0
    ensures NonNegative(w, files) ==> NearBest(w, files, FilesOf(buckets))
  {
    hide Greedy, Descending, Flatten, Heaviest, WithinBound;
    if NonNegative(w, files) {
      assert forall x :: x in multiset(order) ==> x in files;
      GreedyConserves(w, order, m, buckets);
      forall other: seq<seq<string>> | |other| == m && multiset(Flatten(other)) == multiset(files)
        ensures WithinBound(m, Heaviest(w, FilesOf(buckets)), Heaviest(w, other))
      {
        OtherBound(w, order, m, buckets, other);
      }
    }
  }

  /** The schedule for the placement order is within the longest-processing-time bound of every other assignment. */
  lemma ScheduleBound(files: seq<string>, weights: map<string, real>, m: nat, locale: (string, string) -> int,
                      buckets: seq<Bucket>)
    requires Consistent(locale) && m > 0
    requires Greedy(WeightIn(weights), PlacementOrder(files, weights, locale), m, buckets)
    ensures NonNegative(WeightIn(weights), files) ==> NearBest(WeightIn(weights), files, FilesOf(buckets))
  {
    hide *;
    WeightOrder(weights, files, locale);
    OrderBound(WeightIn(weights), files, PlacementOrder(files, weights, locale), m, buckets);
  }

  lemma SameBound(w: string -> real, files: seq<string>, a: seq<seq<string>>, b: seq<seq<string>>)
    requires |a| == |b| > 0 && Heaviest(w, a) == Heaviest(w, b)
    ensures NearBest(w, files, a) ==> NearBest(w, files, b)
  {
    hide Heaviest, Flatten, WithinBound;
  }

  lemma SameHeaviest(w: string -> real, files: seq<string>, a: seq<seq<string>>, b: seq<seq<string>>)
    requires |a| == |b| > 0 && forall x :: x in a <==> x in b
    ensures NearBest(w, files, a) ==> NearBest(w, files, b)
  {
    HeaviestIs(w, a);
    HeaviestIs(w, b);
    hide NearBest, Heaviest, Sum, WithinBound;
    var i :| 0 <= i < |a| && Sum(w, a[i]) == Heaviest(w, a);
    var j :| 0 <= j < |b| && Sum(w, b[j]) == Heaviest(w, b);
    assert a[i] in b && b[j] in a;
    assert Heaviest(w, a) == Heaviest(w, b);
    SameBound(w, files, a, b);
  }

  lemma AssignedFacts(files: seq<string>, weights: map<string, real>, partitions: nat, locale: (string, string) -> int,
                      buckets: seq<Bucket>)
    requires Consistent(locale)
    requires Greedy(WeightIn(weights), PlacementOrder(files, weights, locale), partitions, buckets)
    ensures |FilesOf(buckets)| == partitions && multiset(Flatten(FilesOf(buckets))) == multiset(files)
    ensures NoneEmpty(FilesOf(buckets)) <==>
              partitions <= |files| && partitions <= Weighty(WeightIn(weights), files) + 1
  {
    hide Greedy, Consistent, Descending, Flatten, Weighty, WeightIn;
    WeightOrder(weights, files, locale);
    GreedyConserves(WeightIn(weights), PlacementOrder(files, weights, locale), partitions, buckets);
    AllFilledWhen(WeightIn(weights), files, PlacementOrder(files, weights, locale), partitions, buckets);
    assert forall b :: 0 <= b < partitions ==> FilesOf(buckets)[b] == buckets[b].files;
  }

  /** Enough files do not fill every partition when weights may be negative: the first to sink takes all the rest. */
  lemma NegativeWeightsLeaveEmpty(weights: map<string, real>, locale: (string, string) -> int, buckets: seq<Bucket>)
    requires Consistent(locale) && weights == map["a" := -1.0, "b" := -1.0]
    requires Greedy(WeightIn(weights), PlacementOrder(["a", "b"], weights, locale), 2, buckets)
    ensures !NoneEmpty(FilesOf(buckets))
  {
    hide Greedy, Consistent;
    AssignedFacts(["a", "b"], weights, 2, locale, buckets);
    assert ["a", "b"][..1] == ["a"];
  }

  lemma SameEmptiness(a: seq<seq<string>>, b: seq<seq<string>>)
    requires forall x :: x in a <==> x in b
    ensures NoneEmpty(a) <==> NoneEmpty(b)
  {
    assert NoneEmpty(a) <==> [] !in a;
    assert NoneEmpty(b) <==> [] !in b;
  }

  lemma HeavierPartitionConsistent(weights: map<string, real>)
    ensures Consistent(HeavierPartition(weights))
  {
    hide PartitionWeight;
    var compare := HeavierPartition(weights);
    forall a: seq<string>, b: seq<string> ensures compare(a, b) < 0 <==> compare(b, a) > 0 { }
    forall a: seq<string>, b: seq<string>, c: seq<string> | compare(a, b) <= 0 && compare(b, c) <= 0
      ensures compare(a, c) <= 0
    {
    }
  }

  lemma {:induction false} FlattenConcat(a: seq<seq<string>>, b: seq<seq<string>>)
    ensures Flatten(a + b) == Flatten(a) + Flatten(b)
  {
    if b == [] {
      assert a + b == a;
    } else {
      FlattenConcat(a, b[..|b| - 1]);
      assert (a + b)[..|a + b| - 1] == a + b[..|b| - 1];
    }
  }

  /** The files held in all do not depend on the order of the partitions. */
  lemma {:induction false} FlattenPermutation(a: seq<seq<string>>, b: seq<seq<string>>)
    requires multiset(a) == multiset(b)
    ensures multiset(Flatten(a)) == multiset(Flatten(b))
  {
    if a == [] {
      assert |b| == |multiset(b)| == 0;
    } else {
      var x := a[|a| - 1];
      assert a == a[..|a| - 1] + [x];
      assert x in multiset(b);
      var i :| 0 <= i < |b| && b[i] == x;
      var c := b[..i] + b[i + 1..];
      assert b == b[..i] + [x] + b[i + 1..];
      assert multiset(a[..|a| - 1]) == multiset(a) - multiset{x};
      assert multiset(c) == multiset(b) - multiset{x};
      FlattenPermutation(a[..|a| - 1], c);
      FlattenConcat(b[..i], b[i + 1..]);
      FlattenConcat(b[..i] + [x], b[i + 1..]);
      assert (b[..i] + [x])[..i] == b[..i];
    }
  }

  ghost function Weighing(w: string -> real, load: real): seq<string> -> bool {
    (group: seq<string>) => Sum(w, group) == load
  }

  /** Partitions of one weight are in the order in which they were. */
  ghost predicate EqualInOrder(w: string -> real, groups: seq<seq<string>>, sorted: seq<seq<string>>) {
    forall load: real :: Filter(sorted, Weighing(w, load)) == Filter(groups, Weighing(w, load))
  }

  lemma SortedLoad(weights: map<string, real>, groups: seq<seq<string>>, sorted: seq<seq<string>>, load: real)
    requires StablySorts(sorted, groups, HeavierPartition(weights)) && forall x :: x in sorted <==> x in groups
    ensures Filter(sorted, Weighing(WeightIn(weights), load)) == Filter(groups, Weighing(WeightIn(weights), load))
  {
    hide Sum, Ascending;
    var w, compare := WeightIn(weights), HeavierPartition(weights);
    if x :| x in groups && Sum(w, x) == load {
      FilterSame(sorted, Tying(compare, x), Weighing(w, load));
      FilterSame(groups, Tying(compare, x), Weighing(w, load));
    } else {
      FilterNone(sorted, Weighing(w, load));
      FilterNone(groups, Weighing(w, load));
    }
  }

  lemma SortedLoads(weights: map<string, real>, groups: seq<seq<string>>, sorted: seq<seq<string>>)
    requires StablySorts(sorted, groups, HeavierPartition(weights)) && forall x :: x in sorted <==> x in groups
    ensures Heavier(WeightIn(weights), sorted) && EqualInOrder(WeightIn(weights), groups, sorted)
  {
    hide Sum, Weighing, Tying;
    forall i, j | 0 <= i < j < |sorted| ensures Sum(WeightIn(weights), sorted[i]) >= Sum(WeightIn(weights), sorted[j]) {
      assert HeavierPartition(weights)(sorted[i], sorted[j]) <= 0;
    }
    forall load: real
      ensures Filter(sorted, Weighing(WeightIn(weights), load)) == Filter(groups, Weighing(WeightIn(weights), load))
    {
      SortedLoad(weights, groups, sorted, load);
    }
  }

  lemma SortedPartitions(groups: seq<seq<string>>, weights: map<string, real>)
    ensures var sorted := Sort(groups, HeavierPartition(weights));
            && |sorted| == |groups| && multiset(Flatten(sorted)) == multiset(Flatten(groups))
            && (forall x :: x in sorted <==> x in groups)
            && Heavier(WeightIn(weights), sorted) && EqualInOrder(WeightIn(weights), groups, sorted)
  {
    var compare := HeavierPartition(weights);
    HeavierPartitionConsistent(weights);
    hide Consistent, Flatten, PartitionWeight, Sort;
    SortStable(groups, compare);
    SortSorts(groups, compare);
    SortMembers(groups, compare);
    var sorted := Sort(groups, compare);
    FlattenPermutation(groups, sorted);
    SortedLoads(weights, groups, sorted);
  }

  /** The partitions of a greedy schedule in placement order, the heaviest partition first. */
  ghost predicate Schedules(weights: map<string, real>, files: seq<string>, partitions: nat,
                            locale: (string, string) -> int, groups: seq<seq<string>>)
  {
    exists buckets ::
      && Greedy(WeightIn(weights), PlacementOrder(files, weights, locale), partitions, buckets)
      && groups == Sort(FilesOf(buckets), HeavierPartition(weights))
  }

  /** The first partition without files of such a schedule. */
  ghost predicate RefusedAt(weights: map<string, real>, files: seq<string>, partitions: nat,
                            locale: (string, string) -> int, index: nat)
  {
    exists groups :: Schedules(weights, files, partitions, locale, groups) && FirstEmpty(groups) == Some(index)
  }

  lemma IsSchedule(weights: map<string, real>, files: seq<string>, partitions: nat, locale: (string, string) -> int,
                   buckets: seq<Bucket>)
    requires Greedy(WeightIn(weights), PlacementOrder(files, weights, locale), partitions, buckets)
    ensures Schedules(weights, files, partitions, locale, Sort(FilesOf(buckets), HeavierPartition(weights)))
  {
    hide Greedy, Sort;
  }

  lemma IsRefused(weights: map<string, real>, files: seq<string>, partitions: nat, locale: (string, string) -> int,
                  groups: seq<seq<string>>, index: nat)
    requires Schedules(weights, files, partitions, locale, groups) && FirstEmpty(groups) == Some(index)
    ensures RefusedAt(weights, files, partitions, locale, index)
  {
    hide Schedules;
  }

  lemma {:induction false} SinglesFlatten(groups: seq<seq<string>>, n: nat)
    requires n <= |groups|
    requires forall i :: 0 <= i < |groups| ==> |groups[i]| == if i < n then 1 else 0
    ensures |Flatten(groups)| == n
  {
    if groups != [] {
      var k := |groups| - 1;
      SinglesFlatten(groups[..k], if n <= k then n else k);
    }
  }

  /** A partition without weight holds no file when every file weighs something. */
  lemma WeightlessEmpty(weights: map<string, real>, group: seq<string>)
    requires forall x :: x in group ==> WeightIn(weights)(x) > 0.0
    ensures Sum(WeightIn(weights), group) <= 0.0 ==> group == []
  {
    if group != [] {
      SumNonNegative(WeightIn(weights), group);
      assert group[0] in group;
    }
  }

  /** What every partition of the schedule holds when files are too few and weigh something. */
  lemma FewFiles(weights: map<string, real>, files: seq<string>, partitions: nat, locale: (string, string) -> int,
                 groups: seq<seq<string>>)
    requires Consistent(locale) && |files| <= partitions && Schedules(weights, files, partitions, locale, groups)
    requires forall x :: x in files ==> WeightIn(weights)(x) > 0.0
    ensures HeaviestFirst(weights, files, partitions, groups)
    ensures forall g :: g in groups ==> |g| <= 1 && forall x :: x in g ==> WeightIn(weights)(x) > 0.0
  {
    hide Greedy, Consistent, Descending, Flatten, Sort, PartitionWeight, WeightIn;
    var w, order := WeightIn(weights), PlacementOrder(files, weights, locale);
    var buckets: seq<Bucket> :|
      Greedy(w, order, partitions, buckets) && groups == Sort(FilesOf(buckets), HeavierPartition(weights));
    WeightOrder(weights, files, locale);
    assert forall x :: x in order ==> x in files by {
      assert forall x :: x in order ==> x in multiset(order);
      assert forall x :: x in multiset(files) ==> x in files;
    }
    assert |multiset(order)| == |order| && |multiset(files)| == |files|;
    GreedyConserves(w, order, partitions, buckets);
    GreedyMembers(w, order, partitions, buckets);
    AtMostOneEach(w, order, partitions, buckets);
    SortedPartitions(FilesOf(buckets), weights);
    forall g | g in groups ensures |g| <= 1 && forall x :: x in g ==> WeightIn(weights)(x) > 0.0 {
      assert g in FilesOf(buckets);
      var b :| 0 <= b < partitions && g == buckets[b].files;
      forall x | x in g ensures WeightIn(weights)(x) > 0.0 {
        assert x in buckets[b].files;
        assert x in order;
      }
    }
  }

  lemma NoWeight(weights: map<string, real>, group: seq<string>)
    requires group == []
    ensures Sum(WeightIn(weights), group) == 0.0
  {
  }

  lemma FilledFirst(weights: map<string, real>, files: seq<string>, partitions: nat, groups: seq<seq<string>>,
                    index: nat)
    requires HeaviestFirst(weights, files, partitions, groups) && FirstEmpty(groups) == Some(index)
    requires forall g :: g in groups ==> |g| <= 1 && forall x :: x in g ==> WeightIn(weights)(x) > 0.0
    ensures index < |groups| && forall i :: 0 <= i < |groups| ==> |groups[i]| == if i < index then 1 else 0
  {
    hide Flatten, WeightIn, Sum, FirstEmpty;
    forall i | 0 <= i < |groups| ensures |groups[i]| == if i < index then 1 else 0 {
      assert groups[i] in groups;
      if i < index {
        assert groups[i] == groups[..index][i];
      } else {
        NoWeight(weights, groups[index]);
        assert Sum(WeightIn(weights), groups[index]) >= Sum(WeightIn(weights), groups[i]);
        WeightlessEmpty(weights, groups[i]);
      }
    }
  }

  /** When every file weighs something, the partition refused is the one after as many as there are files. */
  lemma RefusedAfterFiles(weights: map<string, real>, files: seq<string>, partitions: nat,
                          locale: (string, string) -> int, index: nat)
    requires Consistent(locale) && |files| <= partitions && RefusedAt(weights, files, partitions, locale, index)
    requires forall x :: x in files ==> WeightIn(weights)(x) > 0.0
    ensures index == |files|
  {
    var groups :| Schedules(weights, files, partitions, locale, groups) && FirstEmpty(groups) == Some(index);
    FewFiles(weights, files, partitions, locale, groups);
    hide Consistent, Flatten, Schedules, WeightIn, RefusedAt;
    FilledFirst(weights, files, partitions, groups, index);
    SinglesFlatten(groups, index);
    assert |multiset(Flatten(groups))| == |Flatten(groups)| && |multiset(files)| == |files|;
  }

  datatype AssignError = Heap(error: PartitionError) | EmptyPartition(index: nat)

  /** Assign the files, order the partitions heaviest first, and refuse an empty one. */
  method AssignFiles(files: seq<string>, weights: map<string, real>, partitions: nat, locale: (string, string) -> int)
    returns (r: Result<seq<seq<string>>, AssignError>)
    requires Consistent(locale) && partitions >= 2
    ensures r.Ok? <==> partitions <= |files| && partitions <= Weighty(WeightIn(weights), files) + 1
    ensures r.Ok? ==> HeaviestFirst(weights, files, partitions, r.value) && NoneEmpty(r.value)
    ensures r.Ok? ==> Schedules(weights, files, partitions, locale, r.value)
    ensures r.Err? ==> r.error.EmptyPartition? && RefusedAt(weights, files, partitions, locale, r.error.index)
    ensures r.Ok? && NonNegative(WeightIn(weights), files) ==> NearBest(WeightIn(weights), files, r.value)
  {
    hide *;
    var placed, buckets := AssignWeightedPartitions(files, weights, partitions, locale);
    AssignedFacts(files, weights, partitions, locale, buckets);
    ScheduleBound(files, weights, partitions, locale, buckets);
    var sorted := Sort(placed.value, HeavierPartition(weights));
    SortedPartitions(placed.value, weights);
    SameEmptiness(placed.value, sorted);
    IsHeaviestFirst(files, weights, partitions, sorted);
    IsSchedule(weights, files, partitions, locale, buckets);
    var empty := FirstEmpty(sorted);
    if empty.Some? {
      IsRefused(weights, files, partitions, locale, sorted, empty.value);
      return Err(EmptyPartition(empty.value));
    }
    SameHeaviest(WeightIn(weights), files, placed.value, sorted);
    r := Ok(sorted);
  }
}
