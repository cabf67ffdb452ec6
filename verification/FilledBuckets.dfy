/** Which buckets of a greedy schedule hold files. */
module FilledBuckets {
  import opened GreedySchedule
  import opened Numbers
  import opened Sums

  ghost function Filled(buckets: seq<Bucket>): set<int> {
    set b | 0 <= b < |buckets| && buckets[b].files != []
  }

  /** How many files have a weight of at least zero. */
  function Weighty(w: string -> real, s: seq<string>): nat {
    if s == [] then 0 else Weighty(w, s[..|s| - 1]) + if w(s[|s| - 1]) >= 0.0 then 1 else 0
  }

  lemma {:induction false} WeightyAtMost(w: string -> real, s: seq<string>)
    ensures Weighty(w, s) <= |s|
    ensures Weighty(w, s) == |s| ==> NonNegative(w, s)
  {
    if s != [] {
      WeightyAtMost(w, s[..|s| - 1]);
      assert s == s[..|s| - 1] + [s[|s| - 1]];
    }
  }

  lemma {:induction false} NonNegativeWeighty(w: string -> real, s: seq<string>)
    requires NonNegative(w, s)
    ensures Weighty(w, s) == |s|
  {
    if s != [] { NonNegativeWeighty(w, s[..|s| - 1]); }
  }

  /** A bucket has taken a file of negative weight and stays the least one. */
  ghost predicate Sunk(buckets: seq<Bucket>) {
    exists b :: 0 <= b < |buckets| && buckets[b].files != [] && buckets[b].sum < 0.0
  }

  function Upto(n: nat): (r: set<int>)
    ensures |r| == n && forall c :: c in r <==> 0 <= c < n
  {
    if n == 0 then {} else Upto(n - 1) + {n - 1}
  }

  lemma FilledBound(buckets: seq<Bucket>)
    ensures |Filled(buckets)| <= |buckets|
    ensures |Filled(buckets)| == |buckets| <==> forall b :: 0 <= b < |buckets| ==> buckets[b].files != []
  {
    assert Filled(buckets) <= Upto(|buckets|);
    SubsetSize(Filled(buckets), Upto(|buckets|));
    if forall b :: 0 <= b < |buckets| ==> buckets[b].files != [] {
      assert Filled(buckets) == Upto(|buckets|);
    }
    if Filled(buckets) == Upto(|buckets|) {
      forall b | 0 <= b < |buckets| ensures buckets[b].files != [] {
        assert b in Filled(buckets);
      }
    }
  }

  lemma FilledStep(w: string -> real, before: seq<Bucket>, b: nat, x: string)
    requires b < |before|
    ensures Filled(Put(w, before, b, x)) == Filled(before) + {b as int}
    ensures |Filled(Put(w, before, b, x))| == |Filled(before)| + if before[b].files == [] then 1 else 0
  {
    assert b in Filled(before) <==> before[b].files != [];
    if b in Filled(before) { assert Filled(before) + {b as int} == Filled(before); }
  }

  /** While the sums are non-negative, an empty bucket is less than any other, so it is filled first. */
  lemma FillEmptyFirst(before: seq<Bucket>, b: nat)
    requires IsLeast(before, b) && |Filled(before)| < |before|
    requires forall c :: 0 <= c < |before| ==> before[c].sum >= 0.0 && (before[c].files == [] ==> before[c].sum == 0.0)
    ensures before[b].files == []
  {
    FilledBound(before);
    var c :| 0 <= c < |before| && before[c].files == [];
    assert !Less(before[c], before[b]);
  }

  lemma StaySunk(before: seq<Bucket>, b: nat)
    requires IsLeast(before, b) && Sunk(before)
    ensures before[b].sum < 0.0
  {
    var s :| 0 <= s < |before| && before[s].files != [] && before[s].sum < 0.0;
    assert !Less(before[s], before[b]);
  }

  lemma NegativeLast(w: string -> real, order: seq<string>)
    requires order != [] && Descending(w, order) && Weighty(w, order[..|order| - 1]) < |order| - 1
    ensures w(order[|order| - 1]) < 0.0
  {
    var n := |order| - 1;
    if w(order[n]) >= 0.0 {
      assert forall x :: x in order[..n] ==> w(x) >= 0.0;
      NonNegativeWeighty(w, order[..n]);
    }
  }

  lemma FilledMore(w: string -> real, order: seq<string>, before: seq<Bucket>, b: nat)
    requires order != [] && Descending(w, order) && IsLeast(before, b)
    requires var n, p := |order| - 1, Weighty(w, order[..|order| - 1]);
             && (p < n && |Filled(before)| < |before| ==> Sunk(before))
             && |Filled(before)| == (if p >= |before| then |before| else if p < n then p + 1 else p)
             && (p == n ==> forall c :: 0 <= c < |before| ==> before[c].sum >= 0.0)
    requires forall c :: 0 <= c < |before| && before[c].files == [] ==> before[c].sum == 0.0
    ensures var after, p := Put(w, before, b, order[|order| - 1]), Weighty(w, order);
            && (p < |order| && |Filled(after)| < |before| ==> Sunk(after))
            && |Filled(after)| == (if p >= |before| then |before| else if p < |order| then p + 1 else p)
  {
    var n := |order| - 1;
    FilledStep(w, before, b, order[n]);
    FilledBound(before);
    WeightyAtMost(w, order[..n]);
    hide Filled, IsLeast;
    if Weighty(w, order[..n]) == n {
      if |Filled(before)| < |before| {
        FillEmptyFirst(before, b);
      }
    } else {
      NegativeLast(w, order);
      if |Filled(before)| < |before| {
        StaySunk(before, b);
      }
    }
  }

  lemma GreedySums(w: string -> real, order: seq<string>, before: seq<Bucket>)
    requires multiset(Flatten(FilesOf(before))) == multiset(order)
    requires forall b :: 0 <= b < |before| ==> before[b].sum == Sum(w, before[b].files)
    ensures Weighty(w, order) == |order| ==> forall b :: 0 <= b < |before| ==> before[b].sum >= 0.0
  {
    if Weighty(w, order) == |order| {
      WeightyAtMost(w, order);
      FlattenedFiles(w, order, FilesOf(before));
      forall b | 0 <= b < |before| ensures before[b].sum >= 0.0 {
        assert NonNegative(w, FilesOf(before)[b]);
        SumNonNegative(w, before[b].files);
      }
    }
  }

  /** How many buckets hold files after files in descending order of weight have been placed. */
  lemma {:induction false} FilledCount(w: string -> real, order: seq<string>, m: nat, buckets: seq<Bucket>)
    requires Greedy(w, order, m, buckets) && Descending(w, order)
    ensures |buckets| == m
    ensures var p := Weighty(w, order);
            && (p < |order| && |Filled(buckets)| < m ==> Sunk(buckets))
            && |Filled(buckets)| == (if p >= m then m else if p < |order| then p + 1 else p)
    decreases |order|
  {
    if order == [] {
      assert Filled(buckets) == {};
    } else {
      var n := |order| - 1;
      var before: seq<Bucket>, b: nat :| GreedyStep(w, order, m, before, b, buckets);
      FilledCount(w, order[..n], m, before);
      GreedyConserves(w, order[..n], m, before);
      GreedySums(w, order[..n], before);
      FilledMore(w, order, before, b);
    }
  }

  lemma {:induction false} WeightyIsSum(w: string -> real, s: seq<string>)
    ensures Weighty(w, s) as real == Sum((x: string) => if w(x) >= 0.0 then 1.0 else 0.0, s)
  {
    if s != [] { WeightyIsSum(w, s[..|s| - 1]); }
  }

  /** Every partition gets a file exactly when there are enough files and at most one partition more than files of
      weight zero or more. */
  lemma AllFilledWhen(w: string -> real, files: seq<string>, order: seq<string>, m: nat, buckets: seq<Bucket>)
    requires Greedy(w, order, m, buckets) && Descending(w, order) && multiset(order) == multiset(files)
    ensures |buckets| == m
    ensures (forall b :: 0 <= b < m ==> buckets[b].files != []) <==> m <= |files| && m <= Weighty(w, files) + 1
  {
    FilledCount(w, order, m, buckets);
    FilledBound(buckets);
    WeightyAtMost(w, order);
    var one := (x: string) => if w(x) >= 0.0 then 1.0 else 0.0;
    WeightyIsSum(w, order);
    WeightyIsSum(w, files);
    SumPermutation(one, order, files);
    assert |multiset(order)| == |order| && |multiset(files)| == |files|;
  }

  /** With weights of zero or more, every partition gets a file exactly when there are enough files. */
  lemma AllFilledWhenEnough(w: string -> real, files: seq<string>, order: seq<string>, m: nat, buckets: seq<Bucket>)
    requires Greedy(w, order, m, buckets) && Descending(w, order) && multiset(order) == multiset(files)
    requires NonNegative(w, files)
    ensures |buckets| == m
    ensures (forall b :: 0 <= b < m ==> buckets[b].files != []) <==> m <= |files|
  {
    hide Greedy, Descending;
    AllFilledWhen(w, files, order, m, buckets);
    NonNegativeWeighty(w, files);
  }

  /** Files that all weigh the same are spread evenly. */
  lemma {:induction false} EqualWeightsEvenSizes(w: string -> real, order: seq<string>, m: nat, buckets: seq<Bucket>,
                                                 each: real)
    requires Greedy(w, order, m, buckets) && each >= 0.0 && forall x :: x in order ==> w(x) == each
    ensures |buckets| == m
    ensures forall b :: 0 <= b < m ==> buckets[b].sum == Times(each, |buckets[b].files|)
    ensures forall b, c :: 0 <= b < m && 0 <= c < m ==> |buckets[b].files| <= |buckets[c].files| + 1
    decreases |order|
  {
    if order != [] {
      var n := |order| - 1;
      var before: seq<Bucket>, b: nat :| GreedyStep(w, order, m, before, b, buckets);
      EqualWeightsEvenSizes(w, order[..n], m, before, each);
      assert order[n] in order;
    }
  }

  /** No more files than buckets, all of them of weight zero or more, lie in buckets of their own. */
  lemma {:induction false} AtMostOneEach(w: string -> real, order: seq<string>, m: nat, buckets: seq<Bucket>)
    requires Greedy(w, order, m, buckets) && Descending(w, order) && NonNegative(w, order) && |order| <= m
    ensures |buckets| == m && forall b :: 0 <= b < m ==> |buckets[b].files| <= 1
    decreases |order|
  {
    if order != [] {
      var n := |order| - 1;
      var before: seq<Bucket>, b: nat :| GreedyStep(w, order, m, before, b, buckets);
      AtMostOneEach(w, order[..n], m, before);
      FilledCount(w, order[..n], m, before);
      NonNegativeWeighty(w, order[..n]);
      GreedyConserves(w, order[..n], m, before);
      GreedySums(w, order[..n], before);
      hide Greedy, Filled, IsLeast, Descending;
      FillEmptyFirst(before, b);
    }
  }
}
