/** The schedules that give each file in turn to a least loaded bucket: what they keep and how balanced they are. */
module GreedySchedule {
  import opened Sums

  datatype Bucket = Bucket(sum: real, files: seq<string>)

  /** Lighter, or as heavy with fewer files. */
  predicate Less(left: Bucket, right: Bucket) {
    if left.sum != right.sum then left.sum < right.sum else |left.files| < |right.files|
  }

  // ---------- What the schedule is: every file goes to a least bucket ----------

  function Put(w: string -> real, buckets: seq<Bucket>, b: nat, file: string): seq<Bucket>
    requires b < |buckets|
  {
    buckets[b := Bucket(buckets[b].sum + w(file), buckets[b].files + [file])]
  }

  /** No bucket is less than bucket `b`. */
  ghost predicate IsLeast(buckets: seq<Bucket>, b: nat) {
    b < |buckets| && forall c :: 0 <= c < |buckets| ==> !Less(buckets[c], buckets[b])
  }

  /** `buckets` can result from giving the files of `order`, in turn, to least buckets among `m`. */
  ghost predicate Greedy(w: string -> real, order: seq<string>, m: nat, buckets: seq<Bucket>)
    decreases |order|
  {
    if order == [] then buckets == seq(m, _ => Bucket(0.0, []))
    else exists before, b: nat :: GreedyStep(w, order, m, before, b, buckets)
  }

  ghost predicate GreedyStep(w: string -> real, order: seq<string>, m: nat, before: seq<Bucket>, b: nat,
                             buckets: seq<Bucket>)
    requires order != []
    decreases |order|, 0
  {
    && Greedy(w, order[..|order| - 1], m, before) && IsLeast(before, b)
    && buckets == Put(w, before, b, order[|order| - 1])
  }

  function FilesOf(buckets: seq<Bucket>): seq<seq<string>> {
    seq(|buckets|, i requires 0 <= i < |buckets| => buckets[i].files)
  }

  ghost predicate Descending(w: string -> real, order: seq<string>) {
    forall i, j :: 0 <= i < j < |order| ==> w(order[i]) >= w(order[j])
  }

  ghost predicate NonNegative(w: string -> real, s: seq<string>) {
    forall x :: x in s ==> w(x) >= 0.0
  }

  lemma EmptyFlatten(m: nat)
    ensures Flatten(FilesOf(seq(m, _ => Bucket(0.0, [])))) == []
  {
    if m > 0 {
      EmptyFlatten(m - 1);
      assert FilesOf(seq(m, _ => Bucket(0.0, [])))[..m - 1] == FilesOf(seq(m - 1, _ => Bucket(0.0, [])));
    }
  }

  lemma {:induction false} FlattenPush(groups: seq<seq<string>>, b: nat, x: string)
    requires b < |groups|
    ensures multiset(Flatten(groups[b := groups[b] + [x]])) == multiset(Flatten(groups)) + multiset{x}
  {
    var n, after := |groups| - 1, groups[b := groups[b] + [x]];
    if b < n {
      FlattenPush(groups[..n], b, x);
      assert after[..n] == groups[..n][b := groups[b] + [x]];
    } else {
      assert after[..n] == groups[..n];
    }
  }

  lemma PutConserves(w: string -> real, before: seq<Bucket>, b: nat, x: string)
    requires b < |before|
    ensures multiset(Flatten(FilesOf(Put(w, before, b, x)))) == multiset(Flatten(FilesOf(before))) + multiset{x}
    ensures |Put(w, before, b, x)| == |before|
    ensures forall c :: 0 <= c < |before| && c != b ==> Put(w, before, b, x)[c] == before[c]
    ensures before[b].sum == Sum(w, before[b].files) ==>
              Put(w, before, b, x)[b].sum == Sum(w, Put(w, before, b, x)[b].files)
  {
    FlattenPush(FilesOf(before), b, x);
    assert FilesOf(Put(w, before, b, x)) == FilesOf(before)[b := FilesOf(before)[b] + [x]];
    SumPush(w, before[b].files, x);
  }

  /** Conservation: the buckets hold exactly the files given, with multiplicity, and the right sums. */
  lemma {:induction false} GreedyConserves(w: string -> real, order: seq<string>, m: nat, buckets: seq<Bucket>)
    requires Greedy(w, order, m, buckets)
    ensures |buckets| == m && multiset(Flatten(FilesOf(buckets))) == multiset(order)
    ensures forall b :: 0 <= b < m ==> buckets[b].sum == Sum(w, buckets[b].files)
    decreases |order|
  {
    hide Flatten, FilesOf, Put;
    if order == [] {
      EmptyFlatten(m);
    } else {
      var n := |order| - 1;
      var before: seq<Bucket>, b: nat :| GreedyStep(w, order, m, before, b, buckets);
      GreedyConserves(w, order[..n], m, before);
      hide Greedy, Sum;
      PutConserves(w, before, b, order[n]);
      assert order == order[..n] + [order[n]];
    }
  }

  lemma FlattenedFiles(w: string -> real, order: seq<string>, groups: seq<seq<string>>)
    requires multiset(Flatten(groups)) == multiset(order) && NonNegative(w, order)
    ensures NonNegative(w, Flatten(groups))
    ensures forall i :: 0 <= i < |groups| ==> NonNegative(w, groups[i])
  {
    forall x | x in Flatten(groups) ensures w(x) >= 0.0 {
      assert x in multiset(Flatten(groups));
    }
    forall i, x | 0 <= i < |groups| && x in groups[i] ensures w(x) >= 0.0 {
      FlattenMember(groups, x);
    }
  }

  // ---------- Balance ----------

  function Prior(bucket: seq<string>): seq<string>
    requires bucket != []
  {
    bucket[..|bucket| - 1]
  }

  function Last(bucket: seq<string>): string
    requires bucket != []
  {
    bucket[|bucket| - 1]
  }

  /** A file's weight if it is at least `t`, else nothing. */
  function HeavyPart(w: string -> real, t: real): string -> real {
    (x: string) => if w(x) >= t then w(x) else 0.0
  }

  /** Before its last file, bucket `b` weighed no more than any other bucket now holds. */
  ghost predicate Balanced(w: string -> real, groups: seq<seq<string>>, b: nat)
    requires b < |groups|
  {
    groups[b] != [] ==> forall c :: 0 <= c < |groups| && c != b ==> Sum(w, Prior(groups[b])) <= Sum(w, groups[c])
  }

  /** The last file of `b` is its lightest, and before it `b` weighed no more than what any other bucket
      holds in files at least that heavy. */
  ghost predicate Certified(w: string -> real, groups: seq<seq<string>>, b: nat)
    requires b < |groups|
  {
    groups[b] != [] ==>
      var t := w(Last(groups[b]));
      && (forall x :: x in groups[b] ==> t <= w(x))
      && forall c :: 0 <= c < |groups| && c != b ==> Sum(w, Prior(groups[b])) <= Sum(HeavyPart(w, t), groups[c])
  }

  lemma GreedyMembers(w: string -> real, order: seq<string>, m: nat, buckets: seq<Bucket>)
    requires Greedy(w, order, m, buckets)
    ensures |buckets| == m && forall c, x :: 0 <= c < m && x in buckets[c].files ==> x in order
  {
    GreedyConserves(w, order, m, buckets);
    forall c, x | 0 <= c < m && x in buckets[c].files ensures x in order {
      FlattenMember(FilesOf(buckets), x);
      assert FilesOf(buckets)[c] == buckets[c].files;
      assert x in multiset(order);
    }
  }

  lemma {:induction false} GreedyBalanced(w: string -> real, order: seq<string>, m: nat, buckets: seq<Bucket>)
    requires Greedy(w, order, m, buckets) && NonNegative(w, order)
    ensures |buckets| == m && forall b :: 0 <= b < m ==> Balanced(w, FilesOf(buckets), b)
    decreases |order|
  {
    if order != [] {
      var n := |order| - 1;
      var before: seq<Bucket>, b: nat :| GreedyStep(w, order, m, before, b, buckets);
      GreedyConserves(w, order[..n], m, before);
      GreedyBalanced(w, order[..n], m, before);
      var groups, x := FilesOf(before), order[n];
      assert FilesOf(buckets) == groups[b := groups[b] + [x]];
      SumPush(w, groups[b], x);
      forall a | 0 <= a < m ensures Balanced(w, FilesOf(buckets), a) {
        if a == b {
          assert Prior(groups[b] + [x]) == groups[b];
          assert forall c :: 0 <= c < m ==> Sum(w, groups[c]) == before[c].sum;
        } else {
          assert Balanced(w, groups, a);
        }
      }
    }
  }

  lemma HeavyAll(w: string -> real, t: real, s: seq<string>)
    requires forall x :: x in s ==> t <= w(x)
    ensures Sum(HeavyPart(w, t), s) == Sum(w, s)
  {
    SumMonotone(w, HeavyPart(w, t), s);
    SumMonotone(HeavyPart(w, t), w, s);
  }

  /** A least bucket that takes the lightest file so far is certified. */
  lemma CertifiedPlaced(w: string -> real, groups: seq<seq<string>>, b: nat, x: string)
    requires b < |groups| && forall c :: 0 <= c < |groups| ==> Sum(w, groups[b]) <= Sum(w, groups[c])
    requires forall c, y :: 0 <= c < |groups| && y in groups[c] ==> w(x) <= w(y)
    ensures Certified(w, groups[b := groups[b] + [x]], b)
  {
    hide Sum;
    assert Prior(groups[b] + [x]) == groups[b];
    forall c | 0 <= c < |groups| ensures Sum(w, groups[b]) <= Sum(HeavyPart(w, w(x)), groups[c]) {
      HeavyAll(w, w(x), groups[c]);
    }
  }

  /** Growing a bucket keeps the others certified. */
  lemma CertifiedOther(w: string -> real, groups: seq<seq<string>>, b: nat, x: string, a: nat)
    requires b < |groups| && a < |groups| && a != b && Certified(w, groups, a) && w(x) >= 0.0
    ensures Certified(w, groups[b := groups[b] + [x]], a)
  {
    hide Sum;
    if groups[a] != [] {
      SumPush(HeavyPart(w, w(Last(groups[a]))), groups[b], x);
    }
  }

  lemma CertifiedStep(w: string -> real, order: seq<string>, m: nat, before: seq<Bucket>, b: nat, buckets: seq<Bucket>)
    requires order != [] && GreedyStep(w, order, m, before, b, buckets) && NonNegative(w, order) && Descending(w, order)
    requires |before| == m && forall c :: 0 <= c < m ==> Certified(w, FilesOf(before), c)
    ensures |buckets| == m && forall c :: 0 <= c < m ==> Certified(w, FilesOf(buckets), c)
  {
    var n := |order| - 1;
    var groups, x := FilesOf(before), order[n];
    GreedyConserves(w, order[..n], m, before);
    GreedyMembers(w, order[..n], m, before);
    assert FilesOf(buckets) == groups[b := groups[b] + [x]];
    assert forall y :: y in order[..n] ==> w(x) <= w(y);
    assert forall c, y :: 0 <= c < m && y in groups[c] ==> y in order[..n];
    assert w(x) >= 0.0 by { assert x in order; }
    hide Greedy, Descending, Certified, Sum, NonNegative;
    forall a | 0 <= a < m ensures Certified(w, FilesOf(buckets), a) {
      if a == b {
        assert forall c :: 0 <= c < m ==> Sum(w, groups[c]) == before[c].sum;
        CertifiedPlaced(w, groups, b, x);
      } else {
        CertifiedOther(w, groups, b, x, a);
      }
    }
  }

  lemma {:induction false} GreedyCertified(w: string -> real, order: seq<string>, m: nat, buckets: seq<Bucket>)
    requires Greedy(w, order, m, buckets) && NonNegative(w, order) && Descending(w, order)
    ensures |buckets| == m && forall b :: 0 <= b < m ==> Certified(w, FilesOf(buckets), b)
    decreases |order|
  {
    if order != [] {
      var n := |order| - 1;
      var before: seq<Bucket>, b: nat :| GreedyStep(w, order, m, before, b, buckets);
      GreedyCertified(w, order[..n], m, before);
      CertifiedStep(w, order, m, before, b, buckets);
    }
  }

  /** No bucket exceeds another by more than the weight of the last file placed in it. */
  lemma SpreadAtMostLast(w: string -> real, order: seq<string>, m: nat, buckets: seq<Bucket>, b: nat, c: nat)
    requires Greedy(w, order, m, buckets) && NonNegative(w, order) && b < m && c < m
    ensures |buckets| == m
    ensures buckets[b].files != [] ==> buckets[b].sum - buckets[c].sum <= w(Last(buckets[b].files))
    ensures buckets[b].files == [] ==> buckets[b].sum <= buckets[c].sum
  {
    GreedyBalanced(w, order, m, buckets);
    GreedyConserves(w, order, m, buckets);
    GreedyMembers(w, order, m, buckets);
    var groups := FilesOf(buckets);
    assert Balanced(w, groups, b);
    if groups[b] != [] {
      assert Last(groups[b]) in groups[b];
      assert groups[b] == Prior(groups[b]) + [Last(groups[b])];
      SumPush(w, Prior(groups[b]), Last(groups[b]));
    }
    SumNonNegative(w, groups[c]);
  }
}
