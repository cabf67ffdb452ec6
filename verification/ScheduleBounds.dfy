/** How far a greedy schedule's heaviest bucket is from that of any other assignment. */
module ScheduleBounds {
  import opened GreedySchedule
  import opened Sums

  function Heaviest(w: string -> real, groups: seq<seq<string>>): real
    requires groups != []
  {
    var last := Sum(w, groups[|groups| - 1]);
    if |groups| == 1 then last
    else
      var rest := Heaviest(w, groups[..|groups| - 1]);
      if last < rest then rest else last
  }

  lemma {:induction false} HeaviestIs(w: string -> real, groups: seq<seq<string>>)
    requires groups != []
    ensures forall i :: 0 <= i < |groups| ==> Sum(w, groups[i]) <= Heaviest(w, groups)
    ensures exists i :: 0 <= i < |groups| && Sum(w, groups[i]) == Heaviest(w, groups)
  {
    var n := |groups| - 1;
    if n > 0 {
      HeaviestIs(w, groups[..n]);
      var i :| 0 <= i < n && Sum(w, groups[..n][i]) == Heaviest(w, groups[..n]);
      assert groups[i] == groups[..n][i];
    }
  }

  /** One point for a file of at least `t`, two if no second such file fits beside it under `bound`. */
  function Score(w: string -> real, t: real, bound: real): string -> real {
    (x: string) => if w(x) < t then 0.0 else if w(x) > bound - t then 2.0 else 1.0
  }

  /** What a list's score says about its heavy load, when three files of weight `t` exceed the bound. */
  lemma {:induction false} ScoreCases(w: string -> real, t: real, bound: real, s: seq<string>)
    requires 0.0 <= t <= bound < 3.0 * t
    ensures var score, load := Sum(Score(w, t, bound), s), Sum(HeavyPart(w, t), s);
            || (score == 0.0 && load == 0.0)
            || (score == 1.0 && t <= load <= bound - t)
            || (score == 2.0 && (load >= 2.0 * t || load > bound - t))
            || (score >= 3.0 && load > bound)
  {
    if s != [] { ScoreCases(w, t, bound, s[..|s| - 1]); }
  }

  /** A bucket within the bound scores at most two. */
  lemma ScoreWithin(w: string -> real, t: real, bound: real, s: seq<string>)
    requires 0.0 <= t <= bound < 3.0 * t && NonNegative(w, s) && Sum(w, s) <= bound
    ensures Sum(Score(w, t, bound), s) <= 2.0
  {
    ScoreCases(w, t, bound, s);
    SumMonotone(HeavyPart(w, t), w, s);
  }

  /** If the bucket `b` exceeded the bound, the buckets would score more than any assignment within it can. */
  lemma LargeFilesFit(w: string -> real, groups: seq<seq<string>>, other: seq<seq<string>>, b: nat, bound: real)
    requires b < |groups| == |other| && multiset(Flatten(groups)) == multiset(Flatten(other))
    requires NonNegative(w, Flatten(groups)) && groups[b] != [] && Certified(w, groups, b)
    requires forall i :: 0 <= i < |other| ==> NonNegative(w, other[i]) && Sum(w, other[i]) <= bound
    requires 0.0 <= w(Last(groups[b])) <= bound < 3.0 * w(Last(groups[b]))
    ensures Sum(w, groups[b]) <= bound
  {
    var t, prior := w(Last(groups[b])), Prior(groups[b]);
    var score := Score(w, t, bound);
    assert groups[b] == prior + [Last(groups[b])];
    SumPush(w, prior, Last(groups[b]));
    SumPush(score, prior, Last(groups[b]));
    if Sum(w, groups[b]) > bound {
      HeavyAll(w, t, prior);
      ScoreCases(w, t, bound, prior);
      forall c | 0 <= c < |groups| && c != b ensures 2.0 <= Sum(score, groups[c]) {
        ScoreCases(w, t, bound, groups[c]);
      }
      FlattenOneMore(score, groups, 2.0, 1.0, b);
      forall c | 0 <= c < |other| ensures Sum(score, other[c]) <= 2.0 {
        ScoreWithin(w, t, bound, other[c]);
      }
      FlattenAtMost(score, other, 2.0);
      SumPermutation(score, Flatten(groups), Flatten(other));
      assert false;
    }
  }

  /** The average argument: the bucket before its last file is at most an average bucket. */
  lemma AverageBound(w: string -> real, groups: seq<seq<string>>, other: seq<seq<string>>, b: nat, bound: real)
    requires b < |groups| == |other| && multiset(Flatten(groups)) == multiset(Flatten(other))
    requires groups[b] != [] && Balanced(w, groups, b)
    requires forall i :: 0 <= i < |other| ==> Sum(w, other[i]) <= bound
    ensures Times(Sum(w, Prior(groups[b])), |groups|) + w(Last(groups[b])) <= Times(bound, |groups|)
  {
    var prior := Prior(groups[b]);
    assert groups[b] == prior + [Last(groups[b])];
    SumPush(w, prior, Last(groups[b]));
    FlattenOneMore(w, groups, Sum(w, prior), w(Last(groups[b])), b);
    FlattenAtMost(w, other, bound);
    SumPermutation(w, Flatten(groups), Flatten(other));
  }

  lemma Distribute(k: real, a: real, b: real)
    ensures k * (a + b) == k * a + k * b
    ensures k * (a - b) == k * a - k * b
  {
  }

  lemma Scale(k: real, a: real, b: real)
    requires k >= 0.0 && a <= b
    ensures k * a <= k * b
  {
  }

  lemma OneLess(k: real, a: real)
    ensures (k - 1.0) * a == k * a - a
  {
  }

  lemma Several(n: real, k: real, a: real)
    ensures (n * k) * a == n * (k * a)
  {
  }

  /** k * P + t <= k * B gives k * (P + t) <= (2k - 1) * B when t <= B. */
  lemma ListReals(k: real, load: real, prior: real, t: real, bound: real)
    requires k >= 1.0 && load == prior + t && t <= bound && k * prior + t <= k * bound
    ensures k * load <= (2.0 * k - 1.0) * bound
  {
    Scale(k - 1.0, t, bound);
    OneLess(k, t);
    OneLess(k, bound);
    OneLess(2.0 * k, bound);
    Several(2.0, k, bound);
    Distribute(k, prior, t);
  }

  lemma ListArithmetic(m: nat, load: real, prior: real, t: real, bound: real)
    requires m > 0 && load == prior + t && t <= bound && Times(prior, m) + t <= Times(bound, m)
    ensures m as real * load <= (2.0 * m as real - 1.0) * bound
  {
    TimesIs(prior, m);
    TimesIs(bound, m);
    ListReals(m as real, load, prior, t, bound);
  }

  /** ... and 3k * (P + t) <= (4k - 1) * B when 3t <= B. */
  lemma LptReals(k: real, load: real, prior: real, t: real, bound: real)
    requires k >= 1.0 && load == prior + t && 3.0 * t <= bound && k * prior + t <= k * bound
    ensures 3.0 * k * load <= (4.0 * k - 1.0) * bound
  {
    Scale(k - 1.0, 3.0 * t, bound);
    OneLess(k, 3.0 * t);
    OneLess(k, bound);
    OneLess(4.0 * k, bound);
    Several(4.0, k, bound);
    Several(3.0, k, load);
    Distribute(k, prior, t);
    assert k * (3.0 * t) == 3.0 * (k * t);
  }

  lemma LptArithmetic(m: nat, load: real, prior: real, t: real, bound: real)
    requires m > 0 && load == prior + t && 3.0 * t <= bound && Times(prior, m) + t <= Times(bound, m)
    ensures 3.0 * m as real * load <= (4.0 * m as real - 1.0) * bound
  {
    TimesIs(prior, m);
    TimesIs(bound, m);
    LptReals(m as real, load, prior, t, bound);
  }

  /** A file of one assignment lies in some bucket of another, so it weighs no more than that one's heaviest. */
  lemma FileBelowHeaviest(w: string -> real, groups: seq<seq<string>>, other: seq<seq<string>>, x: string)
    requires multiset(Flatten(groups)) == multiset(Flatten(other)) && x in Flatten(groups) && other != []
    requires forall i :: 0 <= i < |other| ==> NonNegative(w, other[i])
    ensures w(x) <= Heaviest(w, other)
  {
    assert x in multiset(Flatten(groups));
    assert x in Flatten(other);
    FlattenMember(other, x);
    var i :| 0 <= i < |other| && x in other[i];
    SumNonNegative(w, other[i]);
    HeaviestIs(w, other);
  }

  /** Another assignment of the same files to as many partitions. */
  ghost predicate Assigns(w: string -> real, order: seq<string>, m: nat, other: seq<seq<string>>) {
    && m > 0 && |other| == m && multiset(Flatten(other)) == multiset(order) && NonNegative(w, order)
    && forall i :: 0 <= i < |other| ==> NonNegative(w, other[i]) && Sum(w, other[i]) <= Heaviest(w, other)
  }

  lemma IsAssignment(w: string -> real, order: seq<string>, m: nat, other: seq<seq<string>>)
    requires m > 0 && |other| == m && multiset(Flatten(other)) == multiset(order) && NonNegative(w, order)
    ensures Assigns(w, order, m, other) && 0.0 <= Heaviest(w, other)
  {
    HeaviestIs(w, other);
    FlattenedFiles(w, order, other);
    SumNonNegative(w, other[0]);
  }

  /** The heaviest bucket splits into its last file, which some bucket of `other` holds, and the rest. */
  lemma HeaviestSplits(w: string -> real, order: seq<string>, groups: seq<seq<string>>, other: seq<seq<string>>)
    returns (b: nat, prior: real, t: real)
    requires groups != [] && Assigns(w, order, |groups|, other) && Assigns(w, order, |groups|, groups)
    ensures b < |groups| && Heaviest(w, groups) == Sum(w, groups[b]) == prior + t
    ensures if groups[b] == [] then prior == t == 0.0
            else prior == Sum(w, Prior(groups[b])) && t == w(Last(groups[b])) && 0.0 <= t <= Heaviest(w, other)
  {
    HeaviestIs(w, groups);
    b :| 0 <= b < |groups| && Sum(w, groups[b]) == Heaviest(w, groups);
    if groups[b] == [] {
      prior, t := 0.0, 0.0;
    } else {
      var x := Last(groups[b]);
      prior, t := Sum(w, Prior(groups[b])), w(x);
      assert groups[b] == Prior(groups[b]) + [x];
      SumPush(w, Prior(groups[b]), x);
      FlattenMember(groups, x);
      hide Sum, Flatten;
      FileBelowHeaviest(w, groups, other, x);
    }
  }

  lemma {:induction false} TimesGrows(a: real, b: real, n: nat)
    requires a <= b
    ensures Times(a, n) <= Times(b, n)
  {
    if n > 0 { TimesGrows(a, b, n - 1); }
  }

  lemma BoundAverage(w: string -> real, order: seq<string>, groups: seq<seq<string>>, other: seq<seq<string>>, b: nat,
                     prior: real, t: real)
    requires b < |groups| && Assigns(w, order, |groups|, other) && Assigns(w, order, |groups|, groups)
    requires Balanced(w, groups, b) && 0.0 <= Heaviest(w, other)
    requires if groups[b] == [] then prior == t == 0.0
             else prior == Sum(w, Prior(groups[b])) && t == w(Last(groups[b]))
    ensures Times(prior, |groups|) + t <= Times(Heaviest(w, other), |groups|)
  {
    hide Sum, Flatten, NonNegative, Heaviest, Balanced;
    if groups[b] == [] {
      TimesIs(prior, |groups|);
      TimesGrows(0.0, Heaviest(w, other), |groups|);
    } else {
      AverageBound(w, groups, other, b, Heaviest(w, other));
    }
  }

  /** The heaviest bucket's last file and rest, and the average bound on the rest. */
  lemma HeaviestFacts(w: string -> real, order: seq<string>, m: nat, buckets: seq<Bucket>, other: seq<seq<string>>)
    returns (b: nat, prior: real, t: real)
    requires Greedy(w, order, m, buckets) && NonNegative(w, order)
    requires m > 0 && |other| == m && multiset(Flatten(other)) == multiset(order)
    ensures |buckets| == |FilesOf(buckets)| == m && b < m && 0.0 <= Heaviest(w, other) && t <= Heaviest(w, other)
    ensures Heaviest(w, FilesOf(buckets)) == prior + t == Sum(w, FilesOf(buckets)[b])
    ensures Times(prior, m) + t <= Times(Heaviest(w, other), m)
    ensures FilesOf(buckets)[b] == [] ==> t == 0.0
    ensures FilesOf(buckets)[b] != [] ==> 0.0 <= t == w(Last(FilesOf(buckets)[b]))
    ensures Assigns(w, order, m, other) && Assigns(w, order, m, FilesOf(buckets))
  {
    GreedyConserves(w, order, m, buckets);
    GreedyBalanced(w, order, m, buckets);
    hide Greedy, Heaviest, Balanced, Assigns, Sum, Flatten, NonNegative, Times;
    var groups := FilesOf(buckets);
    IsAssignment(w, order, m, groups);
    IsAssignment(w, order, m, other);
    b, prior, t := HeaviestSplits(w, order, groups, other);
    BoundAverage(w, order, groups, other, b, prior, t);
  }

  /** List scheduling, whatever the order: at most 2 - 1/m times any other assignment's heaviest bucket. */
  lemma ListSchedulingBound(w: string -> real, order: seq<string>, m: nat, buckets: seq<Bucket>,
                            other: seq<seq<string>>)
    requires Greedy(w, order, m, buckets) && NonNegative(w, order)
    requires m > 0 && |other| == m && multiset(Flatten(other)) == multiset(order)
    ensures |buckets| == m
    ensures m as real * Heaviest(w, FilesOf(buckets)) <= (2.0 * m as real - 1.0) * Heaviest(w, other)
  {
    hide *;
    var b, prior, t := HeaviestFacts(w, order, m, buckets, other);
    ListArithmetic(m, Heaviest(w, FilesOf(buckets)), prior, t, Heaviest(w, other));
  }

  lemma BoundLarge(w: string -> real, order: seq<string>, groups: seq<seq<string>>, other: seq<seq<string>>, b: nat)
    requires b < |groups| && Assigns(w, order, |groups|, other) && Assigns(w, order, |groups|, groups)
    requires groups[b] != [] && Certified(w, groups, b)
    requires 0.0 <= w(Last(groups[b])) <= Heaviest(w, other) < 3.0 * w(Last(groups[b]))
    ensures Sum(w, groups[b]) <= Heaviest(w, other)
  {
    hide Sum, Flatten, NonNegative, Heaviest, Certified;
    FlattenedFiles(w, order, groups);
    LargeFilesFit(w, groups, other, b, Heaviest(w, other));
  }

  lemma FittingArithmetic(m: nat, load: real, bound: real)
    requires m > 0 && load <= bound && 0.0 <= bound
    ensures 3.0 * m as real * load <= (4.0 * m as real - 1.0) * bound
  {
    var k := m as real;
    Scale(3.0 * k, load, bound);
    Scale(bound, 0.0, k - 1.0);
    Distribute(bound, 4.0 * k, 1.0);
    Distribute(bound, k, 1.0);
  }

  /** Longest processing time first: at most 4/3 - 1/(3m) times any other assignment's heaviest bucket. */
  lemma LongestFirstBound(w: string -> real, order: seq<string>, m: nat, buckets: seq<Bucket>, other: seq<seq<string>>)
    requires Greedy(w, order, m, buckets) && NonNegative(w, order) && Descending(w, order)
    requires m > 0 && |other| == m && multiset(Flatten(other)) == multiset(order)
    ensures |buckets| == m
    ensures 3.0 * m as real * Heaviest(w, FilesOf(buckets)) <= (4.0 * m as real - 1.0) * Heaviest(w, other)
  {
    hide *;
    var b, prior, t := HeaviestFacts(w, order, m, buckets, other);
    if 3.0 * t <= Heaviest(w, other) {
      LptArithmetic(m, Heaviest(w, FilesOf(buckets)), prior, t, Heaviest(w, other));
    } else {
      GreedyCertified(w, order, m, buckets);
      BoundLarge(w, order, FilesOf(buckets), other, b);
      FittingArithmetic(m, Heaviest(w, FilesOf(buckets)), Heaviest(w, other));
    }
  }
}
