/** Sums of a file measure over file lists and over lists of them. */
module Sums {
  function Sum(f: string -> real, s: seq<string>): real {
    if s == [] then 0.0 else Sum(f, s[..|s| - 1]) + f(s[|s| - 1])
  }

  function Flatten(groups: seq<seq<string>>): seq<string> {
    if groups == [] then [] else Flatten(groups[..|groups| - 1]) + groups[|groups| - 1]
  }

  lemma SumPush(f: string -> real, s: seq<string>, x: string)
    ensures Sum(f, s + [x]) == Sum(f, s) + f(x)
  {
    assert (s + [x])[..|s|] == s;
  }

  lemma {:induction false} SumConcat(f: string -> real, a: seq<string>, b: seq<string>)
    ensures Sum(f, a + b) == Sum(f, a) + Sum(f, b)
  {
    if b == [] {
      assert a + b == a;
    } else {
      SumConcat(f, a, b[..|b| - 1]);
      assert (a + b)[..|a + b| - 1] == a + b[..|b| - 1];
    }
  }

  /** A sum depends only on which files are listed, and how often. */
  lemma {:induction false} SumPermutation(f: string -> real, a: seq<string>, b: seq<string>)
    requires multiset(a) == multiset(b)
    ensures Sum(f, a) == Sum(f, b)
  {
    if a == [] {
      assert |b| == |multiset(b)| == 0;
    } else {
      var x := a[|a| - 1];
      assert a == a[..|a| - 1] + [x];
      assert x in multiset(b);
      var i :| 0 <= i < |b| && b[i] == x;
      assert b == b[..i] + [x] + b[i + 1..];
      var c := b[..i] + b[i + 1..];
      assert multiset(b) == multiset(c) + multiset{x};
      assert multiset(a) == multiset(a[..|a| - 1]) + multiset{x};
      assert multiset(a[..|a| - 1]) == multiset(a) - multiset{x};
      assert multiset(c) == multiset(b) - multiset{x};
      SumPermutation(f, a[..|a| - 1], b[..i] + b[i + 1..]);
      SumConcat(f, b[..i], b[i + 1..]);
      SumPush(f, b[..i], x);
      SumConcat(f, b[..i] + [x], b[i + 1..]);
    }
  }

  /** `x` added up `n` times. */
  function Times(x: real, n: nat): real {
    if n == 0 then 0.0 else Times(x, n - 1) + x
  }

  lemma {:induction false} TimesIs(x: real, n: nat)
    ensures Times(x, n) == n as real * x
  {
    if n > 0 {
      TimesIs(x, n - 1);
      var k := (n - 1) as real;
      assert n as real == k + 1.0;
      assert (k + 1.0) * x == k * x + x;
    }
  }

  /** A measure of at least `low` on each group totals at least `low` per group. */
  lemma {:induction false} FlattenAtLeast(f: string -> real, groups: seq<seq<string>>, low: real)
    requires forall i :: 0 <= i < |groups| ==> low <= Sum(f, groups[i])
    ensures Times(low, |groups|) <= Sum(f, Flatten(groups))
  {
    if groups != [] {
      var n := |groups| - 1;
      FlattenAtLeast(f, groups[..n], low);
      SumConcat(f, Flatten(groups[..n]), groups[n]);
    }
  }

  /** ... and one group with `extra` more adds it to the total. */
  lemma {:induction false} FlattenOneMore(f: string -> real, groups: seq<seq<string>>, low: real, extra: real, b: nat)
    requires b < |groups| && low + extra <= Sum(f, groups[b])
    requires forall i :: 0 <= i < |groups| && i != b ==> low <= Sum(f, groups[i])
    ensures Times(low, |groups|) + extra <= Sum(f, Flatten(groups))
  {
    var n := |groups| - 1;
    SumConcat(f, Flatten(groups[..n]), groups[n]);
    if b == n {
      FlattenAtLeast(f, groups[..n], low);
    } else {
      FlattenOneMore(f, groups[..n], low, extra, b);
    }
  }

  lemma {:induction false} FlattenAtMost(f: string -> real, groups: seq<seq<string>>, high: real)
    requires forall i :: 0 <= i < |groups| ==> Sum(f, groups[i]) <= high
    ensures Sum(f, Flatten(groups)) <= Times(high, |groups|)
  {
    if groups != [] {
      var n := |groups| - 1;
      FlattenAtMost(f, groups[..n], high);
      SumConcat(f, Flatten(groups[..n]), groups[n]);
    }
  }

  lemma {:induction false} FlattenMember(groups: seq<seq<string>>, x: string)
    ensures x in Flatten(groups) <==> exists i :: 0 <= i < |groups| && x in groups[i]
  {
    if groups != [] {
      FlattenMember(groups[..|groups| - 1], x);
    }
  }

  lemma {:induction false} SumMonotone(f: string -> real, g: string -> real, s: seq<string>)
    requires forall x :: x in s ==> f(x) <= g(x)
    ensures Sum(f, s) <= Sum(g, s)
  {
    if s != [] { SumMonotone(f, g, s[..|s| - 1]); }
  }

  lemma {:induction false} SumNonNegative(f: string -> real, s: seq<string>)
    requires forall x :: x in s ==> 0.0 <= f(x)
    ensures 0.0 <= Sum(f, s)
    ensures forall x :: x in s ==> f(x) <= Sum(f, s)
  {
    if s != [] { SumNonNegative(f, s[..|s| - 1]); }
  }
}
