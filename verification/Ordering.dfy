/** Filtering and comparator sorting of arrays, and the one way a set can be arranged in strict order. */
module Ordering {
  /** A comparator that ranks any two values consistently; distinct values may tie. */
  ghost predicate Consistent<T(!new)>(compare: (T, T) -> int) {
    && (forall a, b :: compare(a, b) < 0 <==> compare(b, a) > 0)
    && (forall a, b, c :: compare(a, b) <= 0 && compare(b, c) <= 0 ==> compare(a, c) <= 0)
  }

  /** A consistent comparator under which only equal values tie. */
  ghost predicate Linear<T(!new)>(compare: (T, T) -> int) {
    Consistent(compare) && forall a, b :: compare(a, b) == 0 ==> a == b
  }

  ghost predicate Ascending<T(!new)>(s: seq<T>, compare: (T, T) -> int) {
    forall i, j :: 0 <= i < j < |s| ==> compare(s[i], s[j]) <= 0
  }

  lemma Chain<T(!new)>(compare: (T, T) -> int, a: T, b: T, c: T)
    requires Consistent(compare) && compare(a, b) <= 0 && compare(b, c) <= 0
    ensures compare(a, c) <= 0
  {
  }

  lemma Flip<T(!new)>(compare: (T, T) -> int, a: T, b: T)
    requires Consistent(compare)
    ensures compare(a, b) < 0 <==> compare(b, a) > 0
    ensures compare(a, b) == 0 <==> compare(b, a) == 0
  {
  }

  function Filter<T(!new)>(s: seq<T>, keep: T -> bool): (r: seq<T>)
    ensures forall x :: x in r <==> x in s && keep(x)
  {
    if s == [] then []
    else if keep(s[|s| - 1]) then Filter(s[..|s| - 1], keep) + [s[|s| - 1]]
    else Filter(s[..|s| - 1], keep)
  }

  /** With `FilterOne`: what is kept of each element stands where the element stood. */
  lemma {:induction false} FilterConcat<T(!new)>(a: seq<T>, b: seq<T>, keep: T -> bool)
    ensures Filter(a + b, keep) == Filter(a, keep) + Filter(b, keep)
  {
    if b == [] {
      assert a + b == a;
    } else {
      assert (a + b)[..|a + b| - 1] == a + b[..|b| - 1];
      FilterConcat(a, b[..|b| - 1], keep);
    }
  }

  lemma FilterOne<T(!new)>(x: T, keep: T -> bool)
    ensures Filter([x], keep) == if keep(x) then [x] else []
  {
    assert [x][..0] == [];
  }

  lemma FilterNone<T(!new)>(s: seq<T>, keep: T -> bool)
    requires forall x :: x in s ==> !keep(x)
    ensures Filter(s, keep) == []
  {
    if Filter(s, keep) != [] {
      assert Filter(s, keep)[0] in Filter(s, keep);
    }
  }

  lemma {:induction false} FilterSame<T(!new)>(s: seq<T>, keep: T -> bool, same: T -> bool)
    requires forall x :: x in s ==> keep(x) == same(x)
    ensures Filter(s, keep) == Filter(s, same)
  {
    if s != [] { FilterSame(s[..|s| - 1], keep, same); }
  }

  function Insert<T>(x: T, s: seq<T>, compare: (T, T) -> int): seq<T> {
    if s == [] || compare(x, s[0]) <= 0 then [x] + s else [s[0]] + Insert(x, s[1..], compare)
  }

  /** `Array.prototype.sort`: stable, by repeated insertion. */
  function Sort<T>(s: seq<T>, compare: (T, T) -> int): seq<T> {
    if s == [] then [] else Insert(s[0], Sort(s[1..], compare), compare)
  }

  lemma {:induction false} InsertSorts<T(!new)>(x: T, s: seq<T>, compare: (T, T) -> int)
    requires Consistent(compare) && Ascending(s, compare)
    ensures Ascending(Insert(x, s, compare), compare)
    ensures multiset(Insert(x, s, compare)) == multiset([x]) + multiset(s)
  {
    hide Consistent;
    if s != [] {
      assert s == [s[0]] + s[1..];
      if compare(x, s[0]) <= 0 {
        forall i | 0 <= i < |s| ensures compare(x, s[i]) <= 0 {
          if i > 0 { Chain(compare, x, s[0], s[i]); }
        }
      } else {
        Flip(compare, x, s[0]);
        InsertSorts(x, s[1..], compare);
        forall y | y in Insert(x, s[1..], compare) ensures compare(s[0], y) <= 0 {
          assert y in multiset([x]) + multiset(s[1..]);
        }
      }
    }
  }

  lemma {:induction false} SortSorts<T(!new)>(s: seq<T>, compare: (T, T) -> int)
    requires Consistent(compare)
    ensures Ascending(Sort(s, compare), compare)
    ensures multiset(Sort(s, compare)) == multiset(s)
  {
    if s != [] {
      assert s == [s[0]] + s[1..];
      SortSorts(s[1..], compare);
      InsertSorts(s[0], Sort(s[1..], compare), compare);
    }
  }

  lemma SortMembers<T(!new)>(s: seq<T>, compare: (T, T) -> int)
    requires Consistent(compare)
    ensures forall x :: x in Sort(s, compare) <==> x in s
    ensures |Sort(s, compare)| == |s|
  {
    SortSorts(s, compare);
    forall x ensures x in Sort(s, compare) <==> x in s {
      assert x in s <==> x in multiset(s);
      assert x in Sort(s, compare) <==> x in multiset(Sort(s, compare));
    }
    assert |multiset(s)| == |s|;
    assert |multiset(Sort(s, compare))| == |Sort(s, compare)|;
  }

  ghost function Tying<T(!new)>(compare: (T, T) -> int, x: T): T -> bool {
    (y: T) => compare(x, y) == 0
  }

  /** `out` lists the elements of `s` in ascending order, and those that tie as they stand in `s`. */
  ghost predicate StablySorts<T(!new)>(out: seq<T>, s: seq<T>, compare: (T, T) -> int) {
    Ascending(out, compare) && forall x :: Filter(out, Tying(compare, x)) == Filter(s, Tying(compare, x))
  }

  lemma {:induction false} InsertFirst<T(!new)>(y: T, s: seq<T>, compare: (T, T) -> int, x: T)
    requires Consistent(compare)
    ensures Filter(Insert(y, s, compare), Tying(compare, x)) == Filter([y] + s, Tying(compare, x))
  {
    hide Consistent;
    if s != [] && compare(y, s[0]) > 0 {
      InsertFirst(y, s[1..], compare, x);
      var keep := Tying(compare, x);
      FilterConcat([s[0]], Insert(y, s[1..], compare), keep);
      FilterConcat([y], s[1..], keep);
      FilterConcat([y], s, keep);
      FilterConcat([s[0]], s[1..], keep);
      assert s == [s[0]] + s[1..];
      if keep(s[0]) && keep(y) {
        Flip(compare, x, s[0]);
        Chain(compare, y, x, s[0]) by { Flip(compare, x, y); }
      }
    }
  }

  lemma {:induction false} SortStable<T(!new)>(s: seq<T>, compare: (T, T) -> int)
    requires Consistent(compare)
    ensures StablySorts(Sort(s, compare), s, compare)
  {
    SortSorts(s, compare);
    hide Consistent, Ascending;
    if s != [] {
      SortStable(s[1..], compare);
      forall x ensures Filter(Sort(s, compare), Tying(compare, x)) == Filter(s, Tying(compare, x)) {
        var keep := Tying(compare, x);
        InsertFirst(s[0], Sort(s[1..], compare), compare, x);
        FilterConcat([s[0]], Sort(s[1..], compare), keep);
        FilterConcat([s[0]], s[1..], keep);
        assert s == [s[0]] + s[1..];
      }
    }
  }

  /** `q` lists the members of `s` in strictly increasing order. */
  ghost predicate Arranges<T(!new)>(q: seq<T>, s: set<T>, compare: (T, T) -> int) {
    && (forall x :: x in q <==> x in s)
    && (forall i, j :: 0 <= i < j < |q| ==> compare(q[i], q[j]) < 0)
  }

  lemma Member<T>(q: seq<T>) returns (x: T)
    requires q != []
    ensures x in q
  {
    x := q[0];
  }

  lemma FirstIsLeast<T(!new)>(p: seq<T>, q: seq<T>, s: set<T>, compare: (T, T) -> int)
    requires Arranges(p, s, compare) && Arranges(q, s, compare) && p != []
    ensures q != [] && (p[0] == q[0] || compare(p[0], q[0]) < 0)
  {
    assert p[0] in q;
    var i :| 0 <= i < |q| && q[i] == p[0];
    assert q[0] in p;
  }

  lemma RestArranges<T(!new)>(p: seq<T>, s: set<T>, compare: (T, T) -> int)
    requires Consistent(compare) && Arranges(p, s, compare) && p != []
    ensures Arranges(p[1..], s - {p[0]}, compare)
  {
    hide Consistent;
    Flip(compare, p[0], p[0]);
    assert p == [p[0]] + p[1..];
  }

  /** A set has at most one arrangement. */
  lemma {:induction false} ArrangementUnique<T(!new)>(p: seq<T>, q: seq<T>, s: set<T>, compare: (T, T) -> int)
    requires Consistent(compare) && Arranges(p, s, compare) && Arranges(q, s, compare)
    ensures p == q
    decreases |p|
  {
    hide Consistent;
    if p == [] {
      if q != [] {
        var x := Member(q);
      }
    } else {
      FirstIsLeast(p, q, s, compare);
      FirstIsLeast(q, p, s, compare);
      Flip(compare, p[0], q[0]);
      RestArranges(p, s, compare);
      RestArranges(q, s, compare);
      ArrangementUnique(p[1..], q[1..], s - {p[0]}, compare);
      assert p == [p[0]] + p[1..] && q == [q[0]] + q[1..];
    }
  }

  ghost predicate NoRepeats<T>(s: seq<T>) {
    forall i, j :: 0 <= i < j < |s| ==> s[i] != s[j]
  }

  lemma {:induction false} NoRepeatsCount<T>(s: seq<T>, x: T)
    requires NoRepeats(s)
    ensures multiset(s)[x] <= 1
  {
    if s != [] {
      var rest, last := s[..|s| - 1], s[|s| - 1];
      assert s == rest + [last];
      NoRepeatsCount(rest, x);
      assert last !in rest;
      assert multiset(rest)[last] == 0;
    }
  }

  lemma RepeatCount<T>(s: seq<T>, i: nat, j: nat)
    requires i < j < |s| && s[i] == s[j]
    ensures multiset(s)[s[i]] >= 2
  {
    assert s == s[..j] + [s[j]] + s[j + 1..];
    assert s[..j][i] in s[..j];
  }

  lemma PermutationNoRepeats<T>(s: seq<T>, t: seq<T>)
    requires NoRepeats(s) && multiset(s) == multiset(t)
    ensures NoRepeats(t)
  {
    forall i, j | 0 <= i < j < |t| ensures t[i] != t[j] {
      NoRepeatsCount(s, t[i]);
      if t[i] == t[j] { RepeatCount(t, i, j); }
    }
  }

  lemma {:induction false} FilterNoRepeats<T(!new)>(s: seq<T>, keep: T -> bool)
    requires NoRepeats(s)
    ensures NoRepeats(Filter(s, keep))
  {
    if s != [] {
      FilterNoRepeats(s[..|s| - 1], keep);
    }
  }

  /** The strictly increasing listing of a set, when it has one. */
  ghost function Arrange<T(!new)>(s: set<T>, compare: (T, T) -> int): seq<T> {
    if exists q :: Arranges(q, s, compare) then var q :| Arranges(q, s, compare); q else []
  }

  lemma ArrangeIs<T(!new)>(q: seq<T>, s: set<T>, compare: (T, T) -> int)
    requires Consistent(compare) && Arranges(q, s, compare)
    ensures Arrange(s, compare) == q
  {
    hide Consistent, Arranges;
    ArrangementUnique(q, Arrange(s, compare), s, compare);
  }

  lemma {:induction false} Listing<T(!new)>(s: set<T>) returns (q: seq<T>)
    ensures NoRepeats(q) && forall x :: x in q <==> x in s
  {
    if s == {} {
      q := [];
    } else {
      var x :| x in s;
      q := Listing(s - {x});
      q := q + [x];
    }
  }

  /** Under a linear comparator every set has a listing. */
  lemma {:induction false} ArrangeExists<T(!new)>(s: set<T>, compare: (T, T) -> int)
    requires Linear(compare)
    ensures Arranges(Arrange(s, compare), s, compare)
  {
    var q := Listing(s);
    hide Consistent;
    SortSorts(q, compare);
    SortMembers(q, compare);
    PermutationNoRepeats(q, Sort(q, compare));
    assert Arranges(Sort(q, compare), s, compare);
  }
}
