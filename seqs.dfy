/**
 * Facts about finite sequences used by the data pipeline: row filters,
 * column sums, distinctness, subsequences and first-occurrence deduplication.
 * Sequences are processed from the back, the way a row is appended to a frame.
 */
module Seqs {
  import opened Wrappers

  /** The rows of `s` satisfying `p`, in their original order (a boolean mask). */
  function Filter<T(==, !new)>(s: seq<T>, p: T -> bool): (r: seq<T>)
    ensures |r| <= |s|
    ensures forall x :: x in r <==> x in s && p(x)
  {
    if s == [] then []
    else
      var n := |s| - 1;
      assert s == s[..n] + [s[n]];
      Filter(s[..n], p) + (if p(s[n]) then [s[n]] else [])
  }

  lemma FilterSnoc<T(!new)>(s: seq<T>, x: T, p: T -> bool)
    ensures Filter(s + [x], p) == Filter(s, p) + (if p(x) then [x] else [])
  {
    assert (s + [x])[..|s|] == s;
  }

  /** A mask keeps every occurrence of a matching row and drops every occurrence of the others. */
  lemma {:induction false} FilterCounts<T(!new)>(s: seq<T>, p: T -> bool)
    ensures forall x :: multiset(Filter(s, p))[x] == if p(x) then multiset(s)[x] else 0
    decreases |s|
  {
    if s != [] {
      var n := |s| - 1;
      assert s == s[..n] + [s[n]];
      FilterCounts(s[..n], p);
      assert multiset(s) == multiset(s[..n]) + multiset{s[n]};
      assert multiset(Filter(s, p)) == multiset(Filter(s[..n], p)) + multiset(if p(s[n]) then [s[n]] else []);
    }
  }

  /** The sum of column `f` over the rows of `s`. */
  function Sum<T(==, !new)>(s: seq<T>, f: T -> int): int
  {
    if s == [] then 0 else Sum(s[..|s| - 1], f) + f(s[|s| - 1])
  }

  lemma {:induction false} SumAppend<T(!new)>(a: seq<T>, b: seq<T>, f: T -> int)
    ensures Sum(a + b, f) == Sum(a, f) + Sum(b, f)
    decreases |b|
  {
    if b == [] {
      assert a + b == a;
    } else {
      var n := |b| - 1;
      assert (a + b)[..|a + b| - 1] == a + b[..n];
      SumAppend(a, b[..n], f);
    }
  }

  lemma SumCons<T(!new)>(x: T, s: seq<T>, f: T -> int)
    ensures Sum([x] + s, f) == f(x) + Sum(s, f)
  {
    SumAppend([x], s, f);
    assert [x][..0] == [];
  }

  /** A sum whose every term is non-positive is non-positive. */
  lemma {:induction false} SumNonPositive<T(!new)>(s: seq<T>, f: T -> int)
    requires forall x :: x in s ==> f(x) <= 0
    ensures Sum(s, f) <= 0
  {
    if s != [] {
      var n := |s| - 1;
      assert s == s[..n] + [s[n]];
      SumNonPositive(s[..n], f);
    }
  }

  /** Sums of two columns that agree on every row are equal. */
  lemma {:induction false} SumCongruent<T(!new)>(s: seq<T>, f: T -> int, g: T -> int)
    requires forall x :: x in s ==> f(x) == g(x)
    ensures Sum(s, f) == Sum(s, g)
  {
    if s != [] {
      var n := |s| - 1;
      assert s == s[..n] + [s[n]];
      SumCongruent(s[..n], f, g);
    }
  }

  /**
   * Raising the term of one element of a duplicate-free sequence by `d`
   * raises the sum by exactly `d`.
   */
  lemma {:induction false} SumBump<T(!new)>(s: seq<T>, k: T, f: T -> int, g: T -> int, d: int)
    requires Distinct(s) && k in s
    requires f(k) == g(k) + d
    requires forall x :: x in s && x != k ==> f(x) == g(x)
    ensures Sum(s, f) == Sum(s, g) + d
  {
    var n := |s| - 1;
    assert s == s[..n] + [s[n]];
    if s[n] == k {
      assert k !in s[..n];
      SumCongruent(s[..n], f, g);
    } else {
      SumBump(s[..n], k, f, g, d);
    }
  }

  /** No element occurs twice. */
  predicate Distinct<T(==, !new)>(s: seq<T>)
  {
    forall i, j :: 0 <= i < j < |s| ==> s[i] != s[j]
  }

  lemma DistinctSnoc<T(!new)>(s: seq<T>, x: T)
    ensures Distinct(s + [x]) <==> Distinct(s) && x !in s
  {
    var t := s + [x];
    if Distinct(s) && x !in s {
      forall i, j | 0 <= i < j < |t| ensures t[i] != t[j] {
        if j == |s| { assert t[i] == s[i]; }
      }
    }
    if Distinct(t) {
      forall i, j | 0 <= i < j < |s| ensures s[i] != s[j] {
        assert t[i] == s[i] && t[j] == s[j];
      }
      forall i | 0 <= i < |s| ensures s[i] != x {
        assert t[i] == s[i] && t[|s|] == x;
      }
    }
  }

  /** In a duplicate-free sequence every value occurs at most once. */
  lemma {:induction false} DistinctMultiplicity<T(!new)>(s: seq<T>, x: T)
    requires Distinct(s)
    ensures multiset(s)[x] <= 1
  {
    if s != [] {
      var n := |s| - 1;
      assert s == s[..n] + [s[n]];
      DistinctSnoc(s[..n], s[n]);
      DistinctMultiplicity(s[..n], x);
      if s[n] == x {
        assert x !in multiset(s[..n]);
      }
    }
  }

  /** Reordering a duplicate-free sequence leaves it duplicate-free. */
  lemma DistinctPermutation<T(!new)>(a: seq<T>, b: seq<T>)
    requires Distinct(a) && multiset(a) == multiset(b)
    ensures Distinct(b)
  {
    forall i, j | 0 <= i < j < |b| ensures b[i] != b[j] {
      assert b == b[..j] + [b[j]] + b[j + 1..];
      DistinctMultiplicity(a, b[j]);
      assert multiset(b[..j])[b[j]] == 0;
      assert b[i] in b[..j];
    }
  }

  /** `a` is obtained from `b` by deleting elements, keeping the order of the rest. */
  predicate IsSubseq<T(==, !new)>(a: seq<T>, b: seq<T>)
    decreases |b|
  {
    a == [] ||
    (b != [] &&
     ((a[|a| - 1] == b[|b| - 1] && IsSubseq(a[..|a| - 1], b[..|b| - 1])) ||
      IsSubseq(a, b[..|b| - 1])))
  }

  lemma {:induction false} SubseqMembers<T(!new)>(a: seq<T>, b: seq<T>)
    requires IsSubseq(a, b)
    ensures forall x :: x in a ==> x in b
    decreases |b|
  {
    if a != [] {
      var m, n := |a| - 1, |b| - 1;
      assert a == a[..m] + [a[m]];
      assert b == b[..n] + [b[n]];
      if a[m] == b[n] && IsSubseq(a[..m], b[..n]) {
        SubseqMembers(a[..m], b[..n]);
      } else {
        SubseqMembers(a, b[..n]);
      }
    }
  }

  lemma {:induction false} SubseqTransitive<T(!new)>(a: seq<T>, b: seq<T>, c: seq<T>)
    requires IsSubseq(a, b) && IsSubseq(b, c)
    ensures IsSubseq(a, c)
    decreases |c|
  {
    if a != [] {
      var l, m, n := |a| - 1, |b| - 1, |c| - 1;
      if IsSubseq(b, c[..n]) {
        SubseqTransitive(a, b, c[..n]);
      } else if a[l] == b[m] && IsSubseq(a[..l], b[..m]) {
        SubseqTransitive(a[..l], b[..m], c[..n]);
      } else {
        SubseqTransitive(a, b[..m], c[..n]);
      }
    }
  }

  /** A subsequence of a duplicate-free sequence is duplicate-free. */
  lemma {:induction false} SubseqDistinct<T(!new)>(a: seq<T>, b: seq<T>)
    requires IsSubseq(a, b) && Distinct(b)
    ensures Distinct(a)
    decreases |b|
  {
    if a != [] {
      var m, n := |a| - 1, |b| - 1;
      assert a == a[..m] + [a[m]];
      assert b == b[..n] + [b[n]];
      DistinctSnoc(b[..n], b[n]);
      if a[m] == b[n] && IsSubseq(a[..m], b[..n]) {
        SubseqDistinct(a[..m], b[..n]);
        SubseqMembers(a[..m], b[..n]);
        DistinctSnoc(a[..m], a[m]);
      } else {
        SubseqDistinct(a, b[..n]);
      }
    }
  }

  lemma {:induction false} FilterSubseq<T(!new)>(s: seq<T>, p: T -> bool)
    ensures IsSubseq(Filter(s, p), s)
    decreases |s|
  {
    if s != [] {
      var n := |s| - 1;
      var f := Filter(s[..n], p);
      FilterSubseq(s[..n], p);
      assert s == s[..n] + [s[n]];
      FilterSnoc(s[..n], s[n], p);
      if p(s[n]) {
        var r := f + [s[n]];
        assert r[|r| - 1] == s[|s| - 1] && r[..|r| - 1] == f;
        assert IsSubseq(r, s);
      } else {
        assert Filter(s, p) == f;
        SubseqExtend(f, s[..n], s[n]);
      }
    }
  }

  lemma SubseqExtend<T(!new)>(a: seq<T>, b: seq<T>, x: T)
    requires IsSubseq(a, b)
    ensures IsSubseq(a, b + [x])
  {
    assert (b + [x])[..|b|] == b;
  }

  /** Filtering twice is filtering once by the conjunction. */
  lemma {:induction false} FilterFilter<T(!new)>(s: seq<T>, p: T -> bool, q: T -> bool, r: T -> bool)
    requires forall x :: r(x) == (p(x) && q(x))
    ensures Filter(Filter(s, p), q) == Filter(s, r)
    decreases |s|
  {
    if s != [] {
      var n := |s| - 1;
      assert s == s[..n] + [s[n]];
      FilterFilter(s[..n], p, q, r);
      FilterSnoc(s[..n], s[n], p);
      FilterSnoc(s[..n], s[n], r);
      if p(s[n]) {
        FilterSnoc(Filter(s[..n], p), s[n], q);
      } else {
        assert Filter(s, p) == Filter(s[..n], p);
        assert Filter(s, r) == Filter(s[..n], r);
      }
    }
  }

  /** For disjoint masks, the two selections together are no larger than the frame. */
  lemma {:induction false} FilterDisjoint<T(!new)>(s: seq<T>, p: T -> bool, q: T -> bool)
    requires forall x :: !(p(x) && q(x))
    ensures |Filter(s, p)| + |Filter(s, q)| <= |s|
    decreases |s|
  {
    if s != [] {
      FilterDisjoint(s[..|s| - 1], p, q);
    }
  }

  /** A mask that every row passes keeps the frame as it is. */
  lemma {:induction false} FilterAll<T(!new)>(s: seq<T>, p: T -> bool)
    requires forall x :: x in s ==> p(x)
    ensures Filter(s, p) == s
    decreases |s|
  {
    if s != [] {
      var n := |s| - 1;
      assert s == s[..n] + [s[n]];
      FilterAll(s[..n], p);
    }
  }

  /** The position of the first occurrence of `x` in `s`, or `|s|` when `x` does not occur. */
  function FirstIndex<T(==, !new)>(s: seq<T>, x: T): (i: nat)
    ensures i <= |s|
    ensures i < |s| ==> s[i] == x
    ensures forall k :: 0 <= k < i ==> s[k] != x
    ensures i == |s| <==> x !in s
  {
    if s == [] then 0
    else if s[0] == x then 0
    else
      assert s == [s[0]] + s[1..];
      1 + FirstIndex(s[1..], x)
  }

  lemma FirstIndexAppend<T(!new)>(a: seq<T>, b: seq<T>, x: T)
    requires x in a
    ensures FirstIndex(a + b, x) == FirstIndex(a, x)
  {
    var i := FirstIndex(a, x);
    assert (a + b)[..i] == a[..i];
    assert (a + b)[i] == x;
    FirstIndexAt(a + b, x, i);
  }

  /** A position holding `x` with no earlier `x` is the first index of `x`. */
  lemma FirstIndexAt<T(!new)>(s: seq<T>, x: T, i: nat)
    requires i < |s| && s[i] == x && x !in s[..i]
    ensures FirstIndex(s, x) == i
  {
    assert forall k :: 0 <= k < i ==> s[..i][k] == s[k];
  }

  /** The elements of `r` appear in the order of their first occurrences in `s`. */
  predicate OrderedByFirst<T(==, !new)>(r: seq<T>, s: seq<T>)
  {
    forall i, j :: 0 <= i < j < |r| ==> FirstIndex(s, r[i]) < FirstIndex(s, r[j])
  }

  /** A subsequence keeps the first-occurrence order of the sequence it is taken from. */
  lemma {:induction false} SubseqOrdered<T(!new)>(a: seq<T>, b: seq<T>, s: seq<T>)
    requires IsSubseq(a, b) && OrderedByFirst(b, s)
    ensures OrderedByFirst(a, s)
    decreases |b|
  {
    if a != [] {
      var m, n := |a| - 1, |b| - 1;
      assert OrderedByFirst(b[..n], s);
      if a[m] == b[n] && IsSubseq(a[..m], b[..n]) {
        SubseqOrdered(a[..m], b[..n], s);
        SubseqMembers(a[..m], b[..n]);
        forall i, j | 0 <= i < j < |a| ensures FirstIndex(s, a[i]) < FirstIndex(s, a[j]) {
          if j == m {
            assert a[i] in a[..m];
            var k :| 0 <= k < n && b[k] == a[i];
          } else {
            assert a[i] == a[..m][i] && a[j] == a[..m][j];
          }
        }
      } else {
        SubseqOrdered(a, b[..n], s);
      }
    }
  }

  /** `s` with every row equal to an earlier row removed (pandas `drop_duplicates()`, keep first). */
  function Dedup<T(==, !new)>(s: seq<T>): (r: seq<T>)
    ensures Distinct(r)
    ensures forall x :: x in r <==> x in s
    ensures |r| <= |s|
  {
    if s == [] then []
    else
      var n := |s| - 1;
      var d := Dedup(s[..n]);
      assert s == s[..n] + [s[n]];
      DistinctSnoc(d, s[n]);
      if s[n] in s[..n] then d else d + [s[n]]
  }

  lemma DedupSnoc<T(!new)>(s: seq<T>, x: T)
    ensures Dedup(s + [x]) == if x in s then Dedup(s) else Dedup(s) + [x]
  {
    assert (s + [x])[..|s|] == s;
  }

  /** Deduplication yields a subsequence of its input. */
  lemma {:induction false} DedupSubseq<T(!new)>(s: seq<T>)
    ensures IsSubseq(Dedup(s), s)
    decreases |s|
  {
    if s != [] {
      var n := |s| - 1;
      var d := Dedup(s[..n]);
      DedupSubseq(s[..n]);
      assert s == s[..n] + [s[n]];
      if s[n] in s[..n] {
        SubseqExtend(d, s[..n], s[n]);
      } else {
        assert (d + [s[n]])[..|d|] == d;
      }
    }
  }

  /** Deduplication keeps the first occurrence of each row, so its output follows first-occurrence order. */
  lemma {:induction false} DedupOrdered<T(!new)>(s: seq<T>)
    ensures OrderedByFirst(Dedup(s), s)
    decreases |s|
  {
    if s != [] {
      var n := |s| - 1;
      var init := s[..n];
      var d := Dedup(init);
      DedupOrdered(init);
      assert s == init + [s[n]];
      if s[n] !in init {
        var r := d + [s[n]];
        forall i, j | 0 <= i < j < |r| ensures FirstIndex(s, r[i]) < FirstIndex(s, r[j]) {
          assert r[i] == d[i] && r[i] in init;
          FirstIndexAppend(init, [s[n]], r[i]);
          if j < |d| {
            assert r[j] == d[j] && r[j] in init;
            FirstIndexAppend(init, [s[n]], r[j]);
          } else {
            assert s[..n] == init;
            assert FirstIndex(s, s[n]) == n;
          }
        }
      } else {
        forall i, j | 0 <= i < j < |d| ensures FirstIndex(s, d[i]) < FirstIndex(s, d[j]) {
          assert d[i] in init && d[j] in init;
          FirstIndexAppend(init, [s[n]], d[i]);
          FirstIndexAppend(init, [s[n]], d[j]);
        }
      }
    }
  }

  /** A duplicate-free frame is left as it is. */
  lemma {:induction false} DedupDistinct<T(!new)>(s: seq<T>)
    requires Distinct(s)
    ensures Dedup(s) == s
    decreases |s|
  {
    if s != [] {
      var n := |s| - 1;
      assert s == s[..n] + [s[n]];
      DistinctSnoc(s[..n], s[n]);
      DedupDistinct(s[..n]);
    }
  }

  /** Filtering and deduplication commute: equal rows pass or fail a mask together. */
  lemma {:induction false} DedupFilter<T(!new)>(s: seq<T>, p: T -> bool)
    ensures Dedup(Filter(s, p)) == Filter(Dedup(s), p)
    decreases |s|
  {
    if s != [] {
      var n := |s| - 1;
      var init, x := s[..n], s[n];
      assert s == init + [x];
      DedupFilter(init, p);
      FilterSnoc(init, x, p);
      DedupSnoc(init, x);
      if p(x) {
        DedupSnoc(Filter(init, p), x);
        assert x in Filter(init, p) <==> x in init;
        if x in init {
          assert Dedup(s) == Dedup(init);
        } else {
          FilterSnoc(Dedup(init), x, p);
        }
      } else {
        assert Filter(s, p) == Filter(init, p);
        if x !in init {
          FilterSnoc(Dedup(init), x, p);
        }
      }
    }
  }

  /** The positions of the rows equal to some earlier row (pandas `duplicated()`). */
  function DuplicatePositions<T(==, !new)>(s: seq<T>): set<int>
  {
    set i | 0 <= i < |s| && s[i] in s[..i]
  }

  /** The number of rows equal to some earlier row (pandas `duplicated().sum()`). */
  function DuplicateCount<T(==, !new)>(s: seq<T>): nat
  {
    |DuplicatePositions(s)|
  }

  lemma DuplicatePositionsSnoc<T(!new)>(s: seq<T>, x: T)
    ensures DuplicatePositions(s + [x]) == DuplicatePositions(s) + (if x in s then {|s|} else {})
  {
    var t := s + [x];
    assert t[..|s|] == s;
    forall i | 0 <= i < |s| ensures t[i] == s[i] && t[..i] == s[..i] { }
  }

  /** Deduplication removes exactly the rows that repeat an earlier row. */
  lemma {:induction false} DedupLength<T(!new)>(s: seq<T>)
    ensures |Dedup(s)| + DuplicateCount(s) == |s|
    decreases |s|
  {
    if s != [] {
      var n := |s| - 1;
      var init := s[..n];
      assert s == init + [s[n]];
      DedupLength(init);
      DuplicatePositionsSnoc(init, s[n]);
      assert n !in DuplicatePositions(init);
    }
  }

  /** The set of non-missing values of column `f` (what pandas `nunique` counts). */
  function Values<T(==, !new), U>(s: seq<T>, f: T -> Option<U>): set<U>
  {
    set x | x in s && f(x).Some? :: f(x).value
  }

  lemma ValuesSnoc<T(!new), U>(s: seq<T>, x: T, f: T -> Option<U>)
    ensures Values(s + [x], f) == Values(s, f) + (if f(x).Some? then {f(x).value} else {})
  {
  }

  /** A column has at most as many distinct values as rows. */
  lemma {:induction false} ValuesBound<T(!new), U>(s: seq<T>, f: T -> Option<U>)
    ensures |Values(s, f)| <= |s|
    decreases |s|
  {
    if s != [] {
      var n := |s| - 1;
      assert s == s[..n] + [s[n]];
      ValuesSnoc(s[..n], s[n], f);
      ValuesBound(s[..n], f);
    }
  }

  /** A sequence with no repeated element has as many distinct elements as positions. */
  lemma {:induction false} DistinctCard<T(!new)>(s: seq<T>)
    requires Distinct(s)
    ensures |set x | x in s| == |s|
    decreases |s|
  {
    if s != [] {
      var n := |s| - 1;
      assert s == s[..n] + [s[n]];
      DistinctSnoc(s[..n], s[n]);
      DistinctCard(s[..n]);
      assert (set x | x in s) == (set x | x in s[..n]) + {s[n]};
    }
  }

  lemma FilterDistinct<T(!new)>(s: seq<T>, p: T -> bool)
    requires Distinct(s)
    ensures Distinct(Filter(s, p))
  {
    FilterSubseq(s, p);
    SubseqDistinct(Filter(s, p), s);
  }

  lemma ValuesNonEmpty<T(!new), U>(s: seq<T>, f: T -> Option<U>)
    ensures |Values(s, f)| > 0 ==> s != []
  {
    if s == [] {
      assert Values(s, f) == {};
    }
  }
}
