/**
 * pandas `groupby` as explicit passes from key to accumulator. Rows whose key
 * is missing belong to no group (pandas drops null keys by default). Every
 * accumulator is stated against a reference: the rows of one group, selected
 * by `Filter(s, Member(key, k))`.
 */
module Grouping {
  import opened Wrappers
  import opened Seqs

  /** The mask selecting the rows of group `k`. */
  function Member<T, K(==)>(key: T -> Option<K>, k: K): T -> bool
  {
    x => key(x) == Some(k)
  }

  /** The mask selecting the rows that belong to some group. */
  function HasKey<T, K>(key: T -> Option<K>): T -> bool
  {
    x => key(x).Some?
  }

  /** Group `k` is non-empty. */
  predicate Present<T(==, !new), K(==)>(s: seq<T>, key: T -> Option<K>, k: K)
  {
    exists x :: x in s && key(x) == Some(k)
  }

  /** A map read as a column of scores, 0 where the key is absent. */
  function Lookup<K(==)>(m: map<K, int>): K -> int
  {
    k => if k in m then m[k] else 0
  }

  lemma PresentSnoc<T(!new), K>(s: seq<T>, x: T, key: T -> Option<K>, k: K)
    ensures Present(s + [x], key, k) <==> Present(s, key, k) || key(x) == Some(k)
  {
    if Present(s, key, k) {
      var y :| y in s && key(y) == Some(k);
      assert y in s + [x];
    }
    if key(x) == Some(k) {
      assert x in s + [x];
    }
  }

  /** A group is present exactly when its selection of rows is non-empty. */
  lemma PresentNonEmpty<T(!new), K>(s: seq<T>, key: T -> Option<K>, k: K)
    ensures Present(s, key, k) <==> |Filter(s, Member(key, k))| > 0
  {
    var f := Filter(s, Member(key, k));
    if |f| > 0 {
      assert f[0] in f;
    }
    if Present(s, key, k) {
      var y :| y in s && key(y) == Some(k);
      assert y in f;
    }
  }

  /** The non-missing keys, in row order. */
  function KeyColumn<T(==, !new), K(==, !new)>(s: seq<T>, key: T -> Option<K>): (r: seq<K>)
    ensures forall k :: k in r <==> Present(s, key, k)
  {
    if s == [] then []
    else
      var n := |s| - 1;
      assert s == s[..n] + [s[n]];
      forall k ensures Present(s, key, k) <==> Present(s[..n], key, k) || key(s[n]) == Some(k) {
        PresentSnoc(s[..n], s[n], key, k);
      }
      KeyColumn(s[..n], key) + (match key(s[n]) case None => [] case Some(k) => [k])
  }

  /** The group keys, each once, in order of first appearance. */
  function GroupKeys<T(==, !new), K(==, !new)>(s: seq<T>, key: T -> Option<K>): (r: seq<K>)
    ensures Distinct(r)
    ensures forall k :: k in r <==> Present(s, key, k)
  {
    Dedup(KeyColumn(s, key))
  }

  lemma GroupKeysSnoc<T(!new), K(!new)>(s: seq<T>, x: T, key: T -> Option<K>)
    ensures GroupKeys(s + [x], key) ==
      match key(x)
      case None => GroupKeys(s, key)
      case Some(k) => if Present(s, key, k) then GroupKeys(s, key) else GroupKeys(s, key) + [k]
  {
    var t := s + [x];
    assert t[..|t| - 1] == s;
    match key(x)
    case None =>
      assert KeyColumn(t, key) == KeyColumn(s, key);
    case Some(k) =>
      DedupSnoc(KeyColumn(s, key), k);
  }

  /** Adds `d` to the accumulator of key `k`, starting from 0. */
  function Bump<K(==)>(m: map<K, int>, k: K, d: int): map<K, int>
  {
    m[k := (if k in m then m[k] else 0) + d]
  }

  /** Adds the values `vs` to the accumulator of key `k`, starting from the empty set. */
  function Join<K(==), V(==)>(m: map<K, set<V>>, k: K, vs: set<V>): map<K, set<V>>
  {
    m[k := (if k in m then m[k] else {}) + vs]
  }

  /** `m` holds the row count of every group of `s`. */
  ghost predicate CountsOf<T(!new), K(!new)>(m: map<K, int>, s: seq<T>, key: T -> Option<K>)
  {
    && (forall k :: k in m <==> Present(s, key, k))
    && (forall k :: k in m ==> m[k] == |Filter(s, Member(key, k))| && m[k] >= 1)
  }

  lemma CountStep<T(!new), K(!new)>(m: map<K, int>, s: seq<T>, x: T, key: T -> Option<K>)
    requires CountsOf(m, s, key)
    ensures CountsOf(match key(x) case None => m case Some(k) => Bump(m, k, 1), s + [x], key)
  {
    var m' := match key(x) case None => m case Some(k) => Bump(m, k, 1);
    forall k ensures (k in m' <==> Present(s + [x], key, k))
      && (k in m' ==> m'[k] == |Filter(s + [x], Member(key, k))| && m'[k] >= 1)
    {
      PresentSnoc(s, x, key, k);
      FilterSnoc(s, x, Member(key, k));
      assert Member(key, k)(x) <==> key(x) == Some(k);
      PresentNonEmpty(s, key, k);
      if key(x) == Some(k) {
        assert m' == Bump(m, k, 1);
      } else {
        assert Filter(s + [x], Member(key, k)) == Filter(s, Member(key, k));
        assert k in m' <==> k in m;
        assert k in m ==> m'[k] == m[k];
      }
    }
  }

  /** `groupby(key)[...].count()`: the number of rows of each group. */
  function CountBy<T(==, !new), K(==, !new)>(s: seq<T>, key: T -> Option<K>): (m: map<K, int>)
    ensures forall k :: k in m <==> Present(s, key, k)
    ensures forall k :: k in m ==> m[k] == |Filter(s, Member(key, k))| && m[k] >= 1
  {
    if s == [] then map[]
    else
      var n := |s| - 1;
      var m := CountBy(s[..n], key);
      assert s == s[..n] + [s[n]];
      CountStep(m, s[..n], s[n], key);
      match key(s[n])
      case None => m
      case Some(k) => Bump(m, k, 1)
  }

  /** `m` holds the sum of column `val` over every group of `s`. */
  ghost predicate SumsOf<T(!new), K(!new)>(m: map<K, int>, s: seq<T>, key: T -> Option<K>, val: T -> int)
  {
    && (forall k :: k in m <==> Present(s, key, k))
    && (forall k :: k in m ==> m[k] == Sum(Filter(s, Member(key, k)), val))
  }

  lemma SumStep<T(!new), K(!new)>(m: map<K, int>, s: seq<T>, x: T, key: T -> Option<K>, val: T -> int)
    requires SumsOf(m, s, key, val)
    ensures SumsOf(match key(x) case None => m case Some(k) => Bump(m, k, val(x)), s + [x], key, val)
  {
    var m' := match key(x) case None => m case Some(k) => Bump(m, k, val(x));
    forall k ensures (k in m' <==> Present(s + [x], key, k))
      && (k in m' ==> m'[k] == Sum(Filter(s + [x], Member(key, k)), val))
    {
      PresentSnoc(s, x, key, k);
      FilterSnoc(s, x, Member(key, k));
      assert Member(key, k)(x) <==> key(x) == Some(k);
      PresentNonEmpty(s, key, k);
      if key(x) == Some(k) {
        assert m' == Bump(m, k, val(x));
        var f := Filter(s, Member(key, k)) + [x];
        assert f[..|f| - 1] == Filter(s, Member(key, k));
      } else {
        assert Filter(s + [x], Member(key, k)) == Filter(s, Member(key, k));
        assert k in m' <==> k in m;
        assert k in m ==> m'[k] == m[k];
      }
    }
  }

  /** `groupby(key)[val].sum()`: the sum of column `val` over each group. */
  function SumBy<T(==, !new), K(==, !new)>(s: seq<T>, key: T -> Option<K>, val: T -> int): (m: map<K, int>)
    ensures forall k :: k in m <==> Present(s, key, k)
    ensures forall k :: k in m ==> m[k] == Sum(Filter(s, Member(key, k)), val)
  {
    if s == [] then map[]
    else
      var n := |s| - 1;
      var m := SumBy(s[..n], key, val);
      assert s == s[..n] + [s[n]];
      SumStep(m, s[..n], s[n], key, val);
      match key(s[n])
      case None => m
      case Some(k) => Bump(m, k, val(s[n]))
  }

  /** The set holding `val`'s value at `x`, empty when that cell is missing. */
  function ValueOf<T, V(==)>(x: T, val: T -> Option<V>): set<V>
  {
    if val(x).Some? then {val(x).value} else {}
  }

  /** `m` holds the distinct non-missing values of column `val` in every group of `s`. */
  ghost predicate ValueSetsOf<T(!new), K(!new), V>(m: map<K, set<V>>, s: seq<T>, key: T -> Option<K>, val: T -> Option<V>)
  {
    && (forall k :: k in m <==> Present(s, key, k))
    && (forall k :: k in m ==> m[k] == Values(Filter(s, Member(key, k)), val))
  }

  lemma ValuesStep<T(!new), K(!new), V>(m: map<K, set<V>>, s: seq<T>, x: T, key: T -> Option<K>, val: T -> Option<V>)
    requires ValueSetsOf(m, s, key, val)
    ensures ValueSetsOf(match key(x) case None => m case Some(k) => Join(m, k, ValueOf(x, val)), s + [x], key, val)
  {
    var m' := match key(x) case None => m case Some(k) => Join(m, k, ValueOf(x, val));
    forall k ensures (k in m' <==> Present(s + [x], key, k))
      && (k in m' ==> m'[k] == Values(Filter(s + [x], Member(key, k)), val))
    {
      PresentSnoc(s, x, key, k);
      FilterSnoc(s, x, Member(key, k));
      ValuesSnoc(Filter(s, Member(key, k)), x, val);
    }
  }

  /** The distinct non-missing values of column `val` in each group. */
  function ValuesBy<T(==, !new), K(==, !new), V(==)>(s: seq<T>, key: T -> Option<K>, val: T -> Option<V>): (m: map<K, set<V>>)
    ensures forall k :: k in m <==> Present(s, key, k)
    ensures forall k :: k in m ==> m[k] == Values(Filter(s, Member(key, k)), val)
  {
    if s == [] then map[]
    else
      var n := |s| - 1;
      var m := ValuesBy(s[..n], key, val);
      assert s == s[..n] + [s[n]];
      ValuesStep(m, s[..n], s[n], key, val);
      match key(s[n])
      case None => m
      case Some(k) => Join(m, k, ValueOf(s[n], val))
  }

  /** `groupby(key)[val].nunique()`: the number of distinct non-missing values in each group. */
  function NUniqueBy<T(==, !new), K(==, !new), V(==)>(s: seq<T>, key: T -> Option<K>, val: T -> Option<V>): (m: map<K, int>)
    ensures forall k :: k in m <==> Present(s, key, k)
    ensures forall k :: k in m ==> m[k] == |Values(Filter(s, Member(key, k)), val)|
  {
    var v := ValuesBy(s, key, val);
    map k | k in v :: |v[k]|
  }

  lemma SumBySnoc<T(!new), K(!new)>(s: seq<T>, x: T, key: T -> Option<K>, val: T -> int)
    ensures SumBy(s + [x], key, val) ==
      match key(x) case None => SumBy(s, key, val) case Some(k) => Bump(SumBy(s, key, val), k, val(x))
  {
    assert (s + [x])[..|s|] == s;
  }

  /**
   * The group sums add up to the sum over every row that has a key: grouping
   * neither loses nor double-counts a row.
   */
  lemma {:induction false} GroupSumsTotal<T(!new), K(!new)>(s: seq<T>, key: T -> Option<K>, val: T -> int)
    ensures Sum(GroupKeys(s, key), Lookup(SumBy(s, key, val))) == Sum(Filter(s, HasKey(key)), val)
    decreases |s|
  {
    if s != [] {
      var n := |s| - 1;
      var init, x := s[..n], s[n];
      assert s == init + [x];
      GroupSumsTotal(init, key, val);
      GroupKeysSnoc(init, x, key);
      SumBySnoc(init, x, key, val);
      FilterSnoc(init, x, HasKey(key));
      var g0, m0, f0 := GroupKeys(init, key), SumBy(init, key, val), Filter(init, HasKey(key));
      if key(x).Some? {
        var k := key(x).value;
        GroupSumsKeyed(init, x, key, val);
        assert GroupKeys(s, key) == if Present(init, key, k) then g0 else g0 + [k];
        assert SumBy(s, key, val) == Bump(m0, k, val(x));
        assert Filter(s, HasKey(key)) == f0 + [x];
        assert Sum(Filter(s, HasKey(key)), val) == Sum(f0, val) + val(x);
        assert Sum(GroupKeys(s, key), Lookup(SumBy(s, key, val))) == Sum(g0, Lookup(m0)) + val(x);
      } else {
        assert GroupKeys(s, key) == g0;
        assert SumBy(s, key, val) == m0;
        assert Filter(s, HasKey(key)) == f0;
      }
    }
  }

  /** The step for a row with a key: its value joins one group and the keyed rows alike. */
  lemma GroupSumsKeyed<T(!new), K(!new)>(init: seq<T>, x: T, key: T -> Option<K>, val: T -> int)
    requires key(x).Some?
    ensures var k := key(x).value;
      Sum(if Present(init, key, k) then GroupKeys(init, key) else GroupKeys(init, key) + [k],
          Lookup(Bump(SumBy(init, key, val), k, val(x))))
      == Sum(GroupKeys(init, key), Lookup(SumBy(init, key, val))) + val(x)
    ensures Sum(Filter(init, HasKey(key)) + [x], val) == Sum(Filter(init, HasKey(key)), val) + val(x)
  {
    var k := key(x).value;
    GroupIncrement(GroupKeys(init, key), SumBy(init, key, val), k, val(x), Present(init, key, k));
    SumAppend(Filter(init, HasKey(key)), [x], val);
    assert Sum([x], val) == val(x) by { assert [x][..0] == []; }
  }

  /** Adding `d` to one group raises the total over the groups by `d`, whether the group is old or new. */
  lemma GroupIncrement<K(!new)>(g: seq<K>, m: map<K, int>, k: K, d: int, existing: bool)
    requires Distinct(g) && (forall y :: y in g <==> y in m)
    requires existing <==> k in m
    ensures Sum(if existing then g else g + [k], Lookup(Bump(m, k, d))) == Sum(g, Lookup(m)) + d
  {
    var m' := Bump(m, k, d);
    forall y | y in g && y != k ensures Lookup(m')(y) == Lookup(m)(y) { }
    if existing {
      SumBump(g, k, Lookup(m'), Lookup(m), d);
    } else {
      SumCongruent(g, Lookup(m'), Lookup(m));
      SumAppend(g, [k], Lookup(m'));
      assert Sum([k], Lookup(m')) == d by { assert [k][..0] == []; }
    }
  }

  /** The mask `series > t` over the keys of a map. */
  function Exceeds<K(==)>(m: map<K, int>, t: int): K -> bool
  {
    k => Lookup(m)(k) > t
  }

  /**
   * Counting the groups whose value exceeds `t` over the map (`(series > t).sum()`)
   * agrees with selecting them from the key list (`series[series > t]`).
   */
  lemma CountAbove<K(!new)>(m: map<K, int>, keys: seq<K>, t: int)
    requires Distinct(keys)
    requires forall k :: k in keys <==> k in m
    ensures |set k | k in m && m[k] > t| == |Filter(keys, Exceeds(m, t))|
  {
    var v := Filter(keys, Exceeds(m, t));
    FilterDistinct(keys, Exceeds(m, t));
    DistinctCard(v);
    forall k ensures k in v <==> k in m && m[k] > t {
      if k in m {
        assert Lookup(m)(k) == m[k];
        assert Exceeds(m, t)(k) == (Lookup(m)(k) > t);
      }
    }
    assert (set k | k in m && m[k] > t) == (set x | x in v);
  }
}
