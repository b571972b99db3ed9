/**
 * Ordering group results: `sort_values(ascending=False).head(n)` and the key
 * order of a grouped series. Keys are sorted by a score, highest first, with
 * an insertion sort; only the order of the scores is promised, not the order
 * among equal scores.
 */
module Ranking {
  import opened Seqs
  import opened Grouping

  /** One labelled value of a result series. */
  datatype Entry<K> = Entry(key: K, value: int)

  /** The scores of `ks` never increase from left to right. */
  predicate NonIncreasing<K(!new)>(ks: seq<K>, score: K -> int)
  {
    forall i, j :: 0 <= i < j < |ks| ==> score(ks[i]) >= score(ks[j])
  }

  /** Places `k` into `ks` ahead of the first key that does not outscore it. */
  function Insert<K(==, !new)>(k: K, ks: seq<K>, score: K -> int): (r: seq<K>)
    ensures multiset(r) == multiset(ks) + multiset{k}
    ensures NonIncreasing(ks, score) ==> NonIncreasing(r, score)
  {
    if ks == [] then [k]
    else if score(k) >= score(ks[0]) then [k] + ks
    else
      var rest := Insert(k, ks[1..], score);
      assert ks == [ks[0]] + ks[1..];
      assert forall y :: y in rest ==> y == k || y in ks[1..] by {
        forall y | y in rest ensures y == k || y in ks[1..] {
          assert y in multiset(rest);
        }
      }
      var r := [ks[0]] + rest;
      assert NonIncreasing(ks, score) ==> NonIncreasing(r, score) by {
        if NonIncreasing(ks, score) {
          assert NonIncreasing(ks[1..], score);
          forall j | 0 < j < |r| ensures score(r[0]) >= score(r[j]) {
            assert r[j] in rest;
            if r[j] != k {
              var i :| 0 <= i < |ks[1..]| && ks[1..][i] == r[j];
              assert ks[i + 1] == r[j];
            }
          }
        }
      }
      r
  }

  /** The keys, highest score first: a reordering of `ks`. */
  function SortDesc<K(==, !new)>(ks: seq<K>, score: K -> int): (r: seq<K>)
    ensures multiset(r) == multiset(ks)
    ensures NonIncreasing(r, score)
  {
    if ks == [] then []
    else
      assert ks == [ks[0]] + ks[1..];
      Insert(ks[0], SortDesc(ks[1..], score), score)
  }

  /** Inserting a key adds exactly its term to a sum. */
  lemma {:induction false} InsertSum<K(!new)>(k: K, ks: seq<K>, score: K -> int, f: K -> int)
    ensures Sum(Insert(k, ks, score), f) == f(k) + Sum(ks, f)
    decreases |ks|
  {
    if ks == [] {
      SumCons(k, [], f);
    } else if score(k) >= score(ks[0]) {
      SumCons(k, ks, f);
    } else {
      assert ks == [ks[0]] + ks[1..];
      InsertSum(k, ks[1..], score, f);
      SumCons(ks[0], Insert(k, ks[1..], score), f);
      SumCons(ks[0], ks[1..], f);
    }
  }

  /** Sorting reorders the keys, so any sum over them is unchanged. */
  lemma {:induction false} SortSum<K(!new)>(ks: seq<K>, score: K -> int, f: K -> int)
    ensures Sum(SortDesc(ks, score), f) == Sum(ks, f)
    decreases |ks|
  {
    if ks != [] {
      var rest := ks[1..];
      var sorted := SortDesc(rest, score);
      assert SortDesc(ks, score) == Insert(ks[0], sorted, score);
      SortSum(rest, score, f);
      InsertSum(ks[0], sorted, score, f);
      assert ks == [ks[0]] + rest;
      SumCons(ks[0], rest, f);
    }
  }

  /** `head(n)`: the first `n` elements, or all of them when there are fewer. */
  function Head<T>(s: seq<T>, n: nat): (r: seq<T>)
    ensures |r| == if |s| < n then |s| else n
    ensures forall i :: 0 <= i < |r| ==> r[i] == s[i]
  {
    if |s| < n then s else s[..n]
  }

  /** The series with index `ks` and values read from `m`. */
  function Entries<K(==)>(ks: seq<K>, m: map<K, int>): seq<Entry<K>>
  {
    seq(|ks|, i requires 0 <= i < |ks| => Entry(ks[i], Lookup(m)(ks[i])))
  }

  /** The sum of a series' values is the sum over its index of the values read from the map. */
  lemma {:induction false} EntriesSum<K(!new)>(ks: seq<K>, m: map<K, int>)
    ensures Sum(Entries(ks, m), Value) == Sum(ks, Lookup(m))
    decreases |ks|
  {
    if ks != [] {
      var n := |ks| - 1;
      EntriesSum(ks[..n], m);
      assert Entries(ks, m)[..n] == Entries(ks[..n], m);
    }
  }

  function Value<K>(e: Entry<K>): int { e.value }

  /** `sort_values(ascending=False).head(n)` of the series `m` whose index is `keys`. */
  function Top<K(==, !new)>(m: map<K, int>, keys: seq<K>, n: nat): seq<Entry<K>>
  {
    Entries(Head(SortDesc(keys, Lookup(m)), n), m)
  }

  /** Key `k` has an entry in the series. */
  predicate Listed<K(==, !new)>(r: seq<Entry<K>>, k: K)
  {
    exists i :: 0 <= i < |r| && r[i].key == k
  }

  predicate DistinctKeys<K(==, !new)>(r: seq<Entry<K>>)
  {
    forall i, j :: 0 <= i < j < |r| ==> r[i].key != r[j].key
  }

  predicate NonIncreasingValues<K>(r: seq<Entry<K>>)
  {
    forall i, j :: 0 <= i < j < |r| ==> r[i].value >= r[j].value
  }

  /**
   * The top-`n` series of a map over distinct keys: `min(n, |keys|)` entries
   * with distinct keys taken from `keys`, each carrying its map value, in
   * non-increasing order of value; a key that is left out has a value no
   * larger than the last one listed.
   */
  lemma TopSpec<K(!new)>(m: map<K, int>, keys: seq<K>, n: nat)
    requires Distinct(keys) && n > 0
    ensures var r := Top(m, keys, n);
      && |r| == (if |keys| < n then |keys| else n)
      && DistinctKeys(r)
      && NonIncreasingValues(r)
      && (forall i :: 0 <= i < |r| ==> r[i].key in keys && r[i].value == Lookup(m)(r[i].key))
      && (forall k :: k in keys && !Listed(r, k) ==> |r| == n && Lookup(m)(k) <= r[n - 1].value)
  {
    var sorted := SortDesc(keys, Lookup(m));
    var kept := Head(sorted, n);
    var r := Top(m, keys, n);
    assert |sorted| == |keys| by {
      assert |multiset(sorted)| == |multiset(keys)|;
    }
    DistinctPermutation(keys, sorted);
    forall i | 0 <= i < |r| ensures r[i].key in keys && r[i].value == Lookup(m)(r[i].key) {
      assert r[i].key == sorted[i];
      assert sorted[i] in multiset(sorted);
    }
    forall k | k in keys && !Listed(r, k) ensures |r| == n && Lookup(m)(k) <= r[n - 1].value {
      assert k in multiset(sorted);
      var j :| 0 <= j < |sorted| && sorted[j] == k;
      assert forall i :: 0 <= i < |r| ==> r[i].key == sorted[i];
      assert |r| <= j;
    }
  }

  /**
   * A map laid out over its distinct keys sorted in non-increasing order of
   * `score`: one entry per key, each with its value, keys pairwise distinct
   * and scores non-increasing; the values add up to the map's total over `ks`.
   */
  lemma SortedEntries<K(!new)>(ks: seq<K>, m: map<K, int>, score: K -> int)
    requires Distinct(ks)
    ensures var t := Entries(SortDesc(ks, score), m);
      && |t| == |ks|
      && (forall k :: Listed(t, k) <==> k in ks)
      && (forall i :: 0 <= i < |t| ==> t[i].value == Lookup(m)(t[i].key))
      && (forall i, j :: 0 <= i < j < |t| ==> t[i].key != t[j].key && score(t[i].key) >= score(t[j].key))
      && Sum(t, Value) == Sum(ks, Lookup(m))
  {
    var sorted := SortDesc(ks, score);
    var t := Entries(sorted, m);
    DistinctPermutation(ks, sorted);
    assert |sorted| == |ks| by {
      assert |multiset(sorted)| == |multiset(ks)|;
    }
    forall k ensures Listed(t, k) <==> k in ks {
      if Listed(t, k) {
        var i :| 0 <= i < |t| && t[i].key == k;
        assert sorted[i] in multiset(sorted);
      }
      if k in ks {
        assert k in multiset(sorted);
        var i :| 0 <= i < |sorted| && sorted[i] == k;
        assert t[i].key == k;
      }
    }
    EntriesSum(sorted, m);
    SortSum(ks, score, Lookup(m));
  }
}
