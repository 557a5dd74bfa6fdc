/**
 * Python dictionaries as the analyzer uses them: a map together with the order in which
 * its keys were first inserted (Python dicts iterate in insertion order, and `sorted` is
 * stable, so that order decides ties in the report). Also the counting vocabulary the
 * aggregation is specified with.
 */
module Dicts {

  ghost predicate Distinct<K>(s: seq<K>) {
    forall i, j :: 0 <= i < j < |s| ==> s[i] != s[j]
  }

  datatype Dict<K(==,!new), V> = Dict(keys: seq<K>, entries: map<K, V>) {

    /** Every key is listed once, and the listed keys are exactly the keys of the map. */
    ghost predicate Valid() {
      Distinct(keys) && forall k :: k in entries <==> k in keys
    }

    /** `d[k] = v`: a new key goes to the end of the order, an existing key keeps its place. */
    function Put(k: K, v: V): (d: Dict<K, V>)
      ensures Valid() ==> d.Valid()
      ensures d.entries == entries[k := v]
    {
      if k in entries then Dict(keys, entries[k := v]) else Dict(keys + [k], entries[k := v])
    }
  }

  function Empty<K(==,!new), V>(): (d: Dict<K, V>)
    ensures d.Valid() && d.keys == []
  {
    Dict([], map[])
  }

  /** `len(d)`: a dictionary has as many keys in its order as in its map. */
  lemma KeysCount<K(!new), V>(d: Dict<K, V>)
    requires d.Valid()
    ensures |d.keys| == |d.entries.Keys|
  {
    DistinctCount(d.keys);
    assert (set x | x in d.keys) == d.entries.Keys;
  }

  lemma {:induction false} DistinctCount<K>(s: seq<K>)
    requires Distinct(s)
    ensures |set x | x in s| == |s|
  {
    if s != [] {
      var init := s[..|s| - 1];
      DistinctCount(init);
      assert (set x | x in s) == (set x | x in init) + {s[|s| - 1]};
    }
  }

  /** The elements of `s` in order of first occurrence, each once. */
  function Dedup<K(==,!new)>(s: seq<K>): (d: seq<K>)
    ensures Distinct(d)
    ensures forall x :: x in d <==> x in s
  {
    if s == [] then []
    else
      var d := Dedup(s[..|s| - 1]);
      assert forall x :: x in s <==> x in s[..|s| - 1] || x == s[|s| - 1] by {
        assert s == s[..|s| - 1] + [s[|s| - 1]];
      }
      if s[|s| - 1] in s[..|s| - 1] then d else d + [s[|s| - 1]]
  }

  lemma DedupAppend<K(!new)>(s: seq<K>, x: K)
    ensures Dedup(s + [x]) == if x in s then Dedup(s) else Dedup(s) + [x]
  {
    assert (s + [x])[..|s|] == s;
  }

  /** Inserting keys one at a time, in the order of `s`, lists them as `Dedup(s)`. */
  lemma PutFollowsDedup<K(!new), V>(d: Dict<K, V>, s: seq<K>, x: K, v: V)
    requires d.Valid() && d.keys == Dedup(s)
    ensures d.Put(x, v).keys == Dedup(s + [x])
  {
    DedupAppend(s, x);
  }

  /** The number of occurrences of `x` in `s`. */
  function Occ<K(==)>(s: seq<K>, x: K): nat {
    if s == [] then 0 else Occ(s[..|s| - 1], x) + (if s[|s| - 1] == x then 1 else 0)
  }

  lemma OccAppend<K>(s: seq<K>, y: K, x: K)
    ensures Occ(s + [y], x) == Occ(s, x) + (if y == x then 1 else 0)
  {
    assert (s + [y])[..|s|] == s;
  }

  lemma {:induction false} OccAbsent<K>(s: seq<K>, x: K)
    requires x !in s
    ensures Occ(s, x) == 0
  {
    if s != [] {
      assert x !in s[..|s| - 1];
      OccAbsent(s[..|s| - 1], x);
    }
  }

  /** The sum of the occurrence counts in `s` of each of `keys`. */
  function SumOcc<K(==)>(keys: seq<K>, s: seq<K>): nat {
    if keys == [] then 0 else SumOcc(keys[..|keys| - 1], s) + Occ(s, keys[|keys| - 1])
  }

  lemma {:induction false} SumOccAppend<K>(keys: seq<K>, s: seq<K>, y: K)
    requires Distinct(keys)
    ensures SumOcc(keys, s + [y]) == SumOcc(keys, s) + (if y in keys then 1 else 0)
  {
    if keys != [] {
      var init, last := keys[..|keys| - 1], keys[|keys| - 1];
      assert keys == init + [last];
      SumOccAppend(init, s, y);
      OccAppend(s, y, last);
      assert y in keys <==> y in init || y == last;
      assert y in init ==> y != last;
    }
  }

  /** Every element of `s` is counted once by exactly one of its distinct values. */
  lemma {:induction false} SumOccDedup<K(!new)>(s: seq<K>)
    ensures SumOcc(Dedup(s), s) == |s|
  {
    if s != [] {
      var init, x := s[..|s| - 1], s[|s| - 1];
      assert s == init + [x];
      SumOccDedup(init);
      DedupAppend(init, x);
      var d := Dedup(init);
      SumOccAppend(d, init, x);
      if x !in init {
        assert (d + [x])[..|d|] == d;
        OccAppend(init, x, x);
        OccAbsent(init, x);
      }
    }
  }

  /** The sum of the counts of `keys`. */
  function Total<K(==)>(keys: seq<K>, counts: map<K, nat>): nat
    requires forall k :: k in keys ==> k in counts
  {
    if keys == [] then 0 else Total(keys[..|keys| - 1], counts) + counts[keys[|keys| - 1]]
  }

  /** Counts that are occurrence counts in `s` add up to `|s|` over the distinct values of `s`. */
  lemma {:induction false} TotalOfOccurrences<K(!new)>(s: seq<K>, counts: map<K, nat>)
    requires forall k :: k in s ==> k in counts && counts[k] == Occ(s, k)
    ensures Total(Dedup(s), counts) == |s|
  {
    TotalIsSumOcc(Dedup(s), s, counts);
    SumOccDedup(s);
  }

  lemma {:induction false} TotalIsSumOcc<K>(keys: seq<K>, s: seq<K>, counts: map<K, nat>)
    requires forall k :: k in keys ==> k in counts && counts[k] == Occ(s, k)
    ensures Total(keys, counts) == SumOcc(keys, s)
  {
    if keys != [] {
      TotalIsSumOcc(keys[..|keys| - 1], s, counts);
    }
  }

  /** A subset has no more elements than the set that holds it. */
  lemma SubsetSize<T>(t: set<T>, s: set<T>)
    requires t <= s
    ensures |t| <= |s|
  {
    assert s == t + (s - t);
  }
}
