/**
 * Python's `sorted(xs, key=f)`: a stable sort in ascending order of an integer key.
 * Each element travels with its key already computed (`Ranked`). `sorted(..., reverse=True)`
 * keeps equal elements in their original order too, so a descending sort is the ascending
 * sort on the negated key.
 */
module Sorting {

  datatype Ranked<T> = Ranked(item: T, rank: int)

  /** The key at position `i`; sortedness is stated on it so that it is used only where asked for. */
  function RankAt<T>(s: seq<Ranked<T>>, i: int): int
    requires 0 <= i < |s|
  {
    s[i].rank
  }

  ghost predicate Sorted<T>(s: seq<Ranked<T>>) {
    forall i, j :: 0 <= i < j < |s| ==> RankAt(s, i) <= RankAt(s, j)
  }

  lemma SortedAt<T>(s: seq<Ranked<T>>, i: int, j: int)
    requires Sorted(s) && 0 <= i <= j < |s|
    ensures s[i].rank <= s[j].rank
  {
    if i < j {
      assert RankAt(s, i) <= RankAt(s, j);
    }
  }

  lemma SortedTail<T>(s: seq<Ranked<T>>)
    requires Sorted(s) && s != []
    ensures Sorted(s[1..])
  {
    forall i, j | 0 <= i < j < |s| - 1
      ensures RankAt(s[1..], i) <= RankAt(s[1..], j)
    {
      SortedAt(s, i + 1, j + 1);
    }
  }

  /** Places `x` after the leading elements whose key is at most `x.rank`. */
  function Insert<T>(x: Ranked<T>, s: seq<Ranked<T>>): (r: seq<Ranked<T>>)
    ensures |r| == |s| + 1
    ensures r[0] == if s == [] || x.rank < s[0].rank then x else s[0]
  {
    if s == [] then [x]
    else if s[0].rank <= x.rank then
      assert s == [s[0]] + s[1..];
      [s[0]] + Insert(x, s[1..])
    else [x] + s
  }

  /** Inserting adds `x` and nothing else. */
  lemma {:induction false} InsertMultiset<T>(x: Ranked<T>, s: seq<Ranked<T>>)
    ensures multiset(Insert(x, s)) == multiset(s) + multiset{x}
  {
    if s != [] && s[0].rank <= x.rank {
      InsertMultiset(x, s[1..]);
      assert s == [s[0]] + s[1..];
      assert Insert(x, s) == [s[0]] + Insert(x, s[1..]);
    }
  }

  /** Inserting into a sorted sequence keeps it sorted. */
  lemma {:induction false} InsertSorted<T>(x: Ranked<T>, s: seq<Ranked<T>>)
    requires Sorted(s)
    ensures Sorted(Insert(x, s))
  {
    if s == [] {
      assert Insert(x, s) == [x];
    } else if s[0].rank <= x.rank {
      SortedTail(s);
      InsertSorted(x, s[1..]);
      InsertAfterFirst(x, s);
    } else {
      var r := [x] + s;
      assert Insert(x, s) == r;
      forall i, j | 0 <= i < j < |r|
        ensures RankAt(r, i) <= RankAt(r, j)
      {
        assert r[j] == s[j - 1];
        SortedAt(s, 0, j - 1);
        if i > 0 {
          assert r[i] == s[i - 1];
          SortedAt(s, i - 1, j - 1);
        }
      }
    }
  }

  /** `x` goes after the first element of `s`, which stays in front of a sorted remainder. */
  lemma InsertAfterFirst<T>(x: Ranked<T>, s: seq<Ranked<T>>)
    requires Sorted(s) && s != [] && s[0].rank <= x.rank
    requires Sorted(Insert(x, s[1..]))
    ensures Sorted(Insert(x, s))
  {
    var rest := Insert(x, s[1..]);
    var r := [s[0]] + rest;
    assert Insert(x, s) == r;
    forall i, j | 0 <= i < j < |r|
      ensures RankAt(r, i) <= RankAt(r, j)
    {
      assert r[j] == rest[j - 1];
      FirstBelowInserted(x, s, j - 1);
      if i > 0 {
        assert r[i] == rest[i - 1];
        SortedAt(rest, i - 1, j - 1);
      }
    }
  }

  /** Every element inserted behind the first one has a key at least the first one's. */
  lemma FirstBelowInserted<T>(x: Ranked<T>, s: seq<Ranked<T>>, j: int)
    requires Sorted(s) && s != [] && s[0].rank <= x.rank
    requires 0 <= j < |Insert(x, s[1..])|
    ensures s[0].rank <= Insert(x, s[1..])[j].rank
  {
    var rest := Insert(x, s[1..]);
    InsertMultiset(x, s[1..]);
    assert rest[j] in multiset(s[1..]) + multiset{x};
    if rest[j] != x {
      var k :| 0 <= k < |s[1..]| && s[1..][k] == rest[j];
      SortedAt(s, 0, k + 1);
    }
  }

  /** `sorted(s, key=key)`: ordered by key; `SortPermutation` shows it is a rearrangement of `s`. */
  function Sort<T>(s: seq<Ranked<T>>): (r: seq<Ranked<T>>)
    ensures Sorted(r)
    ensures |r| == |s|
  {
    if s == [] then []
    else
      assert s == s[..|s| - 1] + [s[|s| - 1]];
      var sortedInit := Sort(s[..|s| - 1]);
      InsertSorted(s[|s| - 1], sortedInit);
      Insert(s[|s| - 1], sortedInit)
  }

  /** Sorting rearranges `s`: every element as often as before. */
  lemma {:induction false} SortPermutation<T>(s: seq<Ranked<T>>)
    ensures multiset(Sort(s)) == multiset(s)
  {
    if s != [] {
      var init, last := s[..|s| - 1], s[|s| - 1];
      SortPermutation(init);
      SortUnfold(s);
      InsertMultiset(last, Sort(init));
      assert s == init + [last];
    }
  }

  /** The elements of `s` whose key is `v`, in their order in `s`. */
  function WithRank<T>(s: seq<Ranked<T>>, v: int): seq<Ranked<T>> {
    if s == [] then []
    else (if s[0].rank == v then [s[0]] else []) + WithRank(s[1..], v)
  }

  lemma {:induction false} WithRankConcat<T>(a: seq<Ranked<T>>, b: seq<Ranked<T>>, v: int)
    ensures WithRank(a + b, v) == WithRank(a, v) + WithRank(b, v)
  {
    if a != [] {
      assert (a + b)[1..] == a[1..] + b;
      WithRankConcat(a[1..], b, v);
    } else {
      assert a + b == b;
    }
  }

  lemma WithRankHead<T>(s: seq<Ranked<T>>, v: int)
    requires s != []
    ensures WithRank(s, v) == (if s[0].rank == v then [s[0]] else []) + WithRank(s[1..], v)
  {
  }

  lemma {:induction false} WithRankAbsent<T>(s: seq<Ranked<T>>, v: int)
    requires forall i :: 0 <= i < |s| ==> s[i].rank != v
    ensures WithRank(s, v) == []
  {
    if s != [] {
      WithRankAbsent(s[1..], v);
    }
  }

  lemma {:induction false} InsertStable<T>(x: Ranked<T>, s: seq<Ranked<T>>, v: int)
    requires Sorted(s)
    ensures WithRank(Insert(x, s), v) == WithRank(s, v) + (if x.rank == v then [x] else [])
  {
    if s == [] {
      assert WithRank([x], v) == (if x.rank == v then [x] else []) + WithRank([x][1..], v);
    } else if s[0].rank <= x.rank {
      SortedTail(s);
      InsertStable(x, s[1..], v);
      InsertStableSkip(x, s, v);
    } else {
      InsertStableFront(x, s, v);
    }
  }

  /** `x` goes after the first element: the first element's contribution comes first. */
  lemma InsertStableSkip<T>(x: Ranked<T>, s: seq<Ranked<T>>, v: int)
    requires s != [] && s[0].rank <= x.rank
    requires WithRank(Insert(x, s[1..]), v) == WithRank(s[1..], v) + (if x.rank == v then [x] else [])
    ensures WithRank(Insert(x, s), v) == WithRank(s, v) + (if x.rank == v then [x] else [])
  {
    var rest := Insert(x, s[1..]);
    var r := [s[0]] + rest;
    assert Insert(x, s) == r;
    assert r[0] == s[0] && r[1..] == rest;
    var head, tail := (if s[0].rank == v then [s[0]] else []), (if x.rank == v then [x] else []);
    WithRankHead(r, v);
    WithRankHead(s, v);
    assert head + (WithRank(s[1..], v) + tail) == (head + WithRank(s[1..], v)) + tail;
  }

  /** `x` goes in front: no element of `s` has a key as small, so none shares it when it is `v`. */
  lemma InsertStableFront<T>(x: Ranked<T>, s: seq<Ranked<T>>, v: int)
    requires Sorted(s) && s != [] && x.rank < s[0].rank
    ensures WithRank(Insert(x, s), v) == WithRank(s, v) + (if x.rank == v then [x] else [])
  {
    var r := [x] + s;
    assert Insert(x, s) == r;
    assert r[0] == x && r[1..] == s;
    if x.rank == v {
      forall i | 0 <= i < |s|
        ensures s[i].rank != v
      {
        SortedAt(s, 0, i);
      }
      WithRankAbsent(s, v);
    }
  }

  /** Stability: for every key value, the elements with that key keep their relative order. */
  lemma {:induction false} SortStable<T>(s: seq<Ranked<T>>, v: int)
    ensures WithRank(Sort(s), v) == WithRank(s, v)
  {
    if s != [] {
      var init := s[..|s| - 1];
      SortStable(init, v);
      SortUnfold(s);
      InsertLast(s, Sort(init), v);
    }
  }

  lemma SortUnfold<T>(s: seq<Ranked<T>>)
    requires s != []
    ensures Sort(s) == Insert(s[|s| - 1], Sort(s[..|s| - 1]))
  {
  }

  /** Inserting the last element of `s` into a stable sort of the others gives a stable sort of `s`. */
  lemma InsertLast<T>(s: seq<Ranked<T>>, sortedInit: seq<Ranked<T>>, v: int)
    requires s != [] && Sorted(sortedInit)
    requires WithRank(sortedInit, v) == WithRank(s[..|s| - 1], v)
    ensures WithRank(Insert(s[|s| - 1], sortedInit), v) == WithRank(s, v)
  {
    var init, last := s[..|s| - 1], s[|s| - 1];
    assert s == init + [last];
    InsertStable(last, sortedInit, v);
    WithRankConcat(init, [last], v);
    assert WithRank([last], v) == (if last.rank == v then [last] else []) + WithRank([last][1..], v);
  }

  /**
   * `sorted(...)[0]`: an element of least key, and of those the one that comes first in `s`.
   * Returns its index in `s`.
   */
  lemma SortFirst<T>(s: seq<Ranked<T>>) returns (i: nat)
    requires s != []
    ensures i < |s| && Sort(s)[0] == s[i]
    ensures forall j :: 0 <= j < |s| ==> s[i].rank <= s[j].rank
    ensures forall j :: 0 <= j < i ==> s[i].rank < s[j].rank
  {
    var o := Sort(s);
    SortPermutation(s);
    var c := o[0].rank;
    forall j | 0 <= j < |s|
      ensures c <= s[j].rank
    {
      assert s[j] in multiset(o);
      var k :| 0 <= k < |o| && o[k] == s[j];
      SortedAt(o, 0, k);
    }
    assert o[0] in multiset(s);
    var m :| 0 <= m < |s| && s[m] == o[0];
    i := FirstWithRank(s, c, m);
    WithRankFirst(o, c, 0);
    WithRankFirst(s, c, i);
    SortStable(s, c);
  }

  /** The index of the first element of `s` whose key is `v`, given one at index `m`. */
  lemma {:induction false} FirstWithRank<T>(s: seq<Ranked<T>>, v: int, m: nat) returns (i: nat)
    requires m < |s| && s[m].rank == v
    ensures i <= m && s[i].rank == v
    ensures forall j :: 0 <= j < i ==> s[j].rank != v
    decreases m
  {
    if s[0].rank == v {
      i := 0;
    } else {
      var k := FirstWithRank(s[1..], v, m - 1);
      i := k + 1;
    }
  }

  lemma {:induction false} WithRankFirst<T>(s: seq<Ranked<T>>, v: int, i: nat)
    requires i < |s| && s[i].rank == v
    requires forall j :: 0 <= j < i ==> s[j].rank != v
    ensures WithRank(s, v) != [] && WithRank(s, v)[0] == s[i]
    decreases i
  {
    if i > 0 {
      WithRankFirst(s[1..], v, i - 1);
    }
  }

  /** The elements themselves, without their keys. */
  function Items<T>(s: seq<Ranked<T>>): (r: seq<T>)
    ensures |r| == |s| && forall i :: 0 <= i < |s| ==> r[i] == s[i].item
  {
    seq(|s|, i requires 0 <= i < |s| => s[i].item)
  }

  /** Rearranging keyed elements rearranges the elements. */
  lemma {:induction false} ItemsPermutation<T>(a: seq<Ranked<T>>, b: seq<Ranked<T>>)
    requires multiset(a) == multiset(b)
    ensures multiset(Items(a)) == multiset(Items(b))
    decreases |a|
  {
    if a != [] {
      var n := |a| - 1;
      var x := a[n];
      ItemsLast(a);
      assert x in multiset(b);
      var j :| 0 <= j < |b| && b[j] == x;
      RemoveAt(b, j);
      ItemsPermutation(a[..n], b[..j] + b[j + 1..]);
      ItemsRemoveAt(b, j);
    }
  }

  lemma ItemsLast<T>(a: seq<Ranked<T>>)
    requires a != []
    ensures multiset(a[..|a| - 1]) == multiset(a) - multiset{a[|a| - 1]}
    ensures multiset(Items(a)) == multiset(Items(a[..|a| - 1])) + multiset{a[|a| - 1].item}
  {
    var n := |a| - 1;
    assert a == a[..n] + [a[n]];
    assert Items(a) == Items(a[..n]) + [a[n].item];
  }

  lemma ItemsRemoveAt<T>(b: seq<Ranked<T>>, j: nat)
    requires j < |b|
    ensures multiset(Items(b)) == multiset(Items(b[..j] + b[j + 1..])) + multiset{b[j].item}
  {
    var items := Items(b);
    assert Items(b[..j] + b[j + 1..]) == items[..j] + items[j + 1..];
    assert items == items[..j] + [b[j].item] + items[j + 1..];
  }

  lemma RemoveAt<U>(s: seq<U>, j: nat)
    requires j < |s|
    ensures multiset(s[..j] + s[j + 1..]) == multiset(s) - multiset{s[j]}
  {
    assert s == s[..j] + [s[j]] + s[j + 1..];
  }
}
