/**
 * `AnalyzeCommand._find_problem_clusters`: the problems, in ascending order of their clock
 * (a stable sort), are cut into runs wherever two neighbours are more than five minutes
 * apart; every run of at least two problems is a cluster.
 */
module ProblemClusters {
  import opened Sorting
  import opened ProblemModel

  /** Neighbours at most this many seconds apart belong to the same run. */
  const TimeWindow := 300

  /** Each problem keyed by its clock, ready for `sorted(problems, key=clock)`. */
  function ByClock(ps: seq<Problem>): (r: seq<Ranked<Problem>>)
    ensures |r| == |ps| && forall i :: 0 <= i < |ps| ==> r[i] == Ranked(ps[i], ps[i].clock)
  {
    seq(|ps|, i requires 0 <= i < |ps| => Ranked(ps[i], ps[i].clock))
  }

  /** `sorted(problems, key=lambda x: int(x['clock']))`. */
  function ClockOrder(ps: seq<Problem>): seq<Problem> {
    Items(Sort(ByClock(ps)))
  }

  /** The last element of a non-empty sequence. */
  function Last<T>(s: seq<T>): T
    requires s != []
  {
    s[|s| - 1]
  }

  /**
   * The maximal runs of `s` whose neighbours are at most `TimeWindow` apart, in order: each
   * problem joins the run of the problem before it, or starts a new run.
   */
  function Runs(s: seq<Problem>): (rs: seq<seq<Problem>>)
    ensures rs == [] <==> s == []
    ensures forall k :: 0 <= k < |rs| ==> rs[k] != []
    ensures rs != [] ==> Last(Last(rs)) == Last(s)
  {
    if s == [] then []
    else
      var prev, p := Runs(s[..|s| - 1]), Last(s);
      if prev == [] then [[p]]
      else if p.clock - Last(Last(prev)).clock <= TimeWindow then prev[..|prev| - 1] + [Last(prev) + [p]]
      else prev + [[p]]
  }

  /** The runs of more than one problem, in order. */
  function LongRuns(rs: seq<seq<Problem>>): seq<seq<Problem>> {
    if rs == [] then [] else LongRuns(rs[..|rs| - 1]) + (if |Last(rs)| > 1 then [Last(rs)] else [])
  }

  /** The clusters `_find_problem_clusters(problems)` returns. */
  function Clusters(ps: seq<Problem>): seq<seq<Problem>> {
    LongRuns(Runs(ClockOrder(ps)))
  }

  /** The runs laid end to end. */
  function Flatten(rs: seq<seq<Problem>>): seq<Problem> {
    if rs == [] then [] else Flatten(rs[..|rs| - 1]) + Last(rs)
  }

  method FindProblemClusters(ps: seq<Problem>) returns (clusters: seq<seq<Problem>>)
    ensures clusters == Clusters(ps)
  {
    var sorted := ClockOrder(ps);
    clusters := [];
    var current: seq<Problem> := [];
    ghost var closed: seq<seq<Problem>> := [];
    var i := 0;
    assert sorted[..0] == [];
    while i < |sorted|
      invariant 0 <= i <= |sorted|
      invariant Runs(sorted[..i]) == if i == 0 then [] else closed + [current]
      invariant i == 0 ==> current == [] && closed == []
      invariant clusters == LongRuns(closed)
    {
      var problem := sorted[i];
      RunsStep(sorted, i, closed, current);
      if current == [] || problem.clock - current[|current| - 1].clock <= TimeWindow {
        current := current + [problem];
      } else {
        if |current| > 1 {
          clusters := clusters + [current];
        }
        LongRunsStep(closed, current);
        closed := closed + [current];
        current := [problem];
      }
      i := i + 1;
    }
    LongRunsStep(closed, current);
    if |current| > 1 {
      clusters := clusters + [current];
    }
    assert sorted[..i] == sorted;
  }

  /** One more problem in clock order either joins the open run or closes it and opens its own. */
  lemma RunsStep(s: seq<Problem>, i: nat, closed: seq<seq<Problem>>, current: seq<Problem>)
    requires i < |s|
    requires Runs(s[..i]) == if i == 0 then [] else closed + [current]
    requires i == 0 ==> current == [] && closed == []
    ensures current == [] || s[i].clock - Last(current).clock <= TimeWindow ==>
      Runs(s[..i + 1]) == closed + [current + [s[i]]]
    ensures current != [] && s[i].clock - Last(current).clock > TimeWindow ==>
      Runs(s[..i + 1]) == (closed + [current]) + [[s[i]]]
  {
    assert s[..i + 1][..i] == s[..i];
    assert Last(s[..i + 1]) == s[i];
    if i > 0 {
      var prev := closed + [current];
      assert prev[..|prev| - 1] == closed && Last(prev) == current;
    } else {
      assert [] + [s[i]] == [s[i]];
    }
  }

  lemma LongRunsStep(closed: seq<seq<Problem>>, current: seq<Problem>)
    ensures LongRuns(closed + [current]) == LongRuns(closed) + if |current| > 1 then [current] else []
  {
    assert (closed + [current])[..|closed|] == closed;
  }

  /** Laid end to end, the runs give back the sequence they were cut from. */
  lemma {:induction false} RunsFlatten(s: seq<Problem>)
    ensures Flatten(Runs(s)) == s
  {
    if s != [] {
      var init, p := s[..|s| - 1], Last(s);
      var prev := Runs(init);
      RunsFlatten(init);
      assert s == init + [p];
      if prev != [] && p.clock - Last(Last(prev)).clock <= TimeWindow {
        var front := prev[..|prev| - 1];
        FlattenSnoc(front, Last(prev) + [p]);
        assert prev == front + [Last(prev)];
        FlattenSnoc(front, Last(prev));
        assert Flatten(front) + (Last(prev) + [p]) == (Flatten(front) + Last(prev)) + [p];
      } else if prev != [] {
        FlattenSnoc(prev, [p]);
      }
    }
  }

  /** One more run laid at the end adds its problems at the end. */
  lemma FlattenSnoc(rs: seq<seq<Problem>>, r: seq<Problem>)
    ensures Flatten(rs + [r]) == Flatten(rs) + r
  {
    assert (rs + [r])[..|rs|] == rs;
  }

  /** Each problem of `r` is at most `TimeWindow` after the one before it. */
  predicate IsClose(r: seq<Problem>) {
    forall j :: 0 < j < |r| ==> r[j].clock - r[j - 1].clock <= TimeWindow
  }

  /** Inside a run, each problem is at most `TimeWindow` after the one before it. */
  lemma {:induction false} RunsAreClose(s: seq<Problem>)
    ensures forall k :: 0 <= k < |Runs(s)| ==> IsClose(Runs(s)[k])
  {
    if s != [] {
      var init, p := s[..|s| - 1], Last(s);
      RunsAreClose(init);
      var prev := Runs(init);
      var rs := Runs(s);
      if prev != [] && p.clock - Last(Last(prev)).clock <= TimeWindow {
        var n := |prev| - 1;
        assert rs == prev[..n] + [prev[n] + [p]];
        forall k | 0 <= k < |rs|
          ensures IsClose(rs[k])
        {
          if k < n {
            assert rs[k] == prev[k];
          } else {
            CloseJoin(prev[n], p);
          }
        }
      } else if prev != [] {
        assert rs == prev + [[p]];
        forall k | 0 <= k < |rs|
          ensures IsClose(rs[k])
        {
          if k < |prev| {
            assert rs[k] == prev[k];
          }
        }
      }
    }
  }

  /** A problem at most `TimeWindow` after the end of a close run extends it. */
  lemma CloseJoin(r: seq<Problem>, p: Problem)
    requires r != [] && IsClose(r) && p.clock - Last(r).clock <= TimeWindow
    ensures IsClose(r + [p])
  {
    var r' := r + [p];
    forall j | 0 < j < |r'|
      ensures r'[j].clock - r'[j - 1].clock <= TimeWindow
    {
      if j < |r| {
        assert r'[j] == r[j] && r'[j - 1] == r[j - 1];
      }
    }
  }

  /** Between two consecutive runs, the gap is more than `TimeWindow`. */
  lemma {:induction false} RunsAreApart(s: seq<Problem>)
    ensures forall k :: 0 < k < |Runs(s)| ==> Runs(s)[k][0].clock - Last(Runs(s)[k - 1]).clock > TimeWindow
  {
    if s != [] {
      var init, p := s[..|s| - 1], Last(s);
      RunsAreApart(init);
      var prev := Runs(init);
      var rs := Runs(s);
      if prev != [] && p.clock - Last(Last(prev)).clock <= TimeWindow {
        var n := |prev| - 1;
        assert forall k :: 0 <= k < n ==> rs[k] == prev[k];
        assert rs[n] == prev[n] + [p];
        assert rs[n][0] == prev[n][0];
      } else if prev != [] {
        assert forall k :: 0 <= k < |prev| ==> rs[k] == prev[k];
      }
    }
  }

  /** A cluster is a run of more than one problem, and every such run is a cluster. */
  lemma {:induction false} LongRunsMember(rs: seq<seq<Problem>>, c: seq<Problem>)
    ensures c in LongRuns(rs) <==> c in rs && |c| > 1
  {
    if rs != [] {
      var init := rs[..|rs| - 1];
      LongRunsMember(init, c);
      assert rs == init + [Last(rs)];
    }
  }

  /** The order `sorted` gives: ascending clocks, and a rearrangement of the problems. */
  lemma ClockOrderSorted(ps: seq<Problem>)
    ensures multiset(ClockOrder(ps)) == multiset(ps)
    ensures forall i, j :: 0 <= i < j < |ClockOrder(ps)| ==> ClockOrder(ps)[i].clock <= ClockOrder(ps)[j].clock
  {
    var keyed := ByClock(ps);
    var sorted := Sort(keyed);
    SortPermutation(keyed);
    ItemsPermutation(sorted, keyed);
    assert Items(keyed) == ps;
    forall i | 0 <= i < |sorted|
      ensures sorted[i].rank == sorted[i].item.clock
    {
      assert sorted[i] in multiset(keyed);
    }
    forall i, j | 0 <= i < j < |sorted|
      ensures ClockOrder(ps)[i].clock <= ClockOrder(ps)[j].clock
    {
      SortedAt(sorted, i, j);
    }
  }

  /**
   * The clusters of `ps`: each is one of the runs and has more than one problem, and its
   * problems come in ascending clock order at most `TimeWindow` apart.
   */
  lemma ClustersShape(ps: seq<Problem>)
    ensures forall c :: c in Clusters(ps) ==> |c| > 1 && c in Runs(ClockOrder(ps))
    ensures forall c: seq<Problem>, j :: c in Clusters(ps) && 0 < j < |c| ==> 0 <= c[j].clock - c[j - 1].clock <= TimeWindow
  {
    forall c | c in Clusters(ps)
      ensures |c| > 1 && c in Runs(ClockOrder(ps))
    {
      ClusterShape(ps, c);
    }
    forall c: seq<Problem>, j | c in Clusters(ps) && 0 < j < |c|
      ensures 0 <= c[j].clock - c[j - 1].clock <= TimeWindow
    {
      ClusterShape(ps, c);
    }
  }

  /** One cluster: a run of more than one problem, in ascending clock order, neighbours at most `TimeWindow` apart. */
  lemma ClusterShape(ps: seq<Problem>, c: seq<Problem>)
    requires c in Clusters(ps)
    ensures |c| > 1 && c in Runs(ClockOrder(ps))
    ensures forall j :: 0 < j < |c| ==> 0 <= c[j].clock - c[j - 1].clock <= TimeWindow
  {
    var s := ClockOrder(ps);
    var rs := Runs(s);
    LongRunsMember(rs, c);
    var k :| 0 <= k < |rs| && rs[k] == c;
    RunsAreClose(s);
    assert IsClose(rs[k]);
    ClockOrderSorted(ps);
    assert Ascending(s);
    RunsFlatten(s);
    forall j | 0 < j < |c|
      ensures c[j - 1].clock <= c[j].clock
    {
      RunAscending(rs, k, j);
    }
  }

  /** The clocks of `s` never decrease. */
  predicate Ascending(s: seq<Problem>) {
    forall a, b :: 0 <= a < b < |s| ==> s[a].clock <= s[b].clock
  }

  /** When the runs laid end to end are in clock order, so is each run. */
  lemma RunAscending(rs: seq<seq<Problem>>, k: nat, j: nat)
    requires k < |rs| && 0 < j < |rs[k]|
    requires Ascending(Flatten(rs))
    ensures rs[k][j - 1].clock <= rs[k][j].clock
  {
    FlattenAdjacent(rs, k, j);
    var f := Flatten(rs);
    var m :| 0 < m < |f| && f[m - 1] == rs[k][j - 1] && f[m] == rs[k][j];
    assert f[m - 1].clock <= f[m].clock;
  }

  /** Neighbours inside a run are neighbours of the laid-out sequence. */
  lemma {:induction false} FlattenAdjacent(rs: seq<seq<Problem>>, k: nat, j: nat)
    requires k < |rs| && 0 < j < |rs[k]|
    ensures exists m :: 0 < m < |Flatten(rs)| && Flatten(rs)[m - 1] == rs[k][j - 1] && Flatten(rs)[m] == rs[k][j]
  {
    var n := |rs| - 1;
    var front := Flatten(rs[..n]);
    assert Flatten(rs) == front + rs[n];
    if k == n {
      var m := |front| + j;
      assert |Flatten(rs)| == |front| + |rs[n]|;
      assert Flatten(rs)[m - 1] == rs[k][j - 1] && Flatten(rs)[m] == rs[k][j];
    } else {
      FlattenAdjacent(rs[..n], k, j);
      var m :| 0 < m < |front| && front[m - 1] == rs[k][j - 1] && front[m] == rs[k][j];
      assert Flatten(rs)[m - 1] == front[m - 1] && Flatten(rs)[m] == front[m];
    }
  }

  /** Two problems given latest first, exactly five minutes apart, form one cluster in clock order. */
  lemma WindowIsInclusive(a: Problem, b: Problem)
    requires b.clock == a.clock + 300
    ensures Clusters([b, a]) == [[a, b]]
  {
    var ra, rb := Ranked(a, a.clock), Ranked(b, b.clock);
    assert ByClock([b, a]) == [rb, ra];
    TwoSorted(ByClock([b, a]), rb, ra);
    assert Items([ra, rb]) == [a, b];
    TwoRuns(a, b);
    assert [[a, b]][..0] == [];
    assert LongRuns([[a, b]]) == [[a, b]];
  }

  /** One second more and they are two runs of one problem each: no cluster. */
  lemma WindowEdge(a: Problem, b: Problem)
    requires b.clock == a.clock + 301
    ensures Clusters([a, b]) == []
  {
    var ra, rb := Ranked(a, a.clock), Ranked(b, b.clock);
    assert ByClock([a, b]) == [ra, rb];
    TwoSorted(ByClock([a, b]), ra, rb);
    assert Items([ra, rb]) == [a, b];
    TwoRuns(a, b);
    assert [[a], [b]][..1] == [[a]] && [[a]][..0] == [];
    assert LongRuns([[a]]) == [];
    assert LongRuns([[a], [b]]) == [];
  }

  lemma TwoSorted(s: seq<Ranked<Problem>>, x: Ranked<Problem>, y: Ranked<Problem>)
    requires s == [x, y]
    ensures Sort(s) == if y.rank < x.rank then [y, x] else [x, y]
  {
    assert s[..1] == [x] && [x][..0] == [];
    assert Sort([x]) == Insert(x, []) == [x];
    SortUnfold(s);
    if x.rank <= y.rank {
      assert Insert(y, [x]) == [x] + Insert(y, []);
    }
  }

  lemma TwoRuns(a: Problem, b: Problem)
    ensures b.clock - a.clock <= TimeWindow ==> Runs([a, b]) == [[a, b]]
    ensures b.clock - a.clock > TimeWindow ==> Runs([a, b]) == [[a], [b]]
  {
    assert [a, b][..1] == [a] && [a][..0] == [];
    assert Runs([a]) == [[a]];
    assert [[a]][..0] == [] && [a] + [b] == [a, b];
  }
}
