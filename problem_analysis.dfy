/**
 * `AnalyzeCommand._analyze_problems`: one pass over the problems counts them per host (with
 * the list of their severities), per severity and per trigger description, and collects the
 * hosts with a critical problem; the dependency graph and the time clusters come from their
 * own passes.
 */
module ProblemAnalysis {
  import opened Dicts
  import opened ProblemModel
  import opened HostDependencies
  import opened ProblemClusters

  /** `host_problems[host]`: how many problems the host has, and their severities in input order. */
  datatype HostStats = HostStats(count: nat, severities: seq<int>)

  /** `problem_patterns[description]`: how many problems have it, and on which hosts. */
  datatype PatternStats = PatternStats(count: nat, hosts: set<string>)

  /** The dictionary `_analyze_problems` returns. */
  datatype Analysis = Analysis(
    totalProblems: nat,
    hostProblems: Dict<string, HostStats>,
    severityDistribution: Dict<int, nat>,
    problemPatterns: Dict<string, PatternStats>,
    criticalHosts: set<string>,
    hostDependencies: Dict<string, HostDeps>,
    problemClusters: seq<seq<Problem>>)

  /** One record per host, in order of first appearance, with its count and severities. */
  ghost predicate IsHostProblems(ps: seq<Problem>, d: Dict<string, HostStats>) {
    && d.Valid()
    && d.keys == Dedup(Hosts(ps))
    && forall h :: h in d.entries ==> d.entries[h] == HostStats(Occ(Hosts(ps), h), HostSeverities(ps, h))
  }

  /** One count per severity level that occurs, in order of first appearance. */
  ghost predicate IsSeverityDistribution(ps: seq<Problem>, d: Dict<int, nat>) {
    && d.Valid()
    && d.keys == Dedup(Severities(ps))
    && forall s :: s in d.entries ==> d.entries[s] == Occ(Severities(ps), s)
  }

  /** One record per pattern of a problem with a known trigger, in order of first appearance. */
  ghost predicate IsProblemPatterns(ps: seq<Problem>, triggerMap: TriggerMap, d: Dict<string, PatternStats>) {
    && d.Valid()
    && d.keys == Dedup(PatternKeys(ps, triggerMap))
    && forall k :: k in d.entries ==>
         d.entries[k] == PatternStats(Occ(PatternKeys(ps, triggerMap), k), PatternHosts(ps, triggerMap, k))
  }

  ghost predicate IsAnalysisOf(ps: seq<Problem>, triggerMap: TriggerMap, a: Analysis) {
    && a.totalProblems == |ps|
    && IsHostProblems(ps, a.hostProblems)
    && IsSeverityDistribution(ps, a.severityDistribution)
    && IsProblemPatterns(ps, triggerMap, a.problemPatterns)
    && a.criticalHosts == CriticalHosts(ps)
    && IsHostDependencies(ps, triggerMap, a.hostDependencies)
    && a.problemClusters == Clusters(ps)
  }

  /** What the single pass has gathered so far. */
  datatype Tally = Tally(
    hostProblems: Dict<string, HostStats>,
    severityDistribution: Dict<int, nat>,
    problemPatterns: Dict<string, PatternStats>,
    criticalHosts: set<string>)

  ghost predicate IsTallyOf(ps: seq<Problem>, triggerMap: TriggerMap, t: Tally) {
    && IsHostProblems(ps, t.hostProblems)
    && IsSeverityDistribution(ps, t.severityDistribution)
    && IsProblemPatterns(ps, triggerMap, t.problemPatterns)
    && t.criticalHosts == CriticalHosts(ps)
  }

  method AnalyzeProblems(ps: seq<Problem>, triggerMap: TriggerMap) returns (a: Analysis)
    ensures IsAnalysisOf(ps, triggerMap, a)
  {
    var tally := Tally(Empty(), Empty(), Empty(), {});
    var i := 0;
    assert ps[..0] == [];
    while i < |ps|
      invariant 0 <= i <= |ps|
      invariant IsTallyOf(ps[..i], triggerMap, tally)
    {
      PrefixStep(ps, i);
      tally := CountProblem(tally, triggerMap, ps[..i], ps[i]);
      i := i + 1;
    }
    assert ps[..i] == ps;
    var hostDependencies := AnalyzeHostDependencies(ps, triggerMap);
    var problemClusters := FindProblemClusters(ps);
    a := Analysis(|ps|, tally.hostProblems, tally.severityDistribution, tally.problemPatterns, tally.criticalHosts,
                  hostDependencies, problemClusters);
  }

  /** The body of the loop over `problems`, for one more problem. */
  method CountProblem(t: Tally, triggerMap: TriggerMap, ghost done: seq<Problem>, problem: Problem) returns (t': Tally)
    requires IsTallyOf(done, triggerMap, t)
    ensures IsTallyOf(done + [problem], triggerMap, t')
  {
    var hostProblems := CountHost(t.hostProblems, done, problem);
    var severityDistribution := CountSeverity(t.severityDistribution, done, problem);
    var problemPatterns := CountPattern(t.problemPatterns, triggerMap, done, problem);
    var criticalHosts := t.criticalHosts;
    CriticalHostsAppend(done, problem);
    if problem.severity >= CriticalSeverity {
      criticalHosts := criticalHosts + {HostOf(problem)};
    }
    t' := Tally(hostProblems, severityDistribution, problemPatterns, criticalHosts);
  }

  /** The `host_problems` update for one more problem. */
  method CountHost(d0: Dict<string, HostStats>, ghost done: seq<Problem>, problem: Problem)
    returns (d: Dict<string, HostStats>)
    requires IsHostProblems(done, d0)
    ensures IsHostProblems(done + [problem], d)
  {
    var host := HostOf(problem);
    d := d0;
    if host !in d.entries {
      d := d.Put(host, HostStats(0, []));
    }
    var stats := d.entries[host];
    d := d.Put(host, HostStats(stats.count + 1, stats.severities + [problem.severity]));
    HostStep(done, problem, d0, d);
  }

  lemma HostStep(done: seq<Problem>, p: Problem, d0: Dict<string, HostStats>, d: Dict<string, HostStats>)
    requires IsHostProblems(done, d0)
    requires var host := HostOf(p);
      var before := if host in d0.entries then d0.entries[host] else HostStats(0, []);
      d.Valid() && d.keys == (if host in d0.entries then d0.keys else d0.keys + [host]) &&
      d.entries == d0.entries[host := HostStats(before.count + 1, before.severities + [p.severity])]
    ensures IsHostProblems(done + [p], d)
  {
    var host := HostOf(p);
    HostsAppend(done, p);
    DedupAppend(Hosts(done), host);
    forall h | h in d.entries
      ensures d.entries[h] == HostStats(Occ(Hosts(done + [p]), h), HostSeverities(done + [p], h))
    {
      HostEntry(done, p, d0, d, h);
    }
  }

  lemma HostEntry(done: seq<Problem>, p: Problem, d0: Dict<string, HostStats>, d: Dict<string, HostStats>, h: string)
    requires IsHostProblems(done, d0)
    requires var host := HostOf(p);
      var before := if host in d0.entries then d0.entries[host] else HostStats(0, []);
      d.entries == d0.entries[host := HostStats(before.count + 1, before.severities + [p.severity])]
    requires h in d.entries
    ensures d.entries[h] == HostStats(Occ(Hosts(done + [p]), h), HostSeverities(done + [p], h))
  {
    var host := HostOf(p);
    HostsAppend(done, p);
    HostSeveritiesAppend(done, p, h);
    OccAppend(Hosts(done), host, h);
    if h == host && host !in d0.entries {
      assert host !in Hosts(done);
      OccAbsent(Hosts(done), host);
      HostSeveritiesAbsent(done, host);
    }
  }

  /** The `severity_distribution` update for one more problem. */
  method CountSeverity(d0: Dict<int, nat>, ghost done: seq<Problem>, problem: Problem) returns (d: Dict<int, nat>)
    requires IsSeverityDistribution(done, d0)
    ensures IsSeverityDistribution(done + [problem], d)
  {
    var severity := problem.severity;
    d := d0;
    if severity !in d.entries {
      d := d.Put(severity, 0);
    }
    d := d.Put(severity, d.entries[severity] + 1);
    SeverityStep(done, problem, d0, d);
  }

  lemma SeverityStep(done: seq<Problem>, p: Problem, d0: Dict<int, nat>, d: Dict<int, nat>)
    requires IsSeverityDistribution(done, d0)
    requires var s := p.severity;
      d.Valid() && d.keys == (if s in d0.entries then d0.keys else d0.keys + [s]) &&
      d.entries == d0.entries[s := (if s in d0.entries then d0.entries[s] else 0) + 1]
    ensures IsSeverityDistribution(done + [p], d)
  {
    SeveritiesAppend(done, p);
    DedupAppend(Severities(done), p.severity);
    forall s | s in d.entries
      ensures d.entries[s] == Occ(Severities(done + [p]), s)
    {
      OccAppend(Severities(done), p.severity, s);
      if s == p.severity && s !in d0.entries {
        OccAbsent(Severities(done), s);
      }
    }
  }

  /** The `problem_patterns` update for one more problem: only a problem with a known trigger counts. */
  method CountPattern(d0: Dict<string, PatternStats>, triggerMap: TriggerMap, ghost done: seq<Problem>, problem: Problem)
    returns (d: Dict<string, PatternStats>)
    requires IsProblemPatterns(done, triggerMap, d0)
    ensures IsProblemPatterns(done + [problem], triggerMap, d)
  {
    d := d0;
    PatternKeysAppend(done, problem, triggerMap);
    if problem.objectId in triggerMap {
      var description := PatternKey(problem, triggerMap);
      if description !in d.entries {
        d := d.Put(description, PatternStats(0, {}));
      }
      var stats := d.entries[description];
      d := d.Put(description, PatternStats(stats.count + 1, stats.hosts + {HostOf(problem)}));
      PatternStep(done, triggerMap, problem, d0, d);
    } else {
      assert PatternKeys(done, triggerMap) + [] == PatternKeys(done, triggerMap);
    }
  }

  lemma PatternStep(done: seq<Problem>, triggerMap: TriggerMap, p: Problem,
                    d0: Dict<string, PatternStats>, d: Dict<string, PatternStats>)
    requires IsProblemPatterns(done, triggerMap, d0)
    requires p.objectId in triggerMap
    requires var k := PatternKey(p, triggerMap);
      var before := if k in d0.entries then d0.entries[k] else PatternStats(0, {});
      d.Valid() && d.keys == (if k in d0.entries then d0.keys else d0.keys + [k]) &&
      d.entries == d0.entries[k := PatternStats(before.count + 1, before.hosts + {HostOf(p)})]
    ensures IsProblemPatterns(done + [p], triggerMap, d)
  {
    var key := PatternKey(p, triggerMap);
    var keys := PatternKeys(done, triggerMap);
    PatternKeysAppend(done, p, triggerMap);
    DedupAppend(keys, key);
    forall k | k in d.entries
      ensures d.entries[k] == PatternStats(Occ(PatternKeys(done + [p], triggerMap), k), PatternHosts(done + [p], triggerMap, k))
    {
      PatternEntry(done, triggerMap, p, d0, d, k);
    }
  }

  lemma PatternEntry(done: seq<Problem>, triggerMap: TriggerMap, p: Problem,
                     d0: Dict<string, PatternStats>, d: Dict<string, PatternStats>, k: string)
    requires IsProblemPatterns(done, triggerMap, d0)
    requires p.objectId in triggerMap
    requires var key := PatternKey(p, triggerMap);
      var before := if key in d0.entries then d0.entries[key] else PatternStats(0, {});
      d.entries == d0.entries[key := PatternStats(before.count + 1, before.hosts + {HostOf(p)})]
    requires k in d.entries
    ensures d.entries[k] == PatternStats(Occ(PatternKeys(done + [p], triggerMap), k), PatternHosts(done + [p], triggerMap, k))
  {
    var key := PatternKey(p, triggerMap);
    var keys := PatternKeys(done, triggerMap);
    PatternKeysAppend(done, p, triggerMap);
    PatternHostsAppend(done, p, triggerMap, k);
    OccAppend(keys, key, k);
    if k == key && key !in d0.entries {
      assert key !in keys;
      OccAbsent(keys, key);
      PatternHostsAbsent(done, triggerMap, key);
    }
  }

  lemma {:induction false} HostSeveritiesAbsent(ps: seq<Problem>, h: string)
    requires h !in Hosts(ps)
    ensures HostSeverities(ps, h) == []
  {
    if ps != [] {
      var n := |ps| - 1;
      assert Hosts(ps) == Hosts(ps[..n]) + [HostOf(ps[n])];
      HostSeveritiesAbsent(ps[..n], h);
    }
  }

  lemma {:induction false} PatternHostsAbsent(ps: seq<Problem>, triggerMap: TriggerMap, k: string)
    requires k !in PatternKeys(ps, triggerMap)
    ensures PatternHosts(ps, triggerMap, k) == {}
  {
    if ps != [] {
      var n := |ps| - 1;
      PatternHostsAbsent(ps[..n], triggerMap, k);
    }
  }

  /** The `count` of each host record. */
  function HostCounts(d: Dict<string, HostStats>): (m: map<string, nat>)
    ensures forall h :: h in m <==> h in d.entries
  {
    map h | h in d.entries :: d.entries[h].count
  }

  /** The `count` of each pattern record. */
  function PatternCounts(d: Dict<string, PatternStats>): (m: map<string, nat>)
    ensures forall k :: k in m <==> k in d.entries
  {
    map k | k in d.entries :: d.entries[k].count
  }

  /** Every problem is counted under exactly one host: the host counts add up to `total_problems`. */
  lemma HostCountsAddUp(ps: seq<Problem>, triggerMap: TriggerMap, a: Analysis)
    requires IsAnalysisOf(ps, triggerMap, a)
    ensures forall h :: h in a.hostProblems.keys ==> h in HostCounts(a.hostProblems)
    ensures Total(a.hostProblems.keys, HostCounts(a.hostProblems)) == a.totalProblems
  {
    var hosts := Hosts(ps);
    HostsLength(ps);
    TotalOfOccurrences(hosts, HostCounts(a.hostProblems));
  }

  /** Every problem is counted under exactly one severity: the distribution adds up to `total_problems`. */
  lemma SeverityCountsAddUp(ps: seq<Problem>, triggerMap: TriggerMap, a: Analysis)
    requires IsAnalysisOf(ps, triggerMap, a)
    ensures forall s :: s in a.severityDistribution.keys ==> s in a.severityDistribution.entries
    ensures Total(a.severityDistribution.keys, a.severityDistribution.entries) == a.totalProblems
  {
    SeveritiesLength(ps);
    forall s | s in Severities(ps)
      ensures s in a.severityDistribution.entries && a.severityDistribution.entries[s] == Occ(Severities(ps), s)
    {
      assert s in Dedup(Severities(ps));
    }
    TotalOfOccurrences(Severities(ps), a.severityDistribution.entries);
  }

  /**
   * Exactly the problems whose trigger is known are counted under a pattern, so the pattern
   * counts add up to their number, which is at most `total_problems`.
   */
  lemma PatternCountsAddUp(ps: seq<Problem>, triggerMap: TriggerMap, a: Analysis)
    requires IsAnalysisOf(ps, triggerMap, a)
    ensures forall k :: k in a.problemPatterns.keys ==> k in PatternCounts(a.problemPatterns)
    ensures Total(a.problemPatterns.keys, PatternCounts(a.problemPatterns)) == |KnownProblems(ps, triggerMap)|
    ensures |KnownProblems(ps, triggerMap)| <= a.totalProblems
  {
    PatternKeysLength(ps, triggerMap);
    TotalOfOccurrences(PatternKeys(ps, triggerMap), PatternCounts(a.problemPatterns));
  }

  /** A host has a record exactly when one of the problems is on it, and lists one severity per problem. */
  lemma HostRecordMeaning(ps: seq<Problem>, triggerMap: TriggerMap, a: Analysis, h: string)
    requires IsAnalysisOf(ps, triggerMap, a)
    ensures h in a.hostProblems.entries <==> exists i :: 0 <= i < |ps| && HostOf(ps[i]) == h
    ensures h in a.hostProblems.entries ==> |a.hostProblems.entries[h].severities| == a.hostProblems.entries[h].count > 0
  {
    HostsMember(ps, h);
    if h in a.hostProblems.entries {
      HostSeveritiesLength(ps, h);
      OccPositive(Hosts(ps), h);
    }
  }

  /** A severity has a count exactly when some problem has that severity. */
  lemma SeverityKeysMeaning(ps: seq<Problem>, triggerMap: TriggerMap, a: Analysis, s: int)
    requires IsAnalysisOf(ps, triggerMap, a)
    ensures s in a.severityDistribution.entries <==> exists i :: 0 <= i < |ps| && ps[i].severity == s
  {
    SeveritiesMember(ps, s);
  }

  /**
   * A host is critical exactly when it has a record listing a severity of at least
   * `CriticalSeverity`, that is, when one of its problems is that severe.
   */
  lemma CriticalHostsMeaning(ps: seq<Problem>, triggerMap: TriggerMap, a: Analysis, h: string)
    requires IsAnalysisOf(ps, triggerMap, a)
    ensures h in a.criticalHosts <==> exists i :: 0 <= i < |ps| && HostOf(ps[i]) == h && ps[i].severity >= CriticalSeverity
    ensures h in a.criticalHosts <==>
      h in a.hostProblems.entries && exists s :: s in a.hostProblems.entries[h].severities && s >= CriticalSeverity
  {
    CriticalMember(ps, h);
    HostSeveritiesMember(ps, h);
    HostsMember(ps, h);
  }

  /** The hosts of a pattern are the hosts of the problems counted under it. */
  lemma PatternHostsMeaning(ps: seq<Problem>, triggerMap: TriggerMap, a: Analysis, k: string, h: string)
    requires IsAnalysisOf(ps, triggerMap, a)
    requires k in a.problemPatterns.entries
    ensures h in a.problemPatterns.entries[k].hosts <==>
      exists i :: 0 <= i < |ps| && ps[i].objectId in triggerMap && PatternKey(ps[i], triggerMap) == k && HostOf(ps[i]) == h
  {
    PatternHostsMember(ps, triggerMap, k, h);
  }

  lemma {:induction false} HostsLength(ps: seq<Problem>)
    ensures |Hosts(ps)| == |ps|
  {
    if ps != [] {
      HostsLength(ps[..|ps| - 1]);
    }
  }

  lemma {:induction false} SeveritiesLength(ps: seq<Problem>)
    ensures |Severities(ps)| == |ps|
  {
    if ps != [] {
      SeveritiesLength(ps[..|ps| - 1]);
    }
  }

  lemma {:induction false} PatternKeysLength(ps: seq<Problem>, triggerMap: TriggerMap)
    ensures |PatternKeys(ps, triggerMap)| == |KnownProblems(ps, triggerMap)| <= |ps|
  {
    if ps != [] {
      PatternKeysLength(ps[..|ps| - 1], triggerMap);
    }
  }

  lemma {:induction false} HostSeveritiesLength(ps: seq<Problem>, h: string)
    ensures |HostSeverities(ps, h)| == Occ(Hosts(ps), h)
  {
    if ps != [] {
      var n := |ps| - 1;
      HostSeveritiesLength(ps[..n], h);
      HostsAppend(ps[..n], ps[n]);
      assert ps[..n] + [ps[n]] == ps;
      OccAppend(Hosts(ps[..n]), HostOf(ps[n]), h);
    }
  }

  lemma {:induction false} OccPositive<K>(s: seq<K>, x: K)
    requires x in s
    ensures Occ(s, x) > 0
  {
    var n := |s| - 1;
    if s[n] != x {
      assert x in s[..n] by { assert s == s[..n] + [s[n]]; }
      OccPositive(s[..n], x);
    }
  }

  lemma {:induction false} HostsMember(ps: seq<Problem>, h: string)
    ensures h in Hosts(ps) <==> exists i :: 0 <= i < |ps| && HostOf(ps[i]) == h
  {
    if ps != [] {
      var n := |ps| - 1;
      HostsMember(ps[..n], h);
      forall i | 0 <= i < n ensures ps[..n][i] == ps[i] { }
    }
  }

  lemma {:induction false} SeveritiesMember(ps: seq<Problem>, s: int)
    ensures s in Severities(ps) <==> exists i :: 0 <= i < |ps| && ps[i].severity == s
  {
    if ps != [] {
      var n := |ps| - 1;
      SeveritiesMember(ps[..n], s);
      forall i | 0 <= i < n ensures ps[..n][i] == ps[i] { }
    }
  }

  /** Some severity in `sevs` is critical. */
  predicate AnyCritical(sevs: seq<int>) {
    exists s :: s in sevs && s >= CriticalSeverity
  }

  lemma AnyCriticalAppend(a: seq<int>, b: seq<int>)
    ensures AnyCritical(a + b) <==> AnyCritical(a) || AnyCritical(b)
  {
    if AnyCritical(a + b) {
      var s :| s in a + b && s >= CriticalSeverity;
      assert s in a || s in b;
    }
    if AnyCritical(a) {
      var s :| s in a && s >= CriticalSeverity;
      assert s in a + b;
    }
    if AnyCritical(b) {
      var s :| s in b && s >= CriticalSeverity;
      assert s in a + b;
    }
  }

  /** Some problem on host `h` among the first `n` of `ps` is critical. */
  predicate CriticalOnHostBefore(ps: seq<Problem>, h: string, n: int) {
    exists i :: 0 <= i < n && i < |ps| && HostOf(ps[i]) == h && ps[i].severity >= CriticalSeverity
  }

  lemma {:induction false} HostSeveritiesMember(ps: seq<Problem>, h: string)
    ensures AnyCritical(HostSeverities(ps, h)) <==> CriticalOnHostBefore(ps, h, |ps|)
  {
    if ps != [] {
      var n := |ps| - 1;
      HostSeveritiesMember(ps[..n], h);
      var last := if HostOf(ps[n]) == h then [ps[n].severity] else [];
      assert HostSeverities(ps, h) == HostSeverities(ps[..n], h) + last;
      AnyCriticalAppend(HostSeverities(ps[..n], h), last);
      if HostOf(ps[n]) == h {
        assert ps[n].severity in last;
      }
      assert AnyCritical(last) <==> HostOf(ps[n]) == h && ps[n].severity >= CriticalSeverity;
      CriticalOnHostPrefix(ps, h);
    }
  }

  /** A critical problem on `h` is among all but the last problem of `ps`, or is the last one. */
  lemma CriticalOnHostPrefix(ps: seq<Problem>, h: string)
    requires ps != []
    ensures var n := |ps| - 1;
      CriticalOnHostBefore(ps, h, |ps|) <==>
      CriticalOnHostBefore(ps[..n], h, n) || (HostOf(ps[n]) == h && ps[n].severity >= CriticalSeverity)
  {
    var n := |ps| - 1;
    if CriticalOnHostBefore(ps, h, |ps|) {
      var i :| 0 <= i < |ps| && HostOf(ps[i]) == h && ps[i].severity >= CriticalSeverity;
      if i < n {
        assert ps[..n][i] == ps[i];
      }
    }
    if CriticalOnHostBefore(ps[..n], h, n) {
      var i :| 0 <= i < n && HostOf(ps[..n][i]) == h && ps[..n][i].severity >= CriticalSeverity;
      assert ps[..n][i] == ps[i];
    }
  }

  lemma {:induction false} CriticalMember(ps: seq<Problem>, h: string)
    ensures h in CriticalHosts(ps) <==> exists i :: 0 <= i < |ps| && HostOf(ps[i]) == h && ps[i].severity >= CriticalSeverity
  {
    if ps != [] {
      var n := |ps| - 1;
      CriticalMember(ps[..n], h);
      forall i | 0 <= i < n ensures ps[..n][i] == ps[i] { }
    }
  }

  lemma {:induction false} PatternHostsMember(ps: seq<Problem>, triggerMap: TriggerMap, k: string, h: string)
    ensures h in PatternHosts(ps, triggerMap, k) <==>
      exists i :: 0 <= i < |ps| && ps[i].objectId in triggerMap && PatternKey(ps[i], triggerMap) == k && HostOf(ps[i]) == h
  {
    if ps != [] {
      var n := |ps| - 1;
      PatternHostsMember(ps[..n], triggerMap, k, h);
      forall i | 0 <= i < n ensures ps[..n][i] == ps[i] { }
    }
  }
}
