/**
 * `AnalyzeCommand._generate_report`, as the structured sections the report text is made of.
 * The Vietnamese wording and the Markdown are left out; each section keeps what it shows and
 * in which order. The average severity of a host is kept as its sum and count.
 * Where the source prints the first elements of a set (whose order Python leaves unspecified),
 * the section holds a subset of the right size, chosen nondeterministically.
 */
module AnalysisReport {
  import opened Wrappers
  import opened Strings
  import opened Dicts
  import opened Sorting
  import opened ProblemModel
  import opened HostDependencies
  import opened ProblemAnalysis

  /** The report lists at most this many hosts, patterns, hosts per pattern, clusters and cascades. */
  const TopHostCount := 5
  const TopPatternCount := 3
  const ShownHostCount := 3
  const ShownClusterCount := 3
  const CascadeCount := 3

  datatype SeverityLine = SeverityLine(severity: int, name: string, count: nat)

  /** A host line: the average severity printed is `severitySum / severityCount`. */
  datatype HostLine = HostLine(host: string, count: nat, severitySum: int, severityCount: nat)

  /** A pattern line: `moreHosts` is the "và N hosts khác" overflow, 0 when it is not printed. */
  datatype PatternLine = PatternLine(pattern: string, count: nat, shownHosts: set<string>, moreHosts: nat)

  datatype DependencyLine = DependsOnLine(host: string, targets: set<string>) | AffectsLine(host: string, sources: set<string>)

  datatype ClusterLine = ClusterLine(number: nat, size: nat, hosts: set<string>)

  /** A critical host that other hosts depend on, with (at most three of) those hosts. */
  datatype CascadeLine = CascadeLine(host: string, shown: set<string>)

  datatype Report = Report(
    totalProblems: nat,
    affectedHosts: nat,
    criticalCount: nat,
    severities: seq<SeverityLine>,
    topHosts: seq<HostLine>,
    topPatterns: seq<PatternLine>,
    criticalHosts: set<string>,
    dependencies: Option<seq<DependencyLine>>,
    clusters: seq<ClusterLine>,
    recurringPattern: Option<string>,
    riskiestHost: Option<string>,
    cascades: seq<CascadeLine>,
    adviseCritical: bool,
    adviseClusters: bool,
    adviseDependencies: bool)

  ghost predicate WellFormed(a: Analysis) {
    a.hostProblems.Valid() && a.severityDistribution.Valid() && a.problemPatterns.Valid() && a.hostDependencies.Valid()
  }

  /** The Zabbix names of severities 0 to 5, in order. */
  const ZabbixSeverityNames: seq<string> := ["Not classified", "Information", "Warning", "Average", "High", "Disaster"]

  /** `severity_names.get(severity, f'Level {severity}')`. */
  function SeverityLabel(severity: int): (name: string)
    ensures 0 <= severity < |ZabbixSeverityNames| ==> name == ZabbixSeverityNames[severity]
    ensures !(0 <= severity < |ZabbixSeverityNames|) ==> name == "Level " + IntToString(severity)
  {
    match severity
    case 0 => "Not classified"
    case 1 => "Information"
    case 2 => "Warning"
    case 3 => "Average"
    case 4 => "High"
    case 5 => "Disaster"
    case _ => "Level " + IntToString(severity)
  }

  /** `sum(...)` of a list of integers. */
  function Sum(s: seq<int>): int {
    if s == [] then 0 else Sum(s[..|s| - 1]) + s[|s| - 1]
  }

  function Min(a: nat, b: nat): nat {
    if a <= b then a else b
  }

  /** `severity_distribution.items()` keyed by severity. */
  function SeverityItems(d: Dict<int, nat>): (r: seq<Ranked<(int, nat)>>)
    requires d.Valid()
    ensures |r| == |d.keys| && forall i :: 0 <= i < |r| ==> r[i] == Ranked((d.keys[i], d.entries[d.keys[i]]), d.keys[i])
  {
    seq(|d.keys|, i requires 0 <= i < |d.keys| => Ranked((d.keys[i], d.entries[d.keys[i]]), d.keys[i]))
  }

  /** `host_problems.items()` keyed by count, descending. */
  function HostItems(d: Dict<string, HostStats>): (r: seq<Ranked<(string, HostStats)>>)
    requires d.Valid()
    ensures |r| == |d.keys| &&
      forall i :: 0 <= i < |r| ==> r[i] == Ranked((d.keys[i], d.entries[d.keys[i]]), -(d.entries[d.keys[i]].count as int))
  {
    seq(|d.keys|, i requires 0 <= i < |d.keys| => Ranked((d.keys[i], d.entries[d.keys[i]]), -(d.entries[d.keys[i]].count as int)))
  }

  /** `problem_patterns.items()` keyed by count, descending. */
  function PatternItems(d: Dict<string, PatternStats>): (r: seq<Ranked<(string, PatternStats)>>)
    requires d.Valid()
    ensures |r| == |d.keys| &&
      forall i :: 0 <= i < |r| ==> r[i] == Ranked((d.keys[i], d.entries[d.keys[i]]), -(d.entries[d.keys[i]].count as int))
  {
    seq(|d.keys|, i requires 0 <= i < |d.keys| => Ranked((d.keys[i], d.entries[d.keys[i]]), -(d.entries[d.keys[i]].count as int)))
  }

  /** `sorted(severity_distribution.items())`. */
  function SeverityOrder(d: Dict<int, nat>): seq<(int, nat)>
    requires d.Valid()
  {
    Items(Sort(SeverityItems(d)))
  }

  /** `sorted(host_problems.items(), key=count, reverse=True)`. */
  function HostOrder(d: Dict<string, HostStats>): seq<(string, HostStats)>
    requires d.Valid()
  {
    Items(Sort(HostItems(d)))
  }

  /** `sorted(problem_patterns.items(), key=count, reverse=True)`. */
  function PatternOrder(d: Dict<string, PatternStats>): seq<(string, PatternStats)>
    requires d.Valid()
  {
    Items(Sort(PatternItems(d)))
  }

  /** The two dependency lines of each host of `keys`, in order; an empty set prints no line. */
  function DependencyLines(d: Dict<string, HostDeps>, keys: seq<string>): seq<DependencyLine>
    requires forall k :: k in keys ==> k in d.entries
  {
    if keys == [] then []
    else
      var h := keys[|keys| - 1];
      DependencyLines(d, keys[..|keys| - 1]) +
      (if d.entries[h].dependsOn != {} then [DependsOnLine(h, d.entries[h].dependsOn)] else []) +
      (if d.entries[h].dependedBy != {} then [AffectsLine(h, d.entries[h].dependedBy)] else [])
  }

  /** `{p['hosts'][0]['host'] for p in cluster if p['hosts']}`: problems without a host add none. */
  function ClusterHosts(c: seq<Problem>): set<string> {
    set p | p in c && p.hosts != [] :: p.hosts[0]
  }

  /** `[(h, d['depended_by']) for h, d in host_dependencies.items() if d['depended_by'] and h in critical_hosts]`. */
  function CriticalDependencies(d: Dict<string, HostDeps>, critical: set<string>, keys: seq<string>): seq<(string, set<string>)>
    requires forall k :: k in keys ==> k in d.entries
  {
    if keys == [] then []
    else
      var h := keys[|keys| - 1];
      CriticalDependencies(d, critical, keys[..|keys| - 1]) +
      (if d.entries[h].dependedBy != {} && h in critical then [(h, d.entries[h].dependedBy)] else [])
  }

  /** The first `n` elements of `s`, or all of them when there are fewer: `s[:n]`. */
  function Take<T>(s: seq<T>, n: nat): (t: seq<T>)
    ensures |t| == Min(n, |s|) && forall i :: 0 <= i < |t| ==> t[i] == s[i]
  {
    s[..Min(n, |s|)]
  }

  /** The severity lines: every severity with its label and count, in ascending order of severity. */
  ghost predicate IsSeveritySection(d: Dict<int, nat>, lines: seq<SeverityLine>)
    requires d.Valid()
  {
    var order := SeverityOrder(d);
    |lines| == |order| &&
    forall i :: 0 <= i < |lines| ==> lines[i] == SeverityLine(order[i].0, SeverityLabel(order[i].0), order[i].1)
  }

  /** The host lines: the first `TopHostCount` hosts by descending count. */
  ghost predicate IsHostSection(d: Dict<string, HostStats>, lines: seq<HostLine>)
    requires d.Valid()
  {
    var top := Take(HostOrder(d), TopHostCount);
    |lines| == |top| &&
    forall i :: 0 <= i < |lines| ==>
      lines[i] == HostLine(top[i].0, top[i].1.count, Sum(top[i].1.severities), |top[i].1.severities|)
  }

  /** The pattern lines: the first `TopPatternCount` patterns by descending count. */
  ghost predicate IsPatternSection(d: Dict<string, PatternStats>, lines: seq<PatternLine>)
    requires d.Valid()
  {
    var top := Take(PatternOrder(d), TopPatternCount);
    |lines| == |top| && forall i :: 0 <= i < |lines| ==> ShowsPattern(lines[i], top[i])
  }

  /** The cluster lines: the first `ShownClusterCount` clusters, numbered from 1. */
  ghost predicate IsClusterSection(clusters: seq<seq<Problem>>, lines: seq<ClusterLine>) {
    var shown := Take(clusters, ShownClusterCount);
    |lines| == |shown| &&
    forall i :: 0 <= i < |lines| ==> lines[i] == ClusterLine(i + 1, |shown[i]|, ClusterHosts(shown[i]))
  }

  /** The cascade lines: the first `CascadeCount` critical hosts that other hosts depend on. */
  ghost predicate IsCascadeSection(d: Dict<string, HostDeps>, critical: set<string>, lines: seq<CascadeLine>)
    requires d.Valid()
  {
    var top := Take(CriticalDependencies(d, critical, d.keys), CascadeCount);
    |lines| == |top| &&
    forall i :: 0 <= i < |lines| ==> lines[i].host == top[i].0 && Picks(lines[i].shown, top[i].1, ShownHostCount)
  }

  /** `sorted(problem_patterns.items(), ...)[0][0]`, when there is a pattern. */
  function RecurringPattern(d: Dict<string, PatternStats>): Option<string>
    requires d.Valid()
  {
    var order := PatternOrder(d);
    if order == [] then None else Some(order[0].0)
  }

  /** `sorted(host_problems.items(), ...)[0][0]`, when there is a host. */
  function RiskiestHost(d: Dict<string, HostStats>): Option<string>
    requires d.Valid()
  {
    var order := HostOrder(d);
    if order == [] then None else Some(order[0].0)
  }

  /** The report `_generate_report(analysis)` builds. */
  ghost predicate IsReportOf(a: Analysis, r: Report)
    requires WellFormed(a)
  {
    var deps := a.hostDependencies;
    && r.totalProblems == a.totalProblems
    && r.affectedHosts == |a.hostProblems.keys|
    && r.criticalCount == |a.criticalHosts|
    && IsSeveritySection(a.severityDistribution, r.severities)
    && IsHostSection(a.hostProblems, r.topHosts)
    && IsPatternSection(a.problemPatterns, r.topPatterns)
    && r.criticalHosts == a.criticalHosts
    && r.dependencies == (if deps.keys == [] then None else Some(DependencyLines(deps, deps.keys)))
    && IsClusterSection(a.problemClusters, r.clusters)
    && r.recurringPattern == RecurringPattern(a.problemPatterns)
    && r.riskiestHost == RiskiestHost(a.hostProblems)
    && IsCascadeSection(deps, a.criticalHosts, r.cascades)
    && r.adviseCritical == (a.criticalHosts != {})
    && r.adviseClusters == (a.problemClusters != [])
    && r.adviseDependencies == (deps.keys != [])
  }

  /** `list(s)[:n]` in some order: `n` of the elements of `s`, or all of them when there are fewer. */
  ghost predicate Picks(t: set<string>, s: set<string>, n: nat) {
    t <= s && |t| == Min(n, |s|)
  }

  ghost predicate ShowsPattern(line: PatternLine, item: (string, PatternStats)) {
    && line.pattern == item.0
    && line.count == item.1.count
    && Picks(line.shownHosts, item.1.hosts, ShownHostCount)
    && line.moreHosts == (if |item.1.hosts| > ShownHostCount then |item.1.hosts| - ShownHostCount else 0)
  }

  method GenerateReport(a: Analysis) returns (r: Report)
    requires WellFormed(a)
    ensures IsReportOf(a, r)
  {
    var severities := SeverityLinesOf(a.severityDistribution);
    var topHosts := HostLinesOf(a.hostProblems);
    var topPatterns := PatternLinesOf(a.problemPatterns);
    var dependencies: Option<seq<DependencyLine>> := None;
    if a.hostDependencies.keys != [] {
      var lines := DependencyLinesOf(a.hostDependencies);
      dependencies := Some(lines);
    }
    var clusters := ClusterLinesOf(a.problemClusters);
    var patternOrder := PatternOrder(a.problemPatterns);
    var recurringPattern := if patternOrder == [] then None else Some(patternOrder[0].0);
    var hostOrder := HostOrder(a.hostProblems);
    var riskiestHost := if hostOrder == [] then None else Some(hostOrder[0].0);
    var cascades := CascadeLinesOf(a.hostDependencies, a.criticalHosts);
    r := Report(a.totalProblems, |a.hostProblems.keys|, |a.criticalHosts|, severities, topHosts, topPatterns,
                a.criticalHosts, dependencies, clusters, recurringPattern, riskiestHost, cascades,
                a.criticalHosts != {}, a.problemClusters != [], a.hostDependencies.keys != []);
  }

  /** The "Phân bố mức độ nghiêm trọng" loop. */
  method SeverityLinesOf(d: Dict<int, nat>) returns (lines: seq<SeverityLine>)
    requires d.Valid()
    ensures IsSeveritySection(d, lines)
  {
    var order := SeverityOrder(d);
    lines := [];
    for i := 0 to |order|
      invariant |lines| == i
      invariant forall j :: 0 <= j < i ==> lines[j] == SeverityLine(order[j].0, SeverityLabel(order[j].0), order[j].1)
    {
      var severity := order[i].0;
      var line := SeverityLine(severity, SeverityLabel(severity), order[i].1);
      assert (lines + [line])[..i] == lines;
      lines := lines + [line];
    }
  }

  /** The "Hosts có nhiều problems nhất" loop over the first five hosts by count. */
  method HostLinesOf(d: Dict<string, HostStats>) returns (lines: seq<HostLine>)
    requires d.Valid()
    ensures IsHostSection(d, lines)
  {
    var top := Take(HostOrder(d), TopHostCount);
    lines := [];
    for i := 0 to |top|
      invariant |lines| == i
      invariant forall j :: 0 <= j < i ==>
        lines[j] == HostLine(top[j].0, top[j].1.count, Sum(top[j].1.severities), |top[j].1.severities|)
    {
      var (host, data) := top[i];
      lines := lines + [HostLine(host, data.count, Sum(data.severities), |data.severities|)];
    }
  }

  /** The "Patterns phổ biến" loop over the first three patterns by count. */
  method PatternLinesOf(d: Dict<string, PatternStats>) returns (lines: seq<PatternLine>)
    requires d.Valid()
    ensures IsPatternSection(d, lines)
  {
    var top := Take(PatternOrder(d), TopPatternCount);
    lines := [];
    for i := 0 to |top|
      invariant |lines| == i
      invariant forall j :: 0 <= j < i ==> ShowsPattern(lines[j], top[j])
    {
      var (pattern, data) := top[i];
      var shown := PickUpTo(data.hosts, ShownHostCount);
      var more := 0;
      if |data.hosts| > ShownHostCount {
        more := |data.hosts| - ShownHostCount;
      }
      lines := lines + [PatternLine(pattern, data.count, shown, more)];
    }
  }

  /** The "Mối quan hệ phụ thuộc" loop over the hosts in insertion order. */
  method DependencyLinesOf(d: Dict<string, HostDeps>) returns (lines: seq<DependencyLine>)
    requires d.Valid()
    ensures lines == DependencyLines(d, d.keys)
  {
    lines := [];
    for i := 0 to |d.keys|
      invariant lines == DependencyLines(d, d.keys[..i])
    {
      var host := d.keys[i];
      var deps := d.entries[host];
      assert d.keys[..i + 1][..i] == d.keys[..i];
      if deps.dependsOn != {} {
        lines := lines + [DependsOnLine(host, deps.dependsOn)];
      }
      if deps.dependedBy != {} {
        lines := lines + [AffectsLine(host, deps.dependedBy)];
      }
    }
    assert d.keys[..|d.keys|] == d.keys;
  }

  /** The "Clusters problems" loop over the first three clusters, numbered from 1. */
  method ClusterLinesOf(clusters: seq<seq<Problem>>) returns (lines: seq<ClusterLine>)
    ensures IsClusterSection(clusters, lines)
  {
    var shown := Take(clusters, ShownClusterCount);
    lines := [];
    for i := 0 to |shown|
      invariant |lines| == i
      invariant forall j :: 0 <= j < i ==> lines[j] == ClusterLine(j + 1, |shown[j]|, ClusterHosts(shown[j]))
    {
      lines := lines + [ClusterLine(i + 1, |shown[i]|, ClusterHosts(shown[i]))];
    }
  }

  /** The loop over the first three critical hosts that other hosts depend on. */
  method CascadeLinesOf(d: Dict<string, HostDeps>, critical: set<string>) returns (lines: seq<CascadeLine>)
    requires d.Valid()
    ensures IsCascadeSection(d, critical, lines)
  {
    var top := Take(CriticalDependencies(d, critical, d.keys), CascadeCount);
    lines := [];
    for i := 0 to |top|
      invariant |lines| == i
      invariant forall j :: 0 <= j < i ==> lines[j].host == top[j].0 && Picks(lines[j].shown, top[j].1, ShownHostCount)
    {
      var (host, affected) := top[i];
      var shown := PickUpTo(affected, ShownHostCount);
      lines := lines + [CascadeLine(host, shown)];
    }
  }

  /** `list(s)[:n]`: takes elements of `s` one at a time, in no particular order, until `n` or all are taken. */
  method PickUpTo(s: set<string>, n: nat) returns (t: set<string>)
    ensures Picks(t, s, n)
  {
    t := {};
    while |t| < n && !(s <= t)
      invariant t <= s && |t| <= n
      decreases n - |t|
    {
      var x :| x in s && x !in t;
      t := t + {x};
    }
    if !(s <= t) {
      assert |t| == n;
      SubsetSize(t, s);
    } else {
      assert s == t;
    }
  }

  /** Sorting keyed dictionary items keeps them the items of the dictionary, each key once. */
  lemma SortedItems<K(!new), V>(d: Dict<K, V>, s: seq<Ranked<(K, V)>>)
    requires d.Valid()
    requires |s| == |d.keys| && forall i :: 0 <= i < |s| ==> s[i].item == (d.keys[i], d.entries[d.keys[i]])
    ensures |Sort(s)| == |s|
    ensures forall i :: 0 <= i < |Sort(s)| ==> Sort(s)[i] in s
    ensures forall k :: k in d.entries ==> exists i :: 0 <= i < |Sort(s)| && Sort(s)[i].item.0 == k
  {
    var o := Sort(s);
    SortPermutation(s);
    forall i | 0 <= i < |o|
      ensures o[i] in s
    {
      assert o[i] in multiset(s);
    }
    forall k | k in d.entries
      ensures exists i :: 0 <= i < |o| && o[i].item.0 == k
    {
      var j :| 0 <= j < |d.keys| && d.keys[j] == k;
      assert s[j] in multiset(o);
      var i :| 0 <= i < |o| && o[i] == s[j];
    }
  }

  lemma SeverityRanks(d: Dict<int, nat>)
    requires d.Valid()
    ensures var o := Sort(SeverityItems(d));
      forall i :: 0 <= i < |o| ==> o[i].item.0 in d.entries && o[i].item.1 == d.entries[o[i].item.0] && o[i].rank == o[i].item.0
    ensures forall k :: k in d.entries ==> exists i :: 0 <= i < |Sort(SeverityItems(d))| && Sort(SeverityItems(d))[i].item.0 == k
    ensures |Sort(SeverityItems(d))| == |d.keys|
  {
    var items := SeverityItems(d);
    var o := Sort(items);
    SortedItems(d, items);
    forall i | 0 <= i < |o|
      ensures o[i].item.0 in d.entries && o[i].item.1 == d.entries[o[i].item.0] && o[i].rank == o[i].item.0
    {
      var j :| 0 <= j < |items| && items[j] == o[i];
    }
  }

  /** `sorted(severity_distribution.items())` lists every severity once, with its count, in ascending order. */
  lemma SeverityOrderFacts(d: Dict<int, nat>)
    requires d.Valid()
    ensures |SeverityOrder(d)| == |d.keys|
    ensures forall i :: 0 <= i < |SeverityOrder(d)| ==>
      SeverityOrder(d)[i].0 in d.entries && SeverityOrder(d)[i].1 == d.entries[SeverityOrder(d)[i].0]
    ensures forall i, j :: 0 <= i < j < |SeverityOrder(d)| ==> SeverityOrder(d)[i].0 <= SeverityOrder(d)[j].0
    ensures forall k :: k in d.entries ==> exists i :: 0 <= i < |SeverityOrder(d)| && SeverityOrder(d)[i].0 == k
  {
    var o := Sort(SeverityItems(d));
    SeverityRanks(d);
    var order := SeverityOrder(d);
    forall i, j | 0 <= i < j < |order|
      ensures order[i].0 <= order[j].0
    {
      SortedAt(o, i, j);
    }
    forall k | k in d.entries
      ensures exists i :: 0 <= i < |order| && order[i].0 == k
    {
      var i :| 0 <= i < |o| && o[i].item.0 == k;
      assert order[i].0 == k;
    }
  }

  lemma HostRanks(d: Dict<string, HostStats>)
    requires d.Valid()
    ensures var o := Sort(HostItems(d));
      forall i :: 0 <= i < |o| ==> o[i].item.0 in d.entries && o[i].item.1 == d.entries[o[i].item.0] && o[i].rank == -(o[i].item.1.count as int)
    ensures forall k :: k in d.entries ==> exists i :: 0 <= i < |Sort(HostItems(d))| && Sort(HostItems(d))[i].item.0 == k
    ensures |Sort(HostItems(d))| == |d.keys|
  {
    var items := HostItems(d);
    var o := Sort(items);
    SortedItems(d, items);
    forall i | 0 <= i < |o|
      ensures o[i].item.0 in d.entries && o[i].item.1 == d.entries[o[i].item.0] && o[i].rank == -(o[i].item.1.count as int)
    {
      var j :| 0 <= j < |items| && items[j] == o[i];
    }
  }

  /** `sorted(host_problems.items(), key=count, reverse=True)` lists every host once, by descending count. */
  lemma HostOrderFacts(d: Dict<string, HostStats>)
    requires d.Valid()
    ensures |HostOrder(d)| == |d.keys|
    ensures forall i :: 0 <= i < |HostOrder(d)| ==>
      HostOrder(d)[i].0 in d.entries && HostOrder(d)[i].1 == d.entries[HostOrder(d)[i].0]
    ensures forall i, j :: 0 <= i < j < |HostOrder(d)| ==> HostOrder(d)[i].1.count >= HostOrder(d)[j].1.count
    ensures forall k :: k in d.entries ==> exists i :: 0 <= i < |HostOrder(d)| && HostOrder(d)[i].0 == k
  {
    var o := Sort(HostItems(d));
    HostRanks(d);
    var order := HostOrder(d);
    forall i, j | 0 <= i < j < |order|
      ensures order[i].1.count >= order[j].1.count
    {
      SortedAt(o, i, j);
    }
    forall k | k in d.entries
      ensures exists i :: 0 <= i < |order| && order[i].0 == k
    {
      var i :| 0 <= i < |o| && o[i].item.0 == k;
      assert order[i].0 == k;
    }
  }

  lemma PatternRanks(d: Dict<string, PatternStats>)
    requires d.Valid()
    ensures var o := Sort(PatternItems(d));
      forall i :: 0 <= i < |o| ==> o[i].item.0 in d.entries && o[i].item.1 == d.entries[o[i].item.0] && o[i].rank == -(o[i].item.1.count as int)
    ensures forall k :: k in d.entries ==> exists i :: 0 <= i < |Sort(PatternItems(d))| && Sort(PatternItems(d))[i].item.0 == k
    ensures |Sort(PatternItems(d))| == |d.keys|
  {
    var items := PatternItems(d);
    var o := Sort(items);
    SortedItems(d, items);
    forall i | 0 <= i < |o|
      ensures o[i].item.0 in d.entries && o[i].item.1 == d.entries[o[i].item.0] && o[i].rank == -(o[i].item.1.count as int)
    {
      var j :| 0 <= j < |items| && items[j] == o[i];
    }
  }

  /** `sorted(problem_patterns.items(), key=count, reverse=True)` lists every pattern once, by descending count. */
  lemma PatternOrderFacts(d: Dict<string, PatternStats>)
    requires d.Valid()
    ensures |PatternOrder(d)| == |d.keys|
    ensures forall i :: 0 <= i < |PatternOrder(d)| ==>
      PatternOrder(d)[i].0 in d.entries && PatternOrder(d)[i].1 == d.entries[PatternOrder(d)[i].0]
    ensures forall i, j :: 0 <= i < j < |PatternOrder(d)| ==> PatternOrder(d)[i].1.count >= PatternOrder(d)[j].1.count
    ensures forall k :: k in d.entries ==> exists i :: 0 <= i < |PatternOrder(d)| && PatternOrder(d)[i].0 == k
  {
    var o := Sort(PatternItems(d));
    PatternRanks(d);
    var order := PatternOrder(d);
    forall i, j | 0 <= i < j < |order|
      ensures order[i].1.count >= order[j].1.count
    {
      SortedAt(o, i, j);
    }
    forall k | k in d.entries
      ensures exists i :: 0 <= i < |order| && order[i].0 == k
    {
      var i :| 0 <= i < |o| && o[i].item.0 == k;
      assert order[i].0 == k;
    }
  }

  /** The hosts that have a line in the host section. */
  function ShownHosts(lines: seq<HostLine>): (hs: set<string>)
    ensures forall i :: 0 <= i < |lines| ==> lines[i].host in hs
  {
    set line | line in lines :: line.host
  }

  /** The patterns that have a line in the pattern section. */
  function ShownPatterns(lines: seq<PatternLine>): (ks: set<string>)
    ensures forall i :: 0 <= i < |lines| ==> lines[i].pattern in ks
  {
    set line | line in lines :: line.pattern
  }

  /** The severity section lists every severity once, with its count, in ascending order. */
  lemma SeveritySectionAscending(d: Dict<int, nat>, lines: seq<SeverityLine>)
    requires d.Valid() && IsSeveritySection(d, lines)
    ensures |lines| == |d.keys|
    ensures forall i, j :: 0 <= i < j < |lines| ==> lines[i].severity <= lines[j].severity
    ensures forall i :: 0 <= i < |lines| ==> lines[i].severity in d.entries && lines[i].count == d.entries[lines[i].severity]
    ensures forall s :: s in d.entries ==> exists i :: 0 <= i < |lines| && lines[i].severity == s
  {
    SeverityOrderFacts(d);
    var order := SeverityOrder(d);
    forall s | s in d.entries
      ensures exists i :: 0 <= i < |lines| && lines[i].severity == s
    {
      var i :| 0 <= i < |order| && order[i].0 == s;
      assert lines[i].severity == s;
    }
  }

  /**
   * The host section shows the `TopHostCount` hosts with the most problems (all of them when
   * there are fewer), by descending count: a host left out has no more problems than any
   * host shown.
   */
  lemma TopHostsAreTop(d: Dict<string, HostStats>, lines: seq<HostLine>)
    requires d.Valid() && IsHostSection(d, lines)
    ensures |lines| == Min(TopHostCount, |d.keys|)
    ensures forall i, j :: 0 <= i < j < |lines| ==> lines[i].count >= lines[j].count
    ensures forall i :: 0 <= i < |lines| ==>
      lines[i].host in d.entries && lines[i].count == d.entries[lines[i].host].count &&
      lines[i].severityCount == |d.entries[lines[i].host].severities| &&
      lines[i].severitySum == Sum(d.entries[lines[i].host].severities)
    ensures forall h, i :: h in d.entries && h !in ShownHosts(lines) && 0 <= i < |lines| ==>
      d.entries[h].count <= lines[i].count
  {
    HostOrderFacts(d);
    forall h, i | h in d.entries && h !in ShownHosts(lines) && 0 <= i < |lines|
      ensures d.entries[h].count <= lines[i].count
    {
      HostLeftOut(d, lines, h, i);
    }
  }

  /** A host left out of the section is no more frequent than the one on line `i`. */
  lemma HostLeftOut(d: Dict<string, HostStats>, lines: seq<HostLine>, h: string, i: int)
    requires d.Valid() && IsHostSection(d, lines)
    requires h in d.entries && h !in ShownHosts(lines) && 0 <= i < |lines|
    ensures d.entries[h].count <= lines[i].count
  {
    HostOrderFacts(d);
    var order := HostOrder(d);
    var j :| 0 <= j < |order| && order[j].0 == h;
    if j < |lines| {
      assert false;
    }
    assert order[i].1.count >= order[j].1.count;
  }

  /**
   * The pattern section shows the `TopPatternCount` most frequent patterns by descending count:
   * a pattern left out is no more frequent than any pattern shown.
   */
  lemma TopPatternsAreTop(d: Dict<string, PatternStats>, lines: seq<PatternLine>)
    requires d.Valid() && IsPatternSection(d, lines)
    ensures |lines| == Min(TopPatternCount, |d.keys|)
    ensures forall i, j :: 0 <= i < j < |lines| ==> lines[i].count >= lines[j].count
    ensures forall i :: 0 <= i < |lines| ==> lines[i].pattern in d.entries && lines[i].count == d.entries[lines[i].pattern].count
    ensures forall k, i :: k in d.entries && k !in ShownPatterns(lines) && 0 <= i < |lines| ==>
      d.entries[k].count <= lines[i].count
  {
    PatternOrderFacts(d);
    forall k, i | k in d.entries && k !in ShownPatterns(lines) && 0 <= i < |lines|
      ensures d.entries[k].count <= lines[i].count
    {
      PatternLeftOut(d, lines, k, i);
    }
  }

  /** A pattern left out of the section is no more frequent than the one on line `i`. */
  lemma PatternLeftOut(d: Dict<string, PatternStats>, lines: seq<PatternLine>, k: string, i: int)
    requires d.Valid() && IsPatternSection(d, lines)
    requires k in d.entries && k !in ShownPatterns(lines) && 0 <= i < |lines|
    ensures d.entries[k].count <= lines[i].count
  {
    PatternOrderFacts(d);
    var order := PatternOrder(d);
    var j :| 0 <= j < |order| && order[j].0 == k;
    if j < |lines| {
      assert false;
    }
    assert order[i].1.count >= order[j].1.count;
  }

  /** Each pattern line shows at most `ShownHostCount` of the pattern's hosts; those and the overflow are all of them. */
  lemma PatternHostsShown(d: Dict<string, PatternStats>, lines: seq<PatternLine>)
    requires d.Valid() && IsPatternSection(d, lines)
    ensures forall i :: 0 <= i < |lines| ==>
      lines[i].pattern in d.entries &&
      lines[i].shownHosts <= d.entries[lines[i].pattern].hosts &&
      |lines[i].shownHosts| <= ShownHostCount &&
      |lines[i].shownHosts| + lines[i].moreHosts == |d.entries[lines[i].pattern].hosts|
  {
    PatternOrderFacts(d);
  }

  /**
   * The riskiest host of the predictions is the one with the most problems, and of several with
   * as many, the first to appear; there is none when there are no hosts.
   */
  lemma RiskiestHostIsFirstMax(d: Dict<string, HostStats>)
    requires d.Valid()
    ensures RiskiestHost(d).None? <==> d.keys == []
    ensures RiskiestHost(d).Some? ==>
      var h := RiskiestHost(d).value;
      h in d.entries &&
      (forall k :: k in d.entries ==> d.entries[k].count <= d.entries[h].count) &&
      exists i :: 0 <= i < |d.keys| && d.keys[i] == h && forall j :: 0 <= j < i ==> d.entries[d.keys[j]].count < d.entries[h].count
  {
    HostOrderFacts(d);
    if d.keys != [] {
      var items := HostItems(d);
      var i := SortFirst(items);
      var h := d.keys[i];
      assert RiskiestHost(d) == Some(h);
      forall k | k in d.entries
        ensures d.entries[k].count <= d.entries[h].count
      {
        var j :| 0 <= j < |d.keys| && d.keys[j] == k;
        assert items[i].rank <= items[j].rank;
      }
      forall j | 0 <= j < i
        ensures d.entries[d.keys[j]].count < d.entries[h].count
      {
        assert items[i].rank < items[j].rank;
      }
    }
  }

  /**
   * The recurring pattern of the predictions is the most frequent one, and of several as
   * frequent, the first to appear; there is none when no problem has a known trigger.
   */
  lemma RecurringPatternIsFirstMax(d: Dict<string, PatternStats>)
    requires d.Valid()
    ensures RecurringPattern(d).None? <==> d.keys == []
    ensures RecurringPattern(d).Some? ==>
      var p := RecurringPattern(d).value;
      p in d.entries &&
      (forall k :: k in d.entries ==> d.entries[k].count <= d.entries[p].count) &&
      exists i :: 0 <= i < |d.keys| && d.keys[i] == p && forall j :: 0 <= j < i ==> d.entries[d.keys[j]].count < d.entries[p].count
  {
    PatternOrderFacts(d);
    if d.keys != [] {
      var items := PatternItems(d);
      var i := SortFirst(items);
      var p := d.keys[i];
      assert RecurringPattern(d) == Some(p);
      forall k | k in d.entries
        ensures d.entries[k].count <= d.entries[p].count
      {
        var j :| 0 <= j < |d.keys| && d.keys[j] == k;
        assert items[i].rank <= items[j].rank;
      }
      forall j | 0 <= j < i
        ensures d.entries[d.keys[j]].count < d.entries[p].count
      {
        assert items[i].rank < items[j].rank;
      }
    }
  }

  /**
   * At most `CascadeCount` cascades are shown, each naming a critical host that other hosts
   * depend on and showing some of those hosts, at most `ShownHostCount`.
   */
  lemma CascadesAreCritical(d: Dict<string, HostDeps>, critical: set<string>, lines: seq<CascadeLine>)
    requires d.Valid() && IsCascadeSection(d, critical, lines)
    ensures |lines| <= CascadeCount
    ensures forall i :: 0 <= i < |lines| ==>
      lines[i].host in critical && lines[i].host in d.entries &&
      lines[i].shown <= d.entries[lines[i].host].dependedBy &&
      lines[i].shown != {} && |lines[i].shown| <= ShownHostCount
  {
    var cands := CriticalDependencies(d, critical, d.keys);
    forall i | 0 <= i < |lines|
      ensures lines[i].host in critical && lines[i].host in d.entries && lines[i].shown <= d.entries[lines[i].host].dependedBy
      ensures lines[i].shown != {}
    {
      CriticalDependenciesMember(d, critical, d.keys, cands[i]);
      assert |lines[i].shown| == Min(ShownHostCount, |cands[i].1|) > 0;
    }
  }

  lemma {:induction false} CriticalDependenciesMember(d: Dict<string, HostDeps>, critical: set<string>, keys: seq<string>,
                                                      c: (string, set<string>))
    requires forall k :: k in keys ==> k in d.entries
    requires c in CriticalDependencies(d, critical, keys)
    ensures c.0 in critical && c.0 in d.entries && c.1 == d.entries[c.0].dependedBy && c.1 != {}
  {
    var init := keys[..|keys| - 1];
    if c in CriticalDependencies(d, critical, init) {
      CriticalDependenciesMember(d, critical, init, c);
    }
  }

  /**
   * In the report of an analysis of problems, every host line has as many severities as
   * problems, at least one, so the average severity is defined; its sum is over the host's
   * problems.
   */
  lemma AverageIsDefined(ps: seq<Problem>, triggerMap: TriggerMap, a: Analysis, lines: seq<HostLine>)
    requires IsAnalysisOf(ps, triggerMap, a) && IsHostSection(a.hostProblems, lines)
    ensures forall i :: 0 <= i < |lines| ==>
      lines[i].severityCount == lines[i].count > 0 &&
      lines[i].severitySum == Sum(HostSeverities(ps, lines[i].host))
  {
    TopHostsAreTop(a.hostProblems, lines);
    forall i | 0 <= i < |lines|
      ensures lines[i].severityCount == lines[i].count > 0
    {
      HostRecordMeaning(ps, triggerMap, a, lines[i].host);
    }
  }
}
