/**
 * The host dependency graph of `AnalyzeCommand._analyze_host_dependencies`: for each
 * problem whose trigger lists dependency triggers, each dependency trigger that also raised
 * a problem in the same list links the problem's host to the host of the FIRST such problem.
 */
module HostDependencies {
  import opened Wrappers
  import opened Dicts
  import opened ProblemModel

  /** The hosts a host depends on, and the hosts that depend on it. */
  datatype HostDeps = HostDeps(dependsOn: set<string>, dependedBy: set<string>)

  /** A dependency edge: the dependent host, then the host it depends on. */
  type Edge = (string, string)

  const NoDeps := HostDeps({}, {})

  /** The index of the first problem in `ps` raised by trigger `id`, if any. */
  function FirstWithId(ps: seq<Problem>, id: string): (r: Option<nat>)
    ensures r.Some? ==> r.value < |ps| && ps[r.value].objectId == id
    ensures forall j :: 0 <= j < |ps| && (r.None? || j < r.value) ==> ps[j].objectId != id
  {
    if ps == [] then None
    else if ps[0].objectId == id then Some(0)
    else
      match FirstWithId(ps[1..], id)
      case Some(j) => Some(j + 1)
      case None => None
  }

  /** `trigger_map[id].get('dependencies', [])` for a known trigger, and nothing otherwise. */
  function DepsOf(p: Problem, triggerMap: TriggerMap): seq<string> {
    if p.objectId in triggerMap then triggerMap[p.objectId].dependencies else []
  }

  /** The edge from host `h` through dependency trigger `id`: to the host of the first problem it raised. */
  ghost function EdgeTo(ps: seq<Problem>, h: string, id: string): seq<Edge> {
    match FirstWithId(ps, id)
    case Some(j) => [(h, HostOf(ps[j]))]
    case None => []
  }

  /** The edges from host `h` through the dependency triggers `ds`, in the order of `ds`. */
  ghost function EdgesFor(ps: seq<Problem>, h: string, ds: seq<string>): seq<Edge> {
    if ds == [] then [] else EdgesFor(ps, h, ds[..|ds| - 1]) + EdgeTo(ps, h, ds[|ds| - 1])
  }

  /** The edges found for problem `q` when `ps` is scanned for its dependency triggers. */
  ghost function ProblemEdges(ps: seq<Problem>, triggerMap: TriggerMap, q: Problem): seq<Edge> {
    EdgesFor(ps, HostOf(q), DepsOf(q, triggerMap))
  }

  /** The hosts that processing problem `q` adds a record for, in order. */
  ghost function ProblemTouches(ps: seq<Problem>, triggerMap: TriggerMap, q: Problem): seq<string> {
    if DepsOf(q, triggerMap) == [] then [] else [HostOf(q)] + Targets(ProblemEdges(ps, triggerMap, q))
  }

  ghost function Targets(es: seq<Edge>): seq<string> {
    if es == [] then [] else Targets(es[..|es| - 1]) + [es[|es| - 1].1]
  }

  /** All edges found while walking the problems `qs`. */
  ghost function Edges(ps: seq<Problem>, triggerMap: TriggerMap, qs: seq<Problem>): seq<Edge> {
    if qs == [] then [] else Edges(ps, triggerMap, qs[..|qs| - 1]) + ProblemEdges(ps, triggerMap, qs[|qs| - 1])
  }

  /** All hosts given a record while walking the problems `qs`, in order, repeats included. */
  ghost function Touches(ps: seq<Problem>, triggerMap: TriggerMap, qs: seq<Problem>): seq<string> {
    if qs == [] then [] else Touches(ps, triggerMap, qs[..|qs| - 1]) + ProblemTouches(ps, triggerMap, qs[|qs| - 1])
  }

  /** The hosts that `x` depends on according to `es`. */
  ghost function TargetsOf(es: seq<Edge>, x: string): set<string> {
    if es == [] then {}
    else TargetsOf(es[..|es| - 1], x) + (if es[|es| - 1].0 == x then {es[|es| - 1].1} else {})
  }

  /** The hosts that depend on `x` according to `es`. */
  ghost function SourcesOf(es: seq<Edge>, x: string): set<string> {
    if es == [] then {}
    else SourcesOf(es[..|es| - 1], x) + (if es[|es| - 1].1 == x then {es[|es| - 1].0} else {})
  }

  /**
   * `d` records the edges `es` and has a key for each host of `touched`, in first-touch order.
   */
  ghost predicate Models(d: Dict<string, HostDeps>, es: seq<Edge>, touched: seq<string>) {
    && d.Valid()
    && d.keys == Dedup(touched)
    && (forall e :: e in es ==> e.0 in touched && e.1 in touched)
    && (forall x :: x in d.entries ==> d.entries[x] == HostDeps(TargetsOf(es, x), SourcesOf(es, x)))
  }

  /** The dependency record `_analyze_host_dependencies(problems, trigger_map)` returns. */
  ghost predicate IsHostDependencies(ps: seq<Problem>, triggerMap: TriggerMap, d: Dict<string, HostDeps>) {
    Models(d, Edges(ps, triggerMap, ps), Touches(ps, triggerMap, ps))
  }

  /**
   * Records the edge `h` -> `dh`: `dh` joins the hosts `h` depends on, `dh` gets a record if it
   * has none, and `h` joins the hosts that depend on `dh`.
   */
  function Link(d: Dict<string, HostDeps>, h: string, dh: string): (d': Dict<string, HostDeps>)
    requires d.Valid() && h in d.entries
    ensures d'.Valid()
    ensures d'.keys == if dh in d.entries then d.keys else d.keys + [dh]
    ensures forall x :: x in d'.entries <==> x in d.entries || x == dh
    ensures forall x :: x in d'.entries ==>
      var before := if x in d.entries then d.entries[x] else NoDeps;
      d'.entries[x] == HostDeps(before.dependsOn + (if x == h then {dh} else {}),
                                before.dependedBy + (if x == dh then {h} else {}))
  {
    var d1 := d.Put(h, HostDeps(d.entries[h].dependsOn + {dh}, d.entries[h].dependedBy));
    var d2 := if dh in d1.entries then d1 else d1.Put(dh, NoDeps);
    d2.Put(dh, HostDeps(d2.entries[dh].dependsOn, d2.entries[dh].dependedBy + {h}))
  }

  method AnalyzeHostDependencies(ps: seq<Problem>, triggerMap: TriggerMap) returns (deps: Dict<string, HostDeps>)
    ensures IsHostDependencies(ps, triggerMap, deps)
  {
    deps := Empty();
    ghost var es: seq<Edge> := [];
    ghost var touched: seq<string> := [];
    var i := 0;
    while i < |ps|
      invariant 0 <= i <= |ps|
      invariant es == Edges(ps, triggerMap, ps[..i])
      invariant touched == Touches(ps, triggerMap, ps[..i])
      invariant Models(deps, es, touched)
    {
      EdgesStep(ps, triggerMap, i);
      deps, es, touched := RecordProblem(ps, triggerMap, ps[i], deps, es, touched);
      i := i + 1;
    }
    assert ps[..i] == ps;
  }

  /** The body of the outer loop, for one problem `problem`. */
  method RecordProblem(ps: seq<Problem>, triggerMap: TriggerMap, problem: Problem, deps0: Dict<string, HostDeps>,
                       ghost es0: seq<Edge>, ghost touched0: seq<string>)
    returns (deps: Dict<string, HostDeps>, ghost es: seq<Edge>, ghost touched: seq<string>)
    requires Models(deps0, es0, touched0)
    ensures Models(deps, es, touched)
    ensures es == es0 + ProblemEdges(ps, triggerMap, problem)
    ensures touched == touched0 + ProblemTouches(ps, triggerMap, problem)
  {
    deps, es, touched := deps0, es0, touched0;
    var host := HostOf(problem);
    if problem.objectId in triggerMap {
      var triggerDeps := triggerMap[problem.objectId].dependencies;
      if triggerDeps != [] {
        TouchKeepsModel(deps, es, touched, host);
        if host !in deps.entries {
          deps := deps.Put(host, NoDeps);
        }
        touched := touched + [host];
        deps, es, touched := LinkDependencies(ps, host, triggerDeps, deps, es, touched);
        RecordedProblem(ps, triggerMap, problem, es0, touched0, es, touched);
        return;
      }
    }
    RecordedProblem(ps, triggerMap, problem, es0, touched0, es, touched);
  }

  /** The edges and touched hosts `RecordProblem` produces are those of `problem`. */
  lemma RecordedProblem(ps: seq<Problem>, triggerMap: TriggerMap, problem: Problem,
                        es0: seq<Edge>, touched0: seq<string>, es: seq<Edge>, touched: seq<string>)
    requires var ds := DepsOf(problem, triggerMap);
      if ds == [] then es == es0 && touched == touched0
      else es == es0 + EdgesFor(ps, HostOf(problem), ds) &&
           touched == touched0 + [HostOf(problem)] + Targets(EdgesFor(ps, HostOf(problem), ds))
    ensures es == es0 + ProblemEdges(ps, triggerMap, problem)
    ensures touched == touched0 + ProblemTouches(ps, triggerMap, problem)
  {
    var ds := DepsOf(problem, triggerMap);
    if ds == [] {
      assert es0 + [] == es0 && touched0 + [] == touched0;
    } else {
      var rest := Targets(EdgesFor(ps, HostOf(problem), ds));
      assert touched0 + ([HostOf(problem)] + rest) == touched0 + [HostOf(problem)] + rest;
    }
  }

  /** The edges and touched hosts after `LinkDependency` for trigger `k` are those of the first `k + 1`. */
  lemma LinkedPrefix(ps: seq<Problem>, host: string, ds: seq<string>, k: nat, es0: seq<Edge>, touched0: seq<string>,
                     esBefore: seq<Edge>, touchedBefore: seq<string>, es: seq<Edge>, touched: seq<string>)
    requires k < |ds|
    requires esBefore == es0 + EdgesFor(ps, host, ds[..k]) && touchedBefore == touched0 + Targets(EdgesFor(ps, host, ds[..k]))
    requires es == esBefore + EdgeTo(ps, host, ds[k]) && touched == touchedBefore + Targets(EdgeTo(ps, host, ds[k]))
    ensures es == es0 + EdgesFor(ps, host, ds[..k + 1]) && touched == touched0 + Targets(EdgesFor(ps, host, ds[..k + 1]))
  {
    EdgesForStep(ps, host, ds, k);
    var edges, next := EdgesFor(ps, host, ds[..k]), EdgeTo(ps, host, ds[k]);
    AppendAssoc(es0, edges, next);
    AppendAssoc(touched0, Targets(edges), Targets(next));
  }

  lemma AppendAssoc<T>(a: seq<T>, b: seq<T>, c: seq<T>)
    ensures (a + b) + c == a + (b + c)
  {
  }

  /**
   * The inner loops for one problem of host `host` whose trigger lists `triggerDeps`: each
   * dependency trigger is looked up among all problems, and the first match is linked.
   */
  method LinkDependencies(ps: seq<Problem>, host: string, triggerDeps: seq<string>, deps0: Dict<string, HostDeps>,
                          ghost es0: seq<Edge>, ghost touched0: seq<string>)
    returns (deps: Dict<string, HostDeps>, ghost es: seq<Edge>, ghost touched: seq<string>)
    requires Models(deps0, es0, touched0) && host in deps0.entries
    ensures Models(deps, es, touched)
    ensures es == es0 + EdgesFor(ps, host, triggerDeps)
    ensures touched == touched0 + Targets(EdgesFor(ps, host, triggerDeps))
  {
    deps, es, touched := deps0, es0, touched0;
    var k := 0;
    assert triggerDeps[..0] == [];
    assert es0 + EdgesFor(ps, host, []) == es0 && touched0 + Targets([]) == touched0;
    while k < |triggerDeps|
      invariant 0 <= k <= |triggerDeps|
      invariant es == es0 + EdgesFor(ps, host, triggerDeps[..k])
      invariant touched == touched0 + Targets(EdgesFor(ps, host, triggerDeps[..k]))
      invariant Models(deps, es, touched) && host in deps.entries
    {
      ghost var esBefore, touchedBefore := es, touched;
      deps, es, touched := LinkDependency(ps, host, triggerDeps[k], deps, es, touched);
      LinkedPrefix(ps, host, triggerDeps, k, es0, touched0, esBefore, touchedBefore, es, touched);
      k := k + 1;
    }
    assert triggerDeps[..k] == triggerDeps;
  }

  /** One dependency trigger `id` of a problem of host `host`: link to its first problem, if any. */
  method LinkDependency(ps: seq<Problem>, host: string, id: string, deps0: Dict<string, HostDeps>,
                        ghost es0: seq<Edge>, ghost touched0: seq<string>)
    returns (deps: Dict<string, HostDeps>, ghost es: seq<Edge>, ghost touched: seq<string>)
    requires Models(deps0, es0, touched0) && host in deps0.entries
    ensures Models(deps, es, touched) && host in deps.entries
    ensures es == es0 + EdgeTo(ps, host, id)
    ensures touched == touched0 + Targets(EdgeTo(ps, host, id))
  {
    deps, es, touched := deps0, es0, touched0;
    var found := FirstProblemWithId(ps, id);
    if found.Some? {
      var depHost := HostOf(ps[found.value]);
      LinkKeepsModel(deps, es, touched, host, depHost);
      deps := Link(deps, host, depHost);
      es := es + [(host, depHost)];
      touched := touched + [depHost];
      assert Targets([(host, depHost)]) == [depHost];
    } else {
      assert es0 + [] == es0 && touched0 + [] == touched0;
    }
  }

  /** The scan of `problems` for the first problem raised by dependency trigger `id`. */
  method FirstProblemWithId(ps: seq<Problem>, id: string) returns (found: Option<nat>)
    ensures found == FirstWithId(ps, id)
  {
    var j := 0;
    while j < |ps|
      invariant 0 <= j <= |ps|
      invariant forall j' :: 0 <= j' < j ==> ps[j'].objectId != id
    {
      if ps[j].objectId == id {
        return Some(j);
      }
      j := j + 1;
    }
    return None;
  }

  /** One more problem walked: its edges and touched hosts follow those of the problems before it. */
  lemma EdgesStep(ps: seq<Problem>, triggerMap: TriggerMap, i: nat)
    requires i < |ps|
    ensures Edges(ps, triggerMap, ps[..i + 1]) == Edges(ps, triggerMap, ps[..i]) + ProblemEdges(ps, triggerMap, ps[i])
    ensures Touches(ps, triggerMap, ps[..i + 1]) == Touches(ps, triggerMap, ps[..i]) + ProblemTouches(ps, triggerMap, ps[i])
  {
    assert ps[..i + 1][..i] == ps[..i];
  }

  /** One more dependency trigger: its edge (if any) follows those of the triggers before it. */
  lemma EdgesForStep(ps: seq<Problem>, h: string, ds: seq<string>, k: nat)
    requires k < |ds|
    ensures EdgesFor(ps, h, ds[..k + 1]) == EdgesFor(ps, h, ds[..k]) + EdgeTo(ps, h, ds[k])
    ensures Targets(EdgesFor(ps, h, ds[..k + 1])) == Targets(EdgesFor(ps, h, ds[..k])) + Targets(EdgeTo(ps, h, ds[k]))
  {
    assert ds[..k + 1][..k] == ds[..k];
    var es := EdgesFor(ps, h, ds[..k]);
    match FirstWithId(ps, ds[k])
    case Some(j) =>
      assert (es + [(h, HostOf(ps[j]))])[..|es|] == es;
      assert Targets([(h, HostOf(ps[j]))]) == [HostOf(ps[j])];
    case None =>
      assert es + [] == es;
  }

  lemma EdgeAppend(es: seq<Edge>, e: Edge, x: string)
    ensures TargetsOf(es + [e], x) == TargetsOf(es, x) + (if e.0 == x then {e.1} else {})
    ensures SourcesOf(es + [e], x) == SourcesOf(es, x) + (if e.1 == x then {e.0} else {})
  {
    assert (es + [e])[..|es|] == es;
  }

  lemma {:induction false} NoEdgesAt(es: seq<Edge>, x: string)
    requires forall e :: e in es ==> e.0 != x && e.1 != x
    ensures TargetsOf(es, x) == {} && SourcesOf(es, x) == {}
  {
    if es != [] {
      NoEdgesAt(es[..|es| - 1], x);
    }
  }

  /** Giving `h` a record (if it has none) models touching `h`. */
  lemma TouchKeepsModel(d: Dict<string, HostDeps>, es: seq<Edge>, touched: seq<string>, h: string)
    requires Models(d, es, touched)
    ensures Models(if h in d.entries then d else d.Put(h, NoDeps), es, touched + [h])
  {
    var d' := if h in d.entries then d else d.Put(h, NoDeps);
    KeysFollowTouches(d, touched, h, d'.keys);
    EdgesStayTouched(es, touched, h);
    TouchEntries(d, es, touched, h);
  }

  /** A key added at the end unless present lists the touched hosts with one more appended. */
  lemma KeysFollowTouches(d: Dict<string, HostDeps>, touched: seq<string>, x: string, keys: seq<string>)
    requires d.Valid() && d.keys == Dedup(touched)
    requires keys == if x in d.entries then d.keys else d.keys + [x]
    ensures keys == Dedup(touched + [x])
  {
    assert x in d.entries <==> x in touched;
    DedupAppend(touched, x);
  }

  lemma EdgesStayTouched(es: seq<Edge>, touched: seq<string>, x: string)
    requires forall e :: e in es ==> e.0 in touched && e.1 in touched
    ensures forall e :: e in es ==> e.0 in touched + [x] && e.1 in touched + [x]
  {
  }

  lemma TouchEntries(d: Dict<string, HostDeps>, es: seq<Edge>, touched: seq<string>, h: string)
    requires Models(d, es, touched)
    ensures var d' := if h in d.entries then d else d.Put(h, NoDeps);
      forall x :: x in d'.entries ==> d'.entries[x] == HostDeps(TargetsOf(es, x), SourcesOf(es, x))
  {
    if h !in d.entries {
      assert h !in touched;
      NoEdgesAt(es, h);
    }
  }

  /** `Link` records one more edge. */
  lemma LinkKeepsModel(d: Dict<string, HostDeps>, es: seq<Edge>, touched: seq<string>, h: string, dh: string)
    requires Models(d, es, touched) && h in d.entries
    ensures Models(Link(d, h, dh), es + [(h, dh)], touched + [dh])
  {
    var d' := Link(d, h, dh);
    KeysFollowTouches(d, touched, dh, d'.keys);
    EdgesWithNew(es, touched, h, dh);
    LinkEntries(d, es, touched, h, dh);
  }

  lemma EdgesWithNew(es: seq<Edge>, touched: seq<string>, h: string, dh: string)
    requires forall e :: e in es ==> e.0 in touched && e.1 in touched
    requires h in touched
    ensures forall e :: e in es + [(h, dh)] ==> e.0 in touched + [dh] && e.1 in touched + [dh]
  {
    forall e | e in es + [(h, dh)]
      ensures e.0 in touched + [dh] && e.1 in touched + [dh]
    {
      if e != (h, dh) {
        assert e in es;
      }
    }
  }

  lemma LinkEntries(d: Dict<string, HostDeps>, es: seq<Edge>, touched: seq<string>, h: string, dh: string)
    requires Models(d, es, touched) && h in d.entries
    ensures var d' := Link(d, h, dh);
      forall x :: x in d'.entries ==> d'.entries[x] == HostDeps(TargetsOf(es + [(h, dh)], x), SourcesOf(es + [(h, dh)], x))
  {
    var d' := Link(d, h, dh);
    if dh !in d.entries {
      assert dh !in touched;
      NoEdgesAt(es, dh);
    }
    forall x | x in d'.entries
      ensures d'.entries[x] == HostDeps(TargetsOf(es + [(h, dh)], x), SourcesOf(es + [(h, dh)], x))
    {
      EdgeAppend(es, (h, dh), x);
    }
  }

  /**
   * Host `a` depends on host `b` through problem `i` and its `k`-th dependency trigger: `a` is
   * the host of problem `i`, and the first problem raised by that trigger is on host `b`.
   */
  ghost predicate DependsVia(ps: seq<Problem>, triggerMap: TriggerMap, i: int, k: int, a: string, b: string) {
    && 0 <= i < |ps|
    && 0 <= k < |DepsOf(ps[i], triggerMap)|
    && HostOf(ps[i]) == a
    && var first := FirstWithId(ps, DepsOf(ps[i], triggerMap)[k]);
       first.Some? && HostOf(ps[first.value]) == b
  }

  /** An edge from `ds` comes from one of its triggers. */
  lemma {:induction false} EdgesForSource(ps: seq<Problem>, h: string, ds: seq<string>, e: Edge) returns (k: nat)
    requires e in EdgesFor(ps, h, ds)
    ensures k < |ds| && EdgeTo(ps, h, ds[k]) == [e]
  {
    var n := |ds| - 1;
    if e in EdgeTo(ps, h, ds[n]) {
      k := n;
    } else {
      k := EdgesForSource(ps, h, ds[..n], e);
      assert ds[..n][k] == ds[k];
    }
  }

  /** Each trigger of `ds` contributes its edge. */
  lemma {:induction false} EdgesForTarget(ps: seq<Problem>, h: string, ds: seq<string>, k: nat)
    requires k < |ds|
    ensures forall e :: e in EdgeTo(ps, h, ds[k]) ==> e in EdgesFor(ps, h, ds)
  {
    var n := |ds| - 1;
    if k < n {
      EdgesForTarget(ps, h, ds[..n], k);
      assert ds[..n][k] == ds[k];
    }
  }

  lemma {:induction false} EdgesMember(ps: seq<Problem>, triggerMap: TriggerMap, qs: seq<Problem>, e: Edge)
    ensures e in Edges(ps, triggerMap, qs) <==>
      exists i :: 0 <= i < |qs| && e in ProblemEdges(ps, triggerMap, qs[i])
  {
    if qs != [] {
      var n := |qs| - 1;
      EdgesMember(ps, triggerMap, qs[..n], e);
      forall i | 0 <= i < n ensures qs[..n][i] == qs[i] { }
    }
  }

  lemma EdgeMeaning(ps: seq<Problem>, triggerMap: TriggerMap, a: string, b: string)
    ensures (a, b) in Edges(ps, triggerMap, ps) <==> exists i, k :: DependsVia(ps, triggerMap, i, k, a, b)
  {
    EdgesMember(ps, triggerMap, ps, (a, b));
    if (a, b) in Edges(ps, triggerMap, ps) {
      var i :| 0 <= i < |ps| && (a, b) in ProblemEdges(ps, triggerMap, ps[i]);
      var k := EdgesForSource(ps, HostOf(ps[i]), DepsOf(ps[i], triggerMap), (a, b));
      assert DependsVia(ps, triggerMap, i, k, a, b);
    }
    if exists i, k :: DependsVia(ps, triggerMap, i, k, a, b) {
      var i, k :| DependsVia(ps, triggerMap, i, k, a, b);
      EdgesForTarget(ps, a, DepsOf(ps[i], triggerMap), k);
      assert (a, b) in EdgeTo(ps, a, DepsOf(ps[i], triggerMap)[k]);
    }
  }

  lemma {:induction false} TargetsSourcesMember(es: seq<Edge>, a: string, b: string)
    ensures b in TargetsOf(es, a) <==> (a, b) in es
    ensures a in SourcesOf(es, b) <==> (a, b) in es
  {
    if es != [] {
      var n := |es| - 1;
      TargetsSourcesMember(es[..n], a, b);
      assert es == es[..n] + [es[n]];
    }
  }

  /**
   * In the record the analysis returns, host `a` lists `b` among the hosts it depends on
   * exactly when some problem of `a` has a dependency trigger whose first problem is on `b`,
   * and then `b` lists `a` among the hosts that depend on it; both hosts have a record.
   */
  lemma DependencyMeaning(ps: seq<Problem>, triggerMap: TriggerMap, d: Dict<string, HostDeps>, a: string, b: string)
    requires IsHostDependencies(ps, triggerMap, d)
    ensures (exists i, k :: DependsVia(ps, triggerMap, i, k, a, b)) ==> a in d.entries && b in d.entries
    ensures a in d.entries ==> (b in d.entries[a].dependsOn <==> exists i, k :: DependsVia(ps, triggerMap, i, k, a, b))
    ensures b in d.entries ==> (a in d.entries[b].dependedBy <==> exists i, k :: DependsVia(ps, triggerMap, i, k, a, b))
  {
    var es, touched := Edges(ps, triggerMap, ps), Touches(ps, triggerMap, ps);
    EdgeMeaning(ps, triggerMap, a, b);
    TargetsSourcesMember(es, a, b);
    if (a, b) in es {
      assert a in Dedup(touched) && b in Dedup(touched);
    }
  }

  /** The dependency record is symmetric: `b` in `a`'s `depends_on` iff `a` in `b`'s `depended_by`. */
  lemma DependencySymmetry(ps: seq<Problem>, triggerMap: TriggerMap, d: Dict<string, HostDeps>, a: string, b: string)
    requires IsHostDependencies(ps, triggerMap, d)
    ensures (a in d.entries && b in d.entries[a].dependsOn) <==> (b in d.entries && a in d.entries[b].dependedBy)
  {
    DependencyMeaning(ps, triggerMap, d, a, b);
  }

  /**
   * Only the host of a problem with a non-empty dependency list, or a host such a problem
   * depends on, gets a record, and each of them does.
   */
  lemma HostsWithRecord(ps: seq<Problem>, triggerMap: TriggerMap, d: Dict<string, HostDeps>, x: string)
    requires IsHostDependencies(ps, triggerMap, d)
    ensures x in d.entries <==>
      (exists i :: 0 <= i < |ps| && DepsOf(ps[i], triggerMap) != [] && HostOf(ps[i]) == x) ||
      (exists i, k :: 0 <= i < |ps| && DependsVia(ps, triggerMap, i, k, HostOf(ps[i]), x))
  {
    TouchedMeaning(ps, triggerMap, x);
    assert x in d.entries <==> x in Dedup(Touches(ps, triggerMap, ps));
  }

  lemma TouchedMeaning(ps: seq<Problem>, triggerMap: TriggerMap, x: string)
    ensures x in Touches(ps, triggerMap, ps) <==>
      (exists i :: 0 <= i < |ps| && DepsOf(ps[i], triggerMap) != [] && HostOf(ps[i]) == x) ||
      (exists i, k :: 0 <= i < |ps| && DependsVia(ps, triggerMap, i, k, HostOf(ps[i]), x))
  {
    TouchesMember(ps, triggerMap, ps, x);
    if exists i, k :: 0 <= i < |ps| && DependsVia(ps, triggerMap, i, k, HostOf(ps[i]), x) {
      var i, k :| 0 <= i < |ps| && DependsVia(ps, triggerMap, i, k, HostOf(ps[i]), x);
      TouchedVia(ps, triggerMap, i, k, x);
    }
    if x in Touches(ps, triggerMap, ps) && !exists i :: 0 <= i < |ps| && DepsOf(ps[i], triggerMap) != [] && HostOf(ps[i]) == x {
      var i :| 0 <= i < |ps| && x in ProblemTouches(ps, triggerMap, ps[i]);
      var k := TouchedTarget(ps, triggerMap, i, x);
    }
  }

  lemma TouchedVia(ps: seq<Problem>, triggerMap: TriggerMap, i: int, k: int, x: string)
    requires 0 <= i < |ps| && DependsVia(ps, triggerMap, i, k, HostOf(ps[i]), x)
    ensures x in ProblemTouches(ps, triggerMap, ps[i])
  {
    var h := HostOf(ps[i]);
    EdgesForTarget(ps, h, DepsOf(ps[i], triggerMap), k);
    assert (h, x) in EdgeTo(ps, h, DepsOf(ps[i], triggerMap)[k]);
    TargetsOfMember(ProblemEdges(ps, triggerMap, ps[i]), (h, x));
  }

  lemma TouchedTarget(ps: seq<Problem>, triggerMap: TriggerMap, i: int, x: string) returns (k: int)
    requires 0 <= i < |ps| && x in ProblemTouches(ps, triggerMap, ps[i]) && x != HostOf(ps[i])
    ensures DependsVia(ps, triggerMap, i, k, HostOf(ps[i]), x)
  {
    var e := TargetsMember(ProblemEdges(ps, triggerMap, ps[i]), x);
    k := EdgesForSource(ps, HostOf(ps[i]), DepsOf(ps[i], triggerMap), e);
  }

  lemma {:induction false} TargetsOfMember(es: seq<Edge>, e: Edge)
    requires e in es
    ensures e.1 in Targets(es)
  {
    var n := |es| - 1;
    if e != es[n] {
      assert es == es[..n] + [es[n]];
      TargetsOfMember(es[..n], e);
    }
  }

  /** Some problem of `qs` touches `x`. */
  ghost predicate TouchedBy(ps: seq<Problem>, triggerMap: TriggerMap, qs: seq<Problem>, x: string) {
    exists i :: 0 <= i < |qs| && x in ProblemTouches(ps, triggerMap, qs[i])
  }

  lemma {:induction false} TouchesMember(ps: seq<Problem>, triggerMap: TriggerMap, qs: seq<Problem>, x: string)
    ensures x in Touches(ps, triggerMap, qs) <==> TouchedBy(ps, triggerMap, qs, x)
  {
    if qs != [] {
      var n := |qs| - 1;
      TouchesMember(ps, triggerMap, qs[..n], x);
      SomeLast(qs, qs[..n], q => x in ProblemTouches(ps, triggerMap, q));
    }
  }

  /** Some element of `qs` satisfies `P` exactly when one of `init`, all but the last, does or the last does. */
  lemma SomeLast<T>(qs: seq<T>, init: seq<T>, P: T -> bool)
    requires qs != [] && init == qs[..|qs| - 1]
    ensures (exists i :: 0 <= i < |qs| && P(qs[i])) <==>
      (exists i :: 0 <= i < |init| && P(init[i])) || P(qs[|qs| - 1])
  {
    if exists i :: 0 <= i < |qs| && P(qs[i]) {
      var i :| 0 <= i < |qs| && P(qs[i]);
      if i < |init| {
        assert init[i] == qs[i];
      }
    }
    if exists i :: 0 <= i < |init| && P(init[i]) {
      var i :| 0 <= i < |init| && P(init[i]);
      assert init[i] == qs[i];
    }
  }

  lemma {:induction false} TargetsMember(es: seq<Edge>, x: string) returns (e: Edge)
    requires x in Targets(es)
    ensures e in es && e.1 == x
  {
    var n := |es| - 1;
    if x == es[n].1 {
      e := es[n];
    } else {
      e := TargetsMember(es[..n], x);
    }
  }
}
