/**
 * The records the `/analyze` command receives from Zabbix, the trigger lookup built from
 * them, and the reference definitions of what the aggregation pass computes per problem.
 * Every definition over a problem list peels off its LAST problem, so that a loop over
 * `ps[..i]` extends it one problem at a time.
 */
module ProblemModel {
  import opened Wrappers

  /**
   * One Zabbix problem event (`problem.get` with output objectid, name, clock, severity and
   * selectHosts). `hosts` holds the `host` field of each associated host, in order.
   * Severity and clock are already integers (the source converts them with `int()`).
   */
  datatype Problem = Problem(objectId: string, name: string, hosts: seq<string>, severity: int, clock: int)

  /** A Zabbix trigger; an absent `description` is `None`, absent `dependencies` are `[]`. */
  datatype Trigger = Trigger(triggerId: string, description: Option<string>, dependencies: seq<string>)

  type TriggerMap = map<string, Trigger>

  const UnknownHost: string := "Unknown"

  /** Problems at this severity or above make their host critical. */
  const CriticalSeverity: int := 4

  /** The first associated host, or "Unknown" when the problem has none. */
  function HostOf(p: Problem): string {
    if |p.hosts| > 0 then p.hosts[0] else UnknownHost
  }

  ghost predicate IsLastWithId(triggers: seq<Trigger>, id: string, i: int) {
    0 <= i < |triggers| && triggers[i].triggerId == id &&
    forall j :: i < j < |triggers| ==> triggers[j].triggerId != id
  }

  /**
   * `{t["triggerid"]: t for t in triggers}`: every returned id is a key, and when an id
   * occurs more than once the last trigger with that id wins.
   */
  function BuildTriggerMap(triggers: seq<Trigger>): (m: TriggerMap)
    ensures forall id :: id in m <==> exists i :: 0 <= i < |triggers| && triggers[i].triggerId == id
    ensures forall id :: id in m ==> exists i :: IsLastWithId(triggers, id, i) && triggers[i] == m[id]
  {
    if triggers == [] then map[]
    else
      var m := BuildTriggerMap(triggers[..|triggers| - 1]);
      LastTriggerWins(triggers, m);
      m[triggers[|triggers| - 1].triggerId := triggers[|triggers| - 1]]
  }

  lemma LastTriggerWins(triggers: seq<Trigger>, m: TriggerMap)
    requires triggers != []
    requires forall id :: id in m <==> exists i :: 0 <= i < |triggers| - 1 && triggers[i].triggerId == id
    requires forall id :: id in m ==> exists i :: IsLastWithId(triggers[..|triggers| - 1], id, i) && triggers[i] == m[id]
    ensures var last := triggers[|triggers| - 1]; var m' := m[last.triggerId := last];
      && (forall id :: id in m' <==> exists i :: 0 <= i < |triggers| && triggers[i].triggerId == id)
      && (forall id :: id in m' ==> exists i :: IsLastWithId(triggers, id, i) && triggers[i] == m'[id])
  {
    var n := |triggers| - 1;
    var last := triggers[n];
    var m' := m[last.triggerId := last];
    forall id | id in m'
      ensures exists i :: IsLastWithId(triggers, id, i) && triggers[i] == m'[id]
    {
      if id == last.triggerId {
        assert IsLastWithId(triggers, id, n);
      } else {
        var i :| IsLastWithId(triggers[..n], id, i) && triggers[i] == m[id];
        assert IsLastWithId(triggers, id, i);
      }
    }
    forall id | exists i :: 0 <= i < |triggers| && triggers[i].triggerId == id
      ensures id in m'
    {
      var i :| 0 <= i < |triggers| && triggers[i].triggerId == id;
      if i < n {
        assert id in m;
      }
    }
  }

  /** The host of each problem, in input order. */
  ghost function Hosts(ps: seq<Problem>): seq<string> {
    if ps == [] then [] else Hosts(ps[..|ps| - 1]) + [HostOf(ps[|ps| - 1])]
  }

  /** The severity of each problem, in input order. */
  ghost function Severities(ps: seq<Problem>): seq<int> {
    if ps == [] then [] else Severities(ps[..|ps| - 1]) + [ps[|ps| - 1].severity]
  }

  /** The severities of the problems of host `h`, in input order. */
  ghost function HostSeverities(ps: seq<Problem>, h: string): seq<int> {
    if ps == [] then []
    else HostSeverities(ps[..|ps| - 1], h) + (if HostOf(ps[|ps| - 1]) == h then [ps[|ps| - 1].severity] else [])
  }

  /** The pattern a problem with a known trigger counts under: the trigger's description, or the problem's name. */
  function PatternKey(p: Problem, triggerMap: TriggerMap): string
    requires p.objectId in triggerMap
  {
    triggerMap[p.objectId].description.GetOr(p.name)
  }

  /** The pattern key of each problem whose trigger is known, in input order; the others have none. */
  ghost function PatternKeys(ps: seq<Problem>, triggerMap: TriggerMap): seq<string> {
    if ps == [] then []
    else
      var p := ps[|ps| - 1];
      PatternKeys(ps[..|ps| - 1], triggerMap) + (if p.objectId in triggerMap then [PatternKey(p, triggerMap)] else [])
  }

  /** The problems whose trigger is in the map, in input order. */
  ghost function KnownProblems(ps: seq<Problem>, triggerMap: TriggerMap): seq<Problem> {
    if ps == [] then []
    else
      var p := ps[|ps| - 1];
      KnownProblems(ps[..|ps| - 1], triggerMap) + (if p.objectId in triggerMap then [p] else [])
  }

  /** The hosts of the problems counted under pattern `k`. */
  ghost function PatternHosts(ps: seq<Problem>, triggerMap: TriggerMap, k: string): set<string> {
    if ps == [] then {}
    else
      var p := ps[|ps| - 1];
      PatternHosts(ps[..|ps| - 1], triggerMap, k) +
      (if p.objectId in triggerMap && PatternKey(p, triggerMap) == k then {HostOf(p)} else {})
  }

  /** The hosts of the problems at critical severity. */
  ghost function CriticalHosts(ps: seq<Problem>): set<string> {
    if ps == [] then {}
    else
      var p := ps[|ps| - 1];
      CriticalHosts(ps[..|ps| - 1]) + (if p.severity >= CriticalSeverity then {HostOf(p)} else {})
  }

  /** Appending one problem extends each per-problem definition by that problem's part. */
  lemma HostsAppend(ps: seq<Problem>, p: Problem)
    ensures Hosts(ps + [p]) == Hosts(ps) + [HostOf(p)]
  {
    assert (ps + [p])[..|ps|] == ps;
  }

  lemma SeveritiesAppend(ps: seq<Problem>, p: Problem)
    ensures Severities(ps + [p]) == Severities(ps) + [p.severity]
  {
    assert (ps + [p])[..|ps|] == ps;
  }

  lemma HostSeveritiesAppend(ps: seq<Problem>, p: Problem, h: string)
    ensures HostSeverities(ps + [p], h) == HostSeverities(ps, h) + (if HostOf(p) == h then [p.severity] else [])
  {
    assert (ps + [p])[..|ps|] == ps;
  }

  lemma PatternKeysAppend(ps: seq<Problem>, p: Problem, triggerMap: TriggerMap)
    ensures PatternKeys(ps + [p], triggerMap) ==
      PatternKeys(ps, triggerMap) + (if p.objectId in triggerMap then [PatternKey(p, triggerMap)] else [])
  {
    assert (ps + [p])[..|ps|] == ps;
  }

  lemma PatternHostsAppend(ps: seq<Problem>, p: Problem, triggerMap: TriggerMap, k: string)
    ensures PatternHosts(ps + [p], triggerMap, k) == PatternHosts(ps, triggerMap, k) +
      (if p.objectId in triggerMap && PatternKey(p, triggerMap) == k then {HostOf(p)} else {})
  {
    assert (ps + [p])[..|ps|] == ps;
  }

  lemma CriticalHostsAppend(ps: seq<Problem>, p: Problem)
    ensures CriticalHosts(ps + [p]) == CriticalHosts(ps) + (if p.severity >= CriticalSeverity then {HostOf(p)} else {})
  {
    assert (ps + [p])[..|ps|] == ps;
  }

  /** A prefix one longer is the shorter prefix plus the next problem. */
  lemma PrefixStep(ps: seq<Problem>, i: nat)
    requires i < |ps|
    ensures ps[..i + 1] == ps[..i] + [ps[i]]
  {
  }
}
