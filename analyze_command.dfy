/**
 * `AnalyzeCommand.execute`: with no problems in the window it only says so; otherwise it keys
 * the triggers by id, analyses the problems and builds the report.
 * Fetching the problems and the triggers from Zabbix is left to the caller: they arrive here
 * as parameters, in the order the API returned them.
 */
module AnalyzeCommand {
  import opened Dicts
  import opened ProblemModel
  import opened ProblemAnalysis
  import opened AnalysisReport

  datatype Outcome =
    | NoProblems
    | Analyzed(triggerMap: TriggerMap, analysis: Analysis, report: Report)

  method Execute(problems: seq<Problem>, triggers: seq<Trigger>) returns (out: Outcome)
    ensures out.NoProblems? <==> problems == []
    ensures out.Analyzed? ==>
      && out.triggerMap == BuildTriggerMap(triggers)
      && IsAnalysisOf(problems, out.triggerMap, out.analysis)
      && WellFormed(out.analysis)
      && IsReportOf(out.analysis, out.report)
  {
    if problems == [] {
      return NoProblems;
    }
    var triggerMap := BuildTriggerMap(triggers);
    var analysis := AnalyzeProblems(problems, triggerMap);
    var report := GenerateReport(analysis);
    out := Analyzed(triggerMap, analysis, report);
  }

  /**
   * The report's header counts every problem, every host with a problem once, and every host
   * with a critical problem.
   */
  lemma ReportHeader(ps: seq<Problem>, triggerMap: TriggerMap, a: Analysis, r: Report)
    requires IsAnalysisOf(ps, triggerMap, a) && IsReportOf(a, r)
    ensures r.totalProblems == |ps|
    ensures r.affectedHosts == |set i | 0 <= i < |ps| :: HostOf(ps[i])|
    ensures r.criticalCount == |set i | 0 <= i < |ps| && ps[i].severity >= CriticalSeverity :: HostOf(ps[i])|
  {
    HostKeys(ps, triggerMap, a);
    KeysCount(a.hostProblems);
    CriticalKeys(ps, triggerMap, a);
  }

  lemma HostKeys(ps: seq<Problem>, triggerMap: TriggerMap, a: Analysis)
    requires IsAnalysisOf(ps, triggerMap, a)
    ensures a.hostProblems.entries.Keys == set i | 0 <= i < |ps| :: HostOf(ps[i])
  {
    forall h
      ensures h in a.hostProblems.entries <==> exists i :: 0 <= i < |ps| && HostOf(ps[i]) == h
    {
      HostRecordMeaning(ps, triggerMap, a, h);
    }
  }

  lemma CriticalKeys(ps: seq<Problem>, triggerMap: TriggerMap, a: Analysis)
    requires IsAnalysisOf(ps, triggerMap, a)
    ensures a.criticalHosts == set i | 0 <= i < |ps| && ps[i].severity >= CriticalSeverity :: HostOf(ps[i])
  {
    forall h
      ensures h in a.criticalHosts <==> exists i :: 0 <= i < |ps| && HostOf(ps[i]) == h && ps[i].severity >= CriticalSeverity
    {
      CriticalHostsMeaning(ps, triggerMap, a, h);
    }
  }
}
