# Zabbix Telegram bot: the `/analyze` command and its helpers, in Dafny

This project models the part of the Zabbix Telegram bot that does computation rather than I/O:

- **The `/analyze` command** (`commands/analyze.py`). It takes the Zabbix problems of the last
  three days and the triggers that raised them. It keys the triggers by id and makes one pass
  over the problems. That pass counts problems per host, per severity and per pattern (the
  trigger description) and collects the critical hosts (severity 4 or more). It then builds the
  host dependency record and the clusters of problems that arrive within five minutes of each
  other. The report is modelled as its structured sections: severity distribution, top five
  hosts, top three patterns, critical hosts, dependencies, clusters, predictions and advice.
- **`config.py`**: reading `ADMIN_IDS`, `USE_PROXY`, `BYPASS_SSL` and the other settings from an
  environment passed in as a map, and `Config.validate`.
- **`decorators.py`**: `admin_only` and `validate_input`, each as a decision. The command either
  proceeds, or the bot sends a fixed reply.
- **`utils.py`**: `safe_int`, `truncate_text` and `validate_url`.

Python dictionaries are `Dicts.Dict`: a map plus the keys in insertion order. Ties in `sorted`,
"the first three" in `dict.items()`, and the order of the dependency lines all depend on that
order. `sorted` is a stable insertion sort over keyed elements (`Sorting.Sort`). A descending
sort uses the negated count as its key, which keeps ties in insertion order as Python's
`reverse=True` does.

Where the code loops over problems, the model is a method with a loop. Each such method is
proved against a reference definition over the problem list (`IsAnalysisOf`,
`IsHostDependencies`, `Clusters`, `IsReportOf`), and the lemmas state what those definitions mean
in terms of the problems themselves.

Where the project's description and its code differ, the model follows the code:

- a problem whose trigger is not in the trigger map is not counted under any pattern;
- the host set of a cluster skips problems without hosts, rather than counting them as "Unknown";
- `validate_url` accepts a URL followed by one final newline, because Python's `$` matches
  before a trailing newline.

## Model

| member | source | states |
|---|---|---|
| ProblemModel.BuildTriggerMap | commands/analyze.py:38 | the map has exactly the ids of the triggers, and each id maps to the last trigger with that id |
| ProblemModel.LastTriggerWins | commands/analyze.py:38 | adding one more trigger to the comprehension keeps that meaning: a repeated id is overwritten by the later trigger |
| ProblemAnalysis.AnalyzeProblems | commands/analyze.py:50-88 | the single pass yields the analysis of the problems: total, host records, severity distribution, patterns, critical hosts, dependencies and clusters |
| ProblemAnalysis.CountProblem | commands/analyze.py:61-83 | one loop iteration extends the tally of the problems seen so far by one problem |
| ProblemAnalysis.CountHost | commands/analyze.py:66-69 | a new host is appended to the host order; the host's count and severity list grow by this problem |
| ProblemAnalysis.CountSeverity | commands/analyze.py:71-73 | the count of this problem's severity grows by one; a new severity is appended to the order |
| ProblemAnalysis.CountPattern | commands/analyze.py:75-80 | only a problem whose trigger is known is counted, under the trigger's description or else the problem name, adding its host |
| ProblemAnalysis.HostCountsAddUp | commands/analyze.py:52-69 | the host counts add up to `total_problems` |
| ProblemAnalysis.SeverityCountsAddUp | commands/analyze.py:52-73 | the severity counts add up to `total_problems` |
| ProblemAnalysis.PatternCountsAddUp | commands/analyze.py:75-80 | the pattern counts add up to the number of problems with a known trigger, which is at most `total_problems` |
| ProblemAnalysis.HostRecordMeaning | commands/analyze.py:61-69 | a host has a record iff some problem is on it (first host, or "Unknown"); its severity list is as long as its count, which is positive |
| ProblemAnalysis.SeverityKeysMeaning | commands/analyze.py:71-73 | a severity has a count iff some problem has that severity |
| ProblemAnalysis.CriticalHostsMeaning | commands/analyze.py:82-83 | a host is critical iff some problem on it has severity at least 4, iff its record lists such a severity |
| ProblemAnalysis.PatternHostsMeaning | commands/analyze.py:75-80 | the hosts of a pattern are exactly the hosts of the problems counted under it |
| ProblemAnalysis.HostCounts | commands/analyze.py:141 | the per-host counts are keyed by exactly the recorded hosts |
| ProblemAnalysis.PatternCounts | commands/analyze.py:147 | the per-pattern counts are keyed by exactly the recorded patterns |
| HostDependencies.AnalyzeHostDependencies | commands/analyze.py:90-109 | the result is the dependency record of the problems: every host touched gets a record whose sets are exactly the edges found |
| HostDependencies.RecordProblem | commands/analyze.py:92-108 | one outer iteration adds exactly the edges and records of that problem's dependency triggers |
| HostDependencies.LinkDependencies | commands/analyze.py:100-108 | the loop over a problem's dependency triggers adds their edges in order |
| HostDependencies.LinkDependency | commands/analyze.py:101-108 | one dependency trigger links the host to the host of the first problem that trigger raised, if any |
| HostDependencies.FirstProblemWithId | commands/analyze.py:101-102 | the scan with `break` finds the first problem raised by the trigger, or none |
| HostDependencies.FirstWithId | commands/analyze.py:101-102 | the index found holds the trigger id and no earlier problem does |
| HostDependencies.Link | commands/analyze.py:103-107 | linking adds the target to `depends_on`, adds the source to the target's `depended_by`, and creates the target's record at the end of the order when it is new |
| HostDependencies.EdgeMeaning | commands/analyze.py:95-108 | an edge a to b is found iff some problem of host a has a known trigger with a dependency whose first problem is on host b |
| HostDependencies.DependencyMeaning | commands/analyze.py:90-109 | b is in a's `depends_on`, and a is in b's `depended_by`, exactly when a depends on b through some problem |
| HostDependencies.DependencySymmetry | commands/analyze.py:104-107 | b in a's `depends_on` iff a in b's `depended_by` |
| HostDependencies.HostsWithRecord | commands/analyze.py:97-107 | a host has a record iff it has a problem whose known trigger has dependencies, or some host depends on it |
| HostDependencies.TouchedMeaning | commands/analyze.py:97-107 | the hosts given a record while walking are exactly those two kinds of host |
| ProblemClusters.ByClock | commands/analyze.py:113 | each problem is keyed by its clock, in input order |
| ProblemClusters.ClockOrderSorted | commands/analyze.py:113 | the sorted problems are a rearrangement of the problems, in ascending clock order |
| ProblemClusters.Runs | commands/analyze.py:115-124 | cutting the sorted problems into runs gives no empty run, and the last run ends with the last problem |
| ProblemClusters.FindProblemClusters | commands/analyze.py:111-125 | the loop returns the runs of more than one problem, in order |
| ProblemClusters.RunsFlatten | commands/analyze.py:116-122 | the runs laid end to end give back the sorted problems: no problem is lost or repeated |
| ProblemClusters.RunsAreClose | commands/analyze.py:117-118 | inside a run each problem is at most 300 seconds after the one before it |
| ProblemClusters.RunsAreApart | commands/analyze.py:117-122 | between consecutive runs the gap is more than 300 seconds |
| ProblemClusters.LongRunsMember | commands/analyze.py:120-124 | a cluster is a run of more than one problem, and every such run is a cluster |
| ProblemClusters.ClustersShape | commands/analyze.py:111-125 | every cluster has at least two problems, in clock order, each within 300 seconds of the one before |
| ProblemClusters.WindowIsInclusive | commands/analyze.py:114-118 | two problems exactly 300 seconds apart, given latest first, form one cluster in clock order |
| ProblemClusters.WindowEdge | commands/analyze.py:114-124 | two problems 301 seconds apart form no cluster |
| ProblemClusters.TwoRuns | commands/analyze.py:116-122 | two problems form one run when at most 300 seconds apart and two runs otherwise |
| Sorting.Sort | commands/analyze.py:136 | `sorted` returns its elements in ascending key order, as many as it was given |
| Sorting.SortPermutation | commands/analyze.py:136 | `sorted` returns a rearrangement of its input: every element as often as it was given |
| Sorting.InsertSorted | commands/analyze.py:136 | inserting one element before the first greater key keeps a sorted sequence sorted |
| Sorting.InsertMultiset | commands/analyze.py:136 | inserting one element adds exactly that element |
| Sorting.SortStable | commands/analyze.py:141 | elements with the same key keep their input order, as Python's sort does |
| Sorting.SortFirst | commands/analyze.py:175-181 | the first sorted element has the least key, and every element before it in the input has a greater key |
| Sorting.ItemsPermutation | commands/analyze.py:136 | rearranging keyed items rearranges the items themselves |
| Dicts.Dict.Put | commands/analyze.py:67 | assigning a key updates the map, and a new key goes to the end of the insertion order |
| Dicts.PutFollowsDedup | commands/analyze.py:66-67 | inserting keys one at a time lists them in order of first appearance, each once |
| Dicts.TotalOfOccurrences | commands/analyze.py:68 | counts that are occurrence counts add up to the length of the sequence counted |
| AnalysisReport.SeverityLabel | commands/analyze.py:134-137 | `severity_names.get(severity, f"Level {severity}")`: severities 0 to 5 get their Zabbix names and any other severity gets "Level n" |
| AnalysisReport.SeverityItems | commands/analyze.py:136 | one item per severity, in insertion order, keyed by the severity |
| AnalysisReport.HostItems | commands/analyze.py:141 | one item per host, keyed by its negated count |
| AnalysisReport.PatternItems | commands/analyze.py:147 | one item per pattern, keyed by its negated count |
| AnalysisReport.Take | commands/analyze.py:141 | `s[:n]` has `min(n, len(s))` elements, the first ones of `s` |
| AnalysisReport.SeverityOrderFacts | commands/analyze.py:136 | the sorted severities list every severity once, with its count, ascending |
| AnalysisReport.HostOrderFacts | commands/analyze.py:141 | the sorted hosts list every host once, with its record, by descending count |
| AnalysisReport.PatternOrderFacts | commands/analyze.py:147 | the sorted patterns list every pattern once, with its record, by descending count |
| AnalysisReport.GenerateReport | commands/analyze.py:127-197 | the report holds the header counts, every section, the predictions and the three pieces of advice, each as the source derives it from the analysis |
| AnalysisReport.SeverityLinesOf | commands/analyze.py:135-138 | one line per severity, in ascending order, with its label and count |
| AnalysisReport.HostLinesOf | commands/analyze.py:140-144 | the first five hosts by descending count, each with its count and the sum and number of its severities |
| AnalysisReport.PatternLinesOf | commands/analyze.py:146-152 | the first three patterns by descending count, each showing up to three of its hosts and how many more there are |
| AnalysisReport.DependencyLinesOf | commands/analyze.py:158-165 | for each host in insertion order, a `depends_on` line and a `depended_by` line, each only when its set is not empty |
| AnalysisReport.ClusterLinesOf | commands/analyze.py:167-172 | the first three clusters, numbered from 1, each with its size and its host set |
| AnalysisReport.CascadeLinesOf | commands/analyze.py:183-187 | the first three critical hosts that other hosts depend on, each showing up to three of those hosts |
| AnalysisReport.PickUpTo | commands/analyze.py:148 | `list(s)[:n]` takes `min(n, len(s))` elements of the set |
| AnalysisReport.SeveritySectionAscending | commands/analyze.py:135-138 | the severity section lists every severity once, ascending, with its count |
| AnalysisReport.TopHostsAreTop | commands/analyze.py:140-144 | at most five hosts are shown, by descending count, with their own counts and severities; a host left out has no more problems than any host shown |
| AnalysisReport.TopPatternsAreTop | commands/analyze.py:146-152 | at most three patterns are shown, by descending count; a pattern left out is no more frequent than any pattern shown |
| AnalysisReport.PatternHostsShown | commands/analyze.py:148-150 | each pattern line shows at most three of the pattern's hosts, and the shown hosts plus the overflow count are all of them |
| AnalysisReport.RiskiestHostIsFirstMax | commands/analyze.py:179-181 | the predicted host has the most problems, and is the first such host to appear; there is none iff there are no hosts |
| AnalysisReport.RecurringPatternIsFirstMax | commands/analyze.py:175-177 | the predicted pattern is the most frequent, and the first such pattern to appear; there is none iff there are no patterns |
| AnalysisReport.CascadesAreCritical | commands/analyze.py:183-187 | at most three cascades, each a critical host with dependants, showing one to three of them |
| AnalysisReport.CriticalDependenciesMember | commands/analyze.py:183 | each candidate is a critical host paired with its non-empty `depended_by` set |
| AnalysisReport.AverageIsDefined | commands/analyze.py:142-143 | in the report of an analysis, every host line has as many severities as problems, at least one, so the average is defined |
| AnalyzeCommand.Execute | commands/analyze.py:28-42 | no problems gives only the "no problems" reply; otherwise the trigger map, the analysis and the report are the ones defined above |
| AnalyzeCommand.ReportHeader | commands/analyze.py:130-132 | the header counts every problem, every distinct host with a problem, and every distinct host with a critical problem |
| AnalyzeCommand.HostKeys | commands/analyze.py:61-69 | the recorded hosts are exactly the hosts of the problems |
| AnalyzeCommand.CriticalKeys | commands/analyze.py:82-83 | the critical hosts are exactly the hosts of the problems with severity at least 4 |
| Strings.ParseInt | utils.py:35 | `int(s)` succeeds exactly on an optional sign followed by digits |
| Strings.PyInt | utils.py:35 | `int(value)` succeeds exactly when the value, stripped of `str.isspace()` whitespace, is an optional sign followed by ASCII digits |
| Strings.PyIntRoundTrip | utils.py:35 | `int` of the decimal form of n, with surrounding whitespace, is n |
| Strings.Split | config.py:10 | `split` always gives at least one piece, and no piece holds the separator |
| Strings.SplitJoin | config.py:10 | splitting what was joined gives the pieces back, when no piece holds the separator |
| Strings.JoinLength | decorators.py:26-27 | the joined input is as long as the arguments plus one space between each two |
| Strings.Lower | config.py:12 | `lower` maps each character to its lower-case form and keeps the length |
| Config.ParseAdminIds | config.py:10 | `ADMIN_IDS` is read, comma-separated pieces with empty pieces skipped, iff every non-empty piece is an integer; `AdminIdsRoundTrip` shows the ids come back in order |
| Config.ParsePieces | config.py:10 | parsing succeeds iff every non-empty piece is an integer |
| Config.AdminIdsRoundTrip | config.py:10 | a list of ids written as comma-separated decimals is read back as the same list |
| Config.AdminIdsExample | config.py:10 | "123,456,789" is read as the admins 123, 456 and 789 |
| Config.NoAdminIds | config.py:10 | an unset or empty `ADMIN_IDS` gives no admins |
| Config.EnvFlag | config.py:12 | an unset flag is off |
| Config.EnvFlagMeaning | config.py:12 | `USE_PROXY` and `BYPASS_SSL` are on iff set to a value that lower-cases to "true"; the default "false" never turns them on |
| Config.EnvFlagExamples | config.py:12 | "true" in any case turns a flag on; "1", "yes" and "false" do not |
| Config.Load | config.py:9-18 | loading fails iff `ADMIN_IDS` holds a piece that is not an integer, and otherwise holds the parsed ids |
| Config.Requirements | config.py:38-51 | there are five required settings, in the order `validate` checks them |
| Config.Messages | config.py:39-51 | one "X is required" message per missing name, in order |
| Config.Validate | config.py:33-53 | the errors are the messages of the missing required settings, in the order checked |
| Config.MissingPrefix | config.py:38-51 | each check appends its message exactly when its setting is missing |
| Config.MissingPositions | config.py:36-53 | the reported names are unmet settings in increasing check order, and every unmet setting is reported |
| Config.MissingNames | config.py:38-51 | a name is reported iff a requirement with that name is unmet |
| Config.MissingCount | config.py:36-53 | as many names are reported as requirements are unmet |
| Config.ValidateReports | config.py:38-51 | the message for a required setting is in the errors iff that setting is missing |
| Config.ValidateCount | config.py:33-53 | one message per missing setting, at most five, and none iff every required setting is given |
| Config.ValidateNothingGiven | config.py:33-53 | with no required setting given, all five messages are returned, in order |
| Config.ValidateEmptyEnvironment | config.py:9-53 | with an empty environment, loading succeeds and `validate` reports all five settings |
| Decorators.AdminOnly | decorators.py:13-17 | the command runs iff the user is an admin; otherwise the reply is the refusal message |
| Decorators.AdminOnlyConfigured | decorators.py:13 | with `ADMIN_IDS` written from a list of ids, exactly the users in that list get through |
| Decorators.AdminOnlyUnconfigured | decorators.py:13 | with `ADMIN_IDS` unset, every user is refused |
| Decorators.ValidateInput | decorators.py:25-34 | a refusal is either the "too long" reply naming the limit or the "unsafe" reply |
| Decorators.ValidateInputMeaning | decorators.py:25-34 | no arguments proceed; otherwise too long (arguments plus spaces) gives the length reply, then a refused substring in some argument gives the unsafe reply, else proceed |
| Decorators.ValidateInputProceeds | decorators.py:25-34 | the command proceeds iff there are no arguments, or they are within the limit and no argument holds a refused substring |
| Decorators.ForbiddenJoin | decorators.py:26-31 | a refused substring is in the joined input iff it is in some argument |
| Decorators.JoinContains | decorators.py:26 | a string without spaces occurs in the space-joined arguments iff it occurs in one of them |
| Decorators.ContainsAround | decorators.py:26 | a string without spaces occurs across a joining space iff it occurs on one side |
| Decorators.JavascriptRedundant | decorators.py:31 | the check for "javascript" adds nothing, because "script" is already refused |
| Decorators.LengthCheckedFirst | decorators.py:27-33 | an over-long input gets the length reply even when it is also unsafe |
| Decorators.TagRefused | decorators.py:31-33 | "<b>" is refused as unsafe under the default limit |
| Decorators.PlainInputProceeds | decorators.py:25-34 | "test input" passes a limit of 100 |
| Decorators.LongInputRefused | decorators.py:27-28 | 200 characters under a limit of 100 get "Input quá dài. Tối đa 100 ký tự." |
| Utils.SafeInt | utils.py:32-37 | the result is `int(value)` when that parses, and the default otherwise |
| Utils.SafeIntRoundTrip | utils.py:32-37 | the decimal form of any integer, with surrounding whitespace, converts back to it, whatever the default |
| Utils.SafeIntWithoutDigits | utils.py:34-37 | a value without digits gives the default |
| Utils.SafeIntNumberExample | utils.py:32-35 | `safe_int("123")` is 123 |
| Utils.SafeIntTextExample | utils.py:34-37 | `safe_int("abc", default=0)` is 0 |
| Utils.PrefixTo | utils.py:47 | `s[:k]` is a prefix of `s`; for a negative `k` it counts from the end and never runs past the start |
| Utils.TruncateText | utils.py:43-47 | a text within the limit is unchanged; a longer one becomes a prefix of it followed by "..." |
| Utils.TruncateTextFits | utils.py:43-47 | for a limit of at least 3 the result fits the limit, exactly when the text was cut, and truncating again changes nothing |
| Utils.TruncateTextExample | utils.py:43-47 | 200 characters cut to 100 give 100 characters ending in "..." |
| Utils.TruncateTextShortLimit | utils.py:45-47 | with a limit of 2, "abcdef" becomes "abcde...", longer than the limit, and truncating again changes it |
| Utils.TruncateTextBounded | utils.py:43-47 | the corrected truncation agrees with the source for limits of 3 or more, and is always a prefix of the text, or a prefix followed by "..." |
| Utils.TruncateTextBoundedFits | utils.py:43-47 | for every limit that is not negative, the corrected result fits the limit and truncating again changes nothing |
| Utils.AfterScheme | utils.py:53 | what follows `http://` or `https://` is a suffix of the URL |
| Utils.ValidateUrl | utils.py:49-59 | a URL is accepted iff it is `http://` or `https://` in any case, then a host (a domain of labels and a 2-6 letter top-level domain, `localhost`, or a dotted quad), an optional `:port` and a path, where `$` also matches before one final newline; the contract states that an accepted URL starts with the scheme |
| Utils.ValidUrlFromParts | utils.py:52-59 | any domain, `localhost` or dotted quad, with an optional port and path, makes an accepted URL |
| Utils.SchemeStripped | utils.py:53 | the scheme matcher strips exactly `http://` or `https://` |
| Utils.PortAndPath | utils.py:57-58 | a port followed by a path is a valid tail |
| Utils.AfterSchemeAppend | utils.py:53 | what follows the scheme does not depend on what comes after it |
| Utils.ValidUrlWithNewline | utils.py:58 | an accepted URL stays accepted with one newline appended |
| Utils.DomainOfTwo | utils.py:54 | a label, a dot and a top-level domain make a domain |
| Utils.ValidUrlExampleDomain | utils.py:49-59 | "https://example.com" is accepted |
| Utils.ValidUrlExampleLocalhost | utils.py:55-57 | "http://localhost:8080" is accepted |
| Utils.InvalidUrlExample | utils.py:53 | "invalid-url" is refused |

## Left out

- Zabbix and Telegram I/O: the API calls, the replies, Markdown, logging and the `try/except` around `execute`. The problems and triggers are parameters, and the outcome says which reply would be sent.
- The three-day window of `execute`: the clock and the `time_from`/`time_till` query. The problems are taken as given.
- The report text: emoji, Vietnamese wording and Markdown. Each section keeps its content and order. The average severity is kept as a sum and a count, not as a number formatted with `.1f`.
- The order of `list(set)[:n]` and of joined host sets: Python leaves it unspecified. The model shows a subset of the right size (`PickUpTo`), or the whole set.
- Zabbix API records are typed records: `severity` and `clock` are integers already converted by `int(...)`, and a trigger's `dependencies` are trigger ids compared with `objectid`. A problem without a host counts under "Unknown".
- `int()` accepts an optional sign and ASCII digits, with surrounding whitespace stripped as `str.isspace()` defines it, Unicode spaces included (`Strings.IsSpace`). Underscores between digits and non-ASCII digits are not modelled.
- `str.lower()` and `re.IGNORECASE` are modelled on ASCII letters only: Python's IGNORECASE also matches ſ, K (Kelvin sign), İ and ı against `[A-Z]`, `s` and `k`, which the model does not. `\d` is modelled on ASCII digits only. `\S` follows `str.isspace()`, Unicode spaces included.
- `safe_int`'s `TypeError` path (a non-string argument) cannot arise on strings and is not modelled.
- `format_timestamp` and `retry` in `utils.py` are not part of this model (clock and sleeping).
- `SCREENSHOT_*`, `OPENWEBUI_*` and the database constants of `config.py` are not part of this model. An `ADMIN_IDS` that is not a list of integers makes loading fail (`None`), where Python raises at import.
- `validate_input` with `context.args` equal to `None` behaves like no arguments; only argument lists are modelled.
- Decorators.AdminOnly: the warning logged for a refused user is not modelled.

## Findings

| source | as written | input that shows it | evidently intended | confidence | as-written member | corrected member |
|---|---|---|---|---|---|---|
| utils.py:45-47 | `text[:max_length-3] + "..."` for every text longer than the limit | `truncate_text("abcdef", 2)` gives "abcde...", 8 characters for a limit of 2, and truncating it again changes it | the result never exceeds `max_length` | not executed; medium, since only the tests call it, with a limit of 100 | Utils.TruncateText, Utils.TruncateTextShortLimit | Utils.TruncateTextBounded, Utils.TruncateTextBoundedFits |
