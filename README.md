# Hemaya compliance manager: a verified model of its core rules

Hemaya checks an organisation's policy documents against compliance
frameworks (NCA ECC, ISO 27001, NIST 800-53). This project models, in
Dafny, the parts of the system that compute something:

- the `analyze_policy` server function. It matches each catalog control's
  keywords against the policy text, rates a confidence and a coverage
  bucket, picks evidence, writes mappings, gaps, results, an insight and
  an audit entry, and moves the policy through `processing`, then `failed`
  or `analyzed`;
- the `run_simulation` server function, a what-if projection of scores
  when a set of catalog controls is implemented;
- the `generate_report` server function, which lays out an Executive
  Summary, a Gap Report or a fallback Detailed Analysis;
- the Simulation page. It has its own client-side what-if simulator, with
  default scores, weighted sample controls and a toggle selection;
- the Mapping Review page: search and filters, the counters, the
  confidence colour and the review dialog with its submit guard;
- the AI Insights page: the fallback insights derived from gaps and
  results, the tab filter, the counters and the rule that derived cards
  are never written back.

Modules:

- `Common` holds the JavaScript primitives the code relies on:
  `filter`/`map`, `includes`, `toLowerCase`, `trim`, numerals in
  template strings, `Math.round` as ⌊x + ½⌋, and objects as association
  lists that keep insertion order.
- `Entities` holds the stored records.
- The six modules above, one per source file.

Conventions:

- Store reads, and the clock, are parameters.
- Store writes are appended to the fields of a class (`Backend`) or to
  a `seq` of update requests kept by the page classes.
- The signed-in user is an `Option`.
- An absent request field is `""` or `None`.
- Confidence and scores are exact `real` numbers.
- A JavaScript `NaN` is `None`.

Points where the code behaves other than a reader might expect, modelled as
the code has them:

- A gap is filed only for a Missing control, not for a Partial one, although
  the comment above the gap push (functions/analyze_policy/index.ts:115)
  speaks of missing and partial controls.
- A policy whose text is only white space is analysed, not rejected:
  functions/analyze_policy/index.ts:55 tests only `!extractedText`.
- The server's `gaps_resolved` counts the policy's gaps of every status:
  functions/run_simulation/index.ts:58 filters the gaps by `policy_id` only.
- The server's `total_impact` is NaN (`None`) when no control is selected:
  functions/run_simulation/index.ts:73 divides by the number of keys of an
  empty impact table.

## Model

| member | source | states |
|---|---|---|
| Common.LowerSpec | functions/analyze_policy/index.ts:63 | lower-casing maps every character through the letter case table and keeps the length |
| Common.LowerIdempotent | functions/analyze_policy/index.ts:86-87 | lower-casing a keyword that is already lower case changes nothing |
| Common.ContainsSpec | functions/analyze_policy/index.ts:87 | `includes` holds exactly when the pattern occurs at some position of the text |
| Common.Trim | functions/analyze_policy/index.ts:101 | the trimmed sentence is a piece of the sentence with no white space at either end |
| Common.NatToStringRoundTrip | functions/analyze_policy/index.ts:135-138 | the numeral a template prints is all digits and reads back as the number |
| Common.RoundBetween | functions/run_simulation/index.ts:49-51 | `Math.round` keeps a value between two integer bounds |
| Common.Put | functions/run_simulation/index.ts:34-38 | assigning a key changes that key's value only; an existing key keeps its place and a new key goes last |
| Common.SumAfterPut | functions/run_simulation/index.ts:72-73 | after an assignment, the sum of the values has the key's old value (0 when absent) replaced by the new one |
| AnalyzePolicy.MatchCount | functions/analyze_policy/index.ts:85-90 | the number of matching keywords never exceeds the number of keywords |
| AnalyzePolicy.MatchCountSpec | functions/analyze_policy/index.ts:85-90 | the count is 0 exactly when no keyword occurs in the text, and equals the number of keywords exactly when all occur |
| AnalyzePolicy.CountMatches | functions/analyze_policy/index.ts:82-90 | the `matchCount++` loop computes the match count |
| AnalyzePolicy.ConfidenceInUnitInterval | functions/analyze_policy/index.ts:93 | confidence lies in [0, 1]; it is 1 exactly when every keyword of a non-empty list matches, and 0 exactly when none does |
| AnalyzePolicy.CoveragePartition | functions/analyze_policy/index.ts:108-125 | Covered is exactly c ≥ 0.7, Partial exactly 0.3 ≤ c < 0.7, Missing exactly c < 0.3 |
| AnalyzePolicy.DecisionByCoverage | functions/analyze_policy/index.ts:139 | Covered controls are always Accepted and Missing ones always Pending; a Partial control is Accepted exactly when 0.6 ≤ c < 0.7 |
| AnalyzePolicy.RationaleIdentifiesBucket | functions/analyze_policy/index.ts:134-138 | two equal rationale texts come from the same bucket and the same matched and total counts |
| AnalyzePolicy.RatioIdentified | functions/analyze_policy/index.ts:134-138 | after a common opening, the `matched/total` numerals are read back unambiguously |
| AnalyzePolicy.RatioThresholds | functions/analyze_policy/index.ts:93-139 | the thresholds on `matched/total` decide the same bucket and decision as integer comparisons (at least 7, 3, 6 in 10) |
| AnalyzePolicy.NextDelimiterSpec | functions/analyze_policy/index.ts:98 | the next delimiter found is the first `.`, `!` or `?` at or after the start |
| AnalyzePolicy.SentencesAreDelimiterFree | functions/analyze_policy/index.ts:98 | splitting on runs of `.`, `!`, `?` gives at least one sentence, and no sentence holds a delimiter |
| AnalyzePolicy.SentencesArePieces | functions/analyze_policy/index.ts:98 | every sentence is a piece of the original text |
| AnalyzePolicy.MentionsSpec | functions/analyze_policy/index.ts:100 | a sentence mentions the control exactly when one of its keywords occurs in it, ignoring case |
| AnalyzePolicy.FirstMentionSpec | functions/analyze_policy/index.ts:99-104 | the loop finds the first sentence that mentions a keyword, and finds none exactly when no sentence does |
| AnalyzePolicy.EvidenceSpec | functions/analyze_policy/index.ts:96-105 | the evidence is never empty. It is the fallback marker when nothing matched or no sentence qualifies, otherwise the first mentioning sentence, trimmed. It is always the marker or a piece of the text |
| AnalyzePolicy.FindEvidence | functions/analyze_policy/index.ts:96-105 | the sentence loop with its `break` computes the evidence |
| AnalyzePolicy.ControlConfidenceSpec | functions/analyze_policy/index.ts:81-93 | a control's confidence lies in [0, 1]; it is 0 exactly when no keyword matches and 1 exactly when all of at least one match; its bucket is the bucket of that confidence |
| AnalyzePolicy.ZeroKeywordsMissing | functions/analyze_policy/index.ts:81-93 | a control without keywords gets confidence 0 and is Missing |
| AnalyzePolicy.CoverageExtremes | functions/analyze_policy/index.ts:85-125 | all keywords matching makes a control Covered; none matching makes it Missing |
| AnalyzePolicy.MappingsAreMap | functions/analyze_policy/index.ts:80-141 | the mappings of a framework are the control list mapped through the mapping rule |
| AnalyzePolicy.OneMappingPerControl | functions/analyze_policy/index.ts:128-140 | exactly one mapping per control, in catalog order, each built from its own control |
| AnalyzePolicy.CoverageCountsAddUp | functions/analyze_policy/index.ts:108-113 | covered + partial + missing equals the number of controls |
| AnalyzePolicy.GapCount | functions/analyze_policy/index.ts:112-124 | there are exactly as many gaps as Missing controls |
| AnalyzePolicy.GapsAreMap | functions/analyze_policy/index.ts:112-124 | the gaps are the Missing controls, in order, mapped through the gap rule |
| AnalyzePolicy.GapsAreForMissing | functions/analyze_policy/index.ts:112-124 | every gap belongs to a Missing control of the framework |
| AnalyzePolicy.MissingHaveGaps | functions/analyze_policy/index.ts:112-124 | every Missing control has its gap |
| AnalyzePolicy.ScoreBounds | functions/analyze_policy/index.ts:144-147 | the score lies in [0, 100] |
| AnalyzePolicy.ScoreMonotone | functions/analyze_policy/index.ts:144-147 | for a fixed number of controls, more covered or partial controls never lower the score |
| AnalyzePolicy.StatusBands | functions/analyze_policy/index.ts:150-152 | Compliant exactly from 80, Partially Compliant exactly in [60, 80), Not Compliant below 60 |
| AnalyzePolicy.FrameworkResult | functions/analyze_policy/index.ts:144-165 | a result's counts add up to the number of controls, its score lies in [0, 100], and its status is the status of that score |
| AnalyzePolicy.AssessControl | functions/analyze_policy/index.ts:81-140 | the body of the control loop yields the control's bucket and its mapping |
| AnalyzePolicy.AnalyzeFramework | functions/analyze_policy/index.ts:73-165 | the control loop, with its counters and pushes, yields the framework's result, mappings and gaps |
| AnalyzePolicy.ControlsOfMembers | functions/analyze_policy/index.ts:73 | the framework's controls are exactly the catalog's controls of that framework |
| AnalyzePolicy.RunResults | functions/analyze_policy/index.ts:71-168 | one result per requested framework |
| AnalyzePolicy.RunResultAt | functions/analyze_policy/index.ts:71-168 | result `i` is the result of the `i`-th requested framework |
| AnalyzePolicy.RunSnoc | functions/analyze_policy/index.ts:71-168 | each round of the framework loop appends that framework's result, mappings and gaps |
| AnalyzePolicy.MappingForDecision | functions/analyze_policy/index.ts:133-139 | each mapping has confidence in [0, 1] and is Accepted exactly from 0.6 on, Pending otherwise |
| AnalyzePolicy.RunDecisions | functions/analyze_policy/index.ts:128-140 | every mapping of a run keeps that decision rule |
| AnalyzePolicy.RunGapsShape | functions/analyze_policy/index.ts:116-124 | every gap of a run is Open, has the control's severity ("Medium" when unset), names the control code, and belongs to a Missing catalog control |
| AnalyzePolicy.CriticalGapsExist | functions/analyze_policy/index.ts:179-180 | there are critical gaps exactly when some gap is Critical |
| AnalyzePolicy.RejectionSpec | functions/analyze_policy/index.ts:13-27 | a request is turned away exactly when the user, the policy id, the frameworks or the policy is missing; it gets 404 exactly when only the policy is missing |
| AnalyzePolicy.ApplyResultWrites | functions/analyze_policy/index.ts:155-167 | the result writes append the results in order and change nothing else |
| AnalyzePolicy.ApplyRunWrites | functions/analyze_policy/index.ts:155-205 | the writes of a run append its results, mappings, gaps, insight and audit entry, and leave the policy Analyzed |
| AnalyzePolicy.CompletedRun | functions/analyze_policy/index.ts:29-205 | a completed run leaves the policy Analyzed and appends the run's results, mappings and gaps. It appends one gap_priority insight exactly when some gap is Critical, and the completion audit entry |
| AnalyzePolicy.InterruptedWrites | functions/analyze_policy/index.ts:30-196 | a write that throws after `processing` and before `analyzed` leaves the policy Processing |
| AnalyzePolicy.InterruptedRun | functions/analyze_policy/index.ts:30-219 | such a run leaves the policy Processing and answers 500 |
| AnalyzePolicy.UnreadablePolicy | functions/analyze_policy/index.ts:33-60 | with no text, the policy ends Failed, nothing else is written, and the answer is 400 |
| AnalyzePolicy.Backend.constructor | functions/analyze_policy/index.ts:10 | an empty store over the given policies and catalog |
| AnalyzePolicy.Backend.Perform | functions/analyze_policy/index.ts:30 | one store write, or an exception that changes nothing |
| AnalyzePolicy.Backend.Analyze | functions/analyze_policy/index.ts:8-220 | a rejected request writes nothing and gets its error. An admitted one performs the planned writes up to the first that throws, and gets the outcome of those writes |
| AnalyzePolicy.Backend.Admitted | functions/analyze_policy/index.ts:29-212 | after admission, the store is the planned writes applied up to the failing one |
| AnalyzePolicy.Backend.MarkUnreadable | functions/analyze_policy/index.ts:55-60 | no text: the `failed` update, then 400 (500 if that write throws) |
| AnalyzePolicy.Backend.AnalyzeText | functions/analyze_policy/index.ts:62-212 | with text, the framework loop and closing writes, then success with the counts, or 500 on a failed write |
| AnalyzePolicy.Backend.WriteResults | functions/analyze_policy/index.ts:71-168 | the framework loop stores one result per framework and returns the run's results, mappings and gaps |
| AnalyzePolicy.Backend.WriteFramework | functions/analyze_policy/index.ts:72-167 | one round of the framework loop |
| AnalyzePolicy.Backend.WriteFindings | functions/analyze_policy/index.ts:171-190 | the bulk mappings, bulk gaps and insight, each written only when there is something to write |
| AnalyzePolicy.Backend.Close | functions/analyze_policy/index.ts:170-205 | the closing writes all succeed exactly when no write throws |
| AnalyzePolicy.Backend.Finish | functions/analyze_policy/index.ts:192-205 | the `analyzed` update and the audit entry |
| RunSimulation.SelectedControlsSpec | functions/run_simulation/index.ts:28 | the selection is the catalog controls whose id was asked for, in catalog order |
| RunSimulation.SelectionIgnoresUnknownAndRepeatedIds | functions/run_simulation/index.ts:28 | unknown ids, repeated ids and the order of the ids do not change the selection |
| RunSimulation.AddControl | functions/run_simulation/index.ts:34-38 | the loop body: an entry set to 0 when falsy, then raised by 1.5 |
| RunSimulation.ImpactByFramework | functions/run_simulation/index.ts:31-39 | the `forEach` builds the impact table |
| RunSimulation.ImpactTableAt | functions/run_simulation/index.ts:31-39 | a framework has an entry exactly when some selected control is in it, and the entry is 1.5 × the number of those controls |
| RunSimulation.ImpactTableSpec | functions/run_simulation/index.ts:31-39 | the table has no repeated keys, and every framework's entry is 1.5 per selected control |
| RunSimulation.ImpactTableSum | functions/run_simulation/index.ts:31-39 | the impacts add up to 1.5 per selected control |
| RunSimulation.ProjectionBounds | functions/run_simulation/index.ts:43-51 | for a current score in [0, 100], the projection lies between it and 100, the rounded scores keep that order, and the rounded improvement is non-negative |
| RunSimulation.ProjectionsSpec | functions/run_simulation/index.ts:42-55 | one projection per stored result, same order and framework. The score is raised by 1.5 per selected control and capped at 100. The missing count drops by that many controls, never below 0 |
| RunSimulation.ProjectionNeverLowers | functions/run_simulation/index.ts:43-51 | a stored score in [0, 100] is never lowered |
| RunSimulation.GapsResolvedSpec | functions/run_simulation/index.ts:58-61 | the resolved gaps are the gaps of any status whose control a selected control addresses; there are at most as many as gaps |
| RunSimulation.TotalImpactSpec | functions/run_simulation/index.ts:72-74 | the mean impact is NaN exactly when nothing is selected; otherwise it is the rounded 1.5 × selected / frameworks touched |
| RunSimulation.Simulate | functions/run_simulation/index.ts:8-75 | refused exactly without a user, a policy id or an id list. Otherwise one projection per result, `controls_implemented` is the raw id count, and `gaps_resolved` ≤ |gaps| |
| RunSimulation.TwoControlsScenario | functions/run_simulation/index.ts:37-51 | two selected controls of one framework on a score of 60 give +3.0, projected 63 |
| SimulationPage.SampleFrameworksKnown | src/pages/Simulation.jsx:44-55 | every sample control is in one of the three frameworks |
| SimulationPage.TablesKeyedByFrameworks | src/pages/Simulation.jsx:75-79 | the default score table and the empty impact table are keyed by the three frameworks, once each |
| SimulationPage.FilteredControlsSpec | src/pages/Simulation.jsx:92-94 | the listed controls are the table's controls of the chosen framework, in order |
| SimulationPage.GetCurrentScores | src/pages/Simulation.jsx:74-88 | the `forEach` override loop computes the current scores |
| SimulationPage.OverrideAt | src/pages/Simulation.jsx:81-85 | a non-zero result replaces its own framework's entry with its rounded score and leaves the others |
| SimulationPage.CurrentScoresKeys | src/pages/Simulation.jsx:74-88 | the score table has no repeated keys and always has the three defaults |
| SimulationPage.LastResultWins | src/pages/Simulation.jsx:81-85 | a framework's current score is the rounded score of its last non-zero result |
| SimulationPage.NoResultKeepsDefault | src/pages/Simulation.jsx:75-85 | without a non-zero result, a framework keeps its default |
| SimulationPage.CurrentScoresInRange | src/pages/Simulation.jsx:74-88 | stored scores in [0, 100] give current scores in [0, 100] |
| SimulationPage.Find | src/pages/Simulation.jsx:115 | `find` returns a control with that id, and nothing exactly when the table has none |
| SimulationPage.AddPoints | src/pages/Simulation.jsx:115-118 | one id keeps the impact table keyed by the three frameworks |
| SimulationPage.SampleImpact | src/pages/Simulation.jsx:108-119 | the impact table stays keyed by the three frameworks |
| SimulationPage.ComputeImpact | src/pages/Simulation.jsx:108-119 | the `forEach` over the selected ids computes the impact table |
| SimulationPage.SampleImpactAt | src/pages/Simulation.jsx:108-119 | each of the three frameworks holds exactly the points of its selected controls; unknown ids add nothing and there is no other entry |
| SimulationPage.PageImpact | src/pages/Simulation.jsx:108-119 | the page's impact table is keyed by the three frameworks |
| SimulationPage.ProjectScoreBounds | src/pages/Simulation.jsx:126-127 | for an integer current score in [0, 100], the projection lies between it and 100, and equals it without points |
| SimulationPage.ProjectScores | src/pages/Simulation.jsx:122-128 | the loop over the current scores computes the projection as written, NaN for a framework without an impact entry |
| SimulationPage.ProjectedSpec | src/pages/Simulation.jsx:122-128 | every corrected entry keeps its framework and lies between the current score and 100 |
| SimulationPage.TotalImpactNonNegative | src/pages/Simulation.jsx:164-168 | when every entry rises from its current score, the total is a number and non-negative |
| SimulationPage.ToggledMembers | src/pages/Simulation.jsx:96-101 | toggling flips whether the id is selected and leaves every other id alone |
| SimulationPage.ToggledKeepsNoDuplicates | src/pages/Simulation.jsx:96-101 | a selection without repeats stays without |
| SimulationPage.ToggleTwice | src/pages/Simulation.jsx:96-101 | toggling twice restores the selected ids. It gives back exactly the same list when the id was absent; when it was present, the list without the id followed by the id, so the id moves to the end |
| SimulationPage.CurrentScoresKnown | src/pages/Simulation.jsx:74-88 | when every non-zero stored result names one of the three frameworks, the score table holds exactly those three |
| SimulationPage.AsWrittenAgrees | src/pages/Simulation.jsx:121-128 | where every framework has an impact entry, the projection as written equals the corrected one |
| SimulationPage.OutcomeSpec | src/pages/Simulation.jsx:106-137 | for stored scores in [0, 100] of the three frameworks, each framework is projected between its current score and 100. The total impact is a non-negative number. The controls implemented are the selection size. The resolved gaps are the smaller of the selection size and the number of open gaps |
| SimulationPage.UnknownFrameworkGivesNaN | src/pages/Simulation.jsx:81-128 | as written, a non-zero result for a framework outside the three gets a NaN projection and makes the total impact NaN |
| SimulationPage.NaNSpreads | src/pages/Simulation.jsx:165-167 | one NaN term makes the whole total NaN |
| SimulationPage.Simulate | src/pages/Simulation.jsx:106-135 | the body of `runSimulation` computes the outcome as written, whose properties OutcomeSpec and UnknownFrameworkGivesNaN state |
| SimulationPage.Page.constructor | src/pages/Simulation.jsx:58-61 | all frameworks shown, nothing selected, no simulation |
| SimulationPage.Page.SelectFramework | src/pages/Simulation.jsx:58 | only the framework filter changes, and the page stays valid |
| SimulationPage.Page.ToggleControl | src/pages/Simulation.jsx:96-104 | the id is toggled, the selection stays without repeats, and the shown outcome is cleared |
| SimulationPage.Page.RunSimulation | src/pages/Simulation.jsx:106-137 | the page records the as-written outcome of its selection and marks the simulation run |
| SimulationPage.Page.ResetSimulation | src/pages/Simulation.jsx:139-143 | the selection and the outcome are cleared |
| SimulationPage.ShownTotalImpactAfterRun | src/pages/Simulation.jsx:164-168 | after a run on scores in [0, 100] of the three frameworks, the rendered total impact is a non-negative number |
| GenerateReport.FilteredResultsSpec | functions/generate_report/index.ts:33-35 | a non-empty framework list keeps exactly the results of those frameworks, in order; an empty one keeps all |
| GenerateReport.OpenGapsSpec | functions/generate_report/index.ts:39 | the open gaps are exactly the gaps with status Open, in order |
| GenerateReport.PolicyQueriesSpec | functions/generate_report/index.ts:32-38 | the store queries keep exactly the records of the policy |
| GenerateReport.ExecutiveSummarySpec | functions/generate_report/index.ts:44-70 | one score section per filtered result in order. The first min(10, open) open gaps are listed in order. The overflow count appears exactly when more than ten are open, and listed plus overflow is the open total |
| GenerateReport.GapCountsBounded | functions/generate_report/index.ts:78-87 | the four status counts add up to the total; the severity counts add up to at most the total |
| GenerateReport.GapReportSpec | functions/generate_report/index.ts:71-98 | every gap appears once in order, with "Unassigned" for a missing owner. The printed status counts leave out only Deferred gaps, and the severity counts stay within the total |
| GenerateReport.FallbackDependsOnlyOnName | functions/generate_report/index.ts:99-106 | any other report type gives the Detailed Analysis text, the same for the same policy name whatever the results, gaps or clock |
| GenerateReport.Render | functions/generate_report/index.ts:45-105 | the report text starts with its title and policy lines |
| GenerateReport.GenerateRefusals | functions/generate_report/index.ts:13-29 | a report is produced exactly when user, id and policy are present; 401 exactly without a user; 404 exactly when only the policy is missing |
| GenerateReport.FormatDoesNotMatter | functions/generate_report/index.ts:110-112 | the uploaded text is the same whatever the format |
| MappingReview.FilteredMappingsSpec | src/pages/MappingReview.jsx:99-108 | the shown mappings are, in order, exactly those passing search, status, confidence and policy tests |
| MappingReview.DefaultFiltersShowRecordsWithText | src/pages/MappingReview.jsx:99-108 | with every filter at its default, a mapping is shown exactly when it has a control id or evidence |
| MappingReview.SearchIgnoresCase | src/pages/MappingReview.jsx:100-101 | the search result is the same whatever the letter case of the query or the control id |
| MappingReview.ConfidenceFiltersPartition | src/pages/MappingReview.jsx:103-111 | every mapping passes exactly one of "low" and "high", a missing score counting as low; the low counter is the size of the low side |
| MappingReview.CountersBounded | src/pages/MappingReview.jsx:110-111 | the counters never exceed the number of mappings; pending means the stored decision Pending |
| MappingReview.ColourBands | src/pages/MappingReview.jsx:141-145 | emerald exactly from 0.8, amber exactly in [0.6, 0.8), red exactly when flagged low |
| MappingReview.EngineAcceptedNeverLow | src/pages/MappingReview.jsx:48 | a mapping the engine stores is Accepted exactly when the page does not flag it low |
| MappingReview.ReviewPage.constructor | src/pages/MappingReview.jsx:54-57 | no mapping selected, dialog closed, empty decision and notes, nothing sent |
| MappingReview.ReviewPage.HandleReview | src/pages/MappingReview.jsx:113-118 | the dialog opens on the mapping with its stored decision ("Pending" when absent) and notes |
| MappingReview.ReviewPage.Choose | src/pages/MappingReview.jsx:404-425 | a decision button sets the decision to Accepted, Rejected or Modified |
| MappingReview.ReviewPage.EditNotes | src/pages/MappingReview.jsx:437 | typing replaces the notes |
| MappingReview.ReviewPage.HandleSubmitReview | src/pages/MappingReview.jsx:120-139 | an update is sent exactly when the decision is neither empty nor Pending. It then carries Accepted, Rejected or Modified, the notes, the reviewer and the time |
| MappingReview.ReviewPage.ReviewSaved | src/pages/MappingReview.jsx:82-96 | a successful update adds its audit entry and closes the dialog |
| AIInsights.LowestSpec | src/pages/AIInsights.jsx:125-127 | the `reduce` picks a result of least score, and the earliest of those |
| AIInsights.GenerateDerivedInsights | src/pages/AIInsights.jsx:104-166 | the successive pushes build the derived list |
| AIInsights.DerivedShape | src/pages/AIInsights.jsx:104-166 | one to four cards, in the fixed kind order, each kind at most once, trend_analysis last |
| AIInsights.DerivedPresence | src/pages/AIInsights.jsx:108-163 | gap_priority exactly when some gap is Critical; control_recommendation exactly when a result scores below 60; policy_improvement exactly when there is a result; trend_analysis always |
| AIInsights.DerivedCounts | src/pages/AIInsights.jsx:177-179 | on the derived list every card is New, the actioned tab is empty, one card is Critical exactly with a critical gap, and one is High exactly with a low score |
| AIInsights.GapPriorityTitleCount | src/pages/AIInsights.jsx:113 | the title begins with the count's numeral, which reads back as the count |
| AIInsights.GapEvidenceSpec | src/pages/AIInsights.jsx:116 | the evidence is the first one or two control ids, with ", " between them |
| AIInsights.GapPriorityCardText | src/pages/AIInsights.jsx:110-119 | the gap card is Critical, counts the critical gaps in its title and cites their first ids |
| AIInsights.GapPriorityCardFirst | src/pages/AIInsights.jsx:108-119 | with a critical gap, the first card is built from exactly the critical gaps, in order |
| AIInsights.ControlRecommendationCardSpec | src/pages/AIInsights.jsx:123-138 | the recommendation follows the gap card if any, and is High. It names the framework of the earliest least-scoring result below 60 |
| AIInsights.DisplayInsights | src/pages/AIInsights.jsx:168 | stored cards are shown when there are any, and something is always shown |
| AIInsights.DisplayFallsBack | src/pages/AIInsights.jsx:168 | without stored cards the derived ones, in their fixed order, are shown |
| AIInsights.FilteredInsightsSpec | src/pages/AIInsights.jsx:170-175 | a tab keeps its cards in order: all on "all", New ones on "new", Actioned ones on "actioned", cards of that kind on any other tab |
| AIInsights.CountsBounded | src/pages/AIInsights.jsx:177-179 | no counter exceeds the list, and critical plus high do not either |
| AIInsights.DerivedNeverPersisted | src/pages/AIInsights.jsx:184 | no derived card qualifies to be written back |
| AIInsights.InsightsPage.constructor | src/pages/AIInsights.jsx:74-76 | the "all" tab, no card selected, dialog closed, nothing sent |
| AIInsights.InsightsPage.SelectTab | src/pages/AIInsights.jsx:76 | only the tab changes |
| AIInsights.InsightsPage.ViewInsight | src/pages/AIInsights.jsx:181-190 | the dialog opens on the card; a "Viewed" update is sent exactly for a New stored card |
| AIInsights.InsightsPage.ActionInsight | src/pages/AIInsights.jsx:192-206 | a stored card gets the chosen status; the dialog closes either way |
| AIInsights.DerivedCardsSendNothing | src/pages/AIInsights.jsx:184-198 | viewing or acting on a derived card sends no update |

## Left out

- Every call into the base44 service is out of the model: `auth.me`, entity get/list/filter/create/bulkCreate/update, `ExtractDataFromUploadedFile` and `UploadFile`. Their results are parameters, and their writes are appended to store fields or to request lists.
- Store ordering and page limits (`'-created_date'`, `'-analyzed_at'`, `10`) are left out: the records arrive as a given list.
- Clock values (`new Date()`, `Date.now()`) are parameters. The report's file name, built from `Date.now()`, is left out.
- One `now` stands for every clock read of an analysis run: the `analyzed_at` of each stored result (functions/analyze_policy/index.ts:163) and the policy's `last_analyzed_at` (line 195) are modelled as equal, where the code reads the clock for each.
- The constant `analysis_duration: 0` of a stored result (functions/analyze_policy/index.ts:164) is not a field of the model's ComplianceResult; no contract depends on it.
- The record fields the store fills in (ids, `created_date`) are left out; an insight the engine creates is given the empty id.
- The `Report` record and the report audit entry are left out (functions/generate_report/index.ts:115-138). The model keeps only the uploaded text and the audit details.
- The extracted `policyWords` set (functions/analyze_policy/index.ts:64) is never used and is not modelled.
- The text of a thrown error (`error.message`) is left out; an exception is a 500 answer. Only store writes are modelled as throwing.
- Floating point is left out: confidence and scores are exact rationals, and `Math.round` is ⌊x + ½⌋.
- `toLowerCase` folds ASCII letters only, and `trim` removes a fixed set of white-space characters; the full Unicode tables are left out.
- A stored compliance score is always a number here, so the `|| 0` fallbacks on it act only on a score of 0.
- SimulationPage.OutcomeSpec: the bounds and the non-negative total are stated only for stored results that score zero or name one of the three frameworks. For any other framework the page's projection is NaN (see Findings).
- SimulationPage.ShownTotalImpactAfterRun: stated under the same condition on the stored results as OutcomeSpec, for the same reason.
- React rendering, hooks, toasts, dialogs' markup, the chart data and the rendered `round(totalImpact / 3)` figure of the Simulation page are left out, as are `invalidateQueries` refreshes.
- The review dialog's Cancel button (src/pages/MappingReview.jsx:445) only hides the dialog and is not modelled as its own method.
- Concurrent analyses of one policy are not modelled.

## Findings

| source | as written | input that shows it | evidently intended | confidence | as-written member | corrected member |
|---|---|---|---|---|---|---|
| src/pages/Simulation.jsx:121-128 | the impact table has entries for only the three sample frameworks, but the loop projects every framework of `currentScores`, and those include the framework of any stored result with a non-zero score; for another framework `impact` is `undefined`, so its projection and `totalImpact` are NaN | a stored result with framework "SOC 2" and score 50 | a framework without an impact entry gains nothing (impact 0), and the total impact stays a non-negative number | not executed | SimulationPage.UnknownFrameworkGivesNaN | SimulationPage.ProjectedSpec |
