/** The report compiler (`generate_report`): it gathers a policy's stored
    results and gaps and renders one of three text layouts. An Executive
    Summary has the (optionally framework-filtered) scores and the first ten
    open gaps. A Gap Report has status and severity counts and every gap.
    Anything else gets a fixed text naming the policy. */
module GenerateReport {
  import opened Common
  import opened Entities

  // ---------------------------------------------------------------------
  // What the report is built from
  // ---------------------------------------------------------------------

  function OfPolicy(policyId: string): ComplianceResult -> bool
  {
    (r: ComplianceResult) => r.policyId == policyId
  }

  function GapOfPolicy(policyId: string): Gap -> bool
  {
    (g: Gap) => g.policyId == policyId
  }

  function IncludedIn(frameworksIncluded: seq<string>): ComplianceResult -> bool
  {
    (r: ComplianceResult) => r.framework in frameworksIncluded
  }

  /** `frameworks_included?.length > 0 ? results.filter(...) : results`;
      an absent list is `[]`. */
  function FilteredResults(results: seq<ComplianceResult>, frameworksIncluded: seq<string>): seq<ComplianceResult>
  {
    if |frameworksIncluded| > 0 then Filter(results, IncludedIn(frameworksIncluded)) else results
  }

  /** A non-empty framework list keeps exactly the results of the listed
      frameworks, in order; an empty one keeps everything. */
  lemma FilteredResultsSpec(results: seq<ComplianceResult>, frameworksIncluded: seq<string>)
    ensures IsSublist(FilteredResults(results, frameworksIncluded), results)
    ensures |frameworksIncluded| > 0 ==>
              forall r :: r in FilteredResults(results, frameworksIncluded) <==> r in results && r.framework in frameworksIncluded
    ensures |frameworksIncluded| == 0 ==> FilteredResults(results, frameworksIncluded) == results
  {
    FilterMembers(results, IncludedIn(frameworksIncluded));
    FilterIsSublist(results, IncludedIn(frameworksIncluded));
    if |frameworksIncluded| == 0 {
      ResultsAreOwnSublist(results);
    }
  }

  lemma {:induction false} ResultsAreOwnSublist(results: seq<ComplianceResult>)
    ensures IsSublist(results, results)
  {
    FilterKeepsAll(results, (r: ComplianceResult) => true);
    FilterIsSublist(results, (r: ComplianceResult) => true);
  }

  function StatusIs(status: GapStatus): Gap -> bool
  {
    (g: Gap) => g.status == status
  }

  function SeverityIs(severity: string): Gap -> bool
  {
    (g: Gap) => g.severity == severity
  }

  /** `gaps.filter(g => g.status === "Open")` */
  function OpenGaps(gaps: seq<Gap>): seq<Gap>
  {
    Filter(gaps, StatusIs(Open))
  }

  lemma OpenGapsSpec(gaps: seq<Gap>)
    ensures forall g :: g in OpenGaps(gaps) <==> g in gaps && g.status == Open
    ensures IsSublist(OpenGaps(gaps), gaps)
  {
    FilterMembers(gaps, StatusIs(Open));
    FilterIsSublist(gaps, StatusIs(Open));
  }

  /** The store queries `filter({ policy_id })`, over all stored records. */
  lemma PolicyQueriesSpec(results: seq<ComplianceResult>, gaps: seq<Gap>, policyId: string)
    ensures forall r :: r in Filter(results, OfPolicy(policyId)) <==> r in results && r.policyId == policyId
    ensures forall g :: g in Filter(gaps, GapOfPolicy(policyId)) <==> g in gaps && g.policyId == policyId
  {
    FilterMembers(results, OfPolicy(policyId));
    FilterMembers(gaps, GapOfPolicy(policyId));
  }

  // ---------------------------------------------------------------------
  // The report contents, before rendering
  // ---------------------------------------------------------------------

  datatype ScoreSection = ScoreSection(framework: string, score: int, status: string, covered: nat, partial: nat, missing: nat)

  datatype GapLine = GapLine(controlId: string, severity: string, controlName: string)

  datatype GapDetail = GapDetail(
    controlId: string,
    controlName: string,
    framework: string,
    severity: string,
    status: string,
    owner: string,
    description: string)

  datatype ReportContent =
    | ExecutiveSummary(policyName: string, generatedAt: string, frameworkCount: nat, scores: seq<ScoreSection>,
                       openTotal: nat, listed: seq<GapLine>, moreGaps: Option<nat>)
    | GapReport(policyName: string, generatedAt: string, total: nat, open: nat, inProgress: nat, resolved: nat,
                critical: nat, high: nat, medium: nat, low: nat, details: seq<GapDetail>)
    | DetailedAnalysis(policyName: string)

  /** The open gaps an Executive Summary lists by name. */
  const MaxListedGaps: nat := 10

  function SectionOf(r: ComplianceResult): ScoreSection
  {
    ScoreSection(r.framework, Round(r.score), ComplianceStatusName(r.status), r.covered, r.partial, r.missing)
  }

  function LineOf(g: Gap): GapLine
  {
    GapLine(g.controlId, g.severity, g.controlName)
  }

  /** `g.owner || "Unassigned"` */
  function OwnerShown(owner: string): string
  {
    if owner == "" then "Unassigned" else owner
  }

  function DetailOf(g: Gap): GapDetail
  {
    GapDetail(g.controlId, g.controlName, g.framework, g.severity, GapStatusName(g.status), OwnerShown(g.owner), g.description)
  }

  function ExecutiveSummaryOf(policyName: string, now: string, filtered: seq<ComplianceResult>, openGaps: seq<Gap>): ReportContent
  {
    var shown := if |openGaps| <= MaxListedGaps then |openGaps| else MaxListedGaps;
    ExecutiveSummary(policyName, now, |filtered|, Map(filtered, SectionOf), |openGaps|,
                     Map(openGaps[..shown], LineOf),
                     if |openGaps| > MaxListedGaps then Some(|openGaps| - MaxListedGaps) else None)
  }

  function GapReportOf(policyName: string, now: string, gaps: seq<Gap>): ReportContent
  {
    GapReport(policyName, now, |gaps|,
              Count(gaps, StatusIs(Open)), Count(gaps, StatusIs(InProgress)), Count(gaps, StatusIs(Resolved)),
              Count(gaps, SeverityIs("Critical")), Count(gaps, SeverityIs("High")),
              Count(gaps, SeverityIs("Medium")), Count(gaps, SeverityIs("Low")),
              Map(gaps, DetailOf))
  }

  /** The layout chosen by `report_type`. */
  function Content(reportType: string, policyName: string, now: string, filtered: seq<ComplianceResult>, gaps: seq<Gap>): ReportContent
  {
    if reportType == "Executive Summary" then ExecutiveSummaryOf(policyName, now, filtered, OpenGaps(gaps))
    else if reportType == "Gap Report" then GapReportOf(policyName, now, gaps)
    else DetailedAnalysis(policyName)
  }

  /** One score section per filtered result, in order; the first
      min(10, |open|) open gaps, in order; and an overflow count exactly when
      more than ten are open, so that listed and overflow together account for
      every open gap. */
  lemma ExecutiveSummarySpec(policyName: string, now: string, filtered: seq<ComplianceResult>, openGaps: seq<Gap>)
    ensures var c := ExecutiveSummaryOf(policyName, now, filtered, openGaps);
            && c.frameworkCount == |c.scores| == |filtered|
            && (forall i :: 0 <= i < |filtered| ==>
                  c.scores[i].framework == filtered[i].framework && c.scores[i].score == Round(filtered[i].score))
            && |c.listed| == (if |openGaps| <= MaxListedGaps then |openGaps| else MaxListedGaps)
            && (forall i :: 0 <= i < |c.listed| ==> c.listed[i] == LineOf(openGaps[i]))
            && (c.moreGaps.Some? <==> |openGaps| > MaxListedGaps)
            && |c.listed| + (if c.moreGaps.Some? then c.moreGaps.value else 0) == |openGaps| == c.openTotal
  {
    var shown := if |openGaps| <= MaxListedGaps then |openGaps| else MaxListedGaps;
    MapAt(filtered, SectionOf);
    MapAt(openGaps[..shown], LineOf);
  }

  /** Adding one gap raises exactly one status count, and at most one severity
      count. */
  lemma GapCountsSnoc(init: seq<Gap>, g: Gap)
    ensures Count(init + [g], StatusIs(Open)) == Count(init, StatusIs(Open)) + (if g.status == Open then 1 else 0)
    ensures Count(init + [g], StatusIs(InProgress)) == Count(init, StatusIs(InProgress)) + (if g.status == InProgress then 1 else 0)
    ensures Count(init + [g], StatusIs(Resolved)) == Count(init, StatusIs(Resolved)) + (if g.status == Resolved then 1 else 0)
    ensures Count(init + [g], StatusIs(Deferred)) == Count(init, StatusIs(Deferred)) + (if g.status == Deferred then 1 else 0)
    ensures Count(init + [g], SeverityIs("Critical")) == Count(init, SeverityIs("Critical")) + (if g.severity == "Critical" then 1 else 0)
    ensures Count(init + [g], SeverityIs("High")) == Count(init, SeverityIs("High")) + (if g.severity == "High" then 1 else 0)
    ensures Count(init + [g], SeverityIs("Medium")) == Count(init, SeverityIs("Medium")) + (if g.severity == "Medium" then 1 else 0)
    ensures Count(init + [g], SeverityIs("Low")) == Count(init, SeverityIs("Low")) + (if g.severity == "Low" then 1 else 0)
  {
    FilterSnoc(init, g, StatusIs(Open));
    FilterSnoc(init, g, StatusIs(InProgress));
    FilterSnoc(init, g, StatusIs(Resolved));
    FilterSnoc(init, g, StatusIs(Deferred));
    FilterSnoc(init, g, SeverityIs("Critical"));
    FilterSnoc(init, g, SeverityIs("High"));
    FilterSnoc(init, g, SeverityIs("Medium"));
    FilterSnoc(init, g, SeverityIs("Low"));
  }

  /** Every gap has one status: the four status counts add up to the total, so
      the three the report prints (it omits Deferred) never exceed it. Every
      gap has at most one of the four severities. */
  lemma {:induction false} GapCountsBounded(gaps: seq<Gap>)
    ensures Count(gaps, StatusIs(Open)) + Count(gaps, StatusIs(InProgress)) + Count(gaps, StatusIs(Resolved))
            + Count(gaps, StatusIs(Deferred)) == |gaps|
    ensures Count(gaps, SeverityIs("Critical")) + Count(gaps, SeverityIs("High"))
            + Count(gaps, SeverityIs("Medium")) + Count(gaps, SeverityIs("Low")) <= |gaps|
    decreases |gaps|
  {
    if |gaps| > 0 {
      var init := gaps[..|gaps| - 1];
      assert gaps == init + [gaps[|gaps| - 1]];
      GapCountsBounded(init);
      GapCountsSnoc(init, gaps[|gaps| - 1]);
    }
  }

  /** The Gap Report covers all of the policy's gaps, each exactly once and in
      order, with "Unassigned" for a missing owner; its printed status counts
      leave out only the deferred gaps, and no severity count exceeds the total. */
  lemma GapReportSpec(policyName: string, now: string, gaps: seq<Gap>)
    ensures var c := GapReportOf(policyName, now, gaps);
            && |c.details| == |gaps| == c.total
            && (forall i :: 0 <= i < |gaps| ==>
                  && c.details[i].controlId == gaps[i].controlId
                  && c.details[i].status == GapStatusName(gaps[i].status)
                  && (c.details[i].owner == "Unassigned" <==> gaps[i].owner == "" || gaps[i].owner == "Unassigned")
                  && (gaps[i].owner != "" ==> c.details[i].owner == gaps[i].owner))
            && c.open + c.inProgress + c.resolved == c.total - Count(gaps, StatusIs(Deferred))
            && c.open + c.inProgress + c.resolved <= c.total
            && c.critical + c.high + c.medium + c.low <= c.total
  {
    MapAt(gaps, DetailOf);
    GapCountsBounded(gaps);
  }

  /** Any other report type, "Compliance Certificate" included, gives the same
      contents for the same policy name, whatever the results, gaps or clock. */
  lemma FallbackDependsOnlyOnName(reportType: string, reportType': string, policyName: string,
                                  now: string, now': string,
                                  filtered: seq<ComplianceResult>, filtered': seq<ComplianceResult>,
                                  gaps: seq<Gap>, gaps': seq<Gap>)
    requires reportType != "Executive Summary" && reportType != "Gap Report"
    requires reportType' != "Executive Summary" && reportType' != "Gap Report"
    ensures Content(reportType, policyName, now, filtered, gaps) == DetailedAnalysis(policyName)
    ensures Content(reportType, policyName, now, filtered, gaps) == Content(reportType', policyName, now', filtered', gaps')
  {
  }

  // ---------------------------------------------------------------------
  // Rendering the template strings
  // ---------------------------------------------------------------------

  function RenderSection(s: ScoreSection): string
  {
    "\n### " + s.framework + "\n- **Score:** " + IntToString(s.score) + "%\n- **Status:** " + s.status
    + "\n- **Controls Covered:** " + NatToString(s.covered) + "\n- **Controls Partial:** " + NatToString(s.partial)
    + "\n- **Controls Missing:** " + NatToString(s.missing) + "\n"
  }

  function RenderLine(g: GapLine): string
  {
    "\n- **" + g.controlId + "** (" + g.severity + "): " + g.controlName + "\n"
  }

  function RenderDetail(d: GapDetail): string
  {
    "\n### " + d.controlId + " - " + d.controlName + "\n- **Framework:** " + d.framework
    + "\n- **Severity:** " + d.severity + "\n- **Status:** " + d.status + "\n- **Owner:** " + d.owner
    + "\n- **Description:** " + d.description + "\n"
  }

  function Title(c: ReportContent): string
  {
    match c
    case ExecutiveSummary(_, _, _, _, _, _, _) => "Compliance Analysis Report"
    case GapReport(_, _, _, _, _, _, _, _, _, _, _) => "Gap Analysis Report"
    case DetailedAnalysis(_) => "Detailed Compliance Analysis"
  }

  function Header(c: ReportContent): string
  {
    "\n# " + Title(c) + "\n**Policy:** " + c.policyName + "\n"
  }

  function Body(c: ReportContent): string
  {
    match c
    case ExecutiveSummary(_, now, n, scores, openTotal, listed, more) =>
      "**Generated:** " + now + "\n\n## Executive Summary\nThis report provides an overview of compliance analysis results across "
      + NatToString(n) + " framework(s).\n\n## Compliance Scores\n" + Join(Map(scores, RenderSection), "\n")
      + "\n\n## Open Gaps\nTotal: " + NatToString(openTotal) + "\n" + Join(Map(listed, RenderLine), "\n") + "\n\n"
      + (if more.Some? then "\n... and " + NatToString(more.value) + " more gaps" else "") + "\n"
    case GapReport(_, now, total, open, inProgress, resolved, critical, high, medium, low, details) =>
      "**Generated:** " + now + "\n\n## Summary\n- Total Gaps: " + NatToString(total)
      + "\n- Open: " + NatToString(open) + "\n- In Progress: " + NatToString(inProgress)
      + "\n- Resolved: " + NatToString(resolved) + "\n\n## Gaps by Severity\n- Critical: " + NatToString(critical)
      + "\n- High: " + NatToString(high) + "\n- Medium: " + NatToString(medium) + "\n- Low: " + NatToString(low)
      + "\n\n## Gap Details\n" + Join(Map(details, RenderDetail), "\n") + "\n"
    case DetailedAnalysis(_) =>
      "\nComplete analysis results across all frameworks with detailed control mappings.\n"
  }

  /** `reportContent`: a title line, the policy line, then the layout's body. */
  function Render(c: ReportContent): (text: string)
    ensures StartsWith(text, Header(c))
  {
    Header(c) + Body(c)
  }

  // ---------------------------------------------------------------------
  // The handler
  // ---------------------------------------------------------------------

  datatype ReportError = Unauthorized | MissingPolicyId | PolicyNotFound

  datatype ReportResponse =
    | Generated(reportData: string, auditDetails: string)
    | Refused(error: ReportError)

  /** The response to a request. `policy` is what the store returns for
      `policy_id`, and `results` and `gaps` are all stored records; `now` is
      the clock. The upload, the Report record and the audit entry are
      represented by the uploaded text and the audit details. */
  function Generate(user: Option<string>, policyId: string, reportType: string, format: string,
                    frameworksIncluded: seq<string>, policy: Option<Policy>,
                    results: seq<ComplianceResult>, gaps: seq<Gap>, now: string): ReportResponse
  {
    if user.None? then Refused(Unauthorized)
    else if policyId == "" then Refused(MissingPolicyId)
    else if policy.None? then Refused(PolicyNotFound)
    else
      var policyResults := Filter(results, OfPolicy(policyId));
      var policyGaps := Filter(gaps, GapOfPolicy(policyId));
      var reportContent := Render(Content(reportType, policy.value.fileName, now,
                                          FilteredResults(policyResults, frameworksIncluded), policyGaps));
      var reportData := if format == "PDF" then reportContent else reportContent;
      Generated(reportData, "Generated " + reportType + " report in " + format + " format")
  }

  /** The refusals come in the handler's order, and a report is produced
      exactly when the user, the id and the policy are all there. */
  lemma GenerateRefusals(user: Option<string>, policyId: string, reportType: string, format: string,
                         frameworksIncluded: seq<string>, policy: Option<Policy>,
                         results: seq<ComplianceResult>, gaps: seq<Gap>, now: string)
    ensures var r := Generate(user, policyId, reportType, format, frameworksIncluded, policy, results, gaps, now);
            && (r.Generated? <==> user.Some? && policyId != "" && policy.Some?)
            && (r == Refused(Unauthorized) <==> user.None?)
            && (r == Refused(PolicyNotFound) <==> user.Some? && policyId != "" && policy.None?)
  {
  }

  /** The uploaded text is the same whatever the requested format. */
  lemma FormatDoesNotMatter(user: Option<string>, policyId: string, reportType: string, format: string, format': string,
                            frameworksIncluded: seq<string>, policy: Option<Policy>,
                            results: seq<ComplianceResult>, gaps: seq<Gap>, now: string)
    requires user.Some? && policyId != "" && policy.Some?
    ensures Generate(user, policyId, reportType, format, frameworksIncluded, policy, results, gaps, now).reportData
            == Generate(user, policyId, reportType, format', frameworksIncluded, policy, results, gaps, now).reportData
  {
  }
}
