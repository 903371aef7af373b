/** The AI insights page. When the store holds no insight cards, the page
    derives up to four fallback cards from the open gaps and the latest
    compliance results; the cards shown are then narrowed by the active tab,
    and viewing or acting on a stored card sends a status update. Derived
    cards carry ids beginning with "derived" and are never written back. */
module AIInsights {
  import opened Common
  import opened Entities

  // ---------------------------------------------------------------------
  // Card kinds and the fixed order of derived cards
  // ---------------------------------------------------------------------

  const GapPriorityType: string := "gap_priority"
  const ControlRecommendationType: string := "control_recommendation"
  const PolicyImprovementType: string := "policy_improvement"
  const TrendAnalysisType: string := "trend_analysis"

  /** The prefix that marks a card as derived rather than stored. */
  const DerivedPrefix: string := "derived"

  /** Below this score a result calls for a control recommendation. */
  const LowScoreThreshold: real := 60.0

  /** The position of a card kind in the derived list. */
  function Rank(insightType: string): nat
  {
    if insightType == GapPriorityType then 0
    else if insightType == ControlRecommendationType then 1
    else if insightType == PolicyImprovementType then 2
    else 3
  }

  /** The cards come in strictly increasing rank: the fixed order, each kind at most once. */
  predicate Ranked(cards: seq<Insight>)
  {
    forall i, j :: 0 <= i < j < |cards| ==> Rank(cards[i].insightType) < Rank(cards[j].insightType)
  }

  predicate HasType(cards: seq<Insight>, insightType: string)
  {
    exists i :: 0 <= i < |cards| && cards[i].insightType == insightType
  }

  // ---------------------------------------------------------------------
  // The inputs the derivation looks at
  // ---------------------------------------------------------------------

  predicate IsCritical(g: Gap)
  {
    g.severity == "Critical"
  }

  function CriticalGaps(gaps: seq<Gap>): (r: seq<Gap>)
  {
    Filter(gaps, IsCritical)
  }

  predicate IsLowScore(r: ComplianceResult)
  {
    r.score < LowScoreThreshold
  }

  function LowScoreResults(results: seq<ComplianceResult>): seq<ComplianceResult>
  {
    Filter(results, IsLowScore)
  }

  /** `rs.reduce((prev, curr) => curr.score < prev.score ? curr : prev)`:
      a left fold without a seed, which only a non-empty list admits. */
  function Lowest(rs: seq<ComplianceResult>): ComplianceResult
    requires |rs| > 0
    decreases |rs|
  {
    if |rs| == 1 then rs[0]
    else
      var prev := Lowest(rs[..|rs| - 1]);
      var curr := rs[|rs| - 1];
      if curr.score < prev.score then curr else prev
  }

  /** The fold picks a result of least score, and the earliest of those:
      every result before it scores strictly higher. */
  lemma {:induction false} LowestSpec(rs: seq<ComplianceResult>) returns (i: nat)
    requires |rs| > 0
    ensures i < |rs| && Lowest(rs) == rs[i]
    ensures forall j :: 0 <= j < |rs| ==> rs[i].score <= rs[j].score
    ensures forall j :: 0 <= j < i ==> rs[j].score > rs[i].score
    decreases |rs|
  {
    if |rs| == 1 {
      i := 0;
    } else {
      var init := rs[..|rs| - 1];
      var k := LowestSpec(init);
      assert forall j :: 0 <= j < |init| ==> init[j] == rs[j];
      if rs[|rs| - 1].score < init[k].score {
        i := |rs| - 1;
      } else {
        i := k;
      }
    }
  }

  // ---------------------------------------------------------------------
  // The four derived cards. Their fixed wording is joined from short
  // pieces, which keeps the proofs about the cards small; the joined text
  // is the page's own.
  // ---------------------------------------------------------------------

  function ControlIdOf(g: Gap): string
  {
    g.controlId
  }

  /** The ids of the first two critical gaps, separated by ", ". */
  function GapEvidence(critical: seq<Gap>): string
  {
    var shown := if |critical| <= 2 then critical else critical[..2];
    Join(Map(shown, ControlIdOf), ", ")
  }

  function GapPriorityTitle(n: nat): string
  {
    NatToString(n) + " Critical Gaps " + "Require Immediate " + "Attention"
  }

  function GapPriorityCard(critical: seq<Gap>): Insight
  {
    var n := |critical|;
    Insight(
      DerivedPrefix + "-1", "", GapPriorityType,
      GapPriorityTitle(n),
      "You have " + NatToString(n) + " critical " + "compliance gaps " + "that should be "
        + "addressed urgently. " + "These gaps pose " + "significant risk to "
        + "your organization's " + "security posture.",
      "Critical", "", GapEvidence(critical), 0.95, "New")
  }

  function ControlRecommendationCard(lowest: ComplianceResult): Insight
  {
    Insight(
      DerivedPrefix + "-2", "", ControlRecommendationType,
      lowest.framework + " Compliance Below " + "Target",
      "Your " + lowest.framework + " compliance score is " + IntToString(Round(lowest.score))
        + "%, which is below " + "the recommended 70% " + "threshold. Focus on " + "addressing "
        + NatToString(lowest.missing) + " missing controls.",
      "High", lowest.framework, "", 0.88, "New")
  }

  function PolicyImprovementCard(): Insight
  {
    Insight(
      DerivedPrefix + "-3", "", PolicyImprovementType,
      "Policy Language " + "Enhancement " + "Opportunity",
      "AI analysis " + "detected areas " + "where policy " + "language could be "
        + "strengthened to " + "better align with " + "control " + "requirements. "
        + "Consider adding " + "explicit references " + "to data " + "classification and "
        + "access review " + "procedures.",
      "Medium", "", "Sections 3.2, 4.1, " + "and 5.3 could " + "benefit from more "
        + "specific control " + "language.", 0.75, "New")
  }

  function TrendAnalysisCard(): Insight
  {
    Insight(
      DerivedPrefix + "-4", "", TrendAnalysisType,
      "Compliance " + "Improvement Trend " + "Detected",
      "Over the past " + "month, your overall " + "compliance posture "
        + "has improved by " + "approximately 8%. " + "Continue focusing "
        + "on access control " + "and incident " + "response controls "
        + "for further gains.",
      "Low", "", "", 0.82, "New")
  }

  /** The card of a kind when its condition holds, and nothing otherwise. */
  function GapPart(gaps: seq<Gap>): seq<Insight>
  {
    var critical := CriticalGaps(gaps);
    if |critical| > 0 then [GapPriorityCard(critical)] else []
  }

  function RecommendationPart(results: seq<ComplianceResult>): seq<Insight>
  {
    var low := LowScoreResults(results);
    if |low| > 0 then [ControlRecommendationCard(Lowest(low))] else []
  }

  function ImprovementPart(results: seq<ComplianceResult>): seq<Insight>
  {
    if |results| > 0 then [PolicyImprovementCard()] else []
  }

  /** The fallback cards: each kind under its own condition, trend_analysis always. */
  function Derived(gaps: seq<Gap>, results: seq<ComplianceResult>): seq<Insight>
  {
    GapPart(gaps) + RecommendationPart(results) + ImprovementPart(results) + [TrendAnalysisCard()]
  }

  /** `generateDerivedInsights`: the cards pushed one after another, the
      least low score found by the `reduce` walk over the low results. */
  method GenerateDerivedInsights(gaps: seq<Gap>, results: seq<ComplianceResult>) returns (derived: seq<Insight>)
    ensures derived == Derived(gaps, results)
  {
    derived := [];
    var critical := CriticalGaps(gaps);
    if |critical| > 0 {
      derived := derived + [GapPriorityCard(critical)];
    }
    assert derived == GapPart(gaps);
    var low := LowScoreResults(results);
    if |low| > 0 {
      var lowest := low[0];
      for k := 1 to |low|
        invariant lowest == Lowest(low[..k])
      {
        assert low[..k + 1][..k] == low[..k];
        if low[k].score < lowest.score {
          lowest := low[k];
        }
      }
      assert low[..|low|] == low;
      derived := derived + [ControlRecommendationCard(lowest)];
    }
    assert derived == GapPart(gaps) + RecommendationPart(results);
    if |results| > 0 {
      derived := derived + [PolicyImprovementCard()];
    }
    derived := derived + [TrendAnalysisCard()];
  }

  lemma KindsDiffer()
    ensures Rank(GapPriorityType) == 0 && Rank(ControlRecommendationType) == 1
    ensures Rank(PolicyImprovementType) == 2 && Rank(TrendAnalysisType) == 3
  {
    assert |GapPriorityType| == 12 && |ControlRecommendationType| == 22;
    assert |PolicyImprovementType| == 18 && |TrendAnalysisType| == 14;
  }

  lemma PriorityNamesDiffer()
    ensures "Critical" != "High" && "Critical" != "Medium" && "Critical" != "Low"
    ensures "High" != "Medium" && "High" != "Low"
  {
    assert |"Critical"| == 8 && |"High"| == 4 && |"Medium"| == 6 && |"Low"| == 3;
  }

  // ---------------------------------------------------------------------
  // The shape of the derived list, over abstract cards
  // ---------------------------------------------------------------------

  /** A new derived card of the given kind and priority. */
  predicate DerivedCard(x: Insight, insightType: string, priority: string)
  {
    && x.insightType == insightType && x.priority == priority
    && x.status == "New" && StartsWith(x.id, DerivedPrefix)
  }

  /** One such card when `present`, none otherwise. */
  predicate PartOf(part: seq<Insight>, present: bool, insightType: string, priority: string)
  {
    && |part| == (if present then 1 else 0)
    && forall i :: 0 <= i < |part| ==> DerivedCard(part[i], insightType, priority)
  }

  lemma StartsWithPrefix(prefix: string, rest: string)
    ensures StartsWith(prefix + rest, prefix)
  {
    assert (prefix + rest)[..|prefix|] == prefix;
  }

  lemma GapPartSpec(gaps: seq<Gap>)
    ensures PartOf(GapPart(gaps), |CriticalGaps(gaps)| > 0, GapPriorityType, "Critical")
  {
    StartsWithPrefix(DerivedPrefix, "-1");
  }

  lemma RecommendationPartSpec(results: seq<ComplianceResult>)
    ensures PartOf(RecommendationPart(results), |LowScoreResults(results)| > 0, ControlRecommendationType, "High")
  {
    StartsWithPrefix(DerivedPrefix, "-2");
  }

  lemma ImprovementPartSpec(results: seq<ComplianceResult>)
    ensures PartOf(ImprovementPart(results), |results| > 0, PolicyImprovementType, "Medium")
  {
    StartsWithPrefix(DerivedPrefix, "-3");
  }

  lemma TrendCardSpec()
    ensures DerivedCard(TrendAnalysisCard(), TrendAnalysisType, "Low")
  {
    StartsWithPrefix(DerivedPrefix, "-4");
  }

  /** The four parts, each with its kind and priority. */
  predicate Parts(a: seq<Insight>, pa: bool, b: seq<Insight>, pb: bool, c: seq<Insight>, pc: bool, d: Insight)
  {
    && PartOf(a, pa, GapPriorityType, "Critical")
    && PartOf(b, pb, ControlRecommendationType, "High")
    && PartOf(c, pc, PolicyImprovementType, "Medium")
    && DerivedCard(d, TrendAnalysisType, "Low")
  }

  lemma DerivedParts(gaps: seq<Gap>, results: seq<ComplianceResult>)
    ensures Parts(GapPart(gaps), |CriticalGaps(gaps)| > 0, RecommendationPart(results), |LowScoreResults(results)| > 0,
                  ImprovementPart(results), |results| > 0, TrendAnalysisCard())
  {
    GapPartSpec(gaps);
    RecommendationPartSpec(results);
    ImprovementPartSpec(results);
    TrendCardSpec();
  }

  /** Card `i` of the assembled list: its rank is the slot it sits in. */
  lemma AssembledCards(a: seq<Insight>, pa: bool, b: seq<Insight>, pb: bool, c: seq<Insight>, pc: bool, d: Insight)
    requires Parts(a, pa, b, pb, c, pc, d)
    ensures var r := a + b + c + [d];
      forall i :: 0 <= i < |r| ==>
        && r[i].status == "New" && StartsWith(r[i].id, DerivedPrefix)
        && Rank(r[i].insightType) == (if i < |a| then 0 else if i < |a| + |b| then 1 else if i < |a| + |b| + |c| then 2 else 3)
  {
    KindsDiffer();
    var r := a + b + c + [d];
    forall i | 0 <= i < |r|
      ensures r[i].status == "New" && StartsWith(r[i].id, DerivedPrefix)
      ensures Rank(r[i].insightType) == (if i < |a| then 0 else if i < |a| + |b| then 1 else if i < |a| + |b| + |c| then 2 else 3)
    {
      if i < |a| {
        assert r[i] == a[i];
      } else if i < |a| + |b| {
        assert r[i] == b[i - |a|];
      } else if i < |a| + |b| + |c| {
        assert r[i] == c[i - |a| - |b|];
      } else {
        assert r[i] == d;
      }
    }
  }

  lemma AssembledShape(a: seq<Insight>, pa: bool, b: seq<Insight>, pb: bool, c: seq<Insight>, pc: bool, d: Insight)
    requires Parts(a, pa, b, pb, c, pc, d)
    ensures var r := a + b + c + [d];
      && |r| == 1 + (if pa then 1 else 0) + (if pb then 1 else 0) + (if pc then 1 else 0)
      && Ranked(r) && r[|r| - 1] == d
      && (HasType(r, GapPriorityType) <==> pa)
      && (HasType(r, ControlRecommendationType) <==> pb)
      && (HasType(r, PolicyImprovementType) <==> pc)
      && HasType(r, TrendAnalysisType)
      && forall i :: 0 <= i < |r| ==> r[i].status == "New" && StartsWith(r[i].id, DerivedPrefix)
  {
    KindsDiffer();
    AssembledCards(a, pa, b, pb, c, pc, d);
    var r := a + b + c + [d];
    if pa {
      assert r[0].insightType == GapPriorityType;
    }
    if pb {
      assert r[|a|].insightType == ControlRecommendationType;
    }
    if pc {
      assert r[|a| + |b|].insightType == PolicyImprovementType;
    }
    assert r[|r| - 1] == d;
  }

  /** Filtering a part keeps its card or nothing. */
  lemma FilterPart(part: seq<Insight>, present: bool, insightType: string, priority: string, p: Insight -> bool)
    requires PartOf(part, present, insightType, priority)
    ensures Filter(part, p) == (if present && p(part[0]) then part else [])
  {
    if present {
      assert part == [] + [part[0]];
      FilterSnoc([], part[0], p);
    }
  }

  lemma FilterAssembled(a: seq<Insight>, b: seq<Insight>, c: seq<Insight>, d: Insight, p: Insight -> bool)
    ensures Filter(a + b + c + [d], p) == Filter(a, p) + Filter(b, p) + Filter(c, p) + Filter([d], p)
  {
    FilterAppend(a + b + c, [d], p);
    FilterAppend(a + b, c, p);
    FilterAppend(a, b, p);
  }

  /** Filtering the assembled list filters each part on its own. */
  lemma AssembledFilter(a: seq<Insight>, pa: bool, b: seq<Insight>, pb: bool, c: seq<Insight>, pc: bool, d: Insight,
                        p: Insight -> bool)
    requires Parts(a, pa, b, pb, c, pc, d)
    ensures Filter(a + b + c + [d], p) ==
      (if pa && p(a[0]) then a else []) + (if pb && p(b[0]) then b else [])
      + (if pc && p(c[0]) then c else []) + (if p(d) then [d] else [])
  {
    FilterAssembled(a, b, c, d, p);
    FilterPart(a, pa, GapPriorityType, "Critical", p);
    FilterPart(b, pb, ControlRecommendationType, "High", p);
    FilterPart(c, pc, PolicyImprovementType, "Medium", p);
    FilterPart([d], true, TrendAnalysisType, "Low", p);
  }

  /** Every derived card is new, so the "new" tab shows them all and the
      "actioned" tab none. */
  lemma AssembledAllNew(a: seq<Insight>, pa: bool, b: seq<Insight>, pb: bool, c: seq<Insight>, pc: bool, d: Insight)
    requires Parts(a, pa, b, pb, c, pc, d)
    ensures var r := a + b + c + [d];
      && NewCount(r) == |r|
      && FilteredInsights(r, "new") == r
      && FilteredInsights(r, "actioned") == []
  {
    assert "New" != "Actioned";
    AssembledFilter(a, pa, b, pb, c, pc, d, IsNew);
    AssembledFilter(a, pa, b, pb, c, pc, d, TabFilter("new"));
    AssembledFilter(a, pa, b, pb, c, pc, d, TabFilter("actioned"));
  }

  /** One card is critical exactly when the gap card is present, and one is
      high exactly when the recommendation is. */
  lemma AssembledPriorities(a: seq<Insight>, pa: bool, b: seq<Insight>, pb: bool, c: seq<Insight>, pc: bool, d: Insight)
    requires Parts(a, pa, b, pb, c, pc, d)
    ensures var r := a + b + c + [d];
      && CriticalCount(r) == (if pa then 1 else 0)
      && HighCount(r) == (if pb then 1 else 0)
  {
    PriorityNamesDiffer();
    AssembledFilter(a, pa, b, pb, c, pc, d, IsCriticalCard);
    AssembledFilter(a, pa, b, pb, c, pc, d, IsHighCard);
  }

  // ---------------------------------------------------------------------
  // The derived list
  // ---------------------------------------------------------------------

  /** The derived list holds one to four cards in the fixed order
      gap_priority, control_recommendation, policy_improvement,
      trend_analysis, each kind at most once and trend_analysis always last. */
  lemma DerivedShape(gaps: seq<Gap>, results: seq<ComplianceResult>)
    ensures var r := Derived(gaps, results);
      1 <= |r| <= 4 && Ranked(r) && r[|r| - 1] == TrendAnalysisCard()
  {
    DerivedParts(gaps, results);
    AssembledShape(GapPart(gaps), |CriticalGaps(gaps)| > 0, RecommendationPart(results), |LowScoreResults(results)| > 0,
                   ImprovementPart(results), |results| > 0, TrendAnalysisCard());
  }

  /** There are critical gaps exactly when some fetched gap is critical. */
  lemma SomeCritical(gaps: seq<Gap>)
    ensures |CriticalGaps(gaps)| > 0 <==> exists g :: g in gaps && g.severity == "Critical"
  {
    FilterMembers(gaps, IsCritical);
    if |CriticalGaps(gaps)| > 0 {
      assert CriticalGaps(gaps)[0] in CriticalGaps(gaps);
    }
  }

  /** There are low results exactly when some result scores below 60. */
  lemma SomeLowScore(results: seq<ComplianceResult>)
    ensures |LowScoreResults(results)| > 0 <==> exists x :: x in results && x.score < 60.0
  {
    FilterMembers(results, IsLowScore);
    if |LowScoreResults(results)| > 0 {
      assert LowScoreResults(results)[0] in LowScoreResults(results);
    }
  }

  /** Each kind is present exactly under its own condition: a critical gap,
      a result scoring below 60, any result at all, and always. */
  lemma DerivedPresence(gaps: seq<Gap>, results: seq<ComplianceResult>)
    ensures var r := Derived(gaps, results);
      && (HasType(r, GapPriorityType) <==> exists g :: g in gaps && g.severity == "Critical")
      && (HasType(r, ControlRecommendationType) <==> exists x :: x in results && x.score < 60.0)
      && (HasType(r, PolicyImprovementType) <==> |results| > 0)
      && HasType(r, TrendAnalysisType)
  {
    DerivedParts(gaps, results);
    AssembledShape(GapPart(gaps), |CriticalGaps(gaps)| > 0, RecommendationPart(results), |LowScoreResults(results)| > 0,
                   ImprovementPart(results), |results| > 0, TrendAnalysisCard());
    SomeCritical(gaps);
    SomeLowScore(results);
  }

  /** On the derived list every card is new, the "actioned" tab is empty,
      one card is critical exactly when some gap is, and one is high exactly
      when a result scores below 60. */
  lemma DerivedCounts(gaps: seq<Gap>, results: seq<ComplianceResult>)
    ensures var r := Derived(gaps, results);
      && NewCount(r) == |r|
      && FilteredInsights(r, "new") == r
      && FilteredInsights(r, "actioned") == []
      && CriticalCount(r) == (if |CriticalGaps(gaps)| > 0 then 1 else 0)
      && HighCount(r) == (if |LowScoreResults(results)| > 0 then 1 else 0)
  {
    DerivedParts(gaps, results);
    AssembledAllNew(GapPart(gaps), |CriticalGaps(gaps)| > 0, RecommendationPart(results), |LowScoreResults(results)| > 0,
                    ImprovementPart(results), |results| > 0, TrendAnalysisCard());
    AssembledPriorities(GapPart(gaps), |CriticalGaps(gaps)| > 0, RecommendationPart(results), |LowScoreResults(results)| > 0,
                        ImprovementPart(results), |results| > 0, TrendAnalysisCard());
  }

  /** The count can be read back from the leading numeral of the title. */
  lemma GapPriorityTitleCount(n: nat)
    ensures var title, numeral := GapPriorityTitle(n), NatToString(n);
      && StartsWith(title, numeral)
      && title[|numeral|] == ' '
      && (forall i :: 0 <= i < |numeral| ==> IsDigit(title[i]))
      && DigitsValue(title[..|numeral|]) == n
  {
    var numeral := NatToString(n);
    var title := GapPriorityTitle(n);
    NatToStringRoundTrip(n);
    assert title[..|numeral|] == numeral;
  }

  /** The evidence cites the first one or two control ids. */
  lemma GapEvidenceSpec(critical: seq<Gap>)
    ensures |critical| == 0 ==> GapEvidence(critical) == ""
    ensures |critical| == 1 ==> GapEvidence(critical) == critical[0].controlId
    ensures |critical| >= 2 ==> GapEvidence(critical) == critical[0].controlId + ", " + critical[1].controlId
  {
    var shown := if |critical| <= 2 then critical else critical[..2];
    MapAt(shown, ControlIdOf);
    var ids := Map(shown, ControlIdOf);
    if |critical| >= 2 {
      assert ids[..1] == [ids[0]];
      assert Join(ids, ", ") == Join(ids[..1], ", ") + ", " + ids[1];
    }
  }

  /** The gap card counts the critical gaps in its title and cites the
      first one or two of their control ids. */
  lemma GapPriorityCardText(critical: seq<Gap>)
    requires |critical| > 0
    ensures var card := GapPriorityCard(critical);
      var numeral := NatToString(|critical|);
      && card.priority == "Critical"
      && StartsWith(card.title, numeral)
      && card.title[|numeral|] == ' '
      && (forall i :: 0 <= i < |numeral| ==> IsDigit(card.title[i]))
      && DigitsValue(card.title[..|numeral|]) == |critical|
      && (|critical| == 1 ==> card.evidence == critical[0].controlId)
      && (|critical| >= 2 ==> card.evidence == critical[0].controlId + ", " + critical[1].controlId)
  {
    GapPriorityTitleCount(|critical|);
    GapEvidenceSpec(critical);
  }

  /** When some gap is critical the first card is the gap card, made from
      exactly the critical gaps, in their fetched order. */
  lemma GapPriorityCardFirst(gaps: seq<Gap>, results: seq<ComplianceResult>)
    requires exists g :: g in gaps && g.severity == "Critical"
    ensures var critical := CriticalGaps(gaps);
      && |critical| > 0
      && Derived(gaps, results)[0] == GapPriorityCard(critical)
      && IsSublist(critical, gaps)
      && forall g :: g in critical <==> g in gaps && g.severity == "Critical"
  {
    FilterMembers(gaps, IsCritical);
    FilterIsSublist(gaps, IsCritical);
    var g :| g in gaps && g.severity == "Critical";
    assert g in CriticalGaps(gaps);
  }

  /** The control recommendation names the earliest result of least score
      among those below 60, right after the gap card if there is one. */
  lemma ControlRecommendationCardSpec(gaps: seq<Gap>, results: seq<ComplianceResult>)
    requires |LowScoreResults(results)| > 0
    ensures var r := Derived(gaps, results);
      var low := LowScoreResults(results);
      var k := if |CriticalGaps(gaps)| > 0 then 1 else 0;
      && k < |r| && r[k] == ControlRecommendationCard(Lowest(low))
      && r[k].framework == Lowest(low).framework && r[k].priority == "High"
      && Lowest(low) in results && Lowest(low).score < 60.0
      && (forall x :: x in low ==> Lowest(low).score <= x.score)
      && (exists i :: 0 <= i < |low| && low[i] == Lowest(low) && forall j :: 0 <= j < i ==> low[j].score > low[i].score)
  {
    var low := LowScoreResults(results);
    var i := LowestSpec(low);
    FilterMembers(results, IsLowScore);
    assert low[i] in low;
    forall x | x in low
      ensures Lowest(low).score <= x.score
    {
      var j :| 0 <= j < |low| && low[j] == x;
    }
  }

  // ---------------------------------------------------------------------
  // What is displayed
  // ---------------------------------------------------------------------

  /** Stored cards when there are any, otherwise the derived ones. */
  function DisplayInsights(stored: seq<Insight>, gaps: seq<Gap>, results: seq<ComplianceResult>): (r: seq<Insight>)
    ensures |r| >= 1
    ensures |stored| > 0 ==> r == stored
  {
    if |stored| > 0 then stored else Derived(gaps, results)
  }

  /** With no stored cards the page shows the derived ones. */
  lemma DisplayFallsBack(gaps: seq<Gap>, results: seq<ComplianceResult>)
    ensures DisplayInsights([], gaps, results) == Derived(gaps, results)
    ensures Ranked(DisplayInsights([], gaps, results))
  {
    DerivedShape(gaps, results);
  }

  /** Whether a card belongs on a tab. */
  predicate OnTab(tab: string, x: Insight)
  {
    if tab == "all" then true
    else if tab == "new" then x.status == "New"
    else if tab == "actioned" then x.status == "Actioned"
    else x.insightType == tab
  }

  function TabFilter(tab: string): Insight -> bool
  {
    (x: Insight) => OnTab(tab, x)
  }

  function FilteredInsights(display: seq<Insight>, tab: string): seq<Insight>
  {
    Filter(display, TabFilter(tab))
  }

  /** The tab keeps, in order, the displayed cards it selects: all of them
      on "all", those of status New on "new", those of status Actioned on
      "actioned", and those of that kind on any other tab. */
  lemma FilteredInsightsSpec(display: seq<Insight>, tab: string)
    ensures var r := FilteredInsights(display, tab);
      && IsSublist(r, display)
      && (tab == "all" ==> r == display)
      && (tab == "new" ==> forall x :: x in r <==> x in display && x.status == "New")
      && (tab == "actioned" ==> forall x :: x in r <==> x in display && x.status == "Actioned")
      && (tab != "all" && tab != "new" && tab != "actioned" ==>
            forall x :: x in r <==> x in display && x.insightType == tab)
  {
    FilterIsSublist(display, TabFilter(tab));
    FilterMembers(display, TabFilter(tab));
    if tab == "all" {
      FilterKeepsAll(display, TabFilter(tab));
    }
  }

  predicate IsNew(x: Insight)
  {
    x.status == "New"
  }

  predicate IsCriticalCard(x: Insight)
  {
    x.priority == "Critical"
  }

  predicate IsHighCard(x: Insight)
  {
    x.priority == "High"
  }

  /** The three counters of the page header. */
  function NewCount(display: seq<Insight>): nat
  {
    Count(display, IsNew)
  }

  function CriticalCount(display: seq<Insight>): nat
  {
    Count(display, IsCriticalCard)
  }

  function HighCount(display: seq<Insight>): nat
  {
    Count(display, IsHighCard)
  }

  /** The counters agree with each other and with the list: neither the
      critical nor the high cards outnumber the list, and together they do not either. */
  lemma CountsBounded(display: seq<Insight>)
    ensures NewCount(display) <= |display|
    ensures CriticalCount(display) + HighCount(display) <= |display|
    decreases |display|
  {
    if |display| > 0 {
      var init, last := display[..|display| - 1], display[|display| - 1];
      assert display == init + [last];
      CountsBounded(init);
      FilterSnoc(init, last, IsCriticalCard);
      FilterSnoc(init, last, IsHighCard);
    }
  }

  // ---------------------------------------------------------------------
  // Status updates and the page
  // ---------------------------------------------------------------------

  /** `insight.id && !insight.id.startsWith('derived')`: only such cards are
      written back to the store. */
  predicate Persisted(id: string)
  {
    id != "" && !StartsWith(id, DerivedPrefix)
  }

  /** No derived card is ever written back. */
  lemma DerivedNeverPersisted(gaps: seq<Gap>, results: seq<ComplianceResult>)
    ensures forall x :: x in Derived(gaps, results) ==> !Persisted(x.id)
  {
    DerivedParts(gaps, results);
    AssembledShape(GapPart(gaps), |CriticalGaps(gaps)| > 0, RecommendationPart(results), |LowScoreResults(results)| > 0,
                   ImprovementPart(results), |results| > 0, TrendAnalysisCard());
    var r := Derived(gaps, results);
    forall x | x in r
      ensures !Persisted(x.id)
    {
      var i :| 0 <= i < |r| && r[i] == x;
    }
  }

  /** The two buttons of the detail dialog. */
  datatype Action = Actioned | Dismissed

  function ActionName(a: Action): string
  {
    match a
    case Actioned => "Actioned"
    case Dismissed => "Dismissed"
  }

  /** The `AIInsight.update(id, { status })` requests sent so far. */
  datatype StatusUpdate = StatusUpdate(id: string, status: string)

  predicate IsSentStatus(s: string)
  {
    s == "Viewed" || s == "Actioned" || s == "Dismissed"
  }

  class InsightsPage {
    var selectedInsight: Option<Insight>
    var showDetailDialog: bool
    var activeTab: string
    var updates: seq<StatusUpdate>

    /** Every update names a stored card and one of the three statuses the
        page writes; the dialog is only open on a selected card. */
    predicate Valid()
      reads this
    {
      && (showDetailDialog ==> selectedInsight.Some?)
      && forall i :: 0 <= i < |updates| ==> Persisted(updates[i].id) && IsSentStatus(updates[i].status)
    }

    constructor ()
      ensures Valid()
      ensures selectedInsight == None && !showDetailDialog && activeTab == "all" && updates == []
    {
      selectedInsight := None;
      showDetailDialog := false;
      activeTab := "all";
      updates := [];
    }

    /** The cards the page lists for the active tab. */
    function Shown(stored: seq<Insight>, gaps: seq<Gap>, results: seq<ComplianceResult>): seq<Insight>
      reads this
    {
      FilteredInsights(DisplayInsights(stored, gaps, results), activeTab)
    }

    method SelectTab(tab: string)
      requires Valid()
      modifies this
      ensures Valid()
      ensures activeTab == tab
      ensures selectedInsight == old(selectedInsight) && showDetailDialog == old(showDetailDialog)
      ensures updates == old(updates)
    {
      activeTab := tab;
    }

    /** `handleViewInsight`: open the card; a new stored card is marked viewed. */
    method ViewInsight(insight: Insight)
      requires Valid()
      modifies this
      ensures Valid()
      ensures selectedInsight == Some(insight) && showDetailDialog && activeTab == old(activeTab)
      ensures updates == old(updates)
        + (if insight.status == "New" && Persisted(insight.id) then [StatusUpdate(insight.id, "Viewed")] else [])
    {
      selectedInsight := Some(insight);
      showDetailDialog := true;
      if insight.status == "New" && Persisted(insight.id) {
        updates := updates + [StatusUpdate(insight.id, "Viewed")];
      }
    }

    /** `handleActionInsight`: a stored card takes the chosen status, and
        the dialog closes either way. */
    method ActionInsight(insight: Insight, action: Action)
      requires Valid()
      modifies this
      ensures Valid()
      ensures !showDetailDialog && selectedInsight == old(selectedInsight) && activeTab == old(activeTab)
      ensures updates == old(updates)
        + (if Persisted(insight.id) then [StatusUpdate(insight.id, ActionName(action))] else [])
    {
      if Persisted(insight.id) {
        updates := updates + [StatusUpdate(insight.id, ActionName(action))];
      }
      showDetailDialog := false;
    }
  }

  /** Viewing or acting on any derived card sends nothing. */
  lemma DerivedCardsSendNothing(gaps: seq<Gap>, results: seq<ComplianceResult>, x: Insight)
    requires x in Derived(gaps, results)
    ensures !Persisted(x.id)
  {
    DerivedNeverPersisted(gaps, results);
  }
}
