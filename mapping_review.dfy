/** The mapping review page: the stored control-to-policy mappings are
    filtered by a case-insensitive search, a decision filter, a confidence
    filter at the 0.6 threshold and an optional policy id. A reviewer opens
    one mapping, picks Accept, Reject or Modify, and submits. A submission
    with no decision, or with "Pending", sends nothing. */
module MappingReview {
  import opened Common
  import opened Entities
  import AnalyzePolicy

  /** `CONFIDENCE_THRESHOLD` */
  const ConfidenceThreshold: real := 0.6

  function DecisionName(d: Decision): string
  {
    match d
    case Pending => "Pending"
    case Accepted => "Accepted"
    case Rejected => "Rejected"
    case Modified => "Modified"
  }

  /** A mapping record as the page receives it; absent fields are `None`. */
  datatype StoredMapping = StoredMapping(
    id: string,
    policyId: string,
    controlId: Option<string>,
    evidence: Option<string>,
    confidence: Option<real>,
    decision: Option<Decision>,
    reviewNotes: Option<string>)

  /** The record the engine stores for one of its mappings. */
  function Stored(m: Mapping, id: string): StoredMapping
  {
    StoredMapping(id, m.policyId, Some(m.controlId), Some(m.evidence), Some(m.confidence), Some(m.decision), None)
  }

  // ---------------------------------------------------------------------
  // Filters and counters
  // ---------------------------------------------------------------------

  /** `mapping.confidence_score || 0` */
  function ConfidenceOf(m: StoredMapping): real
  {
    if m.confidence.Some? then m.confidence.value else 0.0
  }

  predicate IsLow(m: StoredMapping)
  {
    ConfidenceOf(m) < ConfidenceThreshold
  }

  /** `field?.toLowerCase().includes(query.toLowerCase())`; an absent field
      never matches. */
  predicate FieldMatches(field: Option<string>, query: string)
  {
    field.Some? && Contains(Lower(field.value), Lower(query))
  }

  predicate MatchesSearch(m: StoredMapping, query: string)
  {
    FieldMatches(m.controlId, query) || FieldMatches(m.evidence, query)
  }

  predicate MatchesStatus(m: StoredMapping, statusFilter: string)
  {
    statusFilter == "all" || (m.decision.Some? && DecisionName(m.decision.value) == statusFilter)
  }

  predicate MatchesConfidence(m: StoredMapping, confidenceFilter: string)
  {
    || confidenceFilter == "all"
    || (confidenceFilter == "low" && ConfidenceOf(m) < ConfidenceThreshold)
    || (confidenceFilter == "high" && ConfidenceOf(m) >= ConfidenceThreshold)
  }

  /** `!policyIdFilter || mapping.policy_id === policyIdFilter`; an absent URL
      parameter is "". */
  predicate MatchesPolicy(m: StoredMapping, policyIdFilter: string)
  {
    policyIdFilter == "" || m.policyId == policyIdFilter
  }

  function Shown(query: string, statusFilter: string, confidenceFilter: string, policyIdFilter: string): StoredMapping -> bool
  {
    (m: StoredMapping) =>
      MatchesSearch(m, query) && MatchesStatus(m, statusFilter)
      && MatchesConfidence(m, confidenceFilter) && MatchesPolicy(m, policyIdFilter)
  }

  /** `filteredMappings` */
  function FilteredMappings(mappings: seq<StoredMapping>, query: string, statusFilter: string,
                            confidenceFilter: string, policyIdFilter: string): seq<StoredMapping>
  {
    Filter(mappings, Shown(query, statusFilter, confidenceFilter, policyIdFilter))
  }

  function ConfidenceIs(confidenceFilter: string): StoredMapping -> bool
  {
    (m: StoredMapping) => MatchesConfidence(m, confidenceFilter)
  }

  function Low(): StoredMapping -> bool
  {
    (m: StoredMapping) => IsLow(m)
  }

  function DecisionIs(d: Decision): StoredMapping -> bool
  {
    (m: StoredMapping) => m.decision == Some(d)
  }

  /** `lowConfidenceCount` */
  function LowConfidenceCount(mappings: seq<StoredMapping>): nat
  {
    Count(mappings, Low())
  }

  /** `pendingCount` */
  function PendingCount(mappings: seq<StoredMapping>): nat
  {
    Count(mappings, DecisionIs(Pending))
  }

  /** The shown mappings are, in order, exactly those passing all four tests. */
  lemma FilteredMappingsSpec(mappings: seq<StoredMapping>, query: string, statusFilter: string,
                             confidenceFilter: string, policyIdFilter: string)
    ensures IsSublist(FilteredMappings(mappings, query, statusFilter, confidenceFilter, policyIdFilter), mappings)
    ensures forall m :: m in FilteredMappings(mappings, query, statusFilter, confidenceFilter, policyIdFilter) <==>
              && m in mappings && MatchesSearch(m, query) && MatchesStatus(m, statusFilter)
              && MatchesConfidence(m, confidenceFilter) && MatchesPolicy(m, policyIdFilter)
  {
    FilterMembers(mappings, Shown(query, statusFilter, confidenceFilter, policyIdFilter));
    FilterIsSublist(mappings, Shown(query, statusFilter, confidenceFilter, policyIdFilter));
  }

  /** With every filter at its default, a mapping is shown exactly when it
      has a control id or an evidence snippet (the empty query occurs in
      every text). */
  lemma DefaultFiltersShowRecordsWithText(mappings: seq<StoredMapping>)
    ensures forall m :: m in FilteredMappings(mappings, "", "all", "all", "") <==>
              m in mappings && (m.controlId.Some? || m.evidence.Some?)
  {
    FilteredMappingsSpec(mappings, "", "all", "all", "");
    assert Lower("") == "";
    forall t: string ensures Contains(t, "") {
      assert t[..0] == "";
    }
  }

  /** The search ignores letter case on both sides. */
  lemma SearchIgnoresCase(m: StoredMapping, query: string)
    ensures MatchesSearch(m, query) == MatchesSearch(m, Lower(query))
    ensures m.controlId.Some? ==>
              MatchesSearch(m, query) == MatchesSearch(m.(controlId := Some(Lower(m.controlId.value))), query)
  {
    LowerIdempotent(query);
    if m.controlId.Some? {
      LowerIdempotent(m.controlId.value);
    }
  }

  /** "low" and "high" split the mappings: each mapping passes exactly one,
      a missing score counting as 0, and `lowConfidenceCount` is the size of
      the "low" side. */
  lemma ConfidenceFiltersPartition(mappings: seq<StoredMapping>)
    ensures forall m :: MatchesConfidence(m, "low") != MatchesConfidence(m, "high")
    ensures forall m: StoredMapping :: m.confidence.None? ==> MatchesConfidence(m, "low")
    ensures |Filter(mappings, ConfidenceIs("low"))| + |Filter(mappings, ConfidenceIs("high"))| == |mappings|
    ensures LowConfidenceCount(mappings) == |Filter(mappings, ConfidenceIs("low"))|
  {
    FilterSplit(mappings, ConfidenceIs("low"), ConfidenceIs("high"));
    FilterCongruent(mappings, Low(), ConfidenceIs("low"));
  }

  /** The counters never exceed the number of mappings, and a mapping counts
      as pending only with the stored decision "Pending". */
  lemma CountersBounded(mappings: seq<StoredMapping>)
    ensures LowConfidenceCount(mappings) <= |mappings| && PendingCount(mappings) <= |mappings|
    ensures forall m :: m in Filter(mappings, DecisionIs(Pending)) <==> m in mappings && m.decision == Some(Pending)
  {
    FilterMembers(mappings, DecisionIs(Pending));
  }

  // ---------------------------------------------------------------------
  // The confidence colour
  // ---------------------------------------------------------------------

  datatype Colour = Emerald | Amber | Red

  /** `getConfidenceColor` */
  function ConfidenceColour(score: real): Colour
  {
    if score >= 0.8 then Emerald else if score >= 0.6 then Amber else Red
  }

  /** The three bands, and red is exactly the low-confidence flag. */
  lemma ColourBands(m: StoredMapping)
    ensures ConfidenceColour(ConfidenceOf(m)) == Emerald <==> ConfidenceOf(m) >= 0.8
    ensures ConfidenceColour(ConfidenceOf(m)) == Amber <==> 0.6 <= ConfidenceOf(m) < 0.8
    ensures ConfidenceColour(ConfidenceOf(m)) == Red <==> IsLow(m)
  {
  }

  /** The engine accepts a mapping at the same threshold the page flags at,
      so no mapping the engine stored as Accepted is flagged low. */
  lemma EngineAcceptedNeverLow(policyId: string, framework: string, c: Control, text: string, id: string)
    ensures var m := AnalyzePolicy.MappingFor(policyId, framework, c, text);
            m.decision == Accepted <==> !IsLow(Stored(m, id))
  {
    AnalyzePolicy.MappingForDecision(policyId, framework, c, text);
  }

  // ---------------------------------------------------------------------
  // Reviewing one mapping
  // ---------------------------------------------------------------------

  /** The three decision buttons. */
  datatype Choice = Accept | Reject | Modify

  function ChoiceName(c: Choice): string
  {
    match c
    case Accept => "Accepted"
    case Reject => "Rejected"
    case Modify => "Modified"
  }

  /** The `MappingReview.update` request a submission sends. */
  datatype ReviewUpdate = ReviewUpdate(id: string, decision: string, reviewNotes: string, reviewer: string, reviewedAt: string)

  /** The audit entry written once an update has succeeded. */
  function AuditFor(u: ReviewUpdate): AuditEntry
  {
    AuditEntry("Current User", "mapping_review", "mapping", u.id, "Reviewed mapping with decision: " + u.decision)
  }

  /** `a` is the audit entry of one of the updates `us`. */
  predicate Audited(a: AuditEntry, us: seq<ReviewUpdate>)
  {
    exists j :: 0 <= j < |us| && a == AuditFor(us[j])
  }

  /** The decisions the review state can hold: none yet, or a stored or
      chosen decision. */
  predicate IsReviewDecision(d: string)
  {
    d == "" || d == "Pending" || d == "Accepted" || d == "Rejected" || d == "Modified"
  }

  /** The page component's review state, with the updates sent so far. */
  class ReviewPage {
    var selectedMapping: Option<StoredMapping>
    var showReviewDialog: bool
    var reviewDecision: string
    var reviewNotes: string
    var updates: seq<ReviewUpdate>
    var audits: seq<AuditEntry>

    ghost predicate Valid()
      reads this
    {
      && IsReviewDecision(reviewDecision)
      && (showReviewDialog ==> selectedMapping.Some?)
      && (forall i :: 0 <= i < |updates| ==>
            updates[i].decision in {"Accepted", "Rejected", "Modified"} && updates[i].reviewer == "Current User")
      && (forall i :: 0 <= i < |audits| ==> Audited(audits[i], updates))
    }

    constructor()
      ensures Valid()
      ensures selectedMapping == None && !showReviewDialog && reviewDecision == "" && reviewNotes == "" && updates == []
      ensures audits == []
    {
      selectedMapping := None;
      showReviewDialog := false;
      reviewDecision := "";
      reviewNotes := "";
      updates := [];
      audits := [];
    }

    /** `handleReview`: the dialog opens on the mapping with its stored
        decision ("Pending" when absent) and notes. */
    method HandleReview(mapping: StoredMapping)
      requires Valid()
      modifies this
      ensures Valid()
      ensures selectedMapping == Some(mapping) && showReviewDialog
      ensures reviewDecision == (if mapping.decision.Some? then DecisionName(mapping.decision.value) else "Pending")
      ensures reviewNotes == (if mapping.reviewNotes.Some? then mapping.reviewNotes.value else "")
      ensures updates == old(updates)
      ensures audits == old(audits)
    {
      selectedMapping := Some(mapping);
      reviewDecision := if mapping.decision.Some? then DecisionName(mapping.decision.value) else "Pending";
      reviewNotes := if mapping.reviewNotes.Some? then mapping.reviewNotes.value else "";
      showReviewDialog := true;
    }

    method Choose(choice: Choice)
      requires Valid()
      modifies this
      ensures Valid()
      ensures reviewDecision == ChoiceName(choice)
      ensures selectedMapping == old(selectedMapping) && showReviewDialog == old(showReviewDialog)
      ensures reviewNotes == old(reviewNotes) && updates == old(updates)
      ensures audits == old(audits)
    {
      reviewDecision := ChoiceName(choice);
    }

    method EditNotes(notes: string)
      requires Valid()
      modifies this
      ensures Valid()
      ensures reviewNotes == notes
      ensures selectedMapping == old(selectedMapping) && showReviewDialog == old(showReviewDialog)
      ensures reviewDecision == old(reviewDecision) && updates == old(updates)
      ensures audits == old(audits)
    {
      reviewNotes := notes;
    }

    /** `handleSubmitReview`, from the open dialog. Without a real decision it
        only warns; otherwise it sends one update for the selected mapping. */
    method HandleSubmitReview(now: string) returns (sent: bool)
      requires Valid() && showReviewDialog
      modifies this
      ensures Valid()
      ensures sent <==> old(reviewDecision) != "" && old(reviewDecision) != "Pending"
      ensures !sent ==> updates == old(updates)
      ensures sent ==> updates == old(updates) + [ReviewUpdate(old(selectedMapping).value.id, old(reviewDecision),
                                                               old(reviewNotes), "Current User", now)]
      ensures sent ==> old(reviewDecision) in {"Accepted", "Rejected", "Modified"}
      ensures selectedMapping == old(selectedMapping) && reviewDecision == old(reviewDecision)
      ensures reviewNotes == old(reviewNotes) && showReviewDialog == old(showReviewDialog)
      ensures audits == old(audits)
    {
      if reviewDecision == "" || reviewDecision == "Pending" {
        return false;
      }
      ghost var before := updates;
      updates := updates + [ReviewUpdate(selectedMapping.value.id, reviewDecision, reviewNotes, "Current User", now)];
      forall i | 0 <= i < |audits|
        ensures Audited(audits[i], updates)
      {
        var j :| 0 <= j < |before| && audits[i] == AuditFor(before[j]);
        assert updates[j] == before[j];
      }
      sent := true;
    }

    /** The update `u` succeeded: its audit entry is written and the dialog
        closes. */
    method ReviewSaved(u: ReviewUpdate)
      requires Valid() && u in updates
      modifies this
      ensures Valid()
      ensures !showReviewDialog
      ensures audits == old(audits) + [AuditFor(u)]
      ensures audits[|audits| - 1].targetId == u.id
      ensures selectedMapping == old(selectedMapping) && reviewDecision == old(reviewDecision)
      ensures reviewNotes == old(reviewNotes) && updates == old(updates)
    {
      ghost var j :| 0 <= j < |updates| && updates[j] == u;
      assert Audited(AuditFor(u), updates);
      audits := audits + [AuditFor(u)];
      showReviewDialog := false;
    }
  }
}
