/** The stored records the engine reads and writes (the entity types of the
    backend: Policy, ControlLibrary, MappingReview, Gap, ComplianceResult,
    AIInsight, AuditLog). An absent optional text field is the empty string,
    which is what the source's `x || default` tests treat as absent. */
module Entities {

  datatype PolicyStatus = Uploaded | Processing | Analyzed | Failed | Archived

  /** A policy document: `contentPreview` is text extracted at upload time,
      `fileUrl` the stored file the extraction service can read. */
  datatype Policy = Policy(
    id: string,
    fileName: string,
    contentPreview: string,
    fileUrl: string,
    status: PolicyStatus,
    lastAnalyzedAt: string)

  /** One catalog control; `keywords` is `[]` when the record has none, and
      `severityIfMissing` is "" when unset. */
  datatype Control = Control(
    id: string,
    framework: string,
    code: string,
    title: string,
    keywords: seq<string>,
    severityIfMissing: string)

  datatype Decision = Pending | Accepted | Rejected | Modified

  /** A control-to-policy mapping awaiting or after human review. */
  datatype Mapping = Mapping(
    policyId: string,
    controlId: string,
    framework: string,
    evidence: string,
    confidence: real,
    rationale: string,
    decision: Decision)

  datatype GapStatus = Open | InProgress | Resolved | Deferred

  function GapStatusName(s: GapStatus): string
  {
    match s
    case Open => "Open"
    case InProgress => "In Progress"
    case Resolved => "Resolved"
    case Deferred => "Deferred"
  }

  /** A remediation item; `owner` is "" when unassigned. */
  datatype Gap = Gap(
    policyId: string,
    framework: string,
    controlId: string,
    controlName: string,
    severity: string,
    status: GapStatus,
    description: string,
    owner: string)

  datatype ComplianceStatus = Compliant | PartiallyCompliant | NotCompliant

  function ComplianceStatusName(s: ComplianceStatus): string
  {
    match s
    case Compliant => "Compliant"
    case PartiallyCompliant => "Partially Compliant"
    case NotCompliant => "Not Compliant"
  }

  /** One framework's scored outcome for one policy. */
  datatype ComplianceResult = ComplianceResult(
    policyId: string,
    framework: string,
    score: real,
    covered: nat,
    partial: nat,
    missing: nat,
    status: ComplianceStatus,
    analyzedAt: string)

  /** An insight card. `id` is "" until the store assigns one; the derived
      cards on the insights page carry ids beginning with "derived". */
  datatype Insight = Insight(
    id: string,
    policyId: string,
    insightType: string,
    title: string,
    description: string,
    priority: string,
    framework: string,
    evidence: string,
    confidence: real,
    status: string)

  datatype AuditEntry = AuditEntry(
    actor: string,
    action: string,
    targetType: string,
    targetId: string,
    details: string)
}
