/** The CAS issue record: its closed vocabularies, its required and nullable
    columns, and its default status. */
module CasIssueModel {
  import opened Wrappers

  /** The seven issue types a CAS issue may have. */
  const ISSUE_TYPES: seq<string> := [
    "Error",
    "Loading... Takes More Time",
    "Loading... no response",
    "Error: disconnected to CAS",
    "Error For One Ic Card",
    "General Error",
    "CAS Down"
  ]

  const LOW := "Low"
  const MEDIUM := "Medium"
  const HIGH := "High"
  const SEVERITY: seq<string> := [LOW, MEDIUM, HIGH]

  const NEW := "New"
  const IN_PROGRESS := "In Progress"
  const COMPLETED := "Completed"
  const STATUS: seq<string> := [NEW, IN_PROGRESS, COMPLETED]

  /** The status column's default. */
  const DEFAULT_STATUS := NEW

  /** A stored CAS issue. `issueType`, `severity` and `description` are
      required columns; the single assignee, the reporter and the completion
      fields are nullable. Times are on the model's clock. */
  datatype CasIssue = CasIssue(
    id: int,
    issueType: string,
    severity: string,
    description: string,
    assignedTo: Option<int>,
    reportedById: Option<int>,
    reportedByEmail: Option<string>,
    status: string,
    completedAt: Option<int>,
    completedById: Option<int>,
    createdAt: int)

  predicate IsIssueType(s: string) {
    s in ISSUE_TYPES
  }

  predicate IsSeverity(s: string) {
    s in SEVERITY
  }

  predicate IsStatus(s: string) {
    s in STATUS
  }

  /** The column validators a stored issue satisfies. */
  predicate WellFormed(r: CasIssue) {
    IsIssueType(r.issueType) && IsSeverity(r.severity) && IsStatus(r.status)
  }

  /** The completion fields are written together, and a completed issue
      always carries them. They may outlive the completed status. */
  predicate CompletionRecorded(r: CasIssue) {
    && (r.completedAt.Some? <==> r.completedById.Some?)
    && (r.status == COMPLETED ==> r.completedAt.Some?)
  }

  /** The vocabularies are free of repeats, and the default status is one
      of them. */
  lemma VocabulariesAreSets()
    ensures forall i, j :: 0 <= i < j < |ISSUE_TYPES| ==> ISSUE_TYPES[i] != ISSUE_TYPES[j]
    ensures forall i, j :: 0 <= i < j < |SEVERITY| ==> SEVERITY[i] != SEVERITY[j]
    ensures forall i, j :: 0 <= i < j < |STATUS| ==> STATUS[i] != STATUS[j]
    ensures IsStatus(DEFAULT_STATUS)
  {
  }
}
