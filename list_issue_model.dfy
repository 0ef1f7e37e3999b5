/** The channel and frequency issue records. The two tables differ only in
    the name of their key column (`channel` or `frequency`), so one record
    type serves both, with a `Domain` telling them apart. */
module ListIssueModel {
  import opened Wrappers
  import opened Js
  import opened JsonText

  const LOW := "Low"
  const MEDIUM := "Medium"
  const HIGH := "High"
  const SEVERITY: seq<string> := [LOW, MEDIUM, HIGH]

  const OPEN := "Open"
  const IN_PROGRESS := "In Progress"
  const RESOLVED := "Resolved"
  const STATUS: seq<string> := [OPEN, IN_PROGRESS, RESOLVED]

  /** The status column's default. */
  const DEFAULT_STATUS := OPEN

  /** The assignee column's default text. */
  const DEFAULT_ASSIGNED_TEXT := "[]"

  /** Which of the two tables a record belongs to. */
  datatype Domain = Channel | Frequency {
    /** The entity-type tag the domain's notifications carry. */
    function Tag(): string {
      match this
      case Channel => "channel_issue"
      case Frequency => "frequency_issue"
    }
  }

  /** A stored issue. `key` is the channel or the frequency; the key,
      severity, issue type, description and creator are required columns,
      and `issueType` is free text. The assignee column holds JSON text.
      `dateReported` is on the model's clock. */
  datatype ListIssue = ListIssue(
    id: int,
    key: string,
    severity: string,
    issueType: string,
    description: string,
    assignedText: string,
    createdBy: int,
    dateReported: int,
    status: string)

  predicate IsSeverity(s: string) {
    s in SEVERITY
  }

  predicate IsStatus(s: string) {
    s in STATUS
  }

  /** The enumeration constraints a stored issue satisfies. */
  predicate WellFormed(r: ListIssue) {
    IsSeverity(r.severity) && IsStatus(r.status)
  }

  /** The setter of the assignee column: the JSON text of `value || []`. */
  function Setter(v: JsValue): (text: string)
    ensures text != ""
  {
    var w := Or(v, JList([]));
    assert !w.JUndefined?;
    Stringify(w)
  }

  /** The getter of the assignee column: [] for empty text, else the parsed
      text (`None` where parsing would throw). */
  function Getter(text: string): Option<JsValue> {
    if text == "" then Some(JList([])) else Parse(text)
  }

  /** Reading the column back gives `value || []`. */
  lemma GetterSetter(v: JsValue)
    ensures Getter(Setter(v)) == Some(Or(v, JList([])))
  {
    ParseStringify(Or(v, JList([])));
  }

  /** A list reads back as itself; null, undefined and other falsy values
      read back as []. */
  lemma GetterSetterCases(v: JsValue)
    ensures v.JList? ==> Getter(Setter(v)) == Some(v)
    ensures !Truthy(v) ==> Getter(Setter(v)) == Some(JList([]))
  {
    GetterSetter(v);
  }

  /** The default text is what the setter writes for [], and it reads back
      as []; so does the empty text. */
  lemma DefaultAssignee()
    ensures Setter(JList([])) == DEFAULT_ASSIGNED_TEXT
    ensures Getter(DEFAULT_ASSIGNED_TEXT) == Some(JList([]))
    ensures Getter("") == Some(JList([]))
  {
    assert JoinInts([]) == "";
    GetterSetter(JList([]));
  }

  /** Setting an already-read value again does not change the text. */
  lemma SetterIdempotent(v: JsValue)
    ensures Getter(Setter(v)).Some? && Setter(Getter(Setter(v)).value) == Setter(v)
  {
    GetterSetter(v);
  }

  /** The column text decodes: the invariant every stored row keeps. */
  predicate Decodable(r: ListIssue) {
    Getter(r.assignedText).Some?
  }
}
