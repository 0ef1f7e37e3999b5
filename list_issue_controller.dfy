/** The channel and frequency issue handlers: creation, the update that
    computes the newly assigned users, lookup, deletion and the filtered
    listing. One store class serves both tables. */
module ListIssueController {
  import opened Wrappers
  import opened Js
  import opened Decimal
  import opened Http
  import opened Tables
  import UserModel
  import opened NotificationModel
  import opened NotificationService
  import opened ListIssueModel

  /** The `assignedTo` of a request after the form-data step: a string is
      replaced by its `JSON.parse` result, and kept as it is when parsing
      throws. `jsonParse` stands for `JSON.parse` (`None` when it throws). */
  function ParseField(v: JsValue, jsonParse: string -> Option<JsValue>): JsValue {
    if v.JStr? then
      match jsonParse(v.s)
      case Some(p) => p
      case None => v
    else v
  }

  /** A string that does not parse is kept; anything but a string passes
      through. */
  lemma ParseFieldCases(v: JsValue, jsonParse: string -> Option<JsValue>)
    ensures !v.JStr? ==> ParseField(v, jsonParse) == v
    ensures v.JStr? && jsonParse(v.s).None? ==> ParseField(v, jsonParse) == v
    ensures v.JStr? && jsonParse(v.s).Some? ==> ParseField(v, jsonParse) == jsonParse(v.s).value
  {
  }

  /** The membership tests the update handler filters the new assignees
      with: absence from the old list, or absence of the id's decimal text
      from the old string. */
  datatype Test = NotAmong(olds: seq<int>) | NotMentioned(text: string)

  /** `s.includes(t)` on strings. */
  predicate Includes(s: string, t: string) {
    exists i :: 0 <= i <= |s| - |t| && OccursAt(s, t, i)
  }

  predicate OccursAt(s: string, t: string, i: int) {
    0 <= i <= |s| - |t| && s[i..i + |t|] == t
  }

  predicate Keeps(t: Test, x: int) {
    match t
    case NotAmong(olds) => x !in olds
    case NotMentioned(text) => !Includes(text, IntText(x))
  }

  /** `xs.filter(x => Keeps(t, x))`. */
  function Filter(xs: seq<int>, t: Test): (r: seq<int>)
    ensures |r| <= |xs|
    decreases |xs|
  {
    if xs == [] then [] else Kept(xs[0], t) + Filter(xs[1..], t)
  }

  /** The one-element contribution of `x` to a filter. */
  function Kept(x: int, t: Test): seq<int> {
    if Keeps(t, x) then [x] else []
  }

  /** The filtered list holds exactly the kept elements of the input. */
  lemma {:induction false} FilterMembers(xs: seq<int>, t: Test, x: int)
    ensures x in Filter(xs, t) <==> x in xs && Keeps(t, x)
    decreases |xs|
  {
    if xs != [] {
      FilterMembers(xs[1..], t, x);
      assert Filter(xs, t) == Kept(xs[0], t) + Filter(xs[1..], t);
      assert x in Filter(xs, t) <==> x in Kept(xs[0], t) || x in Filter(xs[1..], t);
      assert x in xs <==> x == xs[0] || x in xs[1..] by {
        assert xs == [xs[0]] + xs[1..];
      }
    }
  }

  /** Filtering keeps each kept element as often as it occurs and drops
      every other one. */
  lemma {:induction false} FilterCount(xs: seq<int>, t: Test, x: int)
    ensures multiset(Filter(xs, t))[x] == if Keeps(t, x) then multiset(xs)[x] else 0
    decreases |xs|
  {
    if xs != [] {
      FilterCount(xs[1..], t, x);
      var head := Kept(xs[0], t);
      assert Filter(xs, t) == head + Filter(xs[1..], t);
      assert multiset(Filter(xs, t)) == multiset(head) + multiset(Filter(xs[1..], t));
      assert xs == [xs[0]] + xs[1..];
      assert multiset(xs) == multiset([xs[0]]) + multiset(xs[1..]);
    }
  }

  /** Filtering a list with a given first element. */
  lemma FilterCons(x: int, xs: seq<int>, t: Test)
    ensures Filter([x] + xs, t) == Kept(x, t) + Filter(xs, t)
  {
    assert ([x] + xs)[0] == x && ([x] + xs)[1..] == xs;
  }

  /** One induction step of `FilterAppend`: a first element `x` passes
      through the concatenation. */
  lemma FilterAppendStep(x: int, rest: seq<int>, b: seq<int>, t: Test)
    requires Filter(rest + b, t) == Filter(rest, t) + Filter(b, t)
    ensures Filter([x] + rest + b, t) == Filter([x] + rest, t) + Filter(b, t)
  {
    assert [x] + rest + b == [x] + (rest + b);
    FilterCons(x, rest + b, t);
    FilterCons(x, rest, t);
    AppendAssoc(Kept(x, t), Filter(rest, t), Filter(b, t));
  }

  lemma AppendAssoc(p: seq<int>, q: seq<int>, r: seq<int>)
    ensures p + (q + r) == (p + q) + r
  {
  }

  /** Filtering keeps the order: it distributes over concatenation. */
  lemma {:induction false} FilterAppend(a: seq<int>, b: seq<int>, t: Test)
    ensures Filter(a + b, t) == Filter(a, t) + Filter(b, t)
    decreases |a|
  {
    if a == [] {
      assert a + b == b;
    } else {
      FilterAppend(a[1..], b, t);
      FilterAppendStep(a[0], a[1..], b, t);
      assert a == [a[0]] + a[1..];
    }
  }

  /** A filter that keeps every element keeps the list. */
  lemma {:induction false} FilterAll(xs: seq<int>, t: Test)
    requires forall k :: 0 <= k < |xs| ==> Keeps(t, xs[k])
    ensures Filter(xs, t) == xs
    decreases |xs|
  {
    if xs != [] {
      FilterAll(xs[1..], t);
      assert xs == [xs[0]] + xs[1..];
    }
  }

  /** A filter that keeps no element yields nothing. */
  lemma {:induction false} FilterNone(xs: seq<int>, t: Test)
    requires forall k :: 0 <= k < |xs| ==> !Keeps(t, xs[k])
    ensures Filter(xs, t) == []
    decreases |xs|
  {
    if xs != [] {
      assert !Keeps(t, xs[0]);
      FilterNone(xs[1..], t);
      assert Filter(xs, t) == [] + Filter(xs[1..], t);
    }
  }

  /** The newly assigned users, from the old assignee value (already
      defaulted to []) and the new one. Only a new list has any; against an
      old list they are the new elements not in it, against an old string
      those whose decimal text does not occur in it (the string's own
      `includes`), and against any other old value the membership test
      throws (`None`) as soon as the new list has an element. */
  function NewlyAssigned(oldValue: JsValue, newValue: JsValue): Option<seq<int>> {
    if !newValue.JList? then Some([])
    else
      match oldValue
      case JList(olds) => Some(Filter(newValue.ids, NotAmong(olds)))
      case JStr(s) => Some(Filter(newValue.ids, NotMentioned(s)))
      case _ => if newValue.ids == [] then Some([]) else None
  }

  /** Between two lists the delta is exactly the new elements absent from
      the old list, each as often as it occurs in the new list. */
  lemma DeltaOfLists(olds: seq<int>, news: seq<int>)
    ensures var d := NewlyAssigned(JList(olds), JList(news));
      && d.Some?
      && (forall x :: x in d.value <==> x in news && x !in olds)
      && (forall x :: multiset(d.value)[x] == if x in olds then 0 else multiset(news)[x])
  {
    var d := Filter(news, NotAmong(olds));
    forall x
      ensures x in d <==> x in news && x !in olds
      ensures multiset(d)[x] == if x in olds then 0 else multiset(news)[x]
    {
      FilterCount(news, NotAmong(olds), x);
      FilterMembers(news, NotAmong(olds), x);
    }
  }

  /** The delta of appending to a list is the filtered appendix, so the
      order of the new list is kept. */
  lemma DeltaOfAppend(olds: seq<int>, more: seq<int>)
    ensures NewlyAssigned(JList(olds), JList(olds + more)) == NewlyAssigned(JList(olds), JList(more))
  {
    FilterAppend(olds, more, NotAmong(olds));
    FilterNone(olds, NotAmong(olds));
    assert [] + Filter(more, NotAmong(olds)) == Filter(more, NotAmong(olds));
  }

  /** Keeping the same list, or emptying it, assigns nobody; assigning to a
      previously empty list assigns everyone in it. */
  lemma DeltaEdgeCases(xs: seq<int>)
    ensures NewlyAssigned(JList(xs), JList(xs)) == Some([])
    ensures NewlyAssigned(JList(xs), JList([])) == Some([])
    ensures NewlyAssigned(JList([]), JList(xs)) == Some(xs)
  {
    FilterNone(xs, NotAmong(xs));
    assert NewlyAssigned(JList(xs), JList(xs)) == Some(Filter(xs, NotAmong(xs)));
    FilterAll(xs, NotAmong([]));
    assert NewlyAssigned(JList([]), JList(xs)) == Some(Filter(xs, NotAmong([])));
    assert NewlyAssigned(JList(xs), JList([])) == Some(Filter([], NotAmong(xs)));
  }

  /** A non-list new value assigns nobody. */
  lemma DeltaOfNonList(oldValue: JsValue, newValue: JsValue)
    requires !newValue.JList?
    ensures NewlyAssigned(oldValue, newValue) == Some([])
  {
  }

  /** Two worked cases: adding 11 to [7, 9], and a repeated new assignee,
      who is notified once per occurrence. */
  lemma DeltaExamples()
    ensures NewlyAssigned(JList([7, 9]), JList([7, 9, 11])) == Some([11])
    ensures NewlyAssigned(JList([7]), JList([7, 8, 8])) == Some([8, 8])
  {
    assert [7, 9, 11] == [7, 9] + [11];
    DeltaOfAppend([7, 9], [11]);
    assert Filter([11], NotAmong([7, 9])) == [11] + Filter([], NotAmong([7, 9]));
    assert [11] + [] == [11];
    assert NewlyAssigned(JList([7, 9]), JList([11])) == Some(Filter([11], NotAmong([7, 9])));
    assert [7, 8, 8] == [7] + [8, 8];
    DeltaOfAppend([7], [8, 8]);
    assert [8, 8][1..] == [8];
    assert Filter([8], NotAmong([7])) == [8] + Filter([], NotAmong([7]));
    assert Filter([8, 8], NotAmong([7])) == [8] + Filter([8], NotAmong([7]));
    assert [8] + [] == [8] && [8] + [8] == [8, 8];
    assert NewlyAssigned(JList([7]), JList([8, 8])) == Some(Filter([8, 8], NotAmong([7])));
  }

  /** An old string value matches by substring: against "12", the users 1
      and 2 count as already assigned. */
  lemma DeltaAgainstText()
    ensures NewlyAssigned(JStr("12"), JList([1, 2, 3])) == Some([3])
  {
    var t := NotMentioned("12");
    assert IntText(1) == "1" && IntText(2) == "2" && IntText(3) == "3";
    assert OccursAt("12", "1", 0);
    assert OccursAt("12", "2", 1);
    assert !Includes("12", "3");
    assert Filter([3], t) == [3];
    assert [1, 2, 3][1..] == [2, 3] && [2, 3][1..] == [3];
    assert Filter([2, 3], t) == Filter([3], t);
    assert Filter([1, 2, 3], t) == Filter([2, 3], t);
  }

  /** An old number makes the membership test throw once there is a new
      assignee. */
  lemma DeltaAgainstNumber(n: int, news: seq<int>)
    requires news != []
    ensures NewlyAssigned(JNum(n), JList(news)) == None
  {
  }

  /** The body of a create request. */
  datatype NewListIssue = NewListIssue(
    key: Option<string>,
    issueType: Option<string>,
    severity: Option<string>,
    description: Option<string>,
    assignedTo: JsValue,
    createdBy: Option<int>)

  /** The decision of the create handler. A missing required column or a
      severity outside the enumeration makes the insert fail, which the
      handler answers with 500. No assignee is checked against the user
      directory, and the issue type is free text. */
  function PlanListCreate(id: int, req: NewListIssue, jsonParse: string -> Option<JsValue>, now: int): Outcome<ListIssue> {
    var parsed := ParseField(req.assignedTo, jsonParse);
    if req.key.None? || req.issueType.None? || req.severity.None? || req.description.None? || req.createdBy.None? then
      Rejected(InternalError)
    else if !IsSeverity(req.severity.value) then Rejected(InternalError)
    else
      Ok(ListIssue(id, req.key.value, req.severity.value, req.issueType.value, req.description.value,
                   Setter(Or(parsed, JList([]))), req.createdBy.value, now, OPEN))
  }

  /** A created issue is open, keeps the supplied columns, and its assignee
      column reads back as the parsed value, or [] when that is falsy. */
  lemma CreatedListIssueShape(id: int, req: NewListIssue, jsonParse: string -> Option<JsValue>, now: int)
    requires PlanListCreate(id, req, jsonParse, now).Ok?
    ensures var r := PlanListCreate(id, req, jsonParse, now).value;
      var parsed := ParseField(req.assignedTo, jsonParse);
      && r.id == id && r.status == OPEN && r.dateReported == now
      && Some(r.key) == req.key && Some(r.issueType) == req.issueType
      && Some(r.severity) == req.severity && Some(r.description) == req.description
      && Some(r.createdBy) == req.createdBy
      && Getter(r.assignedText) == Some(if Truthy(parsed) then parsed else JList([]))
      && WellFormed(r) && Decodable(r)
  {
    var parsed := ParseField(req.assignedTo, jsonParse);
    GetterSetter(Or(parsed, JList([])));
    GetterSetter(parsed);
  }

  /** Any issue type, any creator and any assignee list are accepted once
      the required columns are present and the severity is valid. */
  lemma CreateAcceptsAnyAssignees(id: int, key: string, issueType: string, severity: string,
                                  description: string, ids: seq<int>, createdBy: int,
                                  jsonParse: string -> Option<JsValue>, now: int)
    requires IsSeverity(severity)
    ensures PlanListCreate(id, NewListIssue(Some(key), Some(issueType), Some(severity), Some(description),
                                            JList(ids), Some(createdBy)), jsonParse, now).Ok?
  {
  }

  /** The body of an update request. */
  datatype ListPatch = ListPatch(
    key: Option<string>,
    issueType: Option<string>,
    severity: Option<string>,
    description: Option<string>,
    assignedTo: JsValue,
    status: Option<string>)

  /** An update's result: the new row and the newly assigned users. */
  datatype ListUpdate = ListUpdate(issue: ListIssue, newlyAssigned: seq<int>)

  /** `field || current` on a text column. */
  function Pick(f: Option<string>, current: string): string {
    if TruthyText(f) then f.value else current
  }

  /** The decision of the update handler. 404 for an unknown id. The old
      assignees are the stored value or []; the new ones are the parsed
      request value or the old ones; the delta is computed from the two.
      Only truthy fields are written. A failing membership test, an
      undecodable column or a value outside an enumeration ends as 500. */
  function PlanListUpdate(rows: map<int, ListIssue>, id: int, p: ListPatch, jsonParse: string -> Option<JsValue>): Outcome<ListUpdate> {
    if id !in rows then Rejected(NotFound)
    else
      var cur := rows[id];
      match Getter(cur.assignedText)
      case None => Rejected(InternalError)
      case Some(stored) =>
        var oldValue := Or(stored, JList([]));
        var parsed := ParseField(p.assignedTo, jsonParse);
        var newValue := Or(parsed, oldValue);
        match NewlyAssigned(oldValue, newValue)
        case None => Rejected(InternalError)
        case Some(delta) =>
          var next := cur.(key := Pick(p.key, cur.key),
                           issueType := Pick(p.issueType, cur.issueType),
                           severity := Pick(p.severity, cur.severity),
                           description := Pick(p.description, cur.description),
                           assignedText := if Truthy(parsed) then Setter(parsed) else cur.assignedText,
                           status := Pick(p.status, cur.status));
          if !IsSeverity(next.severity) || !IsStatus(next.status) then Rejected(InternalError)
          else Ok(ListUpdate(next, delta))
  }

  /** An update of an unknown issue is refused with 404. */
  lemma ListUpdateUnknownIsNotFound(rows: map<int, ListIssue>, id: int, p: ListPatch, jsonParse: string -> Option<JsValue>)
    requires id !in rows
    ensures PlanListUpdate(rows, id, p, jsonParse) == Rejected(NotFound)
  {
  }

  /** Only truthy fields are written; the id, creator and report date never
      change, and the assignee column changes only for a truthy value. */
  lemma ListUpdateWritesOnlyTruthy(rows: map<int, ListIssue>, id: int, p: ListPatch, jsonParse: string -> Option<JsValue>)
    requires PlanListUpdate(rows, id, p, jsonParse).Ok?
    ensures var cur := rows[id]; var r := PlanListUpdate(rows, id, p, jsonParse).value.issue;
      var parsed := ParseField(p.assignedTo, jsonParse);
      && r.id == cur.id && r.createdBy == cur.createdBy && r.dateReported == cur.dateReported
      && r.key == (if TruthyText(p.key) then p.key.value else cur.key)
      && r.issueType == (if TruthyText(p.issueType) then p.issueType.value else cur.issueType)
      && r.severity == (if TruthyText(p.severity) then p.severity.value else cur.severity)
      && r.description == (if TruthyText(p.description) then p.description.value else cur.description)
      && r.status == (if TruthyText(p.status) then p.status.value else cur.status)
      && (!Truthy(parsed) ==> r.assignedText == cur.assignedText)
      && (Truthy(parsed) ==> Getter(r.assignedText) == Some(parsed))
  {
    var parsed := ParseField(p.assignedTo, jsonParse);
    GetterSetter(parsed);
  }

  /** Leaving the assignees out assigns nobody new. */
  lemma OmittedAssigneesNoDelta(rows: map<int, ListIssue>, id: int, p: ListPatch, jsonParse: string -> Option<JsValue>)
    requires !Truthy(ParseField(p.assignedTo, jsonParse))
    requires PlanListUpdate(rows, id, p, jsonParse).Ok?
    ensures PlanListUpdate(rows, id, p, jsonParse).value.newlyAssigned == []
  {
    var stored := Getter(rows[id].assignedText).value;
    var oldValue := Or(stored, JList([]));
    if oldValue.JList? {
      DeltaEdgeCases(oldValue.ids);
    }
  }

  /** A stored list replaced by a new list: the delta is the list delta, and
      the column reads back as the new list. */
  lemma ListToListUpdate(rows: map<int, ListIssue>, id: int, p: ListPatch, jsonParse: string -> Option<JsValue>,
                         olds: seq<int>, news: seq<int>)
    requires id in rows && Getter(rows[id].assignedText) == Some(JList(olds))
    requires ParseField(p.assignedTo, jsonParse) == JList(news)
    requires PlanListUpdate(rows, id, p, jsonParse).Ok?
    ensures var u := PlanListUpdate(rows, id, p, jsonParse).value;
      && Some(u.newlyAssigned) == NewlyAssigned(JList(olds), JList(news))
      && Getter(u.issue.assignedText) == Some(JList(news))
  {
    GetterSetter(JList(news));
  }

  /** A truthy non-list value is written although it assigns nobody. */
  lemma NonListIsWrittenSilently(rows: map<int, ListIssue>, id: int, p: ListPatch, jsonParse: string -> Option<JsValue>)
    requires Truthy(ParseField(p.assignedTo, jsonParse)) && !ParseField(p.assignedTo, jsonParse).JList?
    requires PlanListUpdate(rows, id, p, jsonParse).Ok?
    ensures var u := PlanListUpdate(rows, id, p, jsonParse).value;
      && u.newlyAssigned == []
      && Getter(u.issue.assignedText) == Some(ParseField(p.assignedTo, jsonParse))
  {
    GetterSetter(ParseField(p.assignedTo, jsonParse));
  }

  /** An accepted update keeps the row valid and its column decodable. */
  lemma ListUpdateKeepsInvariants(rows: map<int, ListIssue>, id: int, p: ListPatch, jsonParse: string -> Option<JsValue>)
    requires PlanListUpdate(rows, id, p, jsonParse).Ok?
    ensures WellFormed(PlanListUpdate(rows, id, p, jsonParse).value.issue)
    ensures Decodable(PlanListUpdate(rows, id, p, jsonParse).value.issue)
  {
    GetterSetter(ParseField(p.assignedTo, jsonParse));
  }

  /** The issue as the notifier's templates see it. */
  function View(domain: Domain, r: ListIssue): IssueView {
    match domain
    case Channel => IssueView(r.id, r.key, "undefined", r.issueType, r.severity)
    case Frequency => IssueView(r.id, "undefined", r.key, r.issueType, r.severity)
  }

  /** The domains' tags are the ones the notifier words specially. */
  lemma TagsAreKnown()
    ensures Channel.Tag() == CHANNEL_TAG && Frequency.Tag() == FREQUENCY_TAG
  {
  }

  /** The listing filters: each one applies only when supplied. */
  datatype ListFilter = ListFilter(status: Option<string>, key: Option<string>, severity: Option<string>)

  predicate MatchesFilter(f: ListFilter, r: ListIssue) {
    && (TruthyText(f.status) ==> r.status == f.status.value)
    && (TruthyText(f.key) ==> r.key == f.key.value)
    && (TruthyText(f.severity) ==> r.severity == f.severity.value)
  }

  /** The ids below `n` of the listing: exactly the rows meeting every
      supplied filter, largest id first. */
  function ListIds(rows: map<int, ListIssue>, n: int, f: ListFilter): (r: seq<int>)
    ensures forall id :: 0 <= id < n && id in rows ==> (id in r <==> MatchesFilter(f, rows[id]))
    ensures forall k :: 0 <= k < |r| ==> r[k] in rows && MatchesFilter(f, rows[r[k]])
    ensures forall i, j :: 0 <= i < j < |r| ==> r[i] > r[j]
  {
    Select(rows, (x: ListIssue) => MatchesFilter(f, x), n)
  }

  function DateReported(r: ListIssue): int {
    r.dateReported
  }

  /** A channel or frequency issue table. Every row sits under its own id
      below `nextId`, is valid, has a decodable assignee column and is
      dated no later than `clock`; dates grow with the id. */
  class ListIssueStore {
    const domain: Domain
    var rows: map<int, ListIssue>
    var nextId: int
    var clock: int

    ghost predicate Valid()
      reads this
    {
      && 1 <= nextId
      && (forall id :: id in rows ==>
            && 1 <= id < nextId && rows[id].id == id && rows[id].dateReported <= clock
            && WellFormed(rows[id]) && Decodable(rows[id]))
      && Monotone(rows, DateReported)
    }

    constructor (d: Domain)
      ensures Valid() && domain == d && rows == map[] && nextId == 1
    {
      domain := d;
      rows := map[];
      nextId := 1;
      clock := 0;
    }

    /** The create handler: stores the planned issue under the next id,
        then, when the parsed assignee value is a non-empty list, notifies
        exactly that list in the creator's name. */
    method Create(req: NewListIssue, jsonParse: string -> Option<JsValue>, dir: map<int, UserModel.User>,
                  notes: NotificationStore, now: int, failAt: Option<nat>) returns (out: Outcome<ListIssue>)
      requires Valid() && notes.Valid() && now >= clock && now >= notes.clock
      modifies this, notes
      ensures Valid() && notes.Valid()
      ensures out == PlanListCreate(old(nextId), req, jsonParse, now)
      ensures out.Ok? ==> rows == old(rows)[old(nextId) := out.value] && nextId == old(nextId) + 1
      ensures out.Rejected? ==> rows == old(rows) && nextId == old(nextId)
      ensures out.Ok? && IsNonEmptyList(ParseField(req.assignedTo, jsonParse)) ==>
        Fanned(old(notes.rows), old(notes.nextId),
               AssignmentBatch(ParseField(req.assignedTo, jsonParse), View(domain, out.value), domain.Tag(),
                               req.createdBy, dir, old(notes.nextId), now),
               failAt, notes.rows, notes.nextId)
      ensures !(out.Ok? && IsNonEmptyList(ParseField(req.assignedTo, jsonParse))) ==>
        notes.rows == old(notes.rows) && notes.nextId == old(notes.nextId)
    {
      out := PlanListCreate(nextId, req, jsonParse, now);
      if out.Rejected? {
        return;
      }
      CreatedListIssueShape(nextId, req, jsonParse, now);
      InsertKeepsMonotone(rows, DateReported, nextId, out.value);
      clock := now;
      rows := rows[nextId := out.value];
      nextId := nextId + 1;
      var parsed := ParseField(req.assignedTo, jsonParse);
      if IsNonEmptyList(parsed) {
        var _ := notes.CreateAssignmentNotifications(parsed, View(domain, out.value), domain.Tag(),
                                                     req.createdBy, dir, now, failAt);
      }
    }

    /** The update handler: writes the planned row in place, then notifies
        the newly assigned users, if any, about the updated issue, in the
        name of the caller or else of the issue's creator. */
    method Update(id: int, p: ListPatch, jsonParse: string -> Option<JsValue>, dir: map<int, UserModel.User>,
                  sessionUser: Option<int>, notes: NotificationStore, now: int, failAt: Option<nat>)
      returns (out: Outcome<ListIssue>)
      requires Valid() && notes.Valid() && now >= clock && now >= notes.clock
      modifies this, notes
      ensures Valid() && notes.Valid() && nextId == old(nextId)
      ensures PlanListUpdate(old(rows), id, p, jsonParse).Rejected? ==>
        && out == Rejected(PlanListUpdate(old(rows), id, p, jsonParse).reason)
        && rows == old(rows)
      ensures PlanListUpdate(old(rows), id, p, jsonParse).Ok? ==>
        var u := PlanListUpdate(old(rows), id, p, jsonParse).value;
        && out == Ok(u.issue)
        && rows == old(rows)[id := u.issue]
        && (u.newlyAssigned != [] ==>
              Fanned(old(notes.rows), old(notes.nextId),
                     AssignmentBatch(JList(u.newlyAssigned), View(domain, u.issue), domain.Tag(),
                                     OrId(sessionUser, Some(u.issue.createdBy)), dir, old(notes.nextId), now),
                     failAt, notes.rows, notes.nextId))
      ensures !(PlanListUpdate(old(rows), id, p, jsonParse).Ok? &&
                PlanListUpdate(old(rows), id, p, jsonParse).value.newlyAssigned != []) ==>
        notes.rows == old(notes.rows) && notes.nextId == old(notes.nextId)
    {
      var plan := PlanListUpdate(rows, id, p, jsonParse);
      match plan
      case Rejected(r) =>
        out := Rejected(r);
      case Ok(u) =>
        ListUpdateKeepsInvariants(rows, id, p, jsonParse);
        ListUpdateWritesOnlyTruthy(rows, id, p, jsonParse);
        RewriteKeepsMonotone(rows, DateReported, id, u.issue);
        rows := rows[id := u.issue];
        out := Ok(u.issue);
        if u.newlyAssigned != [] {
          var _ := notes.CreateAssignmentNotifications(JList(u.newlyAssigned), View(domain, u.issue), domain.Tag(),
                                                       OrId(sessionUser, Some(u.issue.createdBy)), dir, now, failAt);
        }
    }

    /** The lookup handler: the issue, or 404. */
    method GetById(id: int) returns (out: Outcome<ListIssue>)
      requires Valid()
      ensures out.Rejected? <==> id !in rows
      ensures out.Rejected? ==> out.reason == NotFound
      ensures out.Ok? ==> out.value == rows[id] && out.value.id == id && Decodable(out.value)
    {
      if id in rows {
        out := Ok(rows[id]);
      } else {
        out := Rejected(NotFound);
      }
    }

    /** The delete handler: removes exactly the named issue, or answers 404
        and changes nothing. */
    method Delete(id: int) returns (out: Outcome<()>)
      requires Valid()
      modifies this
      ensures Valid() && nextId == old(nextId)
      ensures out.Rejected? <==> id !in old(rows)
      ensures out.Rejected? ==> out.reason == NotFound && rows == old(rows)
      ensures out.Ok? ==> rows == old(rows) - {id}
    {
      if id !in rows {
        out := Rejected(NotFound);
      } else {
        RemoveKeepsMonotone(rows, DateReported, id);
        rows := rows - {id};
        out := Ok(());
      }
    }

    /** The listing handler: the rows meeting every supplied filter, latest
        report date first. */
    method GetAll(f: ListFilter) returns (out: seq<ListIssue>)
      requires Valid()
      ensures forall r :: r in out <==> r in rows.Values && MatchesFilter(f, r)
      ensures forall i, j :: 0 <= i < j < |out| ==> out[i].dateReported >= out[j].dateReported
      ensures forall i, j :: 0 <= i < j < |out| ==> out[i].id > out[j].id
    {
      out := Records(rows, ListIds(rows, nextId, f));
      SelectIsNewestFirst(rows, (x: ListIssue) => MatchesFilter(f, x), nextId, DateReported);
      SelectedRecords(rows, (x: ListIssue) => MatchesFilter(f, x), nextId);
    }
  }
}
