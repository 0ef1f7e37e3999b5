/** The CAS issue handlers: validated creation, the update that reassigns,
    changes status and records completion, the listing and the lookup, each
    followed by the assignment notification it owes. */
module CasIssueController {
  import opened Wrappers
  import opened Js
  import opened Http
  import opened Tables
  import UserModel
  import opened NotificationModel
  import opened NotificationService
  import opened CasIssueModel

  const UNKNOWN := "Unknown"

  /** The display name the handlers attach to a user: first and last name,
      each defaulting to the empty text, joined by a space and trimmed, or
      "Unknown" when nothing is left. */
  function DisplayName(first: Option<string>, last: Option<string>): (r: string)
    ensures r != ""
    ensures r == UNKNOWN || |r| <= |OrEmpty(first)| + 1 + |OrEmpty(last)|
    ensures !IsJsSpace(r[0]) && !IsJsSpace(r[|r| - 1])
  {
    var t := Trim(OrEmpty(first) + " " + OrEmpty(last));
    if t == "" then UNKNOWN else t
  }

  /** A user without names is "Unknown". */
  lemma DisplayNameWithoutNames(first: Option<string>, last: Option<string>)
    requires !TruthyText(first) && !TruthyText(last)
    ensures DisplayName(first, last) == UNKNOWN
  {
    assert OrEmpty(first) + " " + OrEmpty(last) == " ";
    TrimAllSpace(" ");
  }

  /** Names made only of white space are "Unknown" too. */
  lemma {:induction false} DisplayNameOfBlankNames(first: string, last: string)
    requires forall i :: 0 <= i < |first| ==> IsJsSpace(first[i])
    requires forall i :: 0 <= i < |last| ==> IsJsSpace(last[i])
    ensures DisplayName(Some(first), Some(last)) == UNKNOWN
  {
    var s := first + " " + last;
    assert forall i :: 0 <= i < |s| ==> IsJsSpace(s[i]) by {
      forall i | 0 <= i < |s|
        ensures IsJsSpace(s[i])
      {
        if i < |first| {
          assert s[i] == first[i];
        } else if i > |first| {
          assert s[i] == last[i - |first| - 1];
        }
      }
    }
    TrimAllSpace(s);
  }

  /** Names without surrounding white space come out as "first last". */
  lemma DisplayNameOfCleanNames(first: string, last: string)
    requires first != [] && last != []
    requires !IsJsSpace(first[0]) && !IsJsSpace(last[|last| - 1])
    ensures DisplayName(Some(first), Some(last)) == first + " " + last
  {
    var s := first + " " + last;
    assert s[0] == first[0] && s[|s| - 1] == last[|last| - 1];
    TrimKeepsClean(s);
  }

  /** The handlers' display name and the notifier's actor name disagree on
      a user without names: "Unknown" against "null null". */
  lemma NameFallbacksDiffer(dir: map<int, UserModel.User>, id: int)
    requires id in dir && dir[id].firstName.None? && dir[id].lastName.None?
    ensures DisplayName(dir[id].firstName, dir[id].lastName) == UNKNOWN
    ensures CreatorName(dir, Some(id)) == "null null"
  {
    DisplayNameWithoutNames(dir[id].firstName, dir[id].lastName);
    CreatorNameFallbacks(dir, Some(id));
  }

  /** The issue as the notifier's templates see it: a CAS issue has no
      channel and no frequency. */
  function View(r: CasIssue): IssueView {
    IssueView(r.id, "undefined", "undefined", r.issueType, r.severity)
  }

  /** The body of a create request. */
  datatype NewCasIssue = NewCasIssue(
    issueType: Option<string>,
    severity: Option<string>,
    description: Option<string>,
    assignedTo: Option<int>,
    reportedById: Option<int>)

  /** The reporter's email as stored: the reporting user's email when the
      reporter id is truthy and that email is non-empty, else null. */
  function ReporterEmail(dir: map<int, UserModel.User>, reportedById: Option<int>): Option<string> {
    if TruthyId(reportedById) && reportedById.value in dir && TruthyText(dir[reportedById.value].email)
    then dir[reportedById.value].email
    else None
  }

  /** The decision of `createCasIssue`. Missing required fields are refused
      before any lookup; then an unknown reporter, then an unknown assignee;
      then the insert's validators refuse an issue type or severity outside
      the vocabularies. */
  function PlanCasCreate(dir: map<int, UserModel.User>, id: int, req: NewCasIssue, now: int): Outcome<CasIssue> {
    if !TruthyText(req.issueType) || !TruthyText(req.severity) || !TruthyText(req.description) then
      Rejected(MissingRequiredFields)
    else if TruthyId(req.reportedById) && req.reportedById.value !in dir then
      Rejected(ReportingUserNotFound)
    else if TruthyId(req.assignedTo) && req.assignedTo.value !in dir then
      Rejected(AssignedUserNotFound)
    else
      var r := CasIssue(id, req.issueType.value, req.severity.value, req.description.value,
                        if TruthyId(req.assignedTo) then req.assignedTo else None,
                        req.reportedById, ReporterEmail(dir, req.reportedById),
                        NEW, None, None, now);
      if !IsIssueType(r.issueType) || !IsSeverity(r.severity) then Rejected(ValidationError)
      else Ok(r)
  }

  /** A request missing a required field is refused whatever the user
      directory holds. */
  lemma CreateChecksFieldsFirst(dir: map<int, UserModel.User>, id: int, req: NewCasIssue, now: int)
    requires !TruthyText(req.issueType) || !TruthyText(req.severity) || !TruthyText(req.description)
    ensures PlanCasCreate(dir, id, req, now) == Rejected(MissingRequiredFields)
    ensures Status(MissingRequiredFields) == 400
  {
  }

  /** A supplied reporter or assignee that names no user is refused. */
  lemma CreateChecksUsers(dir: map<int, UserModel.User>, id: int, req: NewCasIssue, now: int)
    requires TruthyText(req.issueType) && TruthyText(req.severity) && TruthyText(req.description)
    ensures TruthyId(req.reportedById) && req.reportedById.value !in dir ==>
      PlanCasCreate(dir, id, req, now) == Rejected(ReportingUserNotFound)
    ensures (!TruthyId(req.reportedById) || req.reportedById.value in dir) &&
            TruthyId(req.assignedTo) && req.assignedTo.value !in dir ==>
      PlanCasCreate(dir, id, req, now) == Rejected(AssignedUserNotFound)
  {
  }

  /** A created issue is new, uncompleted, valid, assigned to the supplied
      assignee or to nobody, and keeps the supplied fields. */
  lemma CreatedCasIssueShape(dir: map<int, UserModel.User>, id: int, req: NewCasIssue, now: int)
    requires PlanCasCreate(dir, id, req, now).Ok?
    ensures var r := PlanCasCreate(dir, id, req, now).value;
      && r.id == id && r.status == NEW && r.createdAt == now
      && r.completedAt == None && r.completedById == None
      && r.assignedTo == (if TruthyId(req.assignedTo) then req.assignedTo else None)
      && (r.assignedTo.Some? ==> r.assignedTo.value in dir)
      && Some(r.issueType) == req.issueType && Some(r.severity) == req.severity
      && Some(r.description) == req.description && r.reportedById == req.reportedById
      && WellFormed(r) && CompletionRecorded(r)
  {
  }

  /** The body of an update request. */
  datatype CasPatch = CasPatch(status: Option<string>, assignedTo: Field<int>, completedById: Option<int>)

  /** An update's result: the new row, and the user newly assigned by it,
      if any. */
  datatype CasUpdate = CasUpdate(issue: CasIssue, newlyAssigned: Option<int>)

  /** Whether the patch names a truthy assignee. */
  predicate AssignsSomeone(p: CasPatch) {
    p.assignedTo.Given? && p.assignedTo.value != 0
  }

  /** Whether the patch sets the status to "Completed". */
  predicate Completes(p: CasPatch) {
    TruthyText(p.status) && p.status.value == COMPLETED
  }

  /** The decision of `updateCasIssue`. In order: 404 for an unknown id; a
      truthy assignee that names no user; completing without a truthy or
      an existing completer; the write's status validator. An assignee
      that is present is written even when falsy, and counts as newly
      assigned when truthy and different from the old one. A truthy status
      is written; only "Completed" also writes the completion time and
      completer. */
  function PlanCasUpdate(rows: map<int, CasIssue>, id: int, dir: map<int, UserModel.User>, p: CasPatch, now: int): Outcome<CasUpdate> {
    if id !in rows then Rejected(NotFound)
    else
      var cur := rows[id];
      if AssignsSomeone(p) && p.assignedTo.value !in dir then Rejected(AssignedUserNotFound)
      else
        var newly := if AssignsSomeone(p) && cur.assignedTo != Some(p.assignedTo.value) then Some(p.assignedTo.value) else None;
        var reassigned := cur.(assignedTo := Assign(p.assignedTo, cur.assignedTo));
        if Completes(p) && !TruthyId(p.completedById) then Rejected(CompletedByRequired)
        else if Completes(p) && p.completedById.value !in dir then Rejected(CompletingUserNotFound)
        else
          var next :=
            if Completes(p) then reassigned.(status := COMPLETED, completedAt := Some(now), completedById := p.completedById)
            else if TruthyText(p.status) then reassigned.(status := p.status.value)
            else reassigned;
          if TruthyText(p.status) && !IsStatus(p.status.value) then Rejected(ValidationError)
          else Ok(CasUpdate(next, newly))
  }

  /** An update of an unknown issue is refused with 404. */
  lemma UpdateUnknownIsNotFound(rows: map<int, CasIssue>, id: int, dir: map<int, UserModel.User>, p: CasPatch, now: int)
    requires id !in rows
    ensures PlanCasUpdate(rows, id, dir, p, now) == Rejected(NotFound)
    ensures Status(NotFound) == 404
  {
  }

  /** A notification is due exactly when the patch names a truthy assignee
      other than the current one, and then it is for that assignee, who
      exists and is now assigned. */
  lemma UpdateNotifiesNewAssigneeOnly(rows: map<int, CasIssue>, id: int, dir: map<int, UserModel.User>, p: CasPatch, now: int)
    requires PlanCasUpdate(rows, id, dir, p, now).Ok?
    ensures var u := PlanCasUpdate(rows, id, dir, p, now).value;
      && (u.newlyAssigned.Some? <==> AssignsSomeone(p) && rows[id].assignedTo != Some(p.assignedTo.value))
      && (u.newlyAssigned.Some? ==>
            u.newlyAssigned.value == p.assignedTo.value && u.newlyAssigned.value in dir &&
            u.issue.assignedTo == u.newlyAssigned)
  {
  }

  /** Clearing the assignee with a falsy value writes that value and
      notifies nobody. */
  lemma ClearingAssigneeIsSilent(rows: map<int, CasIssue>, id: int, dir: map<int, UserModel.User>, p: CasPatch, now: int)
    requires p.assignedTo == Null || p.assignedTo == Given(0)
    requires PlanCasUpdate(rows, id, dir, p, now).Ok?
    ensures var u := PlanCasUpdate(rows, id, dir, p, now).value;
      u.newlyAssigned == None && u.issue.assignedTo == (if p.assignedTo.Null? then None else Some(0))
  {
  }

  /** Completing an existing issue, with an assignee step that passes, is
      refused without a truthy completer and without an existing one. */
  lemma CompletionNeedsCompleter(rows: map<int, CasIssue>, id: int, dir: map<int, UserModel.User>, p: CasPatch, now: int)
    requires id in rows && Completes(p)
    requires !(AssignsSomeone(p) && p.assignedTo.value !in dir)
    ensures !TruthyId(p.completedById) ==>
      PlanCasUpdate(rows, id, dir, p, now) == Rejected(CompletedByRequired)
    ensures TruthyId(p.completedById) && p.completedById.value !in dir ==>
      PlanCasUpdate(rows, id, dir, p, now) == Rejected(CompletingUserNotFound)
  {
  }

  /** Completion writes the time and the completer together; any other
      status, or none, leaves both as they were, and the completer in the
      request is then ignored. */
  lemma CompletionFields(rows: map<int, CasIssue>, id: int, dir: map<int, UserModel.User>, p: CasPatch, now: int)
    requires PlanCasUpdate(rows, id, dir, p, now).Ok?
    ensures var r := PlanCasUpdate(rows, id, dir, p, now).value.issue;
      && (Completes(p) ==>
            r.status == COMPLETED && r.completedAt == Some(now) && r.completedById == p.completedById
            && TruthyId(r.completedById) && r.completedById.value in dir)
      && (!Completes(p) ==>
            r.completedAt == rows[id].completedAt && r.completedById == rows[id].completedById)
  {
  }

  /** An update writes only the assignee, the status and the completion
      fields; a status is written only when truthy, an assignee only when
      present. */
  lemma UpdateWritesOnlyNamedFields(rows: map<int, CasIssue>, id: int, dir: map<int, UserModel.User>, p: CasPatch, now: int)
    requires PlanCasUpdate(rows, id, dir, p, now).Ok?
    ensures var o := rows[id]; var r := PlanCasUpdate(rows, id, dir, p, now).value.issue;
      && r.id == o.id && r.issueType == o.issueType && r.severity == o.severity
      && r.description == o.description && r.reportedById == o.reportedById
      && r.reportedByEmail == o.reportedByEmail && r.createdAt == o.createdAt
      && r.assignedTo == Assign(p.assignedTo, o.assignedTo)
      && r.status == (if TruthyText(p.status) then p.status.value else o.status)
  {
  }

  /** An accepted update keeps a valid issue valid and its completion
      recorded. */
  lemma UpdateKeepsInvariants(rows: map<int, CasIssue>, id: int, dir: map<int, UserModel.User>, p: CasPatch, now: int)
    requires id in rows && WellFormed(rows[id]) && CompletionRecorded(rows[id])
    requires PlanCasUpdate(rows, id, dir, p, now).Ok?
    ensures WellFormed(PlanCasUpdate(rows, id, dir, p, now).value.issue)
    ensures CompletionRecorded(PlanCasUpdate(rows, id, dir, p, now).value.issue)
  {
  }

  /** Moving a completed issue back to "In Progress" keeps its completion
      time and completer. */
  lemma ReopenedIssueKeepsCompletion(dir: map<int, UserModel.User>, now: int)
    ensures var done := CasIssue(1, "CAS Down", HIGH, "d", None, None, None, COMPLETED, Some(5), Some(2), 1);
            var r := PlanCasUpdate(map[1 := done], 1, dir, CasPatch(Some(IN_PROGRESS), Undefined, None), now);
            r.Ok? && r.value.issue.status == IN_PROGRESS &&
            r.value.issue.completedAt == Some(5) && r.value.issue.completedById == Some(2)
  {
  }

  /** The actor named in an update's notification: the caller, else the
      completer in the request, else the reporter. */
  function UpdateActor(sessionUser: Option<int>, p: CasPatch, r: CasIssue): Option<int> {
    OrId(sessionUser, OrId(p.completedById, r.reportedById))
  }

  /** The actor is the first truthy one of caller, completer and reporter. */
  lemma UpdateActorPrecedence(sessionUser: Option<int>, p: CasPatch, r: CasIssue)
    ensures TruthyId(sessionUser) ==> UpdateActor(sessionUser, p, r) == sessionUser
    ensures !TruthyId(sessionUser) && TruthyId(p.completedById) ==> UpdateActor(sessionUser, p, r) == p.completedById
    ensures !TruthyId(sessionUser) && !TruthyId(p.completedById) ==> UpdateActor(sessionUser, p, r) == r.reportedById
  {
  }

  function CasCreatedAt(r: CasIssue): int {
    r.createdAt
  }

  predicate HasStatus(status: Option<string>, r: CasIssue) {
    !TruthyText(status) || r.status == status.value
  }

  /** The ids below `n` of `getAllCasIssues`: all issues, or only those in
      the given status when one is supplied; largest id first. */
  function CasListing(rows: map<int, CasIssue>, n: int, status: Option<string>): (r: seq<int>)
    ensures forall id :: 0 <= id < n && id in rows ==> (id in r <==> HasStatus(status, rows[id]))
    ensures forall k :: 0 <= k < |r| ==> r[k] in rows && HasStatus(status, rows[r[k]])
    ensures forall i, j :: 0 <= i < j < |r| ==> r[i] > r[j]
  {
    Select(rows, (x: CasIssue) => HasStatus(status, x), n)
  }

  /** The CAS issue table. Every row sits under its own id below `nextId`,
      is valid, has its completion recorded, and is stamped no later than
      `clock`; timestamps grow with the id. */
  class CasIssueStore {
    var rows: map<int, CasIssue>
    var nextId: int
    var clock: int

    ghost predicate Valid()
      reads this
    {
      && 1 <= nextId
      && (forall id :: id in rows ==>
            && 1 <= id < nextId && rows[id].id == id && rows[id].createdAt <= clock
            && WellFormed(rows[id]) && CompletionRecorded(rows[id]))
      && Monotone(rows, CasCreatedAt)
    }

    constructor ()
      ensures Valid() && rows == map[] && nextId == 1
    {
      rows := map[];
      nextId := 1;
      clock := 0;
    }

    /** `createCasIssue`: stores the planned issue under the next id, then
        notifies the assignee, if there is one, in the reporter's name. */
    method CreateCasIssue(req: NewCasIssue, dir: map<int, UserModel.User>, notes: NotificationStore,
                          now: int, failAt: Option<nat>) returns (out: Outcome<CasIssue>)
      requires Valid() && notes.Valid() && now >= clock && now >= notes.clock
      modifies this, notes
      ensures Valid() && notes.Valid()
      ensures out == PlanCasCreate(dir, old(nextId), req, now)
      ensures out.Ok? ==> rows == old(rows)[old(nextId) := out.value] && nextId == old(nextId) + 1
      ensures out.Rejected? ==> rows == old(rows) && nextId == old(nextId)
      ensures out.Ok? && TruthyId(req.assignedTo) ==>
        Fanned(old(notes.rows), old(notes.nextId),
               AssignmentBatch(JList([req.assignedTo.value]), View(out.value), CAS_TAG, req.reportedById,
                               dir, old(notes.nextId), now),
               failAt, notes.rows, notes.nextId)
      ensures !(out.Ok? && TruthyId(req.assignedTo)) ==>
        notes.rows == old(notes.rows) && notes.nextId == old(notes.nextId)
    {
      out := PlanCasCreate(dir, nextId, req, now);
      if out.Rejected? {
        return;
      }
      clock := now;
      InsertKeepsMonotone(rows, CasCreatedAt, nextId, out.value);
      rows := rows[nextId := out.value];
      nextId := nextId + 1;
      if TruthyId(req.assignedTo) {
        var _ := notes.CreateAssignmentNotifications(JList([req.assignedTo.value]), View(out.value), CAS_TAG,
                                                     req.reportedById, dir, now, failAt);
      }
    }

    /** `updateCasIssue`: writes the planned row in place, then notifies a
        newly assigned user about the updated issue. */
    method UpdateCasIssue(id: int, p: CasPatch, dir: map<int, UserModel.User>, sessionUser: Option<int>,
                          notes: NotificationStore, now: int, failAt: Option<nat>) returns (out: Outcome<CasIssue>)
      requires Valid() && notes.Valid() && now >= clock && now >= notes.clock
      modifies this, notes
      ensures Valid() && notes.Valid() && nextId == old(nextId)
      ensures PlanCasUpdate(old(rows), id, dir, p, now).Rejected? ==>
        && out == Rejected(PlanCasUpdate(old(rows), id, dir, p, now).reason)
        && rows == old(rows)
      ensures PlanCasUpdate(old(rows), id, dir, p, now).Ok? ==>
        var u := PlanCasUpdate(old(rows), id, dir, p, now).value;
        && out == Ok(u.issue)
        && rows == old(rows)[id := u.issue]
        && (u.newlyAssigned.Some? ==>
              Fanned(old(notes.rows), old(notes.nextId),
                     AssignmentBatch(JList([u.newlyAssigned.value]), View(u.issue), CAS_TAG,
                                     UpdateActor(sessionUser, p, old(rows)[id]), dir, old(notes.nextId), now),
                     failAt, notes.rows, notes.nextId))
      ensures !(PlanCasUpdate(old(rows), id, dir, p, now).Ok? &&
                PlanCasUpdate(old(rows), id, dir, p, now).value.newlyAssigned.Some?) ==>
        notes.rows == old(notes.rows) && notes.nextId == old(notes.nextId)
    {
      var plan := PlanCasUpdate(rows, id, dir, p, now);
      match plan
      case Rejected(r) =>
        out := Rejected(r);
      case Ok(u) =>
        var actor := UpdateActor(sessionUser, p, rows[id]);
        UpdateKeepsInvariants(rows, id, dir, p, now);
        UpdateWritesOnlyNamedFields(rows, id, dir, p, now);
        RewriteKeepsMonotone(rows, CasCreatedAt, id, u.issue);
        clock := now;
        rows := rows[id := u.issue];
        out := Ok(u.issue);
        if u.newlyAssigned.Some? {
          var _ := notes.CreateAssignmentNotifications(JList([u.newlyAssigned.value]), View(u.issue), CAS_TAG,
                                                       actor, dir, now, failAt);
        }
    }

    /** `getAllCasIssues`: the issues in the given status, or all of them,
        newest first. */
    method GetAllCasIssues(status: Option<string>) returns (out: seq<CasIssue>)
      requires Valid()
      ensures forall r :: r in out <==> r in rows.Values && HasStatus(status, r)
      ensures forall i, j :: 0 <= i < j < |out| ==> out[i].createdAt >= out[j].createdAt
      ensures forall i, j :: 0 <= i < j < |out| ==> out[i].id > out[j].id
    {
      out := Records(rows, CasListing(rows, nextId, status));
      SelectIsNewestFirst(rows, (x: CasIssue) => HasStatus(status, x), nextId, CasCreatedAt);
      SelectedRecords(rows, (x: CasIssue) => HasStatus(status, x), nextId);
    }

    /** `getCasIssueById`: the issue, or 404. */
    method GetCasIssueById(id: int) returns (out: Outcome<CasIssue>)
      requires Valid()
      ensures out.Rejected? <==> id !in rows
      ensures out.Rejected? ==> out.reason == NotFound
      ensures out.Ok? ==> out.value == rows[id] && out.value.id == id && WellFormed(out.value)
    {
      if id in rows {
        out := Ok(rows[id]);
      } else {
        out := Rejected(NotFound);
      }
    }
  }
}
