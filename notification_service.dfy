/** The assignment notifier: turning one assignment event into one stored
    notification per assignee, and the per-user queries and read-marking on
    the notification table. */
module NotificationService {
  import opened Wrappers
  import opened Js
  import opened Decimal
  import opened JsonText
  import opened Tables
  import opened UserModel
  import opened NotificationModel

  /** The kind every assignment notification carries. */
  const ISSUE_ASSIGNED := "issue_assigned"

  /** The entity-type tags the callers pass; each picks its own wording. */
  const FREQUENCY_TAG := "frequency_issue"
  const CHANNEL_TAG := "channel_issue"
  const CAS_TAG := "cas_issue"

  /** The issue properties the message templates read, as they render in a
      template literal: a property the issue does not have renders as
      "undefined". */
  datatype IssueView = IssueView(id: int, channel: string, frequency: string, issueType: string, severity: string)

  /** The actor's name: the two name columns joined by a space, each
      rendered as a template literal renders it (a missing name becomes
      "null"), or "Someone" when the actor id resolves to no user. */
  function CreatorName(dir: map<int, User>, createdBy: Option<int>): string {
    if createdBy.Some? && createdBy.value in dir then
      var u := dir[createdBy.value];
      Interpolate(u.firstName) + " " + Interpolate(u.lastName)
    else "Someone"
  }

  /** An actor who is not in the directory is "Someone"; a known actor
      without names shows up as "null null". */
  lemma CreatorNameFallbacks(dir: map<int, User>, createdBy: Option<int>)
    ensures createdBy.None? || createdBy.value !in dir ==> CreatorName(dir, createdBy) == "Someone"
    ensures createdBy.Some? && createdBy.value in dir &&
            dir[createdBy.value].firstName.None? && dir[createdBy.value].lastName.None? ==>
            CreatorName(dir, createdBy) == "null null"
  {
  }

  const ASSIGNED_YOU := " assigned you to "

  /** The message text: the wording is chosen by the tag, and any tag other
      than the three known ones takes the generic wording. */
  function Message(tag: string, name: string, issue: IssueView): string {
    if tag == FREQUENCY_TAG then
      name + ASSIGNED_YOU + "a frequency issue: \"" + issue.frequency + " - " + issue.issueType + "\""
    else if tag == CHANNEL_TAG then
      name + ASSIGNED_YOU + "a channel issue: \"" + issue.channel + " - " + issue.issueType + "\""
    else if tag == CAS_TAG then
      name + ASSIGNED_YOU + "a CAS issue: \"" + issue.issueType + " - " + issue.severity + "\""
    else
      name + ASSIGNED_YOU + "an issue: \"" + issue.issueType + "\""
  }

  /** Every message opens with the actor's name and " assigned you to ". */
  lemma MessageOpensWithActor(tag: string, name: string, issue: IssueView)
    ensures var m := Message(tag, name, issue);
      |m| > |name| + |ASSIGNED_YOU| && m[..|name|] == name && m[|name|..|name| + |ASSIGNED_YOU|] == ASSIGNED_YOU
  {
  }

  /** The four wordings are pairwise different for the same actor and issue,
      so the tag can be read back from the message. */
  lemma {:induction false} WordingsDiffer(name: string, issue: IssueView, other: string)
    requires other != FREQUENCY_TAG && other != CHANNEL_TAG && other != CAS_TAG
    ensures var f := Message(FREQUENCY_TAG, name, issue);
            var c := Message(CHANNEL_TAG, name, issue);
            var a := Message(CAS_TAG, name, issue);
            var g := Message(other, name, issue);
            f != c && f != a && f != g && c != a && c != g && a != g
  {
    var p := |name| + |ASSIGNED_YOU|;
    var f := Message(FREQUENCY_TAG, name, issue);
    var c := Message(CHANNEL_TAG, name, issue);
    var a := Message(CAS_TAG, name, issue);
    var g := Message(other, name, issue);
    assert f[p + 2] == 'f';
    assert c[p + 2] == 'c';
    assert a[p + 2] == 'C';
    assert g[p + 1] == 'n' && f[p + 1] == ' ' && c[p + 1] == ' ' && a[p + 1] == ' ';
  }

  /** Every unknown tag gets the same generic wording. */
  lemma GenericWordingIgnoresTag(t1: string, t2: string, name: string, issue: IssueView)
    requires t1 != FREQUENCY_TAG && t1 != CHANNEL_TAG && t1 != CAS_TAG
    requires t2 != FREQUENCY_TAG && t2 != CHANNEL_TAG && t2 != CAS_TAG
    ensures Message(t1, name, issue) == Message(t2, name, issue)
  {
  }

  /** The notifications one assignment event produces: one per element of
      the assignee list, in list order, duplicates included, with ids issued
      from `first`. */
  function Batch(userIds: seq<int>, first: int, message: string, entityId: int, tag: string, now: int): (b: seq<Notification>)
    ensures |b| == |userIds|
  {
    seq(|userIds|, k requires 0 <= k < |userIds| =>
      NewNotification(first + k, userIds[k], message, ISSUE_ASSIGNED, Some(entityId), Some(tag), now))
  }

  /** The recipients of a batch, read back in order, are the assignee list. */
  lemma BatchRecipients(userIds: seq<int>, first: int, message: string, entityId: int, tag: string, now: int)
    ensures var b := Batch(userIds, first, message, entityId, tag, now);
      seq(|b|, k requires 0 <= k < |b| => b[k].userId) == userIds
  {
  }

  /** Every record of a batch is an unread assignment notification pointing
      at the issue under the caller's tag, with the shared message. */
  lemma BatchRecords(userIds: seq<int>, first: int, message: string, entityId: int, tag: string, now: int)
    ensures var b := Batch(userIds, first, message, entityId, tag, now);
      forall k :: 0 <= k < |b| ==>
        && b[k].id == first + k && !b[k].isRead && b[k].message == message
        && b[k].notificationType == ISSUE_ASSIGNED && b[k].entityId == Some(entityId)
        && b[k].entityType == Some(tag) && b[k].createdAt == now
  {
  }

  /** A repeated assignee is notified once per occurrence. */
  lemma DuplicateAssigneeNotifiedTwice(u: int, first: int, message: string, entityId: int, tag: string, now: int)
    ensures var b := Batch([u, u], first, message, entityId, tag, now);
      |b| == 2 && b[0].userId == u && b[1].userId == u && b[0].id != b[1].id
  {
  }

  /** Whether an assignee value is a non-empty list, the only value for
      which a batch is created. */
  predicate IsNonEmptyList(v: JsValue) {
    v.JList? && |v.ids| > 0
  }

  /** `parseInt(String(v))`, with no radix argument, so a "0x" prefix reads
      as hexadecimal. An array renders as its elements joined by commas. */
  function ParseIntOf(v: JsValue): Option<int> {
    match v
    case JUndefined => None
    case JNull => ParseIntPrefix("null")
    case JBool(b) => ParseIntPrefix(if b then "true" else "false")
    case JNum(n) => ParseIntPrefix(IntText(n))
    case JStr(s) => ParseIntPrefix(s)
    case JList(ids) => ParseIntPrefix(JoinInts(ids))
  }

  /** The user id the unread query runs for: none when the argument is
      falsy or does not parse as an integer. */
  function UnreadUser(v: JsValue): Option<int> {
    if !Truthy(v) then None else ParseIntOf(v)
  }

  /** A non-zero number selects exactly that user. */
  lemma UnreadUserOfNumber(n: int)
    requires n != 0
    ensures UnreadUser(JNum(n)) == Some(n)
  {
    ParseIntPrefixOfIntText(n);
  }

  /** A string argument is read as `parseInt` reads it: "0x10" selects
      user 16, while "0x" is NaN and selects nobody. */
  lemma UnreadUserOfHexText()
    ensures UnreadUser(JStr("0x10")) == Some(16)
    ensures UnreadUser(JStr("0x")) == None
  {
    ParseIntHexExample();
    ParseIntEmptyHexExample();
  }

  /** Falsy arguments select nobody. */
  lemma UnreadUserRejectsFalsy()
    ensures UnreadUser(JNum(0)) == None && UnreadUser(JNull) == None && UnreadUser(JUndefined) == None
    ensures UnreadUser(JStr("")) == None && UnreadUser(JBool(false)) == None
  {
  }

  predicate IsUnreadFor(uid: int, x: Notification) {
    x.userId == uid && !x.isRead
  }

  /** The ids below `n` of `getUnreadNotifications(v)`: none when the
      argument selects no user; otherwise exactly that user's unread rows,
      largest id first. */
  function UnreadIds(rows: map<int, Notification>, n: int, v: JsValue): (r: seq<int>)
    ensures UnreadUser(v).None? ==> r == []
    ensures UnreadUser(v).Some? ==>
      forall id :: 0 <= id < n && id in rows ==> (id in r <==> IsUnreadFor(UnreadUser(v).value, rows[id]))
    ensures forall k :: 0 <= k < |r| ==> r[k] in rows && UnreadUser(v).Some? && IsUnreadFor(UnreadUser(v).value, rows[r[k]])
    ensures forall i, j :: 0 <= i < j < |r| ==> r[i] > r[j]
  {
    match UnreadUser(v)
    case None => []
    case Some(uid) => Select(rows, (x: Notification) => IsUnreadFor(uid, x), n)
  }

  /** The records `UnreadIds` names, when every id lies below the bound:
      exactly the user's unread rows, each once, newest first. */
  lemma UnreadRecords(rows: map<int, Notification>, n: int, v: JsValue)
    requires forall id :: id in rows ==> 0 <= id < n && rows[id].id == id
    requires Monotone(rows, CreatedAt)
    ensures var r := Records(rows, UnreadIds(rows, n, v));
      && (UnreadUser(v).None? ==> r == [])
      && (UnreadUser(v).Some? ==> forall x :: x in r <==> x in rows.Values && IsUnreadFor(UnreadUser(v).value, x))
      && (forall i, j :: 0 <= i < j < |r| ==> r[i].createdAt >= r[j].createdAt)
      && (forall i, j :: 0 <= i < j < |r| ==> r[i].id > r[j].id)
  {
    match UnreadUser(v)
    case None =>
    case Some(uid) =>
      UnreadRecordsExact(rows, n, uid);
      UnreadRecordsOrdered(rows, n, uid);
  }

  lemma UnreadRecordsExact(rows: map<int, Notification>, n: int, uid: int)
    requires forall id :: id in rows ==> 0 <= id < n
    ensures var r := Records(rows, Select(rows, (x: Notification) => IsUnreadFor(uid, x), n));
      forall x :: x in r <==> x in rows.Values && IsUnreadFor(uid, x)
  {
    SelectedRecords(rows, (x: Notification) => IsUnreadFor(uid, x), n);
  }

  lemma UnreadRecordsOrdered(rows: map<int, Notification>, n: int, uid: int)
    requires forall id :: id in rows ==> rows[id].id == id
    requires Monotone(rows, CreatedAt)
    ensures var r := Records(rows, Select(rows, (x: Notification) => IsUnreadFor(uid, x), n));
      && (forall i, j :: 0 <= i < j < |r| ==> r[i].createdAt >= r[j].createdAt)
      && (forall i, j :: 0 <= i < j < |r| ==> r[i].id > r[j].id)
  {
    SelectIsNewestFirst(rows, (x: Notification) => IsUnreadFor(uid, x), n, CreatedAt);
  }

  /** Marking all of a user's notifications: every row of `uid` becomes
      read, every other row is left as it was. */
  function MarkedAll(rows: map<int, Notification>, uid: int): (r: map<int, Notification>)
    ensures r.Keys == rows.Keys
    ensures forall id :: id in rows && rows[id].userId == uid ==> r[id] == rows[id].(isRead := true)
    ensures forall id :: id in rows && rows[id].userId != uid ==> r[id] == rows[id]
  {
    map id | id in rows :: if rows[id].userId == uid then rows[id].(isRead := true) else rows[id]
  }

  /** Marking one notification: only a row matching both the id and the
      user becomes read; anything else leaves the table as it was. */
  function MarkedOne(rows: map<int, Notification>, id: int, uid: int): (r: map<int, Notification>)
    ensures r.Keys == rows.Keys
    ensures id in rows && rows[id].userId == uid ==> r == rows[id := rows[id].(isRead := true)]
    ensures !(id in rows && rows[id].userId == uid) ==> r == rows
  {
    if id in rows && rows[id].userId == uid then rows[id := rows[id].(isRead := true)] else rows
  }

  /** After marking all, the user has nothing unread left. */
  lemma {:induction false} MarkedAllLeavesNothingUnread(rows: map<int, Notification>, n: int, uid: int)
    ensures Select(MarkedAll(rows, uid), (x: Notification) => IsUnreadFor(uid, x), n) == []
  {
    SelectNothing(MarkedAll(rows, uid), (x: Notification) => IsUnreadFor(uid, x), n);
  }

  /** Marking is idempotent. */
  lemma MarkIdempotent(rows: map<int, Notification>, id: int, uid: int)
    ensures MarkedAll(MarkedAll(rows, uid), uid) == MarkedAll(rows, uid)
    ensures MarkedOne(MarkedOne(rows, id, uid), id, uid) == MarkedOne(rows, id, uid)
  {
  }

  /** Another user's notification cannot be marked: the table is unchanged,
      although the call still reports success. */
  lemma CrossUserMarkIsNoop(rows: map<int, Notification>, id: int, uid: int)
    requires id in rows && rows[id].userId != uid
    ensures MarkedOne(rows, id, uid) == rows
  {
  }

  /** Marking never changes anything but read flags. */
  lemma MarkingKeepsRecords(rows: map<int, Notification>, id: int, uid: int)
    ensures forall k :: k in rows ==> MarkedAll(rows, uid)[k].(isRead := rows[k].isRead) == rows[k]
    ensures forall k :: k in rows ==> MarkedOne(rows, id, uid)[k].(isRead := rows[k].isRead) == rows[k]
  {
  }

  /** `after` is `before` with `added` stored under consecutive ids from
      `first`, and nothing else changed. */
  ghost predicate Extends(before: map<int, Notification>, first: int, added: seq<Notification>, after: map<int, Notification>) {
    && (forall id :: id in after <==> id in before || first <= id < first + |added|)
    && (forall id :: id in before ==> after[id] == before[id])
    && (forall k :: 0 <= k < |added| ==> after[first + k] == added[k])
  }

  /** Storing one more record under the next consecutive id extends the
      table by that record. */
  lemma ExtendsStep(before: map<int, Notification>, first: int, added: seq<Notification>,
                    after: map<int, Notification>, x: Notification)
    requires Extends(before, first, added, after)
    requires forall id :: id in before ==> id < first
    ensures Extends(before, first, added + [x], after[first + |added| := x])
  {
  }

  /** Whether the injected storage failure hits one of `count` inserts. */
  predicate FailsWithin(failAt: Option<nat>, count: int) {
    failAt.Some? && failAt.value < count
  }

  /** A table extended by nothing is the same table. */
  lemma ExtendsByNothing(before: map<int, Notification>, first: int, after: map<int, Notification>)
    requires Extends(before, first, [], after)
    ensures after == before
  {
    forall id | id in after
      ensures id in before
    {
      assert id in before || first <= id < first;
    }
    forall id | id in before
      ensures id in after && after[id] == before[id]
    {
    }
    assert after.Keys == before.Keys;
    assert forall id :: id in after ==> after[id] == before[id];
  }

  /** The records one assignment event asks to store: none unless the
      assignee value is a non-empty list. */
  function AssignmentBatch(assignedUserIds: JsValue, issue: IssueView, tag: string,
                           createdBy: Option<int>, dir: map<int, User>, first: int, now: int): seq<Notification>
  {
    if IsNonEmptyList(assignedUserIds) then
      Batch(assignedUserIds.ids, first, Message(tag, CreatorName(dir, createdBy), issue), issue.id, tag, now)
    else []
  }

  /** The table after a fan-out of `batch` from id `first`: the whole batch
      is stored, or, when the injected failure hits, the inserts before it. */
  ghost predicate Fanned(before: map<int, Notification>, first: int, batch: seq<Notification>,
                         failAt: Option<nat>, after: map<int, Notification>, next: int) {
    if FailsWithin(failAt, |batch|) then
      Extends(before, first, batch[..failAt.value], after) && next == first + failAt.value
    else
      Extends(before, first, batch, after) && next == first + |batch|
  }

  /** A missing, non-list or empty assignee value stores nothing. */
  lemma NoListNoRecords(assignedUserIds: JsValue, issue: IssueView, tag: string, createdBy: Option<int>,
                        dir: map<int, User>, first: int, now: int, failAt: Option<nat>,
                        before: map<int, Notification>, after: map<int, Notification>, next: int)
    requires !IsNonEmptyList(assignedUserIds)
    requires Fanned(before, first, AssignmentBatch(assignedUserIds, issue, tag, createdBy, dir, first, now), failAt, after, next)
    ensures after == before && next == first
  {
    ExtendsByNothing(before, first, after);
  }

  /** A list of k assignees with no storage failure stores exactly k
      records, the i-th for the i-th assignee. */
  lemma ListStoresOnePerAssignee(ids: seq<int>, issue: IssueView, tag: string, createdBy: Option<int>,
                                 dir: map<int, User>, first: int, now: int, failAt: Option<nat>,
                                 before: map<int, Notification>, after: map<int, Notification>, next: int)
    requires ids != [] && !FailsWithin(failAt, |ids|)
    requires Fanned(before, first, AssignmentBatch(JList(ids), issue, tag, createdBy, dir, first, now), failAt, after, next)
    ensures next == first + |ids|
    ensures forall k :: 0 <= k < |ids| ==> first + k in after && after[first + k].userId == ids[k]
  {
    var b := AssignmentBatch(JList(ids), issue, tag, createdBy, dir, first, now);
    assert |b| == |ids|;
    forall k | 0 <= k < |ids|
      ensures first + k in after && after[first + k].userId == ids[k]
    {
      assert after[first + k] == b[k];
    }
  }

  /** Every record of an assignment batch is stamped `now` and carries the
      id it is stored under. */
  lemma AssignmentBatchIds(assignedUserIds: JsValue, issue: IssueView, tag: string,
                           createdBy: Option<int>, dir: map<int, User>, first: int, now: int)
    ensures var b := AssignmentBatch(assignedUserIds, issue, tag, createdBy, dir, first, now);
      forall k :: 0 <= k < |b| ==> b[k].id == first + k && b[k].createdAt == now
  {
  }

  /** A failure at insert `i` of the batch leaves the fan-out's prefix. */
  lemma FannedOnFailure(before: map<int, Notification>, first: int, batch: seq<Notification>,
                        i: nat, after: map<int, Notification>)
    requires i < |batch| && Extends(before, first, batch[..i], after)
    ensures Fanned(before, first, batch, Some(i), after, first + i)
  {
  }

  /** The inserts of a fan-out, one at a time under consecutive ids, up to
      the injected failure if it hits. The table stays keyed by id, stamped
      no later than `now`, with timestamps growing with the id. */
  method StoreBatch(before: map<int, Notification>, first: int, batch: seq<Notification>,
                    failAt: Option<nat>, now: int)
    returns (after: map<int, Notification>, next: int)
    requires 1 <= first
    requires forall id :: id in before ==> 1 <= id < first && before[id].id == id && before[id].createdAt <= now
    requires Monotone(before, CreatedAt)
    requires forall k :: 0 <= k < |batch| ==> batch[k].id == first + k && batch[k].createdAt == now
    ensures Fanned(before, first, batch, failAt, after, next)
    ensures 1 <= next
    ensures forall id :: id in after ==> 1 <= id < next && after[id].id == id && after[id].createdAt <= now
    ensures Monotone(after, CreatedAt)
  {
    after, next := before, first;
    var i := 0;
    while i < |batch|
      invariant 0 <= i <= |batch|
      invariant next == first + i
      invariant !FailsWithin(failAt, i)
      invariant Extends(before, first, batch[..i], after)
      invariant forall id :: id in after ==> 1 <= id < next && after[id].id == id && after[id].createdAt <= now
      invariant Monotone(after, CreatedAt)
    {
      if failAt == Some(i) {
        FannedOnFailure(before, first, batch, i, after);
        return;
      }
      InsertKeepsMonotone(after, CreatedAt, next, batch[i]);
      ExtendsStep(before, first, batch[..i], after, batch[i]);
      assert batch[..i + 1] == batch[..i] + [batch[i]];
      after := after[next := batch[i]];
      next := next + 1;
      i := i + 1;
    }
    assert batch[..i] == batch;
  }

  /** The notification table. Every row sits under its own id, below
      `nextId`, stamped no later than `clock`; timestamps grow with the id. */
  class NotificationStore {
    var rows: map<int, Notification>
    var nextId: int
    var clock: int

    ghost predicate Valid()
      reads this
    {
      && 1 <= nextId
      && (forall id :: id in rows ==> 1 <= id < nextId && rows[id].id == id && rows[id].createdAt <= clock)
      && Monotone(rows, CreatedAt)
    }

    constructor ()
      ensures Valid() && rows == map[] && nextId == 1
    {
      rows := map[];
      nextId := 1;
      clock := 0;
    }

    /** `createAssignmentNotifications`. A value that is not a non-empty
        list stores nothing and answers []. Otherwise one notification per
        list element is stored, in order, and the stored records are the
        answer. `failAt` injects a storage failure at that insert: the
        answer is then [], while the inserts before it stay stored. */
    method CreateAssignmentNotifications(assignedUserIds: JsValue, issue: IssueView, tag: string,
                                         createdBy: Option<int>, dir: map<int, User>,
                                         now: int, failAt: Option<nat>)
      returns (created: seq<Notification>)
      requires Valid() && now >= clock
      modifies this
      ensures Valid() && clock == now
      ensures var b := AssignmentBatch(assignedUserIds, issue, tag, createdBy, dir, old(nextId), now);
        && Fanned(old(rows), old(nextId), b, failAt, rows, nextId)
        && created == (if FailsWithin(failAt, |b|) then [] else b)
    {
      clock := now;
      var batch := AssignmentBatch(assignedUserIds, issue, tag, createdBy, dir, nextId, now);
      AssignmentBatchIds(assignedUserIds, issue, tag, createdBy, dir, nextId, now);
      rows, nextId := StoreBatch(rows, nextId, batch, failAt, now);
      created := if FailsWithin(failAt, |batch|) then [] else batch;
    }

    /** `getUnreadNotifications(v)`: the rows `UnreadIds` names, which come
        out with the newest first. */
    method GetUnreadNotifications(v: JsValue) returns (out: seq<Notification>)
      requires Valid()
      ensures UnreadUser(v).None? ==> out == []
      ensures UnreadUser(v).Some? ==>
        forall x :: x in out <==> x in rows.Values && IsUnreadFor(UnreadUser(v).value, x)
      ensures forall i, j :: 0 <= i < j < |out| ==> out[i].createdAt >= out[j].createdAt
      ensures forall i, j :: 0 <= i < j < |out| ==> out[i].id > out[j].id
    {
      var ids := UnreadIds(rows, nextId, v);
      out := Records(rows, ids);
      UnreadRecords(rows, nextId, v);
    }

    /** `getAllNotifications`: every row, newest first. */
    method GetAllNotifications() returns (out: seq<Notification>)
      requires Valid()
      ensures forall x :: x in out <==> x in rows.Values
      ensures forall i, j :: 0 <= i < j < |out| ==> out[i].createdAt >= out[j].createdAt
      ensures forall i, j :: 0 <= i < j < |out| ==> out[i].id > out[j].id
    {
      var ids := Select(rows, (x: Notification) => true, nextId);
      out := Records(rows, ids);
      SelectIsNewestFirst(rows, (x: Notification) => true, nextId, CreatedAt);
      SelectedRecords(rows, (x: Notification) => true, nextId);
    }

    /** `markAsRead(notificationId, uid)`. "all" marks every row of the
        user. Any other argument must be an integer literal naming the row;
        only a row of that user is marked, and the answer is true whether or
        not one was. An argument that is not an integer literal makes the
        update fail: the answer is false and nothing changes. */
    method MarkAsRead(notificationId: string, uid: int) returns (ok: bool)
      requires Valid()
      modifies this
      ensures Valid() && nextId == old(nextId) && clock == old(clock)
      ensures notificationId == "all" ==> ok && rows == MarkedAll(old(rows), uid)
      ensures notificationId != "all" && ParseIntLiteral(notificationId).Some? ==>
        ok && rows == MarkedOne(old(rows), ParseIntLiteral(notificationId).value, uid)
      ensures notificationId != "all" && ParseIntLiteral(notificationId).None? ==>
        !ok && rows == old(rows)
    {
      if notificationId == "all" {
        rows := MarkedAll(rows, uid);
        ok := true;
      } else {
        match ParseIntLiteral(notificationId)
        case None =>
          ok := false;
        case Some(id) =>
          rows := MarkedOne(rows, id, uid);
          ok := true;
      }
    }
  }
}
