/** The in-memory stand-in for a database table: records keyed by an
    auto-increment id. Ids grow with insertion time, so "newest first" is
    "largest id first". */
module Tables {

  /** The ids below `n` of the records that satisfy `keep`, largest first. */
  function Select<T>(rows: map<int, T>, keep: T -> bool, n: int): (r: seq<int>)
    ensures forall k :: 0 <= k < |r| ==> r[k] in rows && 0 <= r[k] < n && keep(rows[r[k]])
    ensures forall id :: 0 <= id < n && id in rows && keep(rows[id]) ==> id in r
    ensures forall i, j :: 0 <= i < j < |r| ==> r[i] > r[j]
    decreases n
  {
    if n <= 0 then []
    else
      var rest := Select(rows, keep, n - 1);
      if n - 1 in rows && keep(rows[n - 1]) then [n - 1] + rest else rest
  }

  /** The records stored under `ids`, in the same order. */
  function Records<T>(rows: map<int, T>, ids: seq<int>): (r: seq<T>)
    requires forall k :: 0 <= k < |ids| ==> ids[k] in rows
    ensures |r| == |ids|
  {
    seq(|ids|, k requires 0 <= k < |ids| => rows[ids[k]])
  }

  /** When every id lies below the bound, the records a selection names are
      exactly the stored records that satisfy the filter. */
  lemma SelectedRecords<T>(rows: map<int, T>, keep: T -> bool, n: int)
    requires forall id :: id in rows ==> 0 <= id < n
    ensures var r := Records(rows, Select(rows, keep, n));
      forall x :: x in r <==> x in rows.Values && keep(x)
  {
    var ids := Select(rows, keep, n);
    var r := Records(rows, ids);
    forall x | x in rows.Values && keep(x)
      ensures x in r
    {
      var id :| id in rows && rows[id] == x;
      var k :| 0 <= k < |ids| && ids[k] == id;
      assert r[k] == x;
    }
  }

  /** A filter no record satisfies selects nothing. */
  lemma {:induction false} SelectNothing<T>(rows: map<int, T>, keep: T -> bool, n: int)
    requires forall id :: id in rows ==> !keep(rows[id])
    ensures Select(rows, keep, n) == []
    decreases n
  {
    if n > 0 {
      SelectNothing(rows, keep, n - 1);
    }
  }

  /** The records' timestamps never decrease as the id grows. */
  ghost predicate Monotone<T>(rows: map<int, T>, time: T -> int) {
    forall i, j :: i in rows && j in rows && i < j ==> time(rows[i]) <= time(rows[j])
  }

  /** In a table whose timestamps grow with the id, a selection comes out
      sorted by timestamp, latest first. */
  lemma SelectIsNewestFirst<T>(rows: map<int, T>, keep: T -> bool, n: int, time: T -> int)
    requires Monotone(rows, time)
    ensures var r := Records(rows, Select(rows, keep, n));
            forall i, j :: 0 <= i < j < |r| ==> time(r[i]) >= time(r[j])
  {
  }

  /** Rewriting a record without changing its timestamp keeps the
      timestamps monotone. */
  lemma RewriteKeepsMonotone<T>(rows: map<int, T>, time: T -> int, id: int, x: T)
    requires Monotone(rows, time) && id in rows && time(x) == time(rows[id])
    ensures Monotone(rows[id := x], time)
  {
  }

  /** Removing a record keeps the timestamps monotone. */
  lemma RemoveKeepsMonotone<T>(rows: map<int, T>, time: T -> int, id: int)
    requires Monotone(rows, time)
    ensures Monotone(rows - {id}, time)
  {
  }

  /** Adding a record under an id above every existing one, stamped no
      earlier than every existing record, keeps the timestamps monotone. */
  lemma InsertKeepsMonotone<T>(rows: map<int, T>, time: T -> int, id: int, x: T)
    requires Monotone(rows, time)
    requires forall k :: k in rows ==> k < id && time(rows[k]) <= time(x)
    ensures Monotone(rows[id := x], time)
  {
  }
}
