/**
  The task table and the daily-review table, with the server actions that read and write
  them: listing, creating, toggling and deleting tasks, recording the morning briefing's
  choice and reading today's record back. The database is an in-memory table of rows;
  the ids and creation times it would generate are parameters.
 */
module TaskStore {
  import opened Wrappers
  import opened Text
  import opened TaskTypes

  /** Milliseconds in a day. */
  const DayMillis: int := 86400000

  /** A timestamp truncated to midnight of its day (`setHours(0, 0, 0, 0)`), time zone
      and daylight-saving shifts aside. */
  function DayKey(now: int): (d: int)
    ensures d <= now < d + DayMillis
    ensures d % DayMillis == 0
  {
    now - now % DayMillis
  }

  /** Two timestamps get the same key exactly when they fall on the same day, so a
      write and a read on the same day address the same review. */
  lemma SameDayKey(a: int, b: int)
    ensures DayKey(a) == DayKey(b) <==> a / DayMillis == b / DayMillis
  {
    assert DayKey(a) == a / DayMillis * DayMillis;
    assert DayKey(b) == b / DayMillis * DayMillis;
    if a / DayMillis != b / DayMillis {
      if a / DayMillis < b / DayMillis {
        assert (a / DayMillis + 1) * DayMillis <= b / DayMillis * DayMillis;
      } else {
        assert (b / DayMillis + 1) * DayMillis <= a / DayMillis * DayMillis;
      }
    }
  }

  /** The part of a daily review the briefing writes. */
  datatype Review = Review(oneThingId: TaskId, oneThingGoal: string)

  const TitleRequired: string := "Title is required"
  const TaskNotFound: string := "Task not found"
  /** What the database raises when a single-row update finds no row. */
  const RecordNotFound: string := "Record to update not found"
  /** What the database raises when a single-row delete finds no row. */
  const DeleteNotFound: string := "Record to delete does not exist"

  /** The ids of the rows. */
  function Ids(rows: seq<Task>): set<TaskId> {
    set t | t in rows :: t.id
  }

  /** No two rows share an id. */
  predicate DistinctIds(rows: seq<Task>) {
    forall i, j :: 0 <= i < j < |rows| ==> rows[i].id != rows[j].id
  }

  // ----- createTask

  /** `description?.trim() || null`: the trimmed description, absent when it is missing
      or all white space. */
  function NormalDescription(description: Option<string>): (r: Option<string>)
    ensures r.None? <==> description.None? || AllSpace(description.value)
    ensures r.Some? ==> r.value != [] && IsTrimmed(r.value)
    ensures description.Some? && !AllSpace(description.value) ==> r == Some(Trim(description.value))
    ensures description.Some? && IsTrimmed(description.value) && description.value != [] ==> r == description
  {
    match description
    case None => None
    case Some(d) => if Trim(d) == "" then None else Some(Trim(d))
  }

  /** The row `createTask` stores, or `None` when the title is missing or blank. */
  function NewTask(title: Option<string>, description: Option<string>, id: TaskId, now: int): (r: Option<Task>)
    ensures r.None? <==> title.None? || AllSpace(title.value)
    ensures r.Some? ==> r.value.title == Trim(title.value) && r.value.title != [] && IsTrimmed(r.value.title)
    ensures r.Some? ==> r.value.tier == Backlog && !r.value.completed && r.value.id == id && r.value.createdAt == now
    ensures r.Some? ==> r.value.description == NormalDescription(description)
  {
    if title.None? || Trim(title.value) == "" then None
    else Some(Task(id, Trim(title.value), NormalDescription(description), Backlog, false, now))
  }

  // ----- toggleTaskComplete

  /** The table with the `completed` flag of the row `id` flipped. */
  function Toggled(rows: seq<Task>, id: TaskId): (r: seq<Task>)
    ensures |r| == |rows|
  {
    seq(|rows|, k requires 0 <= k < |rows| =>
      if rows[k].id == id then rows[k].(completed := !rows[k].completed) else rows[k])
  }

  /** Toggling touches one flag of one row: every row keeps its other fields and every
      other row is unchanged. */
  lemma ToggledFrame(rows: seq<Task>, id: TaskId)
    ensures forall k :: 0 <= k < |rows| ==>
      var r := Toggled(rows, id)[k];
      && r == rows[k].(completed := r.completed)
      && (r.completed != rows[k].completed <==> rows[k].id == id)
  {
  }

  /** Toggling twice restores the table. */
  lemma ToggleTwice(rows: seq<Task>, id: TaskId)
    ensures Toggled(Toggled(rows, id), id) == rows
  {
    var a := Toggled(Toggled(rows, id), id);
    assert forall k :: 0 <= k < |rows| ==> a[k] == rows[k];
  }

  // ----- deleteTask

  /** The table without the row `id`. */
  function Without(rows: seq<Task>, id: TaskId): (r: seq<Task>)
    ensures |r| <= |rows|
  {
    if rows == [] then []
    else if rows[0].id == id then Without(rows[1..], id)
    else [rows[0]] + Without(rows[1..], id)
  }

  /** Deleting `id` keeps exactly the other rows, and changes nothing when no row has
      that id. */
  lemma {:induction false} WithoutSound(rows: seq<Task>, id: TaskId)
    ensures forall t :: t in Without(rows, id) <==> t in rows && t.id != id
    ensures id !in Ids(rows) ==> Without(rows, id) == rows
  {
    if rows != [] {
      WithoutSound(rows[1..], id);
      assert rows == [rows[0]] + rows[1..];
      if id !in Ids(rows) {
        assert id !in Ids(rows[1..]);
      }
    }
  }

  /** Deleting from a table with distinct ids keeps them distinct. */
  lemma {:induction false} WithoutDistinct(rows: seq<Task>, id: TaskId)
    requires DistinctIds(rows)
    ensures DistinctIds(Without(rows, id))
  {
    if rows != [] {
      WithoutDistinct(rows[1..], id);
      var rest := Without(rows[1..], id);
      if rows[0].id != id {
        WithoutSound(rows[1..], id);
        forall k | 0 <= k < |rest|
          ensures rest[k].id != rows[0].id
        {
          assert rest[k] in rest;
          var i :| 0 <= i < |rows[1..]| && rows[1..][i] == rest[k];
          assert rows[i + 1] == rest[k];
        }
        var r := [rows[0]] + rest;
        forall i, j | 0 <= i < j < |r|
          ensures r[i].id != r[j].id
        {
          if i > 0 {
            assert r[i] == rest[i - 1] && r[j] == rest[j - 1];
          }
        }
      }
    }
  }

  /** In a table with distinct ids, deleting a present id removes exactly one row. */
  lemma {:induction false} WithoutCount(rows: seq<Task>, id: TaskId)
    requires DistinctIds(rows) && id in Ids(rows)
    ensures |Without(rows, id)| == |rows| - 1
  {
    var t :| t in rows && t.id == id;
    var k :| 0 <= k < |rows| && rows[k] == t;
    if rows[0].id != id {
      assert rows[1..][k - 1] == t;
      assert id in Ids(rows[1..]);
      WithoutCount(rows[1..], id);
    } else {
      assert id !in Ids(rows[1..]) by {
        forall u | u in rows[1..]
          ensures u.id != id
        {
          var i :| 0 <= i < |rows[1..]| && rows[1..][i] == u;
          assert rows[i + 1] == u;
        }
      }
      WithoutSound(rows[1..], id);
    }
  }

  // ----- getTasks

  /** `orderBy: [{ completed: 'asc' }, { createdAt: 'desc' }]`: open tasks before
      completed ones, newer before older within each group. */
  predicate InOrder(a: Task, b: Task) {
    (a.completed ==> b.completed) && (a.completed == b.completed ==> a.createdAt >= b.createdAt)
  }

  predicate Ordered(rows: seq<Task>) {
    forall i, j :: 0 <= i < j < |rows| ==> InOrder(rows[i], rows[j])
  }

  /** `t` placed in a listing before the first row it goes before. */
  function Insert(t: Task, rows: seq<Task>): (r: seq<Task>)
    ensures |r| == |rows| + 1
  {
    if rows == [] then [t]
    else if InOrder(t, rows[0]) then [t] + rows
    else [rows[0]] + Insert(t, rows[1..])
  }

  /** Inserting into an ordered listing keeps it ordered and adds exactly `t`. */
  lemma {:induction false} InsertSound(t: Task, rows: seq<Task>)
    requires Ordered(rows)
    ensures Ordered(Insert(t, rows)) && multiset(Insert(t, rows)) == multiset(rows) + multiset{t}
  {
    if rows == [] {
    } else if InOrder(t, rows[0]) {
      assert forall j :: 0 <= j < |rows| ==> InOrder(rows[0], rows[j]);
    } else {
      InsertSound(t, rows[1..]);
      var rest := Insert(t, rows[1..]);
      assert InOrder(rows[0], t);
      assert multiset(rows) == multiset{rows[0]} + multiset(rows[1..]) by {
        assert rows == [rows[0]] + rows[1..];
      }
      assert forall u :: u in rest ==> u in rows[1..] || u == t by {
        forall u | u in rest ensures u in rows[1..] || u == t {
          assert u in multiset(rest);
        }
      }
      assert forall j :: 0 <= j < |rest| ==> InOrder(rows[0], rest[j]) by {
        forall j | 0 <= j < |rest| ensures InOrder(rows[0], rest[j]) {
          assert rest[j] in rest;
          if rest[j] != t {
            var i :| 0 <= i < |rows[1..]| && rows[1..][i] == rest[j];
            assert rows[i + 1] == rest[j];
          }
        }
      }
    }
  }

  /** The rows in the listing order. Rows equal in both keys keep no particular order in
      the database; here they come out in reverse table order. */
  function Listing(rows: seq<Task>): (r: seq<Task>)
    ensures |r| == |rows|
  {
    if rows == [] then [] else Insert(rows[0], Listing(rows[1..]))
  }

  /** The listing is ordered and holds exactly the rows of the table. */
  lemma {:induction false} ListingSound(rows: seq<Task>)
    ensures Ordered(Listing(rows)) && multiset(Listing(rows)) == multiset(rows)
  {
    if rows != [] {
      ListingSound(rows[1..]);
      InsertSound(rows[0], Listing(rows[1..]));
      assert rows == [rows[0]] + rows[1..];
    }
  }

  // ----- completeBriefing

  /** `updateMany({ where: { tier: 'one-thing' }, data: { tier: 'supporting' } })`. */
  function Demoted(rows: seq<Task>): (r: seq<Task>)
    ensures |r| == |rows|
  {
    seq(|rows|, k requires 0 <= k < |rows| =>
      if rows[k].tier == OneThing then rows[k].(tier := Supporting) else rows[k])
  }

  /** `update({ where: { id }, data: { tier: 'one-thing' } })`. */
  function Promoted(rows: seq<Task>, id: TaskId): (r: seq<Task>)
    ensures |r| == |rows|
  {
    seq(|rows|, k requires 0 <= k < |rows| =>
      if rows[k].id == id then rows[k].(tier := OneThing) else rows[k])
  }

  /** The ids of the rows in the `one-thing` tier. */
  function OneThingIds(rows: seq<Task>): set<TaskId> {
    set t | t in rows && t.tier == OneThing :: t.id
  }

  /** After the demotion no row is in the `one-thing` tier: the state a failed promotion
      leaves behind. */
  lemma DemotedHasNoOneThing(rows: seq<Task>)
    ensures OneThingIds(Demoted(rows)) == {}
  {
    var d := Demoted(rows);
    forall t | t in d ensures t.tier != OneThing {
      var k :| 0 <= k < |d| && d[k] == t;
    }
  }

  /** Demoting then promoting `id` leaves `id` as the one `one-thing` task (one row when
      ids are distinct); former `one-thing` tasks are `supporting`; every other row is
      unchanged; no field but the tier changes. */
  lemma ChosenIsTheOneThing(rows: seq<Task>, id: TaskId)
    requires id in Ids(rows)
    ensures var r := Promoted(Demoted(rows), id);
      && OneThingIds(r) == {id}
      && forall k :: 0 <= k < |rows| ==>
        && r[k] == rows[k].(tier := r[k].tier)
        && (r[k].tier == OneThing <==> rows[k].id == id)
        && (rows[k].id != id && rows[k].tier == OneThing ==> r[k].tier == Supporting)
        && (rows[k].id != id && rows[k].tier != OneThing ==> r[k] == rows[k])
  {
    var r := Promoted(Demoted(rows), id);
    var t :| t in rows && t.id == id;
    var k :| 0 <= k < |rows| && rows[k] == t;
    assert r[k] in r && r[k].id == id && r[k].tier == OneThing;
    forall u | u in r && u.tier == OneThing ensures u.id == id {
      var j :| 0 <= j < |r| && r[j] == u;
    }
  }

  /** The task table after `completeBriefing(id, …)`: demoted, and promoted when the
      row exists. */
  function CompletedTasks(rows: seq<Task>, id: TaskId): seq<Task> {
    if id in Ids(rows) then Promoted(Demoted(rows), id) else Demoted(rows)
  }

  /** The review table after `completeBriefing(id, goal)` at `now`: today's record
      written when the promotion succeeded, untouched otherwise. */
  function CompletedReviews(reviews: map<int, Review>, rows: seq<Task>, id: TaskId, goal: string, now: int): map<int, Review> {
    if id in Ids(rows) then reviews[DayKey(now) := Review(id, goal)] else reviews
  }

  /** The upsert writes today's record, creating it or overwriting it, and leaves the
      records of every other day as they were; a failed promotion writes nothing. */
  lemma ReviewUpsert(reviews: map<int, Review>, rows: seq<Task>, id: TaskId, goal: string, now: int)
    ensures var r := CompletedReviews(reviews, rows, id, goal, now);
      && (id in Ids(rows) ==> DayKey(now) in r && r[DayKey(now)] == Review(id, goal))
      && (id in Ids(rows) ==> r.Keys == reviews.Keys + {DayKey(now)})
      && (id !in Ids(rows) ==> r == reviews)
      && forall d :: d != DayKey(now) ==> (d in r <==> d in reviews) && (d in r ==> r[d] == reviews[d])
  {
  }

  /** The two tables, in memory. `tasks` lists the rows in insertion order. */
  class Database {
    var tasks: seq<Task>
    var reviews: map<int, Review>

    predicate Valid()
      reads this
    {
      DistinctIds(tasks)
    }

    constructor()
      ensures Valid() && tasks == [] && reviews == map[]
    {
      tasks := [];
      reviews := map[];
    }

    /** `getTasks`: every row, in the listing order. */
    function GetTasks(): (r: seq<Task>)
      reads this
      ensures Ordered(r) && multiset(r) == multiset(tasks)
    {
      ListingSound(tasks);
      Listing(tasks)
    }

    /** `createTask`. `id` and `now` are what the database would generate. */
    method CreateTask(title: Option<string>, description: Option<string>, id: TaskId, now: int)
      returns (result: Outcome<string>)
      requires Valid() && id !in Ids(tasks)
      modifies this
      ensures Valid() && reviews == old(reviews)
      ensures NewTask(title, description, id, now).None? ==> result == Fail(TitleRequired) && tasks == old(tasks)
      ensures NewTask(title, description, id, now).Some? ==>
        result == Pass && tasks == old(tasks) + [NewTask(title, description, id, now).value]
    {
      var row := NewTask(title, description, id, now);
      if row.None? {
        return Fail(TitleRequired);
      }
      assert forall k :: 0 <= k < |tasks| ==> tasks[k] in tasks;
      tasks := tasks + [row.value];
      result := Pass;
    }

    /** `toggleTaskComplete`. */
    method ToggleTaskComplete(id: TaskId) returns (result: Outcome<string>)
      requires Valid()
      modifies this
      ensures Valid() && reviews == old(reviews)
      ensures id !in Ids(old(tasks)) ==> result == Fail(TaskNotFound) && tasks == old(tasks)
      ensures id in Ids(old(tasks)) ==> result == Pass && tasks == Toggled(old(tasks), id)
    {
      if id !in Ids(tasks) {
        return Fail(TaskNotFound);
      }
      tasks := Toggled(tasks, id);
      result := Pass;
    }

    /** `deleteTask`. The database raises when no row has that id. */
    method DeleteTask(id: TaskId) returns (result: Outcome<string>)
      requires Valid()
      modifies this
      ensures Valid() && reviews == old(reviews)
      ensures id !in Ids(old(tasks)) ==> result == Fail(DeleteNotFound) && tasks == old(tasks)
      ensures id in Ids(old(tasks)) ==> result == Pass && tasks == Without(old(tasks), id)
    {
      if id !in Ids(tasks) {
        return Fail(DeleteNotFound);
      }
      WithoutDistinct(tasks, id);
      tasks := Without(tasks, id);
      result := Pass;
    }

    /** `getTodaysBriefing`: the review recorded for the day of `now`, if any. */
    function TodaysBriefing(now: int): (r: Option<Review>)
      reads this
      ensures r.Some? <==> DayKey(now) in reviews
      ensures r.Some? ==> r.value == reviews[DayKey(now)]
    {
      if DayKey(now) in reviews then Some(reviews[DayKey(now)]) else None
    }

    /** `completeBriefing`: three separate writes. The demotion is written first; when no
        row has `taskId` the promotion raises, so the demotion stays and no review is
        written. */
    method CompleteBriefing(taskId: TaskId, goal: string, now: int) returns (result: Outcome<string>)
      requires Valid()
      modifies this
      ensures Valid()
      ensures result == (if taskId in Ids(old(tasks)) then Pass else Fail(RecordNotFound))
      ensures tasks == CompletedTasks(old(tasks), taskId)
      ensures reviews == CompletedReviews(old(reviews), old(tasks), taskId, goal, now)
      ensures result.Pass? ==> forall later :: DayKey(later) == DayKey(now) ==>
        TodaysBriefing(later) == Some(Review(taskId, goal))
    {
      var demoted := Demoted(tasks);
      assert forall k :: 0 <= k < |tasks| ==> demoted[k].id == tasks[k].id;
      tasks := demoted;
      if taskId !in Ids(tasks) {
        assert forall t :: t in old(tasks) ==> t.id in Ids(tasks) by {
          forall t | t in old(tasks) ensures t.id in Ids(tasks) {
            var k :| 0 <= k < |old(tasks)| && old(tasks)[k] == t;
            assert demoted[k] in demoted;
          }
        }
        return Fail(RecordNotFound);
      }
      var promoted := Promoted(tasks, taskId);
      assert forall k :: 0 <= k < |tasks| ==> promoted[k].id == tasks[k].id;
      assert taskId in Ids(old(tasks)) by {
        var t :| t in demoted && t.id == taskId;
        var k :| 0 <= k < |demoted| && demoted[k] == t;
        assert old(tasks)[k] in old(tasks);
      }
      tasks := promoted;
      reviews := reviews[DayKey(now) := Review(taskId, goal)];
      result := Pass;
    }
  }
}
