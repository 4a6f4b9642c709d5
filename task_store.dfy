/**
  The server's task store: the Tasks and Archived tables and the controller
  (`MainLogic`) that adds, archives, restores, deletes and pages through
  their rows.

  Each table is a sequence of rows in insertion order. Rows get their ids the
  way SQLite assigns an INTEGER PRIMARY KEY that the insert leaves out: one
  more than the largest id in the table, or 1 in an empty table. Since every
  insert appends the largest id, ids increase along each sequence, so
  "ORDER BY id DESC" is the sequence read backwards. A database failure
  during a change is a `dbFails` parameter: the session rolls back and the
  tables are as before.
 */
module TaskStore {
  import opened Js

  /** The width of the TODO and Finished columns. */
  const ColumnWidth := 255

  /** The page size used when the configuration sets none. */
  const DefaultPerPage := 10

  datatype Row = Row(id: int, text: string)

  /** Ids are positive and strictly increase along the table; every text fits the column. */
  predicate TableValid(rows: seq<Row>) {
    && (forall i, j :: 0 <= i < j < |rows| ==> rows[i].id < rows[j].id)
    && (forall i :: 0 <= i < |rows| ==> 1 <= rows[i].id && |rows[i].text| <= ColumnWidth)
  }

  /** add_todo's truncation: text longer than the column is cut to its first 255 characters. */
  function Truncate(detail: string): (r: string)
    ensures |r| <= ColumnWidth
    ensures |r| <= |detail| && r == detail[..|r|]
    ensures |detail| <= ColumnWidth ==> r == detail
    ensures |detail| > ColumnWidth ==> |r| == ColumnWidth
  {
    if |detail| > ColumnWidth then detail[..ColumnWidth] else detail
  }

  /** The id SQLite gives the next row inserted into the table. */
  function NextId(rows: seq<Row>): (id: int)
    requires TableValid(rows)
    ensures id >= 1
    ensures forall i :: 0 <= i < |rows| ==> rows[i].id < id
  {
    if rows == [] then 1 else rows[|rows| - 1].id + 1
  }

  /** `query(...).filter_by(id=id).first()`. */
  function Find(rows: seq<Row>, id: int): (r: Option<Row>)
    ensures r.Some? ==> r.value in rows && r.value.id == id
    ensures r.None? ==> forall i :: 0 <= i < |rows| ==> rows[i].id != id
  {
    if rows == [] then None
    else if rows[0].id == id then Some(rows[0])
    else Find(rows[1..], id)
  }

  /** The table after `session.delete` of the rows with this id. */
  function Without(rows: seq<Row>, id: int): (r: seq<Row>)
    ensures forall x :: x in r <==> x in rows && x.id != id
    ensures |r| <= |rows|
  {
    if rows == [] then []
    else if rows[0].id == id then Without(rows[1..], id)
    else [rows[0]] + Without(rows[1..], id)
  }

  /** A row in front of a valid table keeps it valid when its id is smaller than all of the table's. */
  lemma ConsValid(r: Row, rest: seq<Row>)
    requires TableValid(rest) && 1 <= r.id && |r.text| <= ColumnWidth
    requires forall x :: x in rest ==> r.id < x.id
    ensures TableValid([r] + rest)
  {
    var t := [r] + rest;
    forall i, j | 0 <= i < j < |t| ensures t[i].id < t[j].id {
      assert t[j] == rest[j - 1];
      if i > 0 {
        assert t[i] == rest[i - 1];
      }
    }
  }

  lemma {:induction false} WithoutValid(rows: seq<Row>, id: int)
    requires TableValid(rows)
    ensures TableValid(Without(rows, id))
  {
    if rows != [] {
      var tail := rows[1..];
      assert TableValid(tail);
      WithoutValid(tail, id);
      if rows[0].id != id {
        var rest := Without(tail, id);
        forall x | x in rest ensures rows[0].id < x.id {
          var k :| 0 <= k < |tail| && tail[k] == x;
          assert rows[k + 1] == x;
        }
        ConsValid(rows[0], rest);
      }
    }
  }

  /** In a valid table, the first row's id appears nowhere after it. */
  lemma FirstIdUnique(rows: seq<Row>)
    requires TableValid(rows) && rows != []
    ensures Find(rows[1..], rows[0].id).None?
  {
    var tail := rows[1..];
    forall i | 0 <= i < |tail| ensures tail[i].id != rows[0].id {
      assert tail[i] == rows[i + 1];
    }
  }

  /** Deleting an id that no row has leaves the table unchanged. */
  lemma {:induction false} WithoutMissing(rows: seq<Row>, id: int)
    requires Find(rows, id).None?
    ensures Without(rows, id) == rows
  {
    if rows != [] {
      WithoutMissing(rows[1..], id);
      assert rows == [rows[0]] + rows[1..];
    }
  }

  /** Deleting an id that a row of a valid table has removes exactly one row. */
  lemma {:induction false} WithoutFound(rows: seq<Row>, id: int)
    requires TableValid(rows) && Find(rows, id).Some?
    ensures |Without(rows, id)| == |rows| - 1
  {
    var tail := rows[1..];
    if rows[0].id == id {
      FirstIdUnique(rows);
      WithoutMissing(tail, id);
    } else {
      assert TableValid(tail);
      WithoutFound(tail, id);
    }
  }

  /** With ids unique, deleting an existing id removes exactly that one row; a missing id removes nothing. */
  lemma WithoutCount(rows: seq<Row>, id: int)
    requires TableValid(rows)
    ensures Find(rows, id).Some? ==> |Without(rows, id)| == |rows| - 1
    ensures Find(rows, id).None? ==> Without(rows, id) == rows
  {
    if Find(rows, id).Some? {
      WithoutFound(rows, id);
    } else {
      WithoutMissing(rows, id);
    }
  }

  lemma AppendValid(rows: seq<Row>, text: string)
    requires TableValid(rows) && |text| <= ColumnWidth
    ensures TableValid(rows + [Row(NextId(rows), text)])
  {
  }

  // ---------------------------------------------------------------------
  // Paging

  function Min(a: int, b: int): int {
    if a <= b then a else b
  }

  /** The table in `ORDER BY id DESC` order. */
  function NewestFirst(rows: seq<Row>): (r: seq<Row>)
    ensures |r| == |rows|
    ensures forall i :: 0 <= i < |rows| ==> r[i] == rows[|rows| - 1 - i]
  {
    if rows == [] then [] else [rows[|rows| - 1]] + NewestFirst(rows[..|rows| - 1])
  }

  /** `(page - 1) * per_page`, as SQLite applies it: a negative offset reads as zero. */
  function Offset(page: int, perPage: nat): nat {
    if page <= 1 then 0 else (page - 1) * perPage
  }

  /** `.offset((page - 1) * per_page).limit(per_page)` over already ordered rows. */
  function Page(rows: seq<Row>, page: int, perPage: nat): (r: seq<Row>)
    ensures |r| <= perPage
    ensures forall x :: x in r ==> x in rows
  {
    var offset := Offset(page, perPage);
    if offset >= |rows| then [] else rows[offset..Min(offset + perPage, |rows|)]
  }

  /** Pages 1 to n, one after the other. */
  function FirstPages(rows: seq<Row>, perPage: nat, n: nat): seq<Row> {
    if n == 0 then [] else FirstPages(rows, perPage, n - 1) + Page(rows, n, perPage)
  }

  lemma OffsetStep(n: nat, perPage: nat)
    requires n >= 1
    ensures Offset(n, perPage) == (n - 1) * perPage
    ensures n * perPage == Offset(n, perPage) + perPage
  {
  }

  /** The rows before page n's offset, followed by page n, are the rows up to its end. */
  lemma PageExtends(rows: seq<Row>, perPage: nat, n: int)
    ensures rows[..Min(Offset(n, perPage), |rows|)] + Page(rows, n, perPage)
         == rows[..Min(Offset(n, perPage) + perPage, |rows|)]
  {
    var before := Offset(n, perPage);
    if before < |rows| {
      var after := Min(before + perPage, |rows|);
      assert rows[..before] + rows[before..after] == rows[..after];
    }
  }

  /** Consecutive pages continue one another without gap or overlap: pages 1 to n are exactly the first n * perPage rows. */
  lemma {:induction false} FirstPagesArePrefix(rows: seq<Row>, perPage: nat, n: nat)
    ensures FirstPages(rows, perPage, n) == rows[..Min(n * perPage, |rows|)]
  {
    if n > 0 {
      FirstPagesArePrefix(rows, perPage, n - 1);
      OffsetStep(n, perPage);
      PageExtends(rows, perPage, n);
    }
  }

  /** A page that starts past the last row is empty. */
  lemma PagePastEnd(rows: seq<Row>, page: int, perPage: nat)
    requires page >= 1 && (page - 1) * perPage >= |rows|
    ensures Page(rows, page, perPage) == []
  {
  }

  /** Every page of the newest-first order lists ids in strictly decreasing order. */
  lemma PageIsNewestFirst(rows: seq<Row>, page: int, perPage: nat)
    requires TableValid(rows)
    ensures var p := Page(NewestFirst(rows), page, perPage);
      forall i, j :: 0 <= i < j < |p| ==> p[i].id > p[j].id
  {
    var nf := NewestFirst(rows);
    var p := Page(nf, page, perPage);
    var offset := Offset(page, perPage);
    forall i, j | 0 <= i < j < |p| ensures p[i].id > p[j].id {
      assert p[i] == nf[offset + i] && p[j] == nf[offset + j];
      assert nf[offset + i] == rows[|rows| - 1 - (offset + i)];
      assert nf[offset + j] == rows[|rows| - 1 - (offset + j)];
    }
  }

  // ---------------------------------------------------------------------
  // The controller

  class MainLogic {
    var tasks: seq<Row>
    var archived: seq<Row>
    /** `TASKS_PER_PAGE` from the application configuration. */
    const perPage: nat

    ghost predicate Valid()
      reads this
    {
      TableValid(tasks) && TableValid(archived)
    }

    constructor (configured: Option<nat>)
      ensures Valid() && tasks == [] && archived == []
      ensures perPage == if configured.Some? then configured.value else DefaultPerPage
    {
      tasks, archived := [], [];
      perPage := if configured.Some? then configured.value else DefaultPerPage;
    }

    /** add_todo: insert one task with the (truncated) text and return it, or None after a rollback. */
    method AddTodo(detail: string, dbFails: bool) returns (r: Option<Row>)
      requires Valid()
      modifies this
      ensures Valid() && archived == old(archived)
      ensures dbFails ==> r.None? && tasks == old(tasks)
      ensures !dbFails ==> (r == Some(Row(NextId(old(tasks)), Truncate(detail)))
                            && tasks == old(tasks) + [r.value])
    {
      var text := Truncate(detail);
      if dbFails {
        return None;
      }
      var task := Row(NextId(tasks), text);
      AppendValid(tasks, text);
      tasks := tasks + [task];
      r := Some(task);
    }

    /** archive: move the task with this id to Archived, where it gets an id of its own. */
    method Archive(targetId: int, dbFails: bool) returns (r: Option<Row>)
      requires Valid()
      modifies this
      ensures Valid()
      ensures Find(old(tasks), targetId).None? || dbFails ==>
                r.None? && tasks == old(tasks) && archived == old(archived)
      ensures Find(old(tasks), targetId).Some? && !dbFails ==>
                && r == Some(Row(NextId(old(archived)), Find(old(tasks), targetId).value.text))
                && tasks == Without(old(tasks), targetId)
                && |tasks| == |old(tasks)| - 1
                && archived == old(archived) + [r.value]
    {
      var task := Find(tasks, targetId);
      if task.None? {
        return None;
      }
      if dbFails {
        return None;
      }
      var entry := Row(NextId(archived), task.value.text);
      WithoutValid(tasks, targetId);
      WithoutCount(tasks, targetId);
      AppendValid(archived, entry.text);
      tasks := Without(tasks, targetId);
      archived := archived + [entry];
      r := Some(entry);
    }

    /** unArchive: the mirror of archive, moving an Archived row back to Tasks. */
    method UnArchive(targetId: int, dbFails: bool) returns (r: Option<Row>)
      requires Valid()
      modifies this
      ensures Valid()
      ensures Find(old(archived), targetId).None? || dbFails ==>
                r.None? && tasks == old(tasks) && archived == old(archived)
      ensures Find(old(archived), targetId).Some? && !dbFails ==>
                && r == Some(Row(NextId(old(tasks)), Find(old(archived), targetId).value.text))
                && archived == Without(old(archived), targetId)
                && |archived| == |old(archived)| - 1
                && tasks == old(tasks) + [r.value]
    {
      var entry := Find(archived, targetId);
      if entry.None? {
        return None;
      }
      if dbFails {
        return None;
      }
      var restored := Row(NextId(tasks), entry.value.text);
      WithoutValid(archived, targetId);
      WithoutCount(archived, targetId);
      AppendValid(tasks, restored.text);
      archived := Without(archived, targetId);
      tasks := tasks + [restored];
      r := Some(restored);
    }

    /** perm_delete: True exactly when an Archived row with this id existed and is now gone. */
    method PermDelete(targetId: int, dbFails: bool) returns (ok: bool)
      requires Valid()
      modifies this
      ensures Valid() && tasks == old(tasks)
      ensures ok <==> Find(old(archived), targetId).Some? && !dbFails
      ensures ok ==> archived == Without(old(archived), targetId) && |archived| == |old(archived)| - 1
      ensures !ok ==> archived == old(archived)
    {
      var entry := Find(archived, targetId);
      if entry.None? || dbFails {
        return false;
      }
      WithoutValid(archived, targetId);
      WithoutCount(archived, targetId);
      archived := Without(archived, targetId);
      ok := true;
    }

    /** get_tasks: one page of Tasks, newest first; an empty list when the query fails. */
    method GetTasks(page: int, dbFails: bool) returns (rows: seq<Row>)
      requires Valid()
      ensures rows == if dbFails then [] else Page(NewestFirst(tasks), page, perPage)
      ensures |rows| <= perPage
      ensures forall x :: x in rows ==> x in tasks
      ensures forall i, j :: 0 <= i < j < |rows| ==> rows[i].id > rows[j].id
    {
      if dbFails {
        return [];
      }
      PageIsNewestFirst(tasks, page, perPage);
      rows := Page(NewestFirst(tasks), page, perPage);
      forall x | x in rows ensures x in tasks {
        var nf := NewestFirst(tasks);
        var k :| 0 <= k < |nf| && nf[k] == x;
        assert x == tasks[|tasks| - 1 - k];
      }
    }

    /** get_archives: one page of Archived, newest first; an empty list when the query fails. */
    method GetArchives(page: int, dbFails: bool) returns (rows: seq<Row>)
      requires Valid()
      ensures rows == if dbFails then [] else Page(NewestFirst(archived), page, perPage)
      ensures |rows| <= perPage
      ensures forall x :: x in rows ==> x in archived
      ensures forall i, j :: 0 <= i < j < |rows| ==> rows[i].id > rows[j].id
    {
      if dbFails {
        return [];
      }
      PageIsNewestFirst(archived, page, perPage);
      rows := Page(NewestFirst(archived), page, perPage);
      forall x | x in rows ensures x in archived {
        var nf := NewestFirst(archived);
        var k :| 0 <= k < |nf| && nf[k] == x;
        assert x == archived[|archived| - 1 - k];
      }
    }

    /** get_task_by_id: the task with this id, None when there is none or the query fails. */
    method GetTaskById(taskId: int, dbFails: bool) returns (r: Option<Row>)
      ensures r.Some? <==> !dbFails && exists i :: 0 <= i < |tasks| && tasks[i].id == taskId
      ensures r.Some? ==> r.value in tasks && r.value.id == taskId
    {
      r := if dbFails then None else Find(tasks, taskId);
    }

    /** get_archive_by_id: the Archived row with this id, None when there is none or the query fails. */
    method GetArchiveById(archiveId: int, dbFails: bool) returns (r: Option<Row>)
      ensures r.Some? <==> !dbFails && exists i :: 0 <= i < |archived| && archived[i].id == archiveId
      ensures r.Some? ==> r.value in archived && r.value.id == archiveId
    {
      r := if dbFails then None else Find(archived, archiveId);
    }
  }
}
