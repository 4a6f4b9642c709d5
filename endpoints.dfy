/**
  The HTTP endpoints over the task store: each handler validates the request
  body, calls the controller, and answers a JSON body with a status code.
  The controller is the one module-level `MainLogic` instance all handlers
  share.
 */
module Endpoints {
  import opened Js
  import opened TaskStore

  /** A reply: its JSON body and its HTTP status code. */
  datatype Response = Response(body: Value, status: int)

  /** The request's parsed JSON object; None when the request carries no JSON. */
  type Body = Option<map<string, Value>>

  /** `not data or key not in data`. */
  predicate Lacks(data: Body, key: string) {
    data.None? || key !in data.value
  }

  function ErrorReply(message: string, status: int): (r: Response)
    ensures r.status == status && Prop(r.body, "error") == Str(message)
  {
    Response(Obj(map["error" := Str(message)]), status)
  }

  /** What the application's 500 handler answers when a handler raises. */
  const InternalError := ErrorReply("Internal server error", 500)

  /** The id a JSON value selects in `filter_by(id=...)`: only a JSON integer can equal an id. */
  function RowId(v: Value): (r: Option<int>)
    ensures r.Some? <==> v.Num?
  {
    if v.Num? then Some(v.n) else None
  }

  // ---------------------------------------------------------------------
  // Replies as functions of the request and of what the controller returned

  /**
    Whether add_todo raises on a task description that is not a string:
    `len` is undefined on a number, a boolean or null, and slicing a JSON
    object longer than the column raises too.
   */
  predicate AddRaises(task: Value) {
    !(task.Str? || task.Arr? || task.Obj?) || (task.Obj? && |task.fields| > ColumnWidth)
  }

  /**
    /add: 400 without a task description; a description add_todo raises on
    is answered by the 500 handler; anything else is 201 with a fixed
    message, whatever add_todo returned (a list or object description fails
    at the insert, which add_todo catches and rolls back).
   */
  function AddTaskReply(data: Body): (r: Response)
    ensures r.status == 400 <==> Lacks(data, "task_description")
    ensures r.status == 400 ==> r == ErrorReply("task description is required", 400)
    ensures r.status == 500 <==> !Lacks(data, "task_description") && AddRaises(data.value["task_description"])
    ensures r.status == 201 ==> r.body == Obj(map["message" := Str("Task added successfully")])
    ensures r.status in {201, 400, 500}
    ensures Prop(r.body, "id") == Undefined && Prop(r.body, "task_id") == Undefined
  {
    if Lacks(data, "task_description") then ErrorReply("task description is required", 400)
    else if AddRaises(data.value["task_description"]) then InternalError
    else Response(Obj(map["message" := Str("Task added successfully")]), 201)
  }

  /** /archive once the controller has answered: 200 with the new archive row's id, 404 otherwise. */
  function ArchiveReply(archivedTask: Option<Row>): (r: Response)
    ensures r.status == 200 <==> archivedTask.Some?
    ensures r.status == 200 ==> Prop(r.body, "archived_task_id") == Num(archivedTask.value.id)
    ensures r.status == 200 ==> Prop(r.body, "message") == Str("Task archived successfully")
    ensures r.status == 200 ==> r.body.Obj? && r.body.fields.Keys == {"message", "archived_task_id"}
    ensures r.status != 200 ==> r == ErrorReply("Failed to archive task or task not found", 404)
  {
    match archivedTask
    case Some(row) =>
      Response(Obj(map["message" := Str("Task archived successfully"), "archived_task_id" := Num(row.id)]), 200)
    case None => ErrorReply("Failed to archive task or task not found", 404)
  }

  /** /perm_delete once the controller has answered. */
  function PermDeleteReply(deleted: bool): (r: Response)
    ensures r.status == 200 <==> deleted
    ensures r.status == 200 ==> r.body == Obj(map["message" := Str("Archive permanently deleted successfully")])
    ensures r.status != 200 ==> r == ErrorReply("Failed to delete archive or archive not found", 404)
  {
    if deleted then Response(Obj(map["message" := Str("Archive permanently deleted successfully")]), 200)
    else ErrorReply("Failed to delete archive or archive not found", 404)
  }

  /** The JSON list a listing endpoint answers: one `{id, <textKey>}` object per row, in order. */
  function SerializeRows(rows: seq<Row>, textKey: string): (v: Value)
    ensures v.Arr? && |v.elems| == |rows|
    ensures forall i :: 0 <= i < |v.elems| ==> v.elems[i].Obj? && v.elems[i].fields.Keys == {"id", textKey}
  {
    Arr(seq(|rows|, i requires 0 <= i < |rows| => Obj(map["id" := Num(rows[i].id), textKey := Str(rows[i].text)])))
  }

  /** Reads one serialised row back. */
  function ParseRow(v: Value, textKey: string): Option<Row> {
    if v.Obj? && "id" in v.fields && textKey in v.fields && v.fields["id"].Num? && v.fields[textKey].Str?
    then Some(Row(v.fields["id"].n, v.fields[textKey].s))
    else None
  }

  /** Reads a serialised list back; None when some element is not a serialised row. */
  function ParseRows(v: Value, textKey: string): Option<seq<Row>>
    requires v.Arr?
    decreases |v.elems|
  {
    if v.elems == [] then Some([])
    else
      var last := v.elems[|v.elems| - 1];
      match (ParseRows(Arr(v.elems[..|v.elems| - 1]), textKey), ParseRow(last, textKey))
      case (Some(init), Some(row)) => Some(init + [row])
      case _ => None
  }

  /** The listing loses nothing: the client can read every row back, in the controller's order. */
  lemma {:induction false} SerializeRowsRoundTrip(rows: seq<Row>, textKey: string)
    requires textKey != "id"
    ensures ParseRows(SerializeRows(rows, textKey), textKey) == Some(rows)
  {
    if rows != [] {
      var init := rows[..|rows| - 1];
      SerializeRowsRoundTrip(init, textKey);
      assert SerializeRows(rows, textKey).elems[..|rows| - 1] == SerializeRows(init, textKey).elems;
      var last := rows[|rows| - 1];
      var obj := map["id" := Num(last.id), textKey := Str(last.text)];
      assert obj["id"] == Num(last.id) && obj[textKey] == Str(last.text);
      assert ParseRow(Obj(obj), textKey) == Some(last);
      assert init + [last] == rows;
    }
  }

  /** `request.args.get('page', default=1, type=int)`: None when the argument is absent or not an integer. */
  function PageArgument(page: Option<int>): int {
    if page.Some? then page.value else 1
  }

  // ---------------------------------------------------------------------
  // Handlers

  /** POST /add: only a string description is stored, truncated, unless the database fails. */
  method AddTask(controller: MainLogic, data: Body, dbFails: bool) returns (resp: Response)
    requires controller.Valid()
    modifies controller
    ensures controller.Valid() && controller.archived == old(controller.archived)
    ensures resp == AddTaskReply(data)
    ensures var stored := !Lacks(data, "task_description") && data.value["task_description"].Str? && !dbFails;
      && (stored ==> controller.tasks == old(controller.tasks)
                     + [Row(NextId(old(controller.tasks)), Truncate(data.value["task_description"].s))])
      && (!stored ==> controller.tasks == old(controller.tasks))
  {
    if Lacks(data, "task_description") {
      return ErrorReply("task description is required", 400);
    }
    var task := data.value["task_description"];
    if AddRaises(task) {
      return InternalError;
    }
    if task.Str? {
      var _ := controller.AddTodo(task.s, dbFails);
    }
    resp := Response(Obj(map["message" := Str("Task added successfully")]), 201);
  }

  /** POST /archive */
  method ArchiveTask(controller: MainLogic, data: Body, dbFails: bool) returns (resp: Response)
    requires controller.Valid()
    modifies controller
    ensures controller.Valid()
    ensures Lacks(data, "task_id") ==>
      resp == ErrorReply("task_id is required", 400) && unchanged(controller)
    ensures !Lacks(data, "task_id") ==>
      var target := RowId(data.value["task_id"]);
      var found := if target.Some? then Find(old(controller.tasks), target.value) else None;
      if found.Some? && !dbFails then
        && resp == ArchiveReply(Some(Row(NextId(old(controller.archived)), found.value.text)))
        && controller.tasks == Without(old(controller.tasks), target.value)
        && controller.archived == old(controller.archived) + [Row(NextId(old(controller.archived)), found.value.text)]
      else
        && resp == ArchiveReply(None)
        && controller.tasks == old(controller.tasks) && controller.archived == old(controller.archived)
  {
    if Lacks(data, "task_id") {
      return ErrorReply("task_id is required", 400);
    }
    var target := RowId(data.value["task_id"]);
    if target.None? {
      return ArchiveReply(None);
    }
    var archivedTask := controller.Archive(target.value, dbFails);
    resp := ArchiveReply(archivedTask);
  }

  /** POST /perm_delete */
  method DeleteFromArchive(controller: MainLogic, data: Body, dbFails: bool) returns (resp: Response)
    requires controller.Valid()
    modifies controller
    ensures controller.Valid() && controller.tasks == old(controller.tasks)
    ensures Lacks(data, "archive_id") ==>
      resp == ErrorReply("archive_id is required", 400) && unchanged(controller)
    ensures !Lacks(data, "archive_id") ==>
      var target := RowId(data.value["archive_id"]);
      var deleted := target.Some? && Find(old(controller.archived), target.value).Some? && !dbFails;
      && resp == PermDeleteReply(deleted)
      && controller.archived == if deleted then Without(old(controller.archived), target.value) else old(controller.archived)
  {
    if Lacks(data, "archive_id") {
      return ErrorReply("archive_id is required", 400);
    }
    var target := RowId(data.value["archive_id"]);
    if target.None? {
      return PermDeleteReply(false);
    }
    var deleted := controller.PermDelete(target.value, dbFails);
    resp := PermDeleteReply(deleted);
  }

  /** GET /tasks: the page of tasks, newest first, one `{id, TODO}` object each. */
  method GetTasks(controller: MainLogic, page: Option<int>, dbFails: bool) returns (resp: Response)
    requires controller.Valid()
    ensures resp.status == 200 && resp.body.Arr?
    ensures ParseRows(resp.body, "TODO")
         == Some(if dbFails then [] else Page(NewestFirst(controller.tasks), PageArgument(page), controller.perPage))
    ensures |resp.body.elems| <= controller.perPage
    ensures forall i :: 0 <= i < |resp.body.elems| ==>
              resp.body.elems[i].Obj? && resp.body.elems[i].fields.Keys == {"id", "TODO"}
  {
    var tasks := controller.GetTasks(PageArgument(page), dbFails);
    SerializeRowsRoundTrip(tasks, "TODO");
    resp := Response(SerializeRows(tasks, "TODO"), 200);
  }

  /** GET /archives: the page of archived tasks, newest first, one `{id, Finished}` object each. */
  method GetArchives(controller: MainLogic, page: Option<int>, dbFails: bool) returns (resp: Response)
    requires controller.Valid()
    ensures resp.status == 200 && resp.body.Arr?
    ensures ParseRows(resp.body, "Finished")
         == Some(if dbFails then [] else Page(NewestFirst(controller.archived), PageArgument(page), controller.perPage))
    ensures |resp.body.elems| <= controller.perPage
    ensures forall i :: 0 <= i < |resp.body.elems| ==>
              resp.body.elems[i].Obj? && resp.body.elems[i].fields.Keys == {"id", "Finished"}
  {
    var archives := controller.GetArchives(PageArgument(page), dbFails);
    SerializeRowsRoundTrip(archives, "Finished");
    resp := Response(SerializeRows(archives, "Finished"), 200);
  }
}
