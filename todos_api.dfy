/**
  The client's REST calls: which request each entry point sends to the server,
  and the guards `archiveTodo` and `deleteTodo` apply to the id they are given
  before sending anything.
 */
module TodosApi {
  import opened Js

  /** The axios instance's base URL; every request path below is relative to it. */
  const BaseUrl := "http://localhost:5000/api"

  datatype Verb = Get | Post

  /** One HTTP request: verb, path below BaseUrl, and the JSON body if any. */
  datatype Request = Request(verb: Verb, path: string, body: Option<map<string, Value>>)

  /** What a call hands back to its caller. */
  datatype Outcome =
    | Rejected(message: string)  // a rejected promise whose Error carries this message; nothing sent
    | Returned(value: Value)     // a plain (non-promise) value; nothing sent
    | Sent(request: Request)     // the promise of exactly this one request

  function GetTodos(): (r: Request)
    ensures r.verb == Get && r.path == "/tasks" && r.body.None?
  {
    Request(Get, "/tasks", None)
  }

  function GetArchives(): (r: Request)
    ensures r.verb == Get && r.path == "/archives" && r.body.None?
  {
    Request(Get, "/archives", None)
  }

  function AddTodo(text: string): (r: Request)
    ensures r.verb == Post && r.path == "/add"
    ensures r.body.Some? && r.body.value.Keys == {"task_description"}
    ensures r.body.value["task_description"] == Str(text)
  {
    Request(Post, "/add", Some(map["task_description" := Str(text)]))
  }

  const TempPrefix := "temp-"

  /** The object `archiveTodo` returns for an id that is still a local `temp-` id. */
  function PendingNotice(id: string): Value {
    Obj(map["status" := Str("pending"), "message" := Str("Task still saving to server"), "tempId" := Str(id)])
  }

  function ArchiveRequest(taskId: int): Request {
    Request(Post, "/archive", Some(map["task_id" := Num(taskId)]))
  }

  function DeleteRequest(archiveId: int): Request {
    Request(Post, "/perm_delete", Some(map["archive_id" := Num(archiveId)]))
  }

  /**
    archiveTodo(id): null or undefined rejects; a string `temp-` id is answered
    with a pending notice and never sent; otherwise the id goes through
    `parseInt(id, 10)`, and NaN rejects while a number is sent as `task_id`.
   */
  function ArchiveTodo(id: Value): (r: Outcome)
    ensures IsNullish(id) <==> r == Rejected("Invalid task ID")
    ensures r.Returned? <==> id.Str? && StartsWith(id.s, TempPrefix)
    ensures r.Returned? ==> r.value == PendingNotice(id.s)
    ensures r.Sent? <==> !IsNullish(id) && !(id.Str? && StartsWith(id.s, TempPrefix)) && ParseInt(ToString(id)).Some?
    ensures r.Sent? ==> r.request == ArchiveRequest(ParseInt(ToString(id)).value)
    ensures !IsNullish(id) && !(id.Str? && StartsWith(id.s, TempPrefix)) && ParseInt(ToString(id)).None? ==>
      r == Rejected("Cannot convert \"" + ToString(id) + "\" to a valid task ID")
  {
    if IsNullish(id) then Rejected("Invalid task ID")
    else if id.Str? && StartsWith(id.s, TempPrefix) then Returned(PendingNotice(id.s))
    else match ParseInt(ToString(id))
      case None => Rejected("Cannot convert \"" + ToString(id) + "\" to a valid task ID")
      case Some(taskId) => Sent(ArchiveRequest(taskId))
  }

  /**
    deleteTodo(id): null or undefined rejects; otherwise the id goes through
    `parseInt(id, 10)`, and NaN rejects while a number is sent as `archive_id`.
    There is no `temp-` guard.
   */
  function DeleteTodo(id: Value): (r: Outcome)
    ensures IsNullish(id) <==> r == Rejected("Invalid archive ID")
    ensures !r.Returned?
    ensures r.Sent? <==> !IsNullish(id) && ParseInt(ToString(id)).Some?
    ensures r.Sent? ==> r.request == DeleteRequest(ParseInt(ToString(id)).value)
    ensures !IsNullish(id) && ParseInt(ToString(id)).None? ==>
      r == Rejected("Cannot convert \"" + ToString(id) + "\" to a valid archive ID")
  {
    if IsNullish(id) then Rejected("Invalid archive ID")
    else match ParseInt(ToString(id))
      case None => Rejected("Cannot convert \"" + ToString(id) + "\" to a valid archive ID")
      case Some(archiveId) => Sent(DeleteRequest(archiveId))
  }

  /** An id given as a number and the same id given as its decimal string send the same request. */
  lemma ArchiveTodoNumberOrString(n: int)
    ensures ArchiveTodo(Num(n)) == Sent(ArchiveRequest(n))
    ensures ArchiveTodo(Str(DecimalString(n))) == Sent(ArchiveRequest(n))
  {
    var d := DecimalString(n);
    ParseIntOfNumber(n);
    assert ToString(Num(n)) == d == ToString(Str(d));
    NotTempId(d);
  }

  lemma DeleteTodoNumberOrString(n: int)
    ensures DeleteTodo(Num(n)) == Sent(DeleteRequest(n))
    ensures DeleteTodo(Str(DecimalString(n))) == Sent(DeleteRequest(n))
  {
    ParseIntOfNumber(n);
    assert ToString(Num(n)) == DecimalString(n) == ToString(Str(DecimalString(n)));
  }

  /** A string that does not open with `t` is not a temporary id. */
  lemma NotTempId(s: string)
    requires s != [] && s[0] != 't'
    ensures !StartsWith(s, TempPrefix)
  {
  }

  /** White space followed by a decimal rendering does not open with `t`. */
  lemma NumberTextOpening(ws: string, n: int, tail: string)
    requires forall i :: 0 <= i < |ws| ==> IsStrWhiteSpace(ws[i])
    ensures var s := ws + DecimalString(n) + tail; s != [] && s[0] != 't'
  {
    var s := ws + DecimalString(n) + tail;
    if ws != [] {
      assert s[0] == ws[0];
      assert IsStrWhiteSpace(ws[0]);
    } else {
      assert s[0] == DecimalString(n)[0];
    }
  }

  /** A string id with leading blanks or trailing non-digits is still sent with its numeric part. */
  lemma ArchiveTodoLenientParse(ws: string, n: int, tail: string)
    requires forall i :: 0 <= i < |ws| ==> IsStrWhiteSpace(ws[i])
    requires tail == [] || !IsDigit(tail[0])
    ensures ArchiveTodo(Str(ws + DecimalString(n) + tail)) == Sent(ArchiveRequest(n))
  {
    var s := ws + DecimalString(n) + tail;
    ParseIntOfDecimal(ws, n, tail);
    NumberTextOpening(ws, n, tail);
    NotTempId(s);
    assert ToString(Str(s)) == s;
  }

  lemma ArchiveTempId(suffix: string)
    ensures ArchiveTodo(Str(TempPrefix + suffix)) == Returned(PendingNotice(TempPrefix + suffix))
  {
    var s := TempPrefix + suffix;
    assert s[..|TempPrefix|] == TempPrefix;
  }

  lemma DeleteTempId(suffix: string)
    ensures DeleteTodo(Str(TempPrefix + suffix))
         == Rejected("Cannot convert \"" + TempPrefix + suffix + "\" to a valid archive ID")
  {
    var s := TempPrefix + suffix;
    ParseIntOfLetterPrefix(s);
    assert "Cannot convert \"" + s + "\" to a valid archive ID"
        == "Cannot convert \"" + TempPrefix + suffix + "\" to a valid archive ID";
  }

  /** A local `temp-` id is never sent: archiving hands back a notice, deleting rejects through the NaN branch. */
  lemma TempIdNeverSent(suffix: string)
    ensures ArchiveTodo(Str(TempPrefix + suffix)) == Returned(PendingNotice(TempPrefix + suffix))
    ensures DeleteTodo(Str(TempPrefix + suffix))
         == Rejected("Cannot convert \"" + TempPrefix + suffix + "\" to a valid archive ID")
  {
    ArchiveTempId(suffix);
    DeleteTempId(suffix);
  }
}
