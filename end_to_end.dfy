/**
  How the pieces meet: the requests the client sends as the service worker
  classifies them, the ids the endpoints hand to the store, and what the
  client's cache makes of the server's answers.
 */
module EndToEnd {
  import opened Js
  import Api = TodosApi
  import Store = TaskStore
  import Server = Endpoints
  import Hook = ApiCacheHook
  import Sw = ServiceWorker

  const ServerOrigin := "http://localhost:5000"

  /** The URL and method under which the worker sees a client request: BaseUrl is the origin followed by `/api`. */
  function AsFetched(r: Api.Request): (q: Sw.Request)
    ensures q.url.origin + q.url.pathname == Api.BaseUrl + r.path
  {
    Sw.Request(if r.verb == Api.Get then Sw.GET else Sw.POST, Sw.Url(ServerOrigin, "/api" + r.path, ""))
  }

  /** Every request the client sends takes the worker's network-first API path. */
  lemma ClientRequestsAreApiCalls(r: Api.Request)
    requires r.path != [] && r.path[0] == '/'
    ensures Sw.IsApiCall(AsFetched(r).url)
  {
    assert ("/api" + r.path)[..5] == "/api/";
  }

  /** The client's fixed requests all have such paths; the writes are POSTs, which the worker never stores. */
  lemma ClientRequestsClassified(text: string, n: int)
    ensures forall r :: r in [Api.GetTodos(), Api.GetArchives(), Api.AddTodo(text), Api.ArchiveRequest(n), Api.DeleteRequest(n)]
                        ==> Sw.IsApiCall(AsFetched(r).url)
    ensures forall r :: r in [Api.AddTodo(text), Api.ArchiveRequest(n), Api.DeleteRequest(n)]
                        ==> AsFetched(r).verb == Sw.POST
  {
    ClientRequestsAreApiCalls(Api.GetTodos());
    ClientRequestsAreApiCalls(Api.GetArchives());
    ClientRequestsAreApiCalls(Api.AddTodo(text));
    ClientRequestsAreApiCalls(Api.ArchiveRequest(n));
    ClientRequestsAreApiCalls(Api.DeleteRequest(n));
  }

  /** The id archiveTodo sends is the id the /archive endpoint looks up: the parsed integer. */
  lemma ArchiveTargetsParsedId(id: Value)
    requires Api.ArchiveTodo(id).Sent?
    ensures var body := Api.ArchiveTodo(id).request.body;
      && body.Some? && !Server.Lacks(body, "task_id")
      && Server.RowId(body.value["task_id"]) == ParseInt(ToString(id))
  {
    var n := ParseInt(ToString(id)).value;
    assert Api.ArchiveTodo(id).request == Api.ArchiveRequest(n);
    assert Api.ArchiveRequest(n).body.value["task_id"] == Num(n);
  }

  /** Likewise for deleteTodo and /perm_delete. */
  lemma DeleteTargetsParsedId(id: Value)
    requires Api.DeleteTodo(id).Sent?
    ensures var body := Api.DeleteTodo(id).request.body;
      && body.Some? && !Server.Lacks(body, "archive_id")
      && Server.RowId(body.value["archive_id"]) == ParseInt(ToString(id))
  {
    var n := ParseInt(ToString(id)).value;
    assert Api.DeleteTodo(id).request == Api.DeleteRequest(n);
    assert Api.DeleteRequest(n).body.value["archive_id"] == Num(n);
  }

  /** The temporary ids the cache makes are the ones archiveTodo refuses to send. */
  lemma TempIdsAreHeldBack(now: int)
    ensures Api.ArchiveTodo(Str(Hook.TempId(now))) == Api.Returned(Api.PendingNotice(Hook.TempId(now)))
    ensures Api.DeleteTodo(Str(Hook.TempId(now))).Rejected?
  {
    assert Hook.TempId(now) == Api.TempPrefix + DecimalString(now);
    Api.TempIdNeverSent(DecimalString(now));
  }

  /**
    Archiving an item that still carries its temporary id: the cache removes
    it at once, but archiveTodo hands back a plain value instead of a promise,
    so neither settlement of the call ever runs. The item stays removed, the
    snapshot is never restored and no error is recorded.
   */
  method ArchivePendingItem(cache: Hook.ApiCache, now: int, later: int) returns (call: Hook.PendingCall, outcome: Api.Outcome)
    requires cache.data.Arr?
    modifies cache
    ensures outcome == Api.ArchiveTodo(Str(Hook.TempId(now))) && outcome.Returned?
    ensures call.prevData == old(cache.data)
    ensures cache.data == Arr(Hook.Without(old(cache.data).elems, Str(Hook.TempId(now))))
    ensures forall i :: 0 <= i < |cache.data.elems| ==> Hook.IdOf(cache.data.elems[i]) != Str(Hook.TempId(now))
    ensures cache.error == old(cache.error) && cache.loading == old(cache.loading)
  {
    var id := Str(Hook.TempId(now));
    var payload := Obj(map["id" := id]);
    assert Hook.IdOf(payload) == id;
    call := cache.OptimisticUpdate(Hook.Remove, payload, later);
    TempIdsAreHeldBack(now);
    outcome := Api.ArchiveTodo(id);
  }

  /** The axios response around a JSON body: the body is its `data`. */
  function AxiosResponse(body: Value): (r: Value)
    ensures Truthy(r) && Prop(r, "data") == body
  {
    Obj(map["data" := body])
  }

  /** What /add answers to the body addTodo sends. */
  lemma AddReplyToClient(text: string)
    ensures Server.AddTaskReply(Some(Api.AddTodo(text).body.value))
         == Server.Response(Obj(map["message" := Str("Task added successfully")]), 201)
  {
    var body := Api.AddTodo(text).body.value;
    assert body["task_description"] == Str(text);
    assert !Server.AddRaises(Str(text));
  }

  /** Committing an add with the /add reply's body: the item keeps its temporary id and gains the message. */
  lemma CommitOfAddReply(items: seq<Value>, text: string, now: int)
    requires forall i :: 0 <= i < |items| ==> Hook.IdOf(items[i]) != Str(Hook.TempId(now))
    ensures var payload := Obj(map["task_description" := Str(text)]);
      var data := Obj(map["message" := Str("Task added successfully")]);
      var committed := Hook.Promoted(Hook.Appended(items, Hook.TempId(now), payload), Hook.TempId(now), data);
      && |committed| == |items| + 1
      && committed[..|items|] == items
      && Hook.IdOf(committed[|items|]) == Str(Hook.TempId(now))
      && Prop(committed[|items|], "message") == Str("Task added successfully")
      && Prop(committed[|items|], "task_description") == Str(text)
  {
    var t := Hook.TempId(now);
    var data := Obj(map["message" := Str("Task added successfully")]);
    var payload := Obj(map["task_description" := Str(text)]);
    Hook.CommitAfterAdd(items, t, payload, data);
    assert Hook.ServerId(data) == Undefined;
    var item := Hook.NewItem(t, payload);
    assert Spread(item)["task_description"] == Str(text);
    assert Hook.Promote(item, data).fields["task_description"] == Str(text);
  }

  /**
    The /add answer never carries an id, so when the cache commits an add
    the new item keeps its temporary id and only gains the reply's
    `message`; archiving that item from the list then only returns the
    pending notice.
   */
  lemma AddReplyKeepsTempId(items: seq<Value>, text: string, now: int)
    requires forall i :: 0 <= i < |items| ==> Hook.IdOf(items[i]) != Str(Hook.TempId(now))
    ensures var reply := Server.AddTaskReply(Some(Api.AddTodo(text).body.value));
      var payload := Obj(map["task_description" := Str(text)]);
      var committed := Hook.Promoted(Hook.Appended(items, Hook.TempId(now), payload), Hook.TempId(now),
                                     Prop(AxiosResponse(reply.body), "data"));
      && reply.status == 201
      && committed[..|items|] == items
      && Hook.IdOf(committed[|items|]) == Str(Hook.TempId(now))
      && Prop(committed[|items|], "message") == Str("Task added successfully")
      && Prop(committed[|items|], "task_description") == Str(text)
      && Api.ArchiveTodo(Hook.IdOf(committed[|items|])).Returned?
  {
    var data := Obj(map["message" := Str("Task added successfully")]);
    AddReplyToClient(text);
    assert Prop(AxiosResponse(data), "data") == data;
    CommitOfAddReply(items, text, now);
    TempIdsAreHeldBack(now);
  }

  /**
    A listing fetched through the cache keeps the server's rows, and
    archiving any listed item sends exactly that row's id to the endpoint.
   */
  lemma ListedItemArchivesItsRow(rows: seq<Store.Row>, k: nat)
    requires k < |rows|
    ensures var list := Hook.FetchedData(AxiosResponse(Server.SerializeRows(rows, "TODO")));
      && list == Server.SerializeRows(rows, "TODO")
      && |list.elems| == |rows|
      && Api.ArchiveTodo(Hook.IdOf(list.elems[k])) == Api.Sent(Api.ArchiveRequest(rows[k].id))
      && Server.RowId(Api.ArchiveRequest(rows[k].id).body.value["task_id"]) == Some(rows[k].id)
  {
    var list := Server.SerializeRows(rows, "TODO");
    Hook.FetchedDataOfList(list.elems);
    var fields := map["id" := Num(rows[k].id), "TODO" := Str(rows[k].text)];
    assert list.elems[k] == Obj(fields);
    assert fields["id"] == Num(rows[k].id);
    Api.ArchiveTodoNumberOrString(rows[k].id);
  }
}
