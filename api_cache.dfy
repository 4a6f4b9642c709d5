/**
  The client's cache of the server's list (`useApiCache`): the list held in
  `data` together with a `loading` flag and an `error` value.

  `optimisticUpdate` edits the list at once and settles later: the promise's
  outcome is an explicit `OnSuccess` or `OnFailure` call, with the
  `PendingCall` that `OptimisticUpdate` handed back standing for the closure
  (its temporary id and its own `prevData` snapshot). Overlapping operations
  are then simply calls in some order. `fetchData` is `BeginFetch` followed by
  `FetchResolved` or `FetchRejected`.

  `data` is a JavaScript value, not necessarily a list: `fetchData` stores
  whatever non-list payload the server returns, and a failing call of an
  unknown operation restores its snapshot, which is still `null`.
 */
module ApiCacheHook {
  import opened Js

  datatype Operation = Add | Remove | Update | Unknown(name: string)

  /** What a pending `optimisticUpdate` call remembers until its promise settles. */
  datatype PendingCall = PendingCall(op: Operation, tempId: string, prevData: Value)

  const TempPrefix := "temp-"
  const DefaultError := Str("An error occurred")

  /** `temp-${Date.now()}` */
  function TempId(now: int): (t: string)
    ensures StartsWith(t, TempPrefix) && |t| > |TempPrefix|
  {
    TempPrefix + DecimalString(now)
  }

  /** `item.id` */
  function IdOf(item: Value): Value {
    Prop(item, "id")
  }

  // ---------------------------------------------------------------------
  // The optimistic edits, as functions of the current list

  /** `{ id: tempId, ...payload }` */
  function NewItem(tempId: string, payload: Value): (v: Value)
    ensures v.Obj? && "id" in v.fields
    ensures v.fields["id"] == if "id" in Spread(payload) then payload.fields["id"] else Str(tempId)
    ensures forall k :: k in Spread(payload) ==> k in v.fields && v.fields[k] == payload.fields[k]
    ensures v.fields.Keys == Spread(payload).Keys + {"id"}
  {
    Obj(map["id" := Str(tempId)] + Spread(payload))
  }

  /** add: `[...current, newItem]` */
  function Appended(items: seq<Value>, tempId: string, payload: Value): (r: seq<Value>)
    ensures |r| == |items| + 1 && r[..|items|] == items
    ensures r[|items|] == NewItem(tempId, payload)
  {
    items + [NewItem(tempId, payload)]
  }

  /** remove: `current.filter(item => item.id !== id)` */
  function Without(items: seq<Value>, id: Value): (r: seq<Value>)
    ensures |r| <= |items|
    ensures forall i :: 0 <= i < |r| ==> IdOf(r[i]) != id
  {
    if items == [] then []
    else Without(items[..|items| - 1], id)
         + (if IdOf(items[|items| - 1]) != id then [items[|items| - 1]] else [])
  }

  /** remove keeps exactly the items whose id differs from the one removed. */
  lemma {:induction false} WithoutKeeps(items: seq<Value>, id: Value, x: Value)
    ensures x in Without(items, id) <==> x in items && IdOf(x) != id
  {
    if items != [] {
      var n := |items| - 1;
      var front := items[..n];
      WithoutKeeps(front, id, x);
      assert items == front + [items[n]];
    }
  }

  /** `{ ...item, ...payload }`: payload's fields win. */
  function MergeInto(item: Value, payload: Value): (v: Value)
    ensures v.Obj?
    ensures forall k :: k in Spread(payload) ==> k in v.fields && v.fields[k] == payload.fields[k]
    ensures forall k :: k in Spread(item) && k !in Spread(payload) ==> k in v.fields && v.fields[k] == item.fields[k]
    ensures v.fields.Keys == Spread(item).Keys + Spread(payload).Keys
  {
    Obj(Spread(item) + Spread(payload))
  }

  /** update: `current.map(item => item.id === payload.id ? {...item, ...payload} : item)` */
  function Merged(items: seq<Value>, payload: Value): (r: seq<Value>)
    ensures |r| == |items|
    ensures forall i :: 0 <= i < |items| && IdOf(items[i]) != IdOf(payload) ==> r[i] == items[i]
    ensures forall i :: 0 <= i < |items| && IdOf(items[i]) == IdOf(payload) ==> r[i] == MergeInto(items[i], payload)
  {
    seq(|items|, i requires 0 <= i < |items| =>
      if IdOf(items[i]) == IdOf(payload) then MergeInto(items[i], payload) else items[i])
  }

  /** The list an operation leaves before the server answers. */
  function Optimistic(op: Operation, items: seq<Value>, payload: Value, tempId: string): seq<Value> {
    match op
    case Add => Appended(items, tempId, payload)
    case Remove => Without(items, IdOf(payload))
    case Update => Merged(items, payload)
    case Unknown(_) => items
  }

  // ---------------------------------------------------------------------
  // Commit of a successful add

  /** `response.data.id || response.data.task_id` */
  function ServerId(data: Value): Value {
    Or(Prop(data, "id"), Prop(data, "task_id"))
  }

  /** `{ ...item, id: newId || item.id, ...response.data }` */
  function Promote(item: Value, data: Value): (v: Value)
    ensures v.Obj? && "id" in v.fields
    ensures "id" !in Spread(data) ==> v.fields["id"] == Or(ServerId(data), IdOf(item))
    ensures forall k :: k in Spread(data) ==> k in v.fields && v.fields[k] == data.fields[k]
    ensures forall k :: k in Spread(item) && k != "id" && k !in Spread(data) ==> k in v.fields && v.fields[k] == item.fields[k]
    ensures v.fields.Keys == Spread(item).Keys + {"id"} + Spread(data).Keys
  {
    Obj(Spread(item) + map["id" := Or(ServerId(data), IdOf(item))] + Spread(data))
  }

  /** The commit: only the items still carrying this call's temporary id are replaced. */
  function Promoted(items: seq<Value>, tempId: string, data: Value): (r: seq<Value>)
    ensures |r| == |items|
    ensures forall i :: 0 <= i < |items| && IdOf(items[i]) != Str(tempId) ==> r[i] == items[i]
    ensures forall i :: 0 <= i < |items| && IdOf(items[i]) == Str(tempId) ==> r[i] == Promote(items[i], data)
  {
    seq(|items|, i requires 0 <= i < |items| =>
      if IdOf(items[i]) == Str(tempId) then Promote(items[i], data) else items[i])
  }

  /** Whether a settled call rewrites the list: an add whose response has truthy `data`. */
  predicate Promotes(call: PendingCall, response: Value) {
    call.op.Add? && Truthy(response) && Truthy(Prop(response, "data"))
  }

  // ---------------------------------------------------------------------
  // fetchData

  /** `response && response.data !== undefined ? response.data : response` */
  function Payload(response: Value): (p: Value)
    ensures Truthy(response) && Prop(response, "data") != Undefined ==> p == Prop(response, "data")
    ensures !Truthy(response) || Prop(response, "data") == Undefined ==> p == response
  {
    if Truthy(response) && Prop(response, "data") != Undefined then Prop(response, "data") else response
  }

  /**
    What fetchData stores: the payload, except that null or undefined
    becomes the empty list. A non-list payload is stored as it is.
   */
  function FetchedData(response: Value): (r: Value)
    ensures !IsNullish(r)
    ensures IsNullish(Payload(response)) ==> r == Arr([])
    ensures !IsNullish(Payload(response)) ==> r == Payload(response)
  {
    var payload := Payload(response);
    if payload.Arr? || IsNullish(payload) then Or(payload, Arr([])) else payload
  }

  /** `err.message || 'An error occurred'` */
  function ErrorText(err: Value): (r: Value)
    ensures Truthy(r)
    ensures Truthy(Prop(err, "message")) ==> r == Prop(err, "message")
    ensures !Truthy(Prop(err, "message")) ==> r == DefaultError
  {
    Or(Prop(err, "message"), DefaultError)
  }

  // ---------------------------------------------------------------------
  // The hook's state

  class ApiCache {
    var data: Value
    var loading: bool
    var error: Value

    /** `useApiCache(initialData = [])` */
    constructor (initialData: Value)
      ensures data == (if initialData == Undefined then Arr([]) else initialData)
      ensures !loading && error == Null
    {
      data := if initialData == Undefined then Arr([]) else initialData;
      loading, error := false, Null;
    }

    /**
      The synchronous part of `optimisticUpdate`: the edit is applied now and
      the list as it was is kept in the returned call. An unknown operation
      edits nothing and its snapshot stays `null`.
     */
    method OptimisticUpdate(op: Operation, payload: Value, now: int) returns (call: PendingCall)
      requires op.Unknown? || data.Arr?
      modifies this
      ensures call.op == op && call.tempId == TempId(now)
      ensures call.prevData == if op.Unknown? then Null else old(data)
      ensures data == if op.Unknown? then old(data) else Arr(Optimistic(op, old(data).elems, payload, TempId(now)))
      ensures loading == old(loading) && error == old(error)
    {
      var tempId := TempId(now);
      var prevData := Null;
      if !op.Unknown? {
        prevData := data;
        data := Arr(Optimistic(op, data.elems, payload, tempId));
      }
      call := PendingCall(op, tempId, prevData);
    }

    /** The call's promise resolves: an add with data promotes its temporary item; the response passes through. */
    method OnSuccess(call: PendingCall, response: Value) returns (r: Value)
      requires Promotes(call, response) ==> data.Arr?
      modifies this
      ensures r == response
      ensures data == if Promotes(call, response)
                      then Arr(Promoted(old(data).elems, call.tempId, Prop(response, "data")))
                      else old(data)
      ensures loading == old(loading) && error == old(error)
    {
      if Promotes(call, response) {
        data := Arr(Promoted(data.elems, call.tempId, Prop(response, "data")));
      }
      r := response;
    }

    /** The call's promise rejects with err: the call's own snapshot comes back, error is set, err is rethrown. */
    method OnFailure(call: PendingCall, err: Value) returns (rethrown: Value)
      modifies this
      ensures rethrown == err
      ensures data == call.prevData && error == ErrorText(err) && loading == old(loading)
    {
      data := call.prevData;
      error := ErrorText(err);
      rethrown := err;
    }

    /** fetchData up to the await. */
    method BeginFetch()
      modifies this
      ensures loading && error == Null && data == old(data)
    {
      loading := true;
      error := Null;
    }

    /** fetchData's call resolved: the payload replaces the list and loading ends. */
    method FetchResolved(response: Value) returns (r: Value)
      modifies this
      ensures r == response
      ensures data == FetchedData(response) && !loading && error == old(error)
    {
      data := FetchedData(response);
      loading := false;
      r := response;
    }

    /** fetchData's call rejected: the list stays, error is set, loading ends, err is rethrown. */
    method FetchRejected(err: Value) returns (rethrown: Value)
      modifies this
      ensures rethrown == err
      ensures data == old(data) && error == ErrorText(err) && !loading
    {
      error := ErrorText(err);
      loading := false;
      rethrown := err;
    }
  }

  // ---------------------------------------------------------------------
  // Properties of the edits

  /** Removing keeps order: the filter distributes over concatenation. */
  lemma {:induction false} WithoutConcat(a: seq<Value>, b: seq<Value>, id: Value)
    ensures Without(a + b, id) == Without(a, id) + Without(b, id)
    decreases |b|
  {
    if b == [] {
      assert a + b == a;
    } else {
      var b', last := b[..|b| - 1], b[|b| - 1];
      var kept := if IdOf(last) != id then [last] else [];
      assert (a + b)[..|a + b| - 1] == a + b';
      assert (a + b)[|a + b| - 1] == last;
      assert Without(a + b, id) == Without(a + b', id) + kept;
      assert Without(b, id) == Without(b', id) + kept;
      WithoutConcat(a, b', id);
      assert Without(a, id) + Without(b', id) + kept == Without(a, id) + (Without(b', id) + kept);
    }
  }

  /** A list in which no item has the id is left as it is. */
  lemma {:induction false} WithoutAbsent(items: seq<Value>, id: Value)
    requires forall i :: 0 <= i < |items| ==> IdOf(items[i]) != id
    ensures Without(items, id) == items
  {
    if items != [] {
      var n := |items| - 1;
      var front := items[..n];
      forall i | 0 <= i < |front| ensures IdOf(front[i]) != id {
        assert front[i] == items[i];
      }
      WithoutAbsent(front, id);
      assert Without(items, id) == Without(front, id) + [items[n]];
      assert front + [items[n]] == items;
    }
  }

  /** Removing the temporary id right after adding it gives the list back, when the payload brought no id of its own. */
  lemma RemoveUndoesAdd(items: seq<Value>, tempId: string, payload: Value)
    requires forall i :: 0 <= i < |items| ==> IdOf(items[i]) != Str(tempId)
    requires "id" !in Spread(payload)
    ensures Without(Appended(items, tempId, payload), Str(tempId)) == items
  {
    var item := NewItem(tempId, payload);
    WithoutConcat(items, [item], Str(tempId));
    WithoutAbsent(items, Str(tempId));
    assert IdOf(item) == Str(tempId);
    assert Without([item], Str(tempId)) == Without([], Str(tempId)) + [];
  }

  /** Updating twice with the same payload is the same as updating once. */
  lemma MergedIdempotent(items: seq<Value>, payload: Value)
    ensures Merged(Merged(items, payload), payload) == Merged(items, payload)
  {
    var once := Merged(items, payload);
    forall i | 0 <= i < |items| && IdOf(items[i]) == IdOf(payload)
      ensures IdOf(once[i]) == IdOf(payload) && MergeInto(once[i], payload) == once[i]
    {
      var m := MergeInto(items[i], payload);
      assert m.fields == Spread(items[i]) + Spread(payload);
      assert Spread(m) + Spread(payload) == m.fields;
    }
  }

  /**
    After a successful add, committing promotes exactly the appended item:
    the earlier items are untouched and the new item takes the server's id
    (or keeps the temporary one when the reply names none), under the
    reply's own fields.
   */
  lemma CommitAfterAdd(items: seq<Value>, tempId: string, payload: Value, data: Value)
    requires forall i :: 0 <= i < |items| ==> IdOf(items[i]) != Str(tempId)
    requires "id" !in Spread(payload)
    ensures var r := Promoted(Appended(items, tempId, payload), tempId, data);
      && r[..|items|] == items
      && |r| == |items| + 1
      && r[|items|] == Promote(NewItem(tempId, payload), data)
      && ("id" !in Spread(data) ==> IdOf(r[|items|]) == Or(ServerId(data), Str(tempId)))
  {
    var added := Appended(items, tempId, payload);
    assert IdOf(added[|items|]) == Str(tempId);
  }

  /** A payload carrying its own id hides the temporary id, so the commit of that add changes nothing. */
  lemma PayloadIdBlocksCommit(items: seq<Value>, tempId: string, payload: Value, data: Value)
    requires forall i :: 0 <= i < |items| ==> IdOf(items[i]) != Str(tempId)
    requires "id" in Spread(payload) && payload.fields["id"] != Str(tempId)
    ensures Promoted(Appended(items, tempId, payload), tempId, data) == Appended(items, tempId, payload)
  {
    var added := Appended(items, tempId, payload);
    assert IdOf(added[|items|]) == payload.fields["id"];
  }

  /** A body under `data` is what fetchData stores, the empty list standing in for null. */
  lemma FetchedDataUnwraps(body: Value)
    requires body != Undefined
    ensures FetchedData(Obj(map["data" := body])) == if IsNullish(body) then Arr([]) else body
  {
    assert Prop(Obj(map["data" := body]), "data") == body;
  }

  /** A response without a `data` field is stored itself, the empty list standing in for null or undefined. */
  lemma FetchedDataOfBare(response: Value)
    requires Prop(response, "data") == Undefined
    ensures FetchedData(response) == if IsNullish(response) then Arr([]) else response
  {
  }

  /** A list answer, bare or wrapped in `data`, is stored as it is; a missing one becomes the empty list. */
  lemma FetchedDataOfList(items: seq<Value>)
    ensures FetchedData(Arr(items)) == Arr(items)
    ensures FetchedData(Obj(map["data" := Arr(items)])) == Arr(items)
    ensures FetchedData(Obj(map["data" := Null])) == Arr([])
    ensures FetchedData(Null) == Arr([]) && FetchedData(Undefined) == Arr([])
  {
    assert Prop(Obj(map["data" := Arr(items)]), "data") == Arr(items);
    assert Prop(Obj(map["data" := Null]), "data") == Null;
  }

  // ---------------------------------------------------------------------
  // Call orders

  /**
    Two overlapping calls, a remove and then an update: the remove fails
    after the update was applied, and restores the list as it was before
    the remove, so the update's edit is lost even though it succeeds.
   */
  method OverlappingFailureDiscardsUpdate(items: seq<Value>, removed: Value, updated: Value, now: int, err: Value)
    returns (final: Value, error: Value)
    ensures final == Arr(items)
    ensures error == ErrorText(err)
  {
    var cache := new ApiCache(Arr(items));
    var a := cache.OptimisticUpdate(Remove, removed, now);
    var b := cache.OptimisticUpdate(Update, updated, now);
    var _ := cache.OnFailure(a, err);
    var _ := cache.OnSuccess(b, Obj(map[]));
    final, error := cache.data, cache.error;
  }

  /** The list after an add of `{text}` is committed with `{id: serverId}`. */
  lemma ConfirmedAddItem(items: seq<Value>, text: string, now: int, serverId: int)
    requires forall i :: 0 <= i < |items| ==> IdOf(items[i]) != Str(TempId(now))
    ensures var r := Promoted(Appended(items, TempId(now), Obj(map["text" := Str(text)])), TempId(now),
                              Obj(map["id" := Num(serverId)]));
      && |r| == |items| + 1 && r[..|items|] == items
      && IdOf(r[|items|]) == Num(serverId)
      && Prop(r[|items|], "text") == Str(text)
  {
    var payload := Obj(map["text" := Str(text)]);
    var data := Obj(map["id" := Num(serverId)]);
    CommitAfterAdd(items, TempId(now), payload, data);
    var item := NewItem(TempId(now), payload);
    assert Spread(item)["text"] == Str(text);
    assert Promote(item, data).fields["text"] == Str(text);
  }

  /** An add that the server confirms with its id: the list gains one item, carrying that id and the payload's fields. */
  method AddConfirmed(items: seq<Value>, text: string, now: int, serverId: int)
    returns (final: Value)
    requires forall i :: 0 <= i < |items| ==> IdOf(items[i]) != Str(TempId(now))
    ensures final.Arr? && |final.elems| == |items| + 1 && final.elems[..|items|] == items
    ensures IdOf(final.elems[|items|]) == Num(serverId)
    ensures Prop(final.elems[|items|], "text") == Str(text)
  {
    var cache := new ApiCache(Arr(items));
    var payload := Obj(map["text" := Str(text)]);
    var call := cache.OptimisticUpdate(Add, payload, now);
    var data := Obj(map["id" := Num(serverId)]);
    var response := Obj(map["data" := data]);
    assert Prop(response, "data") == data;
    assert Promotes(call, response);
    var _ := cache.OnSuccess(call, response);
    assert cache.data == Arr(Promoted(Appended(items, TempId(now), payload), TempId(now), data));
    ConfirmedAddItem(items, text, now, serverId);
    final := cache.data;
  }
}
