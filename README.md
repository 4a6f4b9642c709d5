# A verified model of the TODO list's client cache, service worker and task server

This project models, in Dafny, the parts of the TODO-list application that
have behaviour worth stating:

- the React hook `useApiCache`, which keeps the list shown to the user,
  applies add, remove and update edits optimistically, and promotes or
  rolls them back when the server answers (`api_cache.dfy`);
- the service worker, whose CacheStorage pre-caches the static assets,
  evicts old cache generations, and answers `/api/` requests network-first
  and everything else cache-first (`service_worker.dfy`);
- the server's `MainLogic` controller over the Tasks and Archived tables
  (`task_store.dfy`) and the Flask endpoints in front of it
  (`endpoints.dfy`);
- the client's REST calls and the id guards of `archiveTodo` and
  `deleteTodo` (`todos_api.dfy`);
- the `memoize`, `throttle` and `debounce` combinators (`performance.dfy`).

`js.dfy` holds the JavaScript values and conversions the client relies on:
ToBoolean, ToString, `parseInt(s, 10)` and the decimal rendering of
integers. `end_to_end.dfy` connects the components.

State that the source changes in place is modelled as classes:

- `ApiCache`, with `data`, `loading` and `error`;
- `Worker`, with the cache names, the caches and the requests sent to the network;
- `MainLogic`, with the two tables;
- `Memoized`, `Throttled` and `Debounced`, with their closure variables.

Each of these classes has a method per operation. A promise's settlement
is an explicit call: `OnSuccess`/`OnFailure`, `FetchResolved`/`FetchRejected`,
and `Fire` for a timer expiring. Pure logic, such as list transforms, guards,
replies and paging, is modelled as functions, with lemmas about them.

The environment becomes parameters:

- the clock value behind `temp-<now>`;
- the network's answer to each fetch;
- whether a database operation fails (`dbFails`), after which the session
  rolls back and the tables are as before;
- the configured page size.

Behaviour of the code that the model keeps as written:

- **Rollback snapshot.** Each `optimisticUpdate` call's own updater takes
  its own `prevData` snapshot, kept in that call's closure. A failing call
  restores that snapshot, so it discards any edits other calls made and
  confirmed in between (see `OverlappingFailureDiscardsUpdate`).
- **fetchData and non-list payloads.** Only `null` and `undefined` become
  the empty list. A non-list payload, such as an object, is stored as it is.
- **Row ids.** Ids follow SQLite's rule for an omitted INTEGER PRIMARY KEY:
  one more than the largest id in the table, or 1 for an empty table.
- **Negative offsets.** SQLite reads a negative OFFSET as 0, so page 0 and
  negative pages return the first page.

## Model

| member | source | states |
|---|---|---|
| `Js.Prop` | FrontEnd/src/hooks/useApiCache.js:94 | a property read gives something other than undefined only for an object that has that key; for an object that has the key it gives the key's value |
| `Js.NaturalString` | FrontEnd/src/api/todos.js:32 | the decimal digits of a natural number: non-empty, all digits, no leading zero |
| `Js.DecimalString` | FrontEnd/src/hooks/useApiCache.js:11 | the rendering of an integer opens with a digit or a minus sign |
| `Js.NaturalStringValue` | FrontEnd/src/hooks/useApiCache.js:11 | reading the digits of a natural number back gives the number |
| `Js.TrimStart` | FrontEnd/src/api/todos.js:28 | parseInt's leading-white-space skip: removes exactly a white-space prefix, and what is left does not start with white space |
| `Js.DigitPrefixLength` | FrontEnd/src/api/todos.js:28 | the digit run parseInt reads is all digits and is followed by a non-digit or the end |
| `Js.SplitSign` | FrontEnd/src/api/todos.js:28 | parseInt's sign step: a leading `-` gives -1 and the rest, a leading `+` gives +1 and the rest, and anything else gives +1 and the string unchanged |
| `Js.ParseInt` | FrontEnd/src/api/todos.js:28 | `parseInt(s, 10)` is NaN exactly when no digit follows the white space and the optional sign |
| `Js.TrimStartOfWhiteSpace` | FrontEnd/src/api/todos.js:28 | trimming removes precisely the white-space prefix |
| `Js.DigitPrefixOfDigits` | FrontEnd/src/api/todos.js:28 | the digit run of digits followed by a non-digit is exactly those digits |
| `Js.ParseIntSkipsWhiteSpace` | FrontEnd/src/api/todos.js:28 | leading white space does not change what parseInt reads |
| `Js.ParseIntOfSignedDigits` | FrontEnd/src/api/todos.js:28 | an optionally negative digit string followed by a non-digit parses to its signed value |
| `Js.ParseIntOfDecimalPrefix` | FrontEnd/src/api/todos.js:28 | an integer's decimal rendering followed by non-digit text parses to that integer |
| `Js.ParseIntOfDecimal` | FrontEnd/src/api/todos.js:28 | parseInt reads back any integer's decimal rendering, whatever white space precedes it and whatever non-digit text follows |
| `Js.ParseIntOfNumber` | FrontEnd/src/api/todos.js:28 | `parseInt(String(n), 10) === n` for every integer n |
| `Js.ParseIntOfLetterPrefix` | FrontEnd/src/api/todos.js:48-53 | a string opening with a character that is not white space, a digit or a sign, such as a `temp-` id, parses to NaN |
| `TodosApi.GetTodos` | FrontEnd/src/api/todos.js:7 | a GET of `/tasks` with no body |
| `TodosApi.GetArchives` | FrontEnd/src/api/todos.js:58 | a GET of `/archives` with no body |
| `TodosApi.AddTodo` | FrontEnd/src/api/todos.js:8 | a POST of `/add` whose body is exactly `{task_description: text}` |
| `TodosApi.ArchiveTodo` | FrontEnd/src/api/todos.js:9-39 | null or undefined rejects with `Invalid task ID`; a `temp-` string returns the pending notice and sends nothing; otherwise it sends one POST `/archive` with the parsed `task_id` exactly when parseInt succeeds, and otherwise rejects with `Cannot convert "<id>" to a valid task ID` |
| `TodosApi.DeleteTodo` | FrontEnd/src/api/todos.js:40-57 | null or undefined rejects with `Invalid archive ID`; the result is never a plain value; otherwise it sends one POST `/perm_delete` with the parsed `archive_id` exactly when parseInt succeeds, and otherwise rejects with `Cannot convert "<id>" to a valid archive ID` |
| `TodosApi.ArchiveTodoNumberOrString` | FrontEnd/src/api/todos.js:28-38 | the id `n` and the string `"n"` send the same request, with `task_id` n |
| `TodosApi.DeleteTodoNumberOrString` | FrontEnd/src/api/todos.js:48-56 | the id `n` and the string `"n"` send the same request, with `archive_id` n |
| `TodosApi.ArchiveTodoLenientParse` | FrontEnd/src/api/todos.js:28-33 | a string id with leading blanks or trailing non-digits is still sent, with its numeric part |
| `TodosApi.ArchiveTempId` | FrontEnd/src/api/todos.js:17-25 | archiving a `temp-` id returns the pending notice carrying that id |
| `TodosApi.DeleteTempId` | FrontEnd/src/api/todos.js:48-53 | deleting a `temp-` id rejects with the cannot-convert message |
| `TodosApi.TempIdNeverSent` | FrontEnd/src/api/todos.js:17-53 | a `temp-` id is never sent: archiving returns the pending notice, and deleting rejects through the NaN branch |
| `TaskStore.Truncate` | app/models/control.py:26-27 | text of at most 255 characters is kept as is; longer text becomes its first 255 characters |
| `TaskStore.NextId` | app/models/control.py:28-35 | a new row's id is positive and larger than every id in the table |
| `TaskStore.Find` | app/models/control.py:43 | `filter_by(id=...).first()` gives a row of the table with that id, or None exactly when no row has it |
| `TaskStore.Without` | app/models/control.py:52 | deleting keeps exactly the rows whose id differs |
| `TaskStore.WithoutValid` | app/models/control.py:52 | deleting rows keeps the ids positive and increasing |
| `TaskStore.WithoutMissing` | app/models/control.py:91-95 | deleting an id that no row has leaves the table unchanged |
| `TaskStore.WithoutFound` | app/models/control.py:91-95 | in a valid table, deleting an id that a row has removes exactly one row |
| `TaskStore.WithoutCount` | app/models/control.py:91-95 | with unique ids, deleting an existing id removes exactly one row; deleting a missing id changes nothing |
| `TaskStore.AppendValid` | app/models/control.py:28-32 | inserting a row with the next id and a truncated text keeps the table valid |
| `TaskStore.NewestFirst` | app/models/control.py:113 | `ORDER BY id DESC` is the table read backwards |
| `TaskStore.Page` | app/models/control.py:109-116 | a page has at most `per_page` rows, all from the ordered table |
| `TaskStore.OffsetStep` | app/models/control.py:109 | from page 1 on, the offset is `(page - 1) * per_page` and page n ends at `n * per_page` |
| `TaskStore.PageExtends` | app/models/control.py:109-116 | the rows before a page's offset, followed by the page, are the rows up to the page's end |
| `TaskStore.FirstPagesArePrefix` | app/models/control.py:106-118 | pages 1 to n, one after another, are exactly the first `n * per_page` rows: consecutive pages have no gap and no overlap |
| `TaskStore.PagePastEnd` | app/models/control.py:109-116 | a page starting past the last row is empty |
| `TaskStore.PageIsNewestFirst` | app/models/control.py:113 | every page lists ids in strictly decreasing order |
| `TaskStore.MainLogic.constructor` | app/models/control.py:20-21 | a controller over a freshly initialised database: both tables start empty. The page size is the configured `TASKS_PER_PAGE`, or 10 when none is configured, which the listings read at control.py:108 and fixed here at construction |
| `TaskStore.MainLogic.AddTodo` | app/models/control.py:23-39 | on success, one task with the next id and the truncated text is appended and returned; on a database error, None is returned and the table is unchanged |
| `TaskStore.MainLogic.Archive` | app/models/control.py:41-62 | a missing id or a database error returns None and changes nothing; otherwise the task leaves Tasks (one row fewer) and exactly one Archived row with its text and a new id is added and returned |
| `TaskStore.MainLogic.UnArchive` | app/models/control.py:64-86 | the mirror of archive: the Archived row goes back to Tasks under a new id |
| `TaskStore.MainLogic.PermDelete` | app/models/control.py:89-104 | returns True exactly when an Archived row with the id existed and the commit succeeded, and then removes only that row; otherwise returns False with nothing changed |
| `TaskStore.MainLogic.GetTasks` | app/models/control.py:106-121 | the requested page of Tasks, newest first: at most `per_page` rows, all from the table, with ids descending; an empty list when the query fails |
| `TaskStore.MainLogic.GetArchives` | app/models/control.py:123-138 | the same paging and ordering over Archived |
| `TaskStore.MainLogic.GetTaskById` | app/models/control.py:140-147 | a task is returned exactly when one with that id exists and the query succeeds |
| `TaskStore.MainLogic.GetArchiveById` | app/models/control.py:149-156 | an Archived row is returned exactly when one with that id exists and the query succeeds |
| `Endpoints.ErrorReply` | app/control_endpoints.py:15 | an error reply carries its status and an `error` field with the message |
| `Endpoints.RowId` | app/control_endpoints.py:28-29 | only a JSON integer selects a row by id |
| `Endpoints.AddTaskReply` | app/control_endpoints.py:10-19 | 400 `{error: 'task description is required'}` exactly when the body or its `task_description` is missing; 500 exactly when add_todo raises on the description; otherwise 201 `{message: 'Task added successfully'}`; the reply never carries an id |
| `Endpoints.ArchiveReply` | app/control_endpoints.py:29-33 | 200 `{message: 'Task archived successfully', archived_task_id}`, with no other field and the id equal to the new archive row's, exactly when the controller returned a row; otherwise the fixed 404 |
| `Endpoints.PermDeleteReply` | app/control_endpoints.py:43-46 | 200 `{message: 'Archive permanently deleted successfully'}` exactly when the controller returned True; otherwise the fixed 404 |
| `Endpoints.SerializeRows` | app/control_endpoints.py:54-57 | the listing is a JSON array with one element per row, each an object whose keys are exactly `id` and the text key |
| `Endpoints.SerializeRowsRoundTrip` | app/control_endpoints.py:54-58 | the client can read every row back from the listing, in the controller's order |
| `Endpoints.AddTask` | app/control_endpoints.py:10-19 | the reply is `AddTaskReply`; a string description is stored truncated unless the database fails; nothing else changes the tables |
| `Endpoints.ArchiveTask` | app/control_endpoints.py:21-33 | 400 with no change without `task_id`; otherwise a found task is moved to Archived and its new id returned with 200, or the 404 with no change |
| `Endpoints.DeleteFromArchive` | app/control_endpoints.py:35-46 | 400 with no change without `archive_id`; otherwise 200 and the row removed exactly when it existed and the commit succeeded, or 404 with no change |
| `Endpoints.GetTasks` | app/control_endpoints.py:48-58 | 200 with one `{id, TODO}` per row of the requested page (default 1), in the controller's order, at most `per_page` of them; each element has exactly those two keys |
| `Endpoints.GetArchives` | app/control_endpoints.py:60-70 | 200 with one `{id, Finished}` per row of the requested page (default 1), in the controller's order, at most `per_page` of them; each element has exactly those two keys |
| `ApiCacheHook.TempId` | FrontEnd/src/hooks/useApiCache.js:11 | a temporary id is `temp-` followed by at least one character |
| `ApiCacheHook.NewItem` | FrontEnd/src/hooks/useApiCache.js:15-18 | the new item has the payload's fields and an id; the id is the payload's own id if it has one, else the temporary id |
| `ApiCacheHook.Appended` | FrontEnd/src/hooks/useApiCache.js:20-23 | add appends exactly one item at the end; earlier items are unchanged and in order |
| `ApiCacheHook.Without` | FrontEnd/src/hooks/useApiCache.js:31-37 | after remove, no item has the payload's id, and the list is no longer than before |
| `ApiCacheHook.WithoutKeeps` | FrontEnd/src/hooks/useApiCache.js:31-37 | remove keeps exactly the items whose id differs from the payload's id |
| `ApiCacheHook.MergeInto` | FrontEnd/src/hooks/useApiCache.js:44 | `{...item, ...payload}`: the payload's fields win and the item's other fields stay |
| `ApiCacheHook.Merged` | FrontEnd/src/hooks/useApiCache.js:41-46 | update keeps length and order; matching items are merged with the payload and all others are unchanged |
| `ApiCacheHook.Promote` | FrontEnd/src/hooks/useApiCache.js:56-68 | the promoted item's id is `data.id`, else `data.task_id`, else its own id; `data`'s fields are merged over it, the item's other fields survive unchanged, and no other field appears |
| `ApiCacheHook.Promoted` | FrontEnd/src/hooks/useApiCache.js:59-70 | the commit changes only the items that carry this call's temporary id |
| `ApiCacheHook.Payload` | FrontEnd/src/hooks/useApiCache.js:94-96 | the payload is the response's `data` when the response is truthy and has a `data` property, and the response itself otherwise |
| `ApiCacheHook.FetchedDataUnwraps` | FrontEnd/src/hooks/useApiCache.js:94-97 | a response wrapping a body under `data` stores the body, or `[]` when the body is null |
| `ApiCacheHook.FetchedDataOfBare` | FrontEnd/src/hooks/useApiCache.js:94-97 | a response without a `data` property is stored as it is, or as `[]` when it is null or undefined |
| `ApiCacheHook.FetchedData` | FrontEnd/src/hooks/useApiCache.js:94-97 | fetchData stores the payload; a null or undefined payload becomes the empty list; the result is never null |
| `ApiCacheHook.ErrorText` | FrontEnd/src/hooks/useApiCache.js:81 | the error is `err.message` when truthy, else `An error occurred` |
| `ApiCacheHook.ApiCache.constructor` | FrontEnd/src/hooks/useApiCache.js:3-6 | the list starts as `initialData`, which defaults to `[]`; loading is false and error is null |
| `ApiCacheHook.ApiCache.OptimisticUpdate` | FrontEnd/src/hooks/useApiCache.js:8-47 | the edit is applied at once; the call keeps its own temporary id and the list as it was (null for an unknown operation) |
| `ApiCacheHook.ApiCache.OnSuccess` | FrontEnd/src/hooks/useApiCache.js:48-76 | an add whose response has truthy `data` promotes its temporary item; any other success leaves the list as the optimistic step made it; the response is returned unchanged |
| `ApiCacheHook.ApiCache.OnFailure` | FrontEnd/src/hooks/useApiCache.js:77-83 | the list becomes the failing call's own snapshot, the error is set, and the error is rethrown |
| `ApiCacheHook.ApiCache.BeginFetch` | FrontEnd/src/hooks/useApiCache.js:88-89 | fetchData first sets loading and clears the error |
| `ApiCacheHook.ApiCache.FetchResolved` | FrontEnd/src/hooks/useApiCache.js:91-98 | on success the list becomes the fetched data, loading ends, and the response is returned |
| `ApiCacheHook.ApiCache.FetchRejected` | FrontEnd/src/hooks/useApiCache.js:99-104 | on failure the list is untouched, the error is set, loading ends, and the error is rethrown |
| `ApiCacheHook.WithoutConcat` | FrontEnd/src/hooks/useApiCache.js:31 | remove preserves order: the filter distributes over concatenation |
| `ApiCacheHook.WithoutAbsent` | FrontEnd/src/hooks/useApiCache.js:31-37 | removing an id that no item has leaves the list unchanged |
| `ApiCacheHook.RemoveUndoesAdd` | FrontEnd/src/hooks/useApiCache.js:14-37 | removing the temporary id right after adding it restores the list when the payload had no id |
| `ApiCacheHook.MergedIdempotent` | FrontEnd/src/hooks/useApiCache.js:41-46 | updating twice with the same payload equals updating once |
| `ApiCacheHook.CommitAfterAdd` | FrontEnd/src/hooks/useApiCache.js:54-73 | after an add, the commit touches only the appended item, which takes the server's id or keeps the temporary one |
| `ApiCacheHook.PayloadIdBlocksCommit` | FrontEnd/src/hooks/useApiCache.js:15-18 | a payload with its own id hides the temporary id, so that add's commit changes nothing |
| `ApiCacheHook.FetchedDataOfList` | FrontEnd/src/hooks/useApiCache.js:94-97 | a list, bare or under `data`, is stored as it is; null `data`, null and undefined become `[]` |
| `ApiCacheHook.OverlappingFailureDiscardsUpdate` | FrontEnd/src/hooks/useApiCache.js:21-83 | a remove fails after an overlapping update was applied: the list returns to its state before the remove, the update's edit is lost, and the error is set |
| `ApiCacheHook.ConfirmedAddItem` | FrontEnd/src/hooks/useApiCache.js:54-68 | committing an add of `{text}` with `{id}` keeps the earlier items, and the new item has the server's id and the text |
| `ApiCacheHook.AddConfirmed` | FrontEnd/src/hooks/useApiCache.js:14-73 | an add confirmed with `{data: {id}}` leaves one new item at the end, with the server's id and the payload's text; earlier items are unchanged |
| `ServiceWorker.AssetRequests` | FrontEnd/public/service-worker.js:8-13 | the four static assets are GETs of `/`, `/index.html` and the two bundles |
| `ServiceWorker.Match` | FrontEnd/public/service-worker.js:62 | `cache.match` finds an entry only for a GET of a stored URL |
| `ServiceWorker.Put` | FrontEnd/public/service-worker.js:56 | `cache.put` replaces the URL's entry for a GET and leaves the cache unchanged otherwise |
| `ServiceWorker.MatchAll` | FrontEnd/public/service-worker.js:69 | `caches.match` gives a response from some cache that matches, or none exactly when no cache matches |
| `ServiceWorker.MatchAllFirst` | FrontEnd/public/service-worker.js:69 | the response `caches.match` gives comes from the first cache, in creation order, that has a match; no earlier cache matches |
| `ServiceWorker.Kept` | FrontEnd/public/service-worker.js:33-37 | the surviving names are exactly the listed names that are one of the two current caches |
| `ServiceWorker.Remove` | FrontEnd/public/service-worker.js:35 | deleting a cache drops exactly its name and keeps the names distinct |
| `ServiceWorker.RemoveConcat` | FrontEnd/public/service-worker.js:35 | dropping a name distributes over concatenation |
| `ServiceWorker.RemoveAbsent` | FrontEnd/public/service-worker.js:35 | dropping a name that is not listed changes nothing |
| `ServiceWorker.MatchAfterPut` | FrontEnd/public/service-worker.js:69-77 | after a miss in every cache, storing the response in one cache makes the store answer with it |
| `ServiceWorker.KeptStepAllowed` | FrontEnd/public/service-worker.js:34 | a current cache name survives activate's loop in place |
| `ServiceWorker.KeptStepRemoved` | FrontEnd/public/service-worker.js:34-35 | deleting an old name leaves the surviving prefix followed by the names not yet visited |
| `ServiceWorker.Worker.constructor` | FrontEnd/public/service-worker.js:4-5 | a worker starts with no caches and no network traffic |
| `ServiceWorker.Worker.Open` | FrontEnd/public/service-worker.js:51 | `caches.open` adds an empty cache at the end of the order when the name is new, and otherwise changes nothing |
| `ServiceWorker.Worker.Delete` | FrontEnd/public/service-worker.js:35 | `caches.delete` reports whether the cache existed and removes exactly that cache |
| `ServiceWorker.Worker.Store` | FrontEnd/public/service-worker.js:56 | writing into an open cache replaces that cache's entries only, and changes neither the order of the caches nor the traffic |
| `ServiceWorker.Worker.Install` | FrontEnd/public/service-worker.js:16-25 | install opens the static cache and sends all four asset requests; it succeeds exactly when every one is fetched with an ok status, and then stores all of them, or else none |
| `ServiceWorker.Worker.Prune` | FrontEnd/public/service-worker.js:32-36 | one name of activate's loop: an old cache is deleted and a current one kept, so the caches present are exactly the old ones that are current or not yet visited, with their entries unchanged |
| `ServiceWorker.Worker.Activate` | FrontEnd/public/service-worker.js:28-41 | activate deletes every cache other than `todo-static-v1` and `todo-api-v1` and leaves those two untouched, in their order |
| `ServiceWorker.Worker.HandleApiFetch` | FrontEnd/public/service-worker.js:48-65 | an API request always goes to the network and its answer is returned whatever its status; only a GET answered ok is stored in `todo-api-v1`; on a network error the API cache's match is served, or nothing |
| `ServiceWorker.Worker.HandleStaticFetch` | FrontEnd/public/service-worker.js:66-83 | a hit in any cache is served with no network access; a miss is fetched, stored in `todo-static-v1` when ok, and served; a network error propagates with no change |
| `ServiceWorker.Worker.HandleFetch` | FrontEnd/public/service-worker.js:44-84 | a request under `/api/` gets exactly the network-first outcome: the API cache is opened and the request is sent; any fetched response is returned, and a GET answered ok is stored; a network error serves the API cache's match, or nothing. Any other request gets exactly the cache-first outcome: a hit in any cache is returned with nothing sent; a miss is fetched, and the response is returned and stored in the static cache when it is a GET answered ok; a network error on a miss gives no response |
| `ServiceWorker.Worker.RepeatStaticRequest` | FrontEnd/public/service-worker.js:69-77 | after one ok fetch of a static GET, asking again is served from the cache with no further network request |
| `ServiceWorker.Stored` | FrontEnd/public/service-worker.js:23 | `addAll`'s batch put adds an entry for every asset URL |
| `ServiceWorker.OldEntries` | FrontEnd/public/service-worker.js:51 | an opened cache holds its old entries, or none when it is new |
| `ServiceWorker.StoredHasEach` | FrontEnd/public/service-worker.js:23 | every asset is stored with the response fetched for it |
| `ServiceWorker.AssetUrls` | FrontEnd/public/service-worker.js:8-13 | the asset URLs are pairwise different and none lies under `/api/` |
| `ServiceWorker.InstalledMatch` | FrontEnd/public/service-worker.js:20-24 | right after install, the store answers each asset with its fetched response |
| `ServiceWorker.InstallThenServeOffline` | FrontEnd/public/service-worker.js:16-83 | after a successful install, every asset is served while the network is down, and only the four install requests ever reached the network |
| `Performance.Memoized.constructor` | FrontEnd/src/utils/performance.js:54-55 | the cache starts empty and fn has not run |
| `Performance.Memoized.Call` | FrontEnd/src/utils/performance.js:57-66 | a known key returns the stored result without running fn; a new key runs fn once and stores the result under that key |
| `Performance.Memoized.AtMostOncePerKey` | FrontEnd/src/utils/performance.js:58-65 | a key is cached exactly when fn has run for arguments with that key; at most one invocation has that key; the stored result is fn of those arguments |
| `Performance.Throttled.constructor` | FrontEnd/src/utils/performance.js:35 | a throttle starts open |
| `Performance.Throttled.Call` | FrontEnd/src/utils/performance.js:37-44 | when open, func runs at once and the throttle closes; when closed, the call is dropped |
| `Performance.Throttled.Fire` | FrontEnd/src/utils/performance.js:41-43 | the timer's expiry reopens the throttle without running func |
| `Performance.ThrottleOncePerWindow` | FrontEnd/src/utils/performance.js:38-43 | over any run of calls and expiries, func has run once per expired window plus once for a window still open |
| `Performance.Debounced.constructor` | FrontEnd/src/utils/performance.js:14 | a debounce starts with no timer pending |
| `Performance.Debounced.Call` | FrontEnd/src/utils/performance.js:16-24 | each call replaces the pending timer with one carrying its own arguments and runs nothing |
| `Performance.Debounced.Fire` | FrontEnd/src/utils/performance.js:17-20 | the expiring timer runs func once, with the arguments it was scheduled with |
| `Performance.DebounceBurst` | FrontEnd/src/utils/performance.js:22-23 | a burst of calls runs nothing and leaves only the last call's arguments pending |
| `Performance.DebounceRunsLastCall` | FrontEnd/src/utils/performance.js:16-24 | when the timer fires after a burst, func runs exactly once, with the last call's arguments |
| `EndToEnd.AsFetched` | FrontEnd/src/api/todos.js:3-5 | the worker sees each client request at the base URL followed by the request's path |
| `EndToEnd.ClientRequestsAreApiCalls` | FrontEnd/public/service-worker.js:45-48 | every client request path lies under `/api/`, so it takes the network-first strategy |
| `EndToEnd.ClientRequestsClassified` | FrontEnd/src/api/todos.js:7-58 | all five client requests take the API strategy, and the three writes are POSTs, which the worker never stores |
| `EndToEnd.ArchiveTargetsParsedId` | app/control_endpoints.py:24-29 | the `task_id` that archiveTodo sends is present, and is the parsed id the endpoint looks up |
| `EndToEnd.DeleteTargetsParsedId` | app/control_endpoints.py:38-43 | the `archive_id` that deleteTodo sends is present, and is the parsed id the endpoint looks up |
| `EndToEnd.TempIdsAreHeldBack` | FrontEnd/src/api/todos.js:17-25 | the cache's temporary ids are among the ones archiveTodo holds back, and deleteTodo rejects them |
| `EndToEnd.ArchivePendingItem` | FrontEnd/src/hooks/useApiCache.js:24-48 | removing an item that still has its temporary id takes it out of the list at once; archiveTodo then returns a plain value, so no settlement runs: the item stays removed, the snapshot is never restored and no error is set |
| `EndToEnd.AxiosResponse` | FrontEnd/src/hooks/useApiCache.js:94 | the response wrapper is truthy and its `data` is the JSON body |
| `EndToEnd.AddReplyToClient` | app/control_endpoints.py:17-19 | the body addTodo sends is answered with 201 and the fixed message |
| `EndToEnd.CommitOfAddReply` | FrontEnd/src/hooks/useApiCache.js:54-68 | committing an add with the /add reply's body keeps the earlier items; the new item keeps its temporary id and its text, and gains the message |
| `EndToEnd.AddReplyKeepsTempId` | FrontEnd/src/hooks/useApiCache.js:54-68 | because the /add reply carries no id, the committed item keeps its temporary id and only gains the reply's message; archiving it then returns only the pending notice |
| `EndToEnd.ListedItemArchivesItsRow` | app/control_endpoints.py:54-57 | a listing fetched through the cache keeps the server's rows, and archiving a listed item sends that row's id to the endpoint |

## Left out

- Logging (`console.*`, `current_app.logger`) is not modelled, because it has no effect on state or results.
- React's scheduling is not modelled. `setData` updaters are applied at once and in call order.
- Real timers and the `wait` durations are not modelled. A timer's expiry is an explicit `Fire`.
- `Date.now()` is not modelled. Its value is a parameter.
- The network is not modelled. Each fetch is given its outcome as a parameter.
- The database is not modelled. A failure is the `dbFails` parameter, and SQLAlchemy sessions are not modelled.
- `self.skipWaiting()` is not modelled, because worker life-cycle timing is out of scope.
- `Response` cloning, `Vary` handling, opaque responses and the 206 check in `addAll` are not modelled.
- URL fragments are not modelled. A cache key is the URL's origin, path and query.
- The service worker's static assets are assumed to resolve against the origin root, where the worker script is served.
- JavaScript numbers are mathematical integers. Fractions, `NaN` values passed in, precision loss beyond 2^53, and the exponent form of ToString for magnitudes of 10^21 and above are not modelled.
- Object and array ids are compared structurally. JavaScript's `===` compares them by reference; ids in this application are numbers and strings.
- Spreading a string or an array yields no fields in the model. JavaScript would copy index keys.
- Reading a property of `null` or `undefined` yields undefined in the model. JavaScript throws a TypeError.
- A request body that is valid JSON but not an object (a list or a string) is not modelled. The request body is either absent or an object.
- Flask's own handling of `request.json` is not modelled: a body without a JSON content type is answered 415 and malformed JSON gets Flask's 400 page, whereas the model gives every body without JSON the handler's own 400 `{error: ...}`. The client always sends JSON.
- Endpoints.RowId: a string or boolean id selects no row. SQLite's type affinity would match `"3"` to the row with id 3, and Python binds `True` as 1, so `true` would match the row with id 1. A JSON list or object `task_id` or `archive_id` cannot be bound by the lookup, which runs outside the `try`, so the source answers 500 where the model answers 404. The client only ever sends numbers.
- The query-string conversion `type=int` is abstracted as an optional integer for the page argument.
- The lookup in `archive`, `unArchive` and `perm_delete` runs outside the `try`. A failure there raises to the 500 handler, which is not modelled. `dbFails` covers only the guarded part.
- ApiCacheHook.ApiCache.OptimisticUpdate: requires the list to be an array for add, remove and update. When `fetchData` stored a non-list payload, remove and update throw inside the React updater (`filter` and `map` are array methods). Add spreads `current`, which works for any iterable, so a string would be split into characters, and throws only for a non-iterable value.
- ApiCacheHook.ApiCache.OptimisticUpdate: an `apiCall` that does not return a promise is not modelled as an error. This happens when archiveTodo returns its plain notice for a `temp-` id, or when `apiCall` throws synchronously. The source then throws a TypeError, or the thrown error, out of `optimisticUpdate`. The optimistic edit stays in place, with no rollback and no error set. `EndToEnd.ArchivePendingItem` states the resulting state for the archive case.
- ApiCacheHook.ApiCache.OnSuccess: requires the list to be an array when an add is promoted, for the same reason.
- Performance.Memoized.Call: `fn` is a total function. A throwing `fn`, which stores nothing, and `JSON.stringify` errors are not modelled. The serialisation is the `key` parameter.
- Performance.Throttled.Fire: requires the throttle to be closed, because a timer exists only then.
- Performance.Throttled.Call: `func` is total. A `func` that throws does so before `inThrottle` is set, so the throttle stays open and no timer starts; that path is not modelled.
- Performance.Debounced.Fire: requires a pending timer, because a timer exists only then.
- `MainLogic` takes the page size as a constructor argument rather than reading it from the Flask configuration.
