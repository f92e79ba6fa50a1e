# HTTP C2 lab: task/result store and beacon cycle

This project models the dispatcher of a small command-and-control lab. The
server (`c2_Server/server.py`) keeps two JSON documents. Each one maps an agent
identifier to an insertion-ordered list of records:

- the task queue holds `{task_id, task, issued}`;
- the result log holds `{task_id, output, received}`.

Three request handlers act on these documents:

- `add_task` appends a task with a fresh identifier;
- `fetch_tasks` returns an agent's list without consuming it;
- `upload_results` appends a result and checks nothing against the task queue.

Each handler loads the document it needs and falls back to an empty mapping if
the file is missing or unreadable. The two writing handlers, `add_task` and
`upload_results`, then change the mapping in memory and save it back whole.
`fetch_tasks` only reads; it never saves.

The agent (`c2_client.py`) runs a beacon cycle: it fetches its pending tasks,
runs each one through the toy interpreter `perform_task`, and reports one
result per task.

In the model, everything is a pure function on immutable values:

- a document is a `StoreFile` (`Missing`, `Corrupt` or `Parsed(map)`), and the
  server state is a `Disk` holding both documents;
- the UUID, the wall-clock readings and the transport outcomes are parameters;
- the cycle is a function from a `Disk` to a `Disk`, and an imperative method
  mirrors the client's `for` loop and is proved equal to it.

Modules:

- `Store` (store.dfy): the generic document of the server, with `Load`, `Save`, `Entries` and `Append`.
- `Server` (server.dfy): the records, the three handlers, and task-identifier uniqueness over runs of enqueues.
- `Agent` (agent.dfy): `perform_task`, the client's reading of the fetch reply, and the per-cycle report list.
- `Beacon` (beacon.dfy): one cycle of the agent against the server, with uploads that can be lost, and the two-cycle re-delivery property.
- `Wrappers` (wrappers.dfy): `Option`, for a JSON member that may be absent.

## Model

| member | source | states |
|---|---|---|
| Store.Load | c2_Server/server.py:50-56 | Loading never fails. A missing or unparseable file yields the empty mapping, and a parsed one is returned unchanged. `load_results` (lines 63-69) is the same function at another record type. |
| Store.Save | c2_Server/server.py:58-61 | Saving overwrites the whole document, and loading the saved file gives back exactly the mapping that was saved. |
| Store.Append | c2_Server/server.py:114-126 | The agent's key is added if absent. Its list becomes the old list (or the empty list) with one record at the end. Every other agent's list is unchanged. `upload_results` (lines 147-156) does the same on the result log. |
| Server.FetchTasks | c2_Server/server.py:96-100 | An unknown agent, or an unreadable task file, gives the empty list rather than an error. Otherwise the result is the stored list verbatim. |
| Server.AddTask | c2_Server/server.py:105-131 | The returned id is the fresh id. The agent's pending list is the old one plus `{freshId, text, issued}` at the end, and has length 1 for a previously unknown agent. Other agents' lists and the whole result file are unchanged. |
| Server.UploadResults | c2_Server/server.py:137-161 | Appends exactly `{taskId, output, received}` to the agent's result log, with no requirement on `taskId`. Other agents' logs and the task file are unchanged. |
| Server.AddTaskOnUnreadableFile | c2_Server/server.py:111-129 | An enqueue against a missing or corrupt task file saves a document that holds only the new record. Whatever the unreadable file held is silently lost. |
| Server.AppendTaskIds | c2_Server/server.py:122-126 | Appending a task adds exactly its id to the set of ids present. |
| Server.AddTaskKeepsIdsDistinct | c2_Server/server.py:118-126 | If the new id is not already present, every task id in the mapping stays pairwise distinct after the enqueue. |
| Server.RunEnqueues | c2_Server/server.py:105-131 | Serving a sequence of `add_task` requests in order hands back one id per request and never touches the result file. The lemmas below state what it does to the task file. |
| Server.RunEnqueuesReturnsIds | c2_Server/server.py:119-131 | Across a run of enqueues, the id returned for request k is the fresh id request k was given. |
| Server.RunEnqueuesKeepsIdsDistinct | c2_Server/server.py:119-126 | If each id is fresh when its request is served, all task ids stay pairwise distinct after any run of enqueues. |
| Server.RunEnqueuesTaskIds | c2_Server/server.py:119-126 | After a run, the ids present are the earlier ones plus the supplied ones. |
| Server.FreshIdsDistinct | c2_Server/server.py:119 | If each id is fresh at its turn, the supplied ids are pairwise distinct. |
| Server.RunEnqueuesIdsDistinct | c2_Server/server.py:119-131 | If each id is fresh at its turn, the ids handed back by a run of enqueues are pairwise distinct. |
| Server.RunEnqueuesPending | c2_Server/server.py:112-126 | After any run of enqueues, an agent's pending list is its old list followed by exactly the records of the requests addressed to it, in request order. |
| Server.EnqueueNForNewAgent | c2_Server/server.py:114-126 | N enqueues for an agent with no entry leave exactly N pending records: the requests' records, in enqueue order. |
| Server.IssuedForOneAgent | c2_Server/server.py:122-126 | When every request names the same agent, that agent receives one record per request, in order. |
| Server.UploadKeepsPending | c2_Server/server.py:145-159 | Recording any result, even an orphan, leaves every agent's pending tasks unchanged. The recorded entry is the last one in the agent's log. |
| Server.AddTaskKeepsResults | c2_Server/server.py:111-129 | Enqueueing leaves every agent's result log unchanged. |
| Agent.PerformTask | c2_client.py:46-55 | "hello" gives "world", "time" gives "Current time: " plus the clock reading, and any other text t gives "Unknown task: " + t. The output alone tells which branch ran: it is "world" iff the task was "hello", starts with the time prefix iff the task was "time", and starts with the unknown prefix otherwise. |
| Agent.UnknownTaskEchoed | c2_client.py:54-55 | For an unknown task, the task text is recovered by dropping the prefix from the output. |
| Agent.ClientFetch | c2_client.py:70-76 | The result is the `"tasks"` list when the reply carries one. It is empty exactly when the transport failed, the `"tasks"` key is absent, or the list is empty. |
| Agent.Reports | c2_client.py:112-122 | Exactly one report per fetched task, in fetched order. Report i carries task i's id and `perform_task` of task i's text. |
| Agent.ReportsCoverFetched | c2_client.py:112-118 | The ids of a cycle's reports are the fetched tasks' ids, in order. |
| Beacon.Serve | c2_Server/server.py:98-100 | When the transport succeeds, the client reads back exactly the list the server's fetch handler produced. |
| Beacon.Fetched | c2_client.py:108 | The tasks worked on in a cycle are the agent's pending list if the fetch got through, and nothing otherwise. |
| Beacon.Send | c2_client.py:81-93 | A lost upload leaves the server state unchanged, and the cycle goes on. A received one appends exactly `{taskId, output, received}` to the agent's result log. Either way, other agents' logs and the task file are unchanged. |
| Beacon.Deliver | c2_client.py:112-122 | Uploading a cycle's reports one after another never touches the task file. Its effect on the result logs is stated by `Beacon.DeliverRecords`. |
| Beacon.DeliverRecords | c2_client.py:112-122 | Uploading a cycle's reports appends exactly the received ones, in report order, to the agent's log. A lost upload does not stop the later ones. Other agents' logs are unchanged. |
| Beacon.RecordedAllDelivered | c2_client.py:121 | If every upload is received, each report becomes exactly one result record, in order, with its receipt time. |
| Beacon.Cycle | c2_client.py:108-125 | A cycle never writes the task file, so every agent's pending list is unchanged: fetching is a peek and not a dequeue, and uploads only touch the result file. It appends the received reports of the fetched tasks to the agent's log and leaves other agents' logs alone. |
| Beacon.CycleRecordsEachPendingTask | c2_client.py:108-122 | In a fully delivered cycle, the records appended are one per pending task, in pending order. Record i carries task i's id, task i's output and receipt time i. |
| Beacon.EmptyFetchNoReports | c2_client.py:108-125 | If a cycle fetches nothing, because the fetch failed or nothing is pending, it sends no reports and leaves the server state unchanged. |
| Beacon.AddedIds | c2_client.py:112-122 | The ids a fully delivered cycle appends are the pending ids, in order. |
| Beacon.TwoCyclesRecordTwice | c2_client.py:101-125 | Two fully delivered cycles with no enqueue between them leave the pending list unchanged. They extend the agent's result log by the pending ids and then by the same ids again, so every pending task's result is recorded twice. |
| Beacon.RunCycle | c2_client.py:108-125 | The client's loop body (fetch, then per task compute the output and send it at once) produces exactly the report list of `Reports` and the server state of `Cycle`. |

## Left out

- The check-in endpoint and the client's `checkin` (c2_Server/server.py:79-90, c2_client.py:58-65): they change no state. They only format a message with the clock.
- Flask routing, `request.json` parsing and `jsonify` responses. A request with a missing field would put `None` into a record; the model assumes well-formed strings.
- JSON encoding, indentation and file handles. A document is a `StoreFile`, and saving replaces it.
- A parsed file whose top level is not a mapping (for example a JSON list, a number or `null`). Every handler would then raise: `fetch_tasks` at `tasks.get` (c2_Server/server.py:99), and `add_task` and `upload_results` at the `in` test, the key assignment or the `append` (c2_Server/server.py:115-122, 148-152). So `Parsed` always holds a mapping.
- A mapping whose values are not lists of record objects (for example a hand-edited `{"agent-123": ["x"]}`). `fetch_tasks` would return `["x"]`, and the client's `t.get` (c2_client.py:113) would then raise outside any `try`, ending `agent_loop`. `Parsed` assumes every value is a list of well-formed records.
- `uuid.uuid4()`: the fresh id is a parameter. Global uniqueness is an explicit freshness hypothesis (`FreshRun`), because the source relies on UUID collisions being negligible and never checks.
- The wall clock. `issued`, `received` and the reading used by the `"time"` task are opaque strings supplied by the caller. The source writes `issued` with `datetime.now(timezone.utc)` (with an offset) and `received` with `datetime.utcnow()` (without one), so the two formats differ. The model does not distinguish them.
- HTTP calls, timeouts, `print` logging, the `random.randint` jitter and `time.sleep` in the client. A failed fetch is `reachable == false`. A failed `send_results` is a `Lost` delivery that does not reach the server. A request that reached the server but whose reply was lost is counted as `Delivered`.
- The endless `while True` loop of `agent_loop`: the model has one cycle (`Cycle`, `RunCycle`) and the composition of two (`TwoCyclesRecordTwice`).
- Concurrent requests. Two writers of the same document (two `add_task` calls, or two `upload_results` calls) that interleave their load/save lose one update. `add_task` and `upload_results` write different files (c2_Server/server.py:129, 159), so they never race with each other. The model is sequential, and each handler runs to completion.
- Atomicity of `save`. The source writes in place, so a crash mid-write leaves a file that later loads as empty. That is the `Corrupt` case, but the crash itself is not modelled.
- Failures of `save_tasks`/`save_results`. These run with no `try`, and the file paths are relative to the working directory (c2_Server/server.py:46-47, 58-61, 71-74). A failed `open(..., "w")` therefore makes `add_task` or `upload_results` raise: nothing is saved and no `task_id` is returned. In the model `Save` always succeeds and `AddTask` always returns the fresh id.
- Whether the agent's id can be routed at all. The client splices `AGENT_ID` unquoted into the URL (c2_client.py:43, 71), and the route `<agent_id>` (c2_Server/server.py:95) never matches an empty id or one containing `/`; a `?` or `#` cuts the id short, so the server reads a different id. The model assumes the id is routable as written. A fetch that cannot be routed is covered by `reachable == false`, like a transport failure; a truncated id is not modelled.
