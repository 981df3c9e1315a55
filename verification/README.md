# health: coordinator core in Dafny

`health` is a small monitoring system. Agents register with a coordinator
("aidi"). The coordinator keeps two in-memory stores:

- a client store, holding one `ClientInfo` per agent name;
- a status store, holding one status record per agent name.

Every second it polls every registered agent's `/metrics/health` endpoint and
saves the resulting snapshot. A failed fetch saves a "down" snapshot instead.
It also serves the stored records at `/aidi/health/`. Agents measure CPU
utilisation from `/proc/stat` and keep a rolling average of their HTTP
response times.

This project models the decision logic of that core as pure functions over
immutable values, and proves what each operation promises:

| module | file | models |
|---|---|---|
| `Wrappers` | wrappers.dfy | `Option` and `Result` |
| `Text` | text.dfy | Go's `strings.Split` (one-character separator), `TrimPrefix`, `TrimSuffix`, `strings.Fields`, `%d` formatting, `strconv.ParseUint(s, 10, 64)` |
| `Models` | models.dfy | `ClientInfo`, the health snapshot, the stored status record, and their zero values |
| `Keyed` | keyed.dfy | the save-by-key loop both stores share: replace the first entry with the same key in place, otherwise append |
| `ClientStore` | client_store.dfy | `Save` and `Get` |
| `StatusStore` | status_store.dfy | `Save`, `SaveAll`, `Find` and `FindAll` |
| `Network` | network.dfy | `ResponseAverager`, `AddVal`, the process-wide averager, and the sum and count behind `Average` |
| `Cpu` | cpu.dfy | `calculate`: the per-line accumulation of `/proc/stat` counters in Go `uint64` |
| `Server` | server.dfy | `errorStatus`, `send` over an abstract fetch outcome, `pingAll` as a sequential fold, and the listener restart counter |
| `Handlers` | handlers.dfy | registration normalisation in `registerHandler`, and the routing and replies of `clientInfoHandler` |

Some inputs are parameters of the model:

- the remote address and the decoder's result for a registration;
- the request URI of a health request, from which both the route and the `poll` query value are derived;
- whether JSON encoding fails;
- the outcome of an HTTP GET and the clock reading that stamps a record;
- the lines of `/proc/stat` and `runtime.NumCPU()`.

A store is a `seq`, in insertion order. The source's `HealthStatus` wrapper
in the server package is called `StatusRecord` here, so that it is not
confused with the snapshot type `HealthStatus`.

Where the model follows the code rather than the interface:

- `StatusStore.Find` returns the record or an error, as the `StatusStore`
  interface declares. `clientInfoHandler` uses a single result
  (internal/server/handlers.go line 64) and then tests for an empty
  `ClientName`. `Handlers.Answer` models that as "the record, or the zero
  record when there is none", followed by the empty-name test.
- A `registerHandler` request whose body does not decode still saves the
  normalised record. The handler writes 400 and then 201. net/http keeps the
  first status written, so the client sees 400 (`Handlers.Register`).

## Model

| member | source | states |
|---|---|---|
| Keyed.Upsert | internal/server/store/client-store.go:22-36 | Saving by key replaces the first entry with that key in place (same length) or appends. Afterwards the key looks up to the saved value. Every entry with another key keeps its position and value, and unique keys stay unique. |
| Keyed.LookupUpsertAll | internal/server/store/status-store.go:42-46 | After saving a batch in order, a key finds the last batch element with that key, or what it found before when the batch has none. |
| Keyed.UpsertAllFromEmptyOrder | internal/server/store/client-store.go:22-36 | Starting from empty, the entries appear in the order in which their keys first occur in the saved sequence. |
| ClientStore.Save | internal/server/store/client-store.go:22-36 | A known name has its first entry replaced at the same index. An unseen name is appended. Other agents keep positions, values and order. The name set gains the name, and unique names stay unique. |
| ClientStore.SaveIdempotent | internal/server/store/client-store.go:22-36 | Saving the same record twice leaves the registry as saving it once. |
| ClientStore.GetAfterRegistrations | internal/server/store/client-store.go:22-40 | After any registrations, Get lists one entry per distinct name, each the latest registration under that name, in first-registration order. |
| StatusStore.Find | internal/server/store/status-store.go:48-55 | Success is the first record with the name. Failure happens exactly when no record has the name, and its error text is "value <name> not found". |
| StatusStore.Save | internal/server/store/status-store.go:26-40 | A known name has its first record overwritten at the same index. An unseen name is appended. Every record under another name keeps its index and value, so Find(name) yields the saved record and Find of every other name is unchanged. The store grows, by one, only for an unseen name. Unique names stay unique. |
| StatusStore.FindAfterUpsert | internal/server/store/status-store.go:26-55 | After a save, Find(name) yields the saved record and Find of every other name is unchanged. |
| StatusStore.SaveAll | internal/server/store/status-store.go:42-46 | Saving a batch adds exactly the batch's names to the store's names. The store never shrinks and grows by at most the batch length. Unique names stay unique. |
| StatusStore.SaveAllSequential | internal/server/store/status-store.go:42-46 | Saving a + b is saving a and then saving b. |
| StatusStore.SaveAllLastWins | internal/server/store/status-store.go:42-55 | After SaveAll, Find(name) yields the last record of the batch with that name. A name not in the batch is found as before. |
| StatusStore.FindAllCountsNames | internal/server/store/status-store.go:42-59 | From an empty store, FindAll after SaveAll holds exactly one record per distinct name of the batch. |
| Network.AddVal | internal/status/network.go:28-35 | The value becomes the newest. A full list drops exactly its oldest value. A non-full list grows by one with the old values untouched. A list within a positive cap stays within it. |
| Network.AddAll | internal/status/network.go:8-35 | Any sequence of additions to a non-empty averager within a positive cap leaves it non-empty and never longer than maxN. |
| Network.GlobalWindow | internal/status/network.go:16-35 | The global averager, seeded with one 0 and capacity 50, always holds the last min(50, 1 + n) values of 0 followed by the n values added, in arrival order. So it is never empty. |
| Network.Average | internal/status/network.go:37-44 | The loop total is the sum of all stored values and the count is their number. |
| Text.Split | internal/server/handlers.go:56 | strings.Split with a one-character separator: at least one piece, no piece contains the separator, and joining the pieces with it gives back the input. |
| Text.SplitJoin | internal/server/handlers.go:56 | Splitting a join of separator-free pieces gives back exactly those pieces. |
| Text.Fields | internal/status/cpu.go:83 | strings.Fields: every field is non-empty and white-space free, and the fields concatenated are the line with its white space removed. |
| Text.ParseUint | internal/status/cpu.go:94 | strconv.ParseUint(s, 10, 64) succeeds exactly on a non-empty string of decimal digits whose value is below 2^64, and yields that value. |
| Text.NatToString | internal/server/server.go:166 | %d of a non-negative number: decimal digits without a leading zero whose value is the number. |
| Cpu.KindOfMeaning | internal/status/cpu.go:87-105 | A line counts for the aggregate iff its first field is exactly `cpu`. It counts for core N only if its first field is `cpu` followed by decimal digits whose value is N. |
| Cpu.KindOfLabels | internal/status/cpu.go:87-105 | `cpu` selects the aggregate, and `cpu` followed by any non-empty digit string selects the core that the digits' value names. |
| Cpu.AddFieldsFrom | internal/status/cpu.go:93-103 | The inner field loop adds, modulo 2^64, exactly the values of the fields that parse as uint64 and skips the others. Idle becomes field 4's value when that field parses, and keeps its old value otherwise. |
| Cpu.Step | internal/status/cpu.go:82-128 | One /proc/stat line: a line with no fields or another label changes nothing, a `cpu` line changes only the aggregate, and a `cpuN` line changes only core N. |
| Cpu.Calculate | internal/status/cpu.go:79-131 | One counter pair per core. The aggregate holds the wrapped sum of the parsed fields of all `cpu` lines and the idle column of the last `cpu` line that has one. Core k holds the same for the `cpuk` lines. |
| Cpu.IdleAtMostTotal | internal/status/cpu.go:93-103 | As long as the sum does not pass 2^64, the idle counter never exceeds the total, for the aggregate and for every core. |
| Server.Send | internal/server/server.go:157-178 | Every outcome gives one record named after the agent and stamped with the probe time. A 200 response that decodes is stored verbatim. A transport error, a non-200 code or an undecodable body gives a down snapshot with zero metrics whose status is the error text, or "did not get 200 response, got " followed by the code's digits. |
| Server.ErrorStatus | internal/server/server.go:119-124 | The error snapshot is down, carries the error text as its status, and reports zero CPU, memory and network. |
| Server.SendAll | internal/server/server.go:126-133 | The fetch loop sends exactly one record per registered client, in registry order. Each record is named after its client and stamped with its probe's time. A client whose fetch failed is reported down. A client whose fetch succeeded is reported with the fetched snapshot. |
| Server.FailedFetchesReportDown | internal/server/server.go:126-178 | A fetch loop in which M fetches fail reports at least M agents down. It reports exactly M when no agent that answered reports itself down. |
| Server.PingAll | internal/server/server.go:126-138 | One record is sent per client, named after it. Afterwards the store's names are its old names plus every registered name. The store grows by at most the number of clients. |
| Server.PingAllCoversClients | internal/server/server.go:126-138 | After a poll cycle every registered client has a status record. With distinct names, each client's record is the one sent for it. From an empty store there is exactly one record per client. |
| Server.OnListenerError | internal/server/server.go:99-108 | A listener error increments the reset count. The listener is relaunched exactly when the new count is below 3. |
| Server.AfterErrors | internal/server/server.go:91-108 | After k <= 3 errors the count is k and the listener runs iff k < 3. After the third error no listener runs, so no further error can occur, and at most two relaunches have been made. |
| Handlers.RemoteHost | internal/server/handlers.go:29-31 | The first ':'-separated piece of the remote address: it has no ':', and it is the whole address or is followed there by ':'. |
| Handlers.Normalize | internal/server/handlers.go:15-33 | Name and key are kept. Port 0 becomes 9999 and any other port is kept. The URL is rebuilt as http://host:port/metrics/health exactly when the remote host is non-empty, and the decoded URL is kept otherwise. |
| Handlers.Register | internal/server/handlers.go:15-39 | The registry maps the name to the normalised record and other agents are untouched. 201 is written last. 400 is written iff decoding failed, and then it is the status the client sees. |
| Handlers.RouteOf | internal/server/handlers.go:46-60 | A trimmed URI with more than two '/' is a bad path, and one with fewer than two lists all. One with exactly two looks up the '/'-free text after its last '/'. |
| Handlers.QueryGet | internal/server/handlers.go:51 | Get on a parsed query yields the value after the first '=' of the first non-empty, ';'-free '&'-piece whose key matches. It yields "" when no piece has that key. |
| Handlers.NoQueryNoPoll | internal/server/handlers.go:51-54 | A request URI without '?' has the poll value "", so it never asks for a long poll. |
| Handlers.PollOfQuery | internal/server/handlers.go:51-54 | A query that is the single piece poll=v gives the poll value v. |
| Handlers.PollTrue | internal/server/handlers.go:51-54 | A query of exactly poll=true asks for a long poll. |
| Handlers.Answer | internal/server/handlers.go:57-86 | A bad path is 404 without polling. A one-agent path is 404 iff the name is empty or unknown, and otherwise 200 with the first record under that name (500 if encoding fails). A shorter path is 200 with every record. A long poll happens iff poll=true. |
| Handlers.ClientInfoHandler | internal/server/handlers.go:45-86 | The route comes from the trimmed URI and the poll value from the same URI's query. The answer is 200, 404 or 500. It long-polls iff the path is not bad and poll=true. A 200 carries the whole store, or one stored record with a non-empty name. |
| Handlers.AnswerFound | internal/server/handlers.go:60-74 | A one-agent route whose name has a record answers 200 with that record, after a long poll iff poll=true. |
| Handlers.AnswerMissing | internal/server/handlers.go:60-67 | A one-agent route whose name has no record answers 404 "could not find the requested client", after a long poll iff poll=true. |
| Handlers.HealthPaths | internal/server/handlers.go:47-60 | /aidi/health/<name> routes to a lookup of <name>, and /aidi/health/ lists all. |
| Handlers.PlainLookup | internal/server/handlers.go:45-74 | /aidi/health/<name> with no query answers 200 with the first record under <name>, without a long poll. |
| Handlers.LookupAfterPoll | internal/server/handlers.go:45-74 | After a poll cycle over distinct names, GET /aidi/health/<name> returns 200 with exactly the record that cycle sent for that agent. It has no query, so it does not long-poll. |
| Handlers.UnknownAgentNotFound | internal/server/handlers.go:64-67 | A request for a name with no record is answered 404. |
| Handlers.QueryInLookupName | internal/server/handlers.go:47-56 | As written, a query after a one-agent path becomes part of the looked-up name. |
| Handlers.QueryOnDirectoryIsName | internal/server/handlers.go:47-64 | As written, a query on the list-all path /aidi/health/ becomes a name to look up. |
| Handlers.PolledListAllNotFound | internal/server/handlers.go:45-67 | As written, /aidi/health/?poll=true long-polls and then answers 404, unless an agent is named "?poll=true". |
| Handlers.SchemeTrimDiscarded | internal/server/handlers.go:46-59 | As written, the absolute form http://host/a/b has five segments and is answered as a bad path. |
| Handlers.IntendedRouteIgnoresQuery | internal/server/handlers.go:47-60 | With the query dropped before splitting, /aidi/health/<name> names <name> with or without a query. |
| Handlers.IntendedRouteStripsScheme | internal/server/handlers.go:46-60 | With both scheme trims applied in sequence, http://host/a/b names its last segment. |
| Handlers.IntendedDirectoryIgnoresQuery | internal/server/handlers.go:47-60 | With the query dropped before splitting, /aidi/health/ lists all with or without a query. |
| Handlers.IntendedPolledListAll | internal/server/handlers.go:45-86 | With the intended trimming, /aidi/health/?poll=true long-polls and then answers 200 with the whole store. |
| Handlers.IntendedPolledLookup | internal/server/handlers.go:45-74 | With the intended trimming, /aidi/health/<name>?poll=true long-polls and then answers 200 with the first record under <name>. |
| Handlers.IntendedPolledLookupAfterPoll | internal/server/handlers.go:51-74 | With the intended trimming, a long-polled /aidi/health/<name>?poll=true after a poll cycle returns that agent's record. |

## Left out

- Concurrency is not modelled: goroutines, channels, the `select` loop, the one-second ticker, signal handling and the store mutexes. The model runs `pingAll` sequentially: sends happen in registry order and saves in arrival order.
- The long-poll registration in the `sync.Map` and its wake-up are not modelled. Only whether the handler long-polls is recorded.
- HTTP and JSON are parameters, not models: the GET with its 7-second timeout, request decoding, response encoding and error bodies. `readyHandler`, which only writes 200, is left out.
- Floating point is left out: `Average`'s division and rounding to two decimals, and the percentages in `getUtilization`. `Network.Average` returns the integer sum and count.
- File I/O, `runtime.NumCPU()`, the `prev` snapshot difference in `getUtilization`, and `MakeHealthStatus` are left out.
- The agent client (`pkg/client`), `ResponseTimer`, `cpu_timer.c` and `cmd/health.go` are not part of this model.
- Network.Average: Go's `int` sum can overflow. The model's sum is unbounded.
- Cpu.Calculate: a `cpuN` line must name an existing core (N < numCpu), because the source indexes `cores[N]` unchecked and would panic. That case is a precondition rather than a modelled failure. `strconv.ParseInt`'s 64-bit range is covered by requiring numCpu < 2^63.
- Network.AddVal: requires that a full list is non-empty. With maxN <= 0 and an empty list the source calls `list.Remove` on the missing front element, a nil pointer, which panics. The model does not express that panic.
- Handlers.QueryGet: percent-escapes and '+' in the query are not decoded. A key or value is compared as written, and a piece whose escapes do not decode is kept rather than skipped. The model follows url.ParseQuery from Go 1.17 on, which skips pieces containing ';'; earlier versions also split on ';'.
- Text.Fields: states the fields' content and order, but not that each field is a maximal run.

## Findings

| source | as written | input that shows it | evidently intended | confidence | as-written member | corrected member |
|---|---|---|---|---|---|---|
| internal/server/handlers.go:47-48 | The second `TrimPrefix` starts again from `r.RequestURI`, discarding the `http://` trim. | `http://localhost:0/info/param`, the form the handler's comment expects, splits into five segments and gets 404. | Trim `https://` from the result of the `http://` trim, so the comment's form `http://localhost:0/info/param`, with two segments after the host, routes to its last segment. The health path keeps the same problem even corrected: `http://host/aidi/health/<name>` still has four segments and gets 404. | not executed; the overwritten variable makes the intent clear | Handlers.SchemeTrimDiscarded | Handlers.IntendedRouteStripsScheme |
| internal/server/handlers.go:47-64 | The path is split from `r.RequestURI`, which includes the query string. | `/aidi/health/test?poll=true` looks up `test?poll=true`, so a long-polled request for a known agent gets 404. | Route on the path without the query, as the `poll` read from `r.URL.Query()` presumes. | not executed | Handlers.QueryInLookupName | Handlers.IntendedRouteIgnoresQuery |
| internal/server/handlers.go:47-78 | The same: the query is part of the split path, also on the list-all path. | `/aidi/health/?poll=true` has three segments, the last `?poll=true`. So a long-polled request for the whole store waits for new data and then gets 404. | Route on the path without the query, so the long-polled list-all request answers 200 with every record. | not executed | Handlers.PolledListAllNotFound | Handlers.IntendedPolledListAll |

`Handlers.IntendedClientInfoHandler` answers with the corrected routing.
`Handlers.IntendedPolledLookupAfterPoll` and `Handlers.IntendedPolledListAll`
prove that it serves long-polled lookups and listings.
`Handlers.ClientInfoHandler` keeps the routing as written.
