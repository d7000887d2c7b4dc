# lua-debugger core, modelled in Dafny

This project models the sequential core of lua-debugger, a debugger and proxy for
Lua scripts run by a Redis-protocol server. It covers four pieces:

- **The debug wire client** (`LdbClient.TcpClientDebugger`). It drives one
  backend connection through the server's synchronous script-debugging mode:
  `SCRIPT DEBUG SYNC`, then `EVAL`, then one command per operation (`step`,
  `continue`, `abort`, `restart`, `break [n|-n]`, `print [name]`, `trace`,
  `whole`).
  - The connection is the log `sent` of every command sent, plus a backend
    function `server` that gives the reply to the last command, given all the
    commands sent so far.
  - A reply is either a value or a connection error.
  - A ghost log `received` records the replies in order.
  - The `finished` flag, the `closed` flag and the emitted `error` events are
    fields, updated as the source updates them.
- **The debug session** (`DebugSession.Session`). A state machine over
  `state`, the cached terminal `result` and the insertion-ordered watch set
  `watchVars`.
  - `ExecAction` answers Pending while the session is pending.
  - It replays a cached Finished or Error response without touching the
    connection.
  - Otherwise it dispatches the action. If the connection then reports
    finished, it caches a Finished response. If not, it fetches the listing,
    the variables, the trace and one print per watched name, in that order.
  - Any failure is cached as an Error response.
  - Contracts are stated over the client's command log and the backend. The
    commands sent are always a prefix of the planned sequence.
  - The response is Finished exactly when the action succeeded and left the
    connection finished: it already was, or a motion's reply ended the session.
  - A Running response is parsed from the backend's answers to the fetches,
    and every one of them was answered. So any failed fetch gives an Error.
  - An Error response reports the first failure: the connection error of the
    last command sent, with every command before it answered. Nothing is sent
    after a failed request.
  - The result of a Finished response and the command response of a Running
    one are the action's own outcome: its local answer, or the rendered reply
    to its command.
- **The traffic repository** (`Traffic.TrafficRepository`). A history of
  request/response pairs, bounded to 100 entries with first-in first-out
  eviction, plus a display projection.
  - In the projection, words that contain whitespace are quoted.
  - Each `log` emits one notification.
- **The cluster-nodes interceptor** (`ClusterInterceptor.ClusterNodesInterceptor`).
  - It claims only the `CLUSTER NODES` command and asks the backend on a side
    connection.
  - A reply that is not a string passes through byte for byte.
  - A string reply is split on `\n`, each line is rewritten by the address
    substitutor, and the lines are joined again and re-encoded.

Supporting modules:

- `Wrappers` holds `Option` and `Outcome`. An `Outcome` is either the value a
  promise resolves to or the message it rejects with.
- `Resp` holds the protocol's value kinds, commands and bytes.
- `JsText` writes out the JavaScript library behaviour the core relies on:
  - `Array.prototype.slice` with negative and out-of-range indices;
  - `String.prototype.split` on one character, and `Array.prototype.join`;
  - `String.prototype.trim` and the `\s` class;
  - `Number.prototype.toString` on integers.

Collaborators whose code is not part of this model appear as function-typed
constants or datatypes of functions, and nothing is assumed about their
bodies:

- the reply parser;
- the protocol codec (decode, render, encode);
- the port substitutor;
- the command matcher.

## Model

| member | source | states |
|---|---|---|
| JsText.SliceFrom | src/state/trafficRepository.ts:38 | `slice(k)` is the suffix from `k` for an in-range `k`. For a negative `k` it is the last `min(-k, len)` elements, and past the end it is empty. |
| JsText.SliceTo | src/ldb/tcp/tcp-client-debugger.ts:36 | `slice(0, k)` is the prefix of length `k` for an in-range `k`. For a negative `k` its length is `max(len + k, 0)`. Past the end it is the whole sequence. |
| JsText.SliceParts | src/ldb/tcp/tcp-client-debugger.ts:36-37 | For every integer `k`, `slice(0, k)` followed by `slice(k)` is the whole sequence. |
| JsText.Trim | src/session/session.ts:91 | The trimmed text occurs in the original with only whitespace around it. It neither starts nor ends with whitespace. |
| JsText.TrimIdempotent | src/session/session.ts:91 | Trimming twice is trimming once. |
| JsText.Split | src/server/tcp/interceptors/cluster/clusterNodesInterceptor.ts:24 | `split` on one character gives at least one piece, and no piece contains the separator. |
| JsText.JoinSplit | src/server/tcp/interceptors/cluster/clusterNodesInterceptor.ts:24-26 | Joining the pieces of a split with the same separator gives back the text. |
| JsText.SplitJoin | src/server/tcp/interceptors/cluster/clusterNodesInterceptor.ts:24-26 | Splitting the join of separator-free pieces gives back the pieces. |
| JsText.NatToStringRoundTrip | src/ldb/tcp/tcp-client-debugger.ts:35 | The decimal text of a natural number parses back to it. |
| JsText.IntToString | src/ldb/tcp/tcp-client-debugger.ts:35 | An integer's text is never empty, and it starts with `-` exactly when the integer is negative. |
| JsText.IntToStringInjective | src/ldb/tcp/tcp-client-debugger.ts:80 | Different integers have different texts. |
| LdbClient.ArgTextEmpty | src/ldb/tcp/tcp-client-debugger.ts:31 | An argument is coerced to `""` exactly when it is null or the empty string. |
| LdbClient.ArgTexts | src/ldb/tcp/tcp-client-debugger.ts:31 | Arguments are coerced one by one, in order, with one text per argument. |
| LdbClient.EvalCommand | src/ldb/tcp/tcp-client-debugger.ts:32-38 | The EVAL vector is `EVAL`, the script and the key count's text, followed by every argument coerced in its original order. This holds whatever the key count. |
| LdbClient.ArgTextsSlices | src/ldb/tcp/tcp-client-debugger.ts:36-37 | The coerced key slice followed by the coerced rest is every argument coerced. |
| LdbClient.EvalKeysFirst | src/ldb/tcp/tcp-client-debugger.ts:32-38 | For a key count within the argument list, the vector holds the first `numberOfKeys` arguments and then the remaining ones. |
| LdbClient.BreakpointCommandsDistinct | src/ldb/tcp/tcp-client-debugger.ts:74-87 | For a non-negative line, adding a breakpoint, removing one and listing them send different commands. Different lines give different commands. |
| LdbClient.AddNegativeLineRemoves | src/ldb/tcp/tcp-client-debugger.ts:79-86 | The line is not checked, so adding at line `-n` sends the same command as removing at line `n`. |
| LdbClient.PrintCommand | src/ldb/tcp/tcp-client-debugger.ts:89-94 | `print` is sent alone unless a non-empty name is given. With such a name it is sent as `print name`. |
| LdbClient.EndSessionShape | src/ldb/tcp/tcp-client-debugger.ts:104 | Only a non-empty, non-null array ends the session. Any array whose last element is the sentinel ends it, as a simple or a bulk string. A null last element does not. |
| LdbClient.TcpClientDebugger.constructor | src/ldb/tcp/tcp-client-debugger.ts:13-24 | A new client has sent nothing and received nothing. It is not finished, not closed, and has emitted no error. |
| LdbClient.TcpClientDebugger.Send | src/ldb/tcp/tcp-client-debugger.ts:23 | One request appends one command and one reply. A connection error runs the error handler and rejects. An answer changes no flag. |
| LdbClient.TcpClientDebugger.Init | src/ldb/tcp/tcp-client-debugger.ts:26-39 | `SCRIPT DEBUG SYNC` is sent first. `EVAL` follows exactly when the sync was answered, and nothing else is sent. The result fails exactly when the last reply is a connection error, and then carries that error's message. A connection error emits exactly one `error` event carrying its message; an answer emits none. |
| LdbClient.TcpClientDebugger.Resume | src/ldb/tcp/tcp-client-debugger.ts:45-67 | One motion command is sent and its reply is rendered as text. `finished` becomes true exactly on a connection error or a sentinel-terminated array, and is never reset. A connection error emits exactly one `error` event carrying its message; an answer emits none. |
| LdbClient.TcpClientDebugger.HandleStepResponse | src/ldb/tcp/tcp-client-debugger.ts:103-107 | `finished` is set exactly when the reply ends the session. Nothing else changes. |
| LdbClient.TcpClientDebugger.OnFinish | src/ldb/tcp/tcp-client-debugger.ts:109-115 | Marks the client finished. Nothing else changes. |
| LdbClient.TcpClientDebugger.OnError | src/ldb/tcp/tcp-client-debugger.ts:117-122 | Marks the client finished and closed, and emits the error once. |
| LdbClient.TcpClientDebugger.Whole | src/ldb/tcp/tcp-client-debugger.ts:69-72 | Sends exactly `whole` and parses the reply as a listing. It sets `finished` only on a connection error. A connection error emits exactly one `error` event carrying its message; an answer emits none. |
| LdbClient.TcpClientDebugger.ListBreakpoints | src/ldb/tcp/tcp-client-debugger.ts:74-77 | Sends exactly `break` and renders the reply as text. It sets `finished` and `closed` only on a connection error. A connection error emits exactly one `error` event carrying its message; an answer emits none. |
| LdbClient.TcpClientDebugger.AddBreakpoint | src/ldb/tcp/tcp-client-debugger.ts:79-82 | Sends exactly `break n` and renders the reply as text. It sets `finished` only on a connection error. A connection error emits exactly one `error` event carrying its message; an answer emits none. |
| LdbClient.TcpClientDebugger.RemoveBreakpoint | src/ldb/tcp/tcp-client-debugger.ts:84-87 | Sends exactly `break -n` and renders the reply as text. It sets `finished` only on a connection error. A connection error emits exactly one `error` event carrying its message; an answer emits none. |
| LdbClient.TcpClientDebugger.Print | src/ldb/tcp/tcp-client-debugger.ts:89-96 | Sends the print vector for the optional name and parses the reply as variables. It sets `finished` only on a connection error. A connection error emits exactly one `error` event carrying its message; an answer emits none. |
| LdbClient.TcpClientDebugger.Trace | src/ldb/tcp/tcp-client-debugger.ts:98-101 | Sends exactly `trace` and renders the reply as text. It sets `finished` only on a connection error. A connection error emits exactly one `error` event carrying its message; an answer emits none. |
| DebugSession.SetAdd | src/session/session.ts:91 | `Set.add` keeps the old elements in place and contains the new one, with at most one more element. |
| DebugSession.SetAddMembers | src/session/session.ts:91 | After `add`, the members are the old ones plus `x`, and uniqueness is kept. |
| DebugSession.SetDeleteMembers | src/session/session.ts:94 | After `Set.delete`, the members are the old ones except `x`, uniqueness is kept, and the remaining members keep their insertion order. |
| DebugSession.AddThenDelete | src/session/session.ts:90-95 | Adding a new name and deleting it again restores the set and its order. |
| DebugSession.DeleteThenAddMovesLast | src/session/session.ts:90-95 | Deleting a member and adding it back moves it to the end of the iteration order. |
| DebugSession.SetFromSeqOrder | src/session/session.ts:24 | `new Set(watch)` is duplicate-free, has exactly the members of `watch`, and lists them in the order of their first occurrence in `watch`. |
| DebugSession.SetAddOrder | src/session/session.ts:24 | Adding the next name to a set ordered by first occurrence keeps it so ordered. |
| DebugSession.SetFromDistinct | src/session/session.ts:24 | `new Set(watch)` of duplicate-free names keeps them all, in order. |
| DebugSession.WatchAfterDistinct | src/session/session.ts:19 | No action introduces a duplicate into the watch set. |
| DebugSession.DispatchCommands | src/session/session.ts:74-98 | An action sends at most one command, and the four motion actions always send one. |
| DebugSession.LocalActions | src/session/session.ts:74-98 | Only actions that send nothing change the watch set. Those fail only when unsupported or when a watch action has no value. `None` sends nothing and answers `[]`. |
| DebugSession.WatchCommands | src/session/session.ts:101-104 | One print per watched name. |
| DebugSession.WatchCommandsAt | src/session/session.ts:101-104 | The `i`-th watch print names the `i`-th watched name, in insertion order. |
| DebugSession.WatchEntries | src/session/session.ts:100-109 | One watch entry per name. |
| DebugSession.WatchEntriesAt | src/session/session.ts:100-109 | Entry `i` carries name `i` and the value of the first variable parsed from the reply to print `i`, or null when that reply parses to no variable. |
| DebugSession.AdvanceFailed | src/session/session.ts:69-70 | When the action fails, its error is cached as the Error response. It is either the local failure or the connection error of the one command sent. |
| DebugSession.AdvanceFinished | src/session/session.ts:51-53 | When the action succeeded and the connection is finished after it, the Finished response is cached and nothing but the action's command was sent. Its result is the action's own outcome: the local answer, or the rendered reply to that command. |
| DebugSession.AdvanceFetched | src/session/session.ts:56-70 | After an action that succeeded without finishing the connection, the fetches follow in fixed order. On success the response is Running and nothing is cached. Its command response is the action's outcome, and the rest is parsed from the backend's answers to the fetches, all of which were answered. Otherwise the cached Error carries the connection error of the last command sent, and the action and every fetch before that one were answered, so it is the first failure. |
| DebugSession.Session.constructor | src/session/session.ts:21-27 | A new session is Pending with nothing cached, and its watch set is `new Set(watch)`. |
| DebugSession.Session.Init | src/session/session.ts:29-32 | The connection is initialised: `SCRIPT DEBUG SYNC` is sent first, and `EVAL` follows exactly when the sync was answered, so at most two commands are sent. The state becomes Running exactly when that succeeds. A failure propagates with the message of the connection error that ended it. |
| DebugSession.Session.HandleAction | src/session/session.ts:74-98 | The watch set is updated by the trimmed first value. The sent log grows by the action's command, and there is one reply per command sent. The outcome is the local outcome, or the rendered reply. `finished` follows the client's rules. |
| DebugSession.Session.HandleWatch | src/session/session.ts:100-110 | The prints sent are a prefix of one print per watched name in insertion order. On success all are sent and all were answered, with one entry per name built from the backend's answer to its print. A failure reports the last print's connection error, and every print before it was answered, so the loop stopped at its first failed print. |
| DebugSession.Session.Conclude | src/session/session.ts:53 | A terminal response is cached and returned. |
| DebugSession.Session.ExecAction | src/session/session.ts:41-72 | Pending answers Pending and changes nothing. A cached result is replayed with no connection call. Otherwise the watch set is updated, and only Running responses are left uncached. The commands sent are a prefix of the action's command plus the fetches. The response is Finished exactly when the action succeeded and the connection was finished already or a motion's reply ended the session. A Finished response sent only the action's command, and its result is the action's outcome. A failed action sends nothing more and its failure is the Error response. Any other Error response carries the connection error of the last command sent, and every command before it was answered, so nothing was sent after the first failure and that failure is the one cached. A Running response sent everything, in order. Its command response is the action's outcome, and the rest is parsed from the backend's answers to the fetches, all of which were answered. |
| DebugSession.Session.Advance | src/session/session.ts:50-71 | The guarded body of `execAction` establishes `Advanced`: the same obligations as the last rows of `ExecAction`, including the rule for when the response is Finished, that a failed action is itself the Error response, that any Error is the first failure after the action began, that a Finished result or a Running command response is the action's outcome, and that a Running response comes from fetches the backend all answered. |
| DebugSession.Session.FetchState | src/session/session.ts:56-58 | Sends `whole`, `print` and `trace`, in that order. On success all three were answered, and the snapshot is parsed from the backend's answers to them. A failure reports the connection error of the last command sent, and the commands before it were answered, so it stopped at the first failure. |
| DebugSession.Session.Fetch | src/session/session.ts:56-68 | Sends the state fetches and then the watch prints. It yields a Running response parsed from the backend's answers, all of which were answered, or an Error response with the connection error of the last command sent, every earlier fetch having been answered. |
| DebugSession.RepliesAt | src/ldb/tcp/tcp-client-debugger.ts:46 | The `k`-th reply after a point in the log is the backend's answer given every command up to and including the `k`-th one sent after that point. |
| DebugSession.RepliesAppend | src/session/session.ts:50-59 | The replies to a run of commands are the replies to its first part followed by those to the rest. |
| DebugSession.RunningAnswered | src/session/session.ts:56-70 | A Running response implies that the backend answered every fetch, from `whole` to the last watch print. |
| DebugSession.SnapshotAnswered | src/session/session.ts:56-58 | A snapshot implies that `whole`, `print` and `trace` were all answered. |
| DebugSession.AnsweredSnoc | src/session/session.ts:56-59 | An answered request extends a run of answered requests. |
| DebugSession.AnsweredWithin | src/session/session.ts:56-59 | Within a run of answered requests, every request of it was answered. |
| DebugSession.FailedNext | src/session/session.ts:56-59 | A request rejected after a run of answered ones is that run's first failure. |
| DebugSession.FailedAfter | src/session/session.ts:50-70 | A first failure after one point is also the first failure after an earlier point when everything in between was answered. |
| DebugSession.FirstFailure | src/session/session.ts:50-70 | Two runs from the same point, one extending the other, that both end at their first failure are the same run with the same message. The failure an Error response reports is therefore determined by the backend. |
| DebugSession.ActionFailed | src/session/session.ts:51-70 | A dispatched action that failed is the first failure after the point where it was sent. |
| DebugSession.ActionAnswered | src/session/session.ts:51-56 | An action that succeeded leaves every command it sent answered. |
| Traffic.Window | src/state/trafficRepository.ts:38 | `slice(-100)` keeps `min(len, 100)` entries, and they are the most recent ones. |
| Traffic.WindowAbsorbs | src/state/trafficRepository.ts:37-38 | Truncating early changes nothing. |
| Traffic.ReplayKeepsLatest | src/state/trafficRepository.ts:37-38 | Logging entries one by one keeps exactly the latest 100 of all entries, in order: eviction is strict FIFO. |
| Traffic.FromEmptyKeepsLast | src/state/trafficRepository.ts:28-38 | From an empty history, the length is `min(n, 100)`. After more than 100 entries, the history is exactly the last 100. |
| Traffic.QuoteWord | src/state/trafficRepository.ts:50 | A word is left unchanged exactly when it contains no whitespace. Otherwise it is wrapped in double quotes. |
| Traffic.QuoteAll | src/state/trafficRepository.ts:50 | Every word is quoted as needed, in order. |
| Traffic.RenderPlainRoundTrip | src/state/trafficRepository.ts:50 | When no word contains whitespace, splitting the display line on spaces gives back the words. |
| Traffic.RenderCommands | src/state/trafficRepository.ts:49-51 | One display line per decoded command, in order. |
| Traffic.RenderValues | src/state/trafficRepository.ts:55 | One rendered text per decoded response value, in order. |
| Traffic.Parse | src/state/trafficRepository.ts:46-58 | The projection keeps the raw request, the raw response and the time as logged. Line `i` is decoded command `i` with its words quoted as needed and joined by spaces. Text `i` is decoded value `i` rendered. |
| Traffic.ParseAll | src/state/trafficRepository.ts:43 | One projection per entry, in order. |
| Traffic.TrafficRepository.constructor | src/state/trafficRepository.ts:26-28 | A new repository has an empty history and has emitted nothing. |
| Traffic.TrafficRepository.Log | src/state/trafficRepository.ts:30-40 | The history becomes the last `min(old + 1, 100)` entries of the old history plus the new entry, and the new entry is last. The bound is kept. Exactly one notification is emitted, carrying the new entry's projection. |
| Traffic.TrafficRepository.All | src/state/trafficRepository.ts:42-44 | One projection per history entry, oldest first, whose `plain` is the logged request. |
| ClusterInterceptor.RewriteLines | src/server/tcp/interceptors/cluster/clusterNodesInterceptor.ts:25 | Each line is passed through the substitutor, in order, and the count is kept. |
| ClusterInterceptor.RewriteNodesLines | src/server/tcp/interceptors/cluster/clusterNodesInterceptor.ts:23-26 | When the substitutor keeps lines free of `\n`, the rewritten table has the same line count, and line `i` is the rewrite of line `i`. |
| ClusterInterceptor.RewriteNodesIdentity | src/server/tcp/interceptors/cluster/clusterNodesInterceptor.ts:23-26 | A substitutor that leaves every line alone leaves the table unchanged. |
| ClusterInterceptor.InterceptedReplyCases | src/server/tcp/interceptors/cluster/clusterNodesInterceptor.ts:17-28 | A reply that is not a string passes through byte for byte. With an identity substitutor, a string reply is re-encoded unchanged. |
| ClusterInterceptor.TrafficHandler.SideRequest | src/server/tcp/interceptors/cluster/clusterNodesInterceptor.ts:15-16 | One command on the side connection, and its reply. No response is written to the client. |
| ClusterInterceptor.TrafficHandler.OnResponse | src/server/tcp/interceptors/cluster/clusterNodesInterceptor.ts:18 | Exactly one response is written to the client. |
| ClusterInterceptor.ClusterNodesInterceptor.constructor | src/server/tcp/interceptors/cluster/clusterNodesInterceptor.ts:8 | Holds the traffic handler and its collaborators. |
| ClusterInterceptor.ClusterNodesInterceptor.Handle | src/server/tcp/interceptors/cluster/clusterNodesInterceptor.ts:10-31 | An unclaimed request answers false and touches nothing. A claimed one makes exactly one side request. If that request fails, the failure propagates and nothing is written. Otherwise the answer is true, with exactly one response: the raw bytes for a reply that is not a string, else the line-wise rewrite, encoded. |

Some functions have no row of their own, because lemma rows state what they compute. `SetDelete` is stated by `SetDeleteMembers`, and `SetFromSeq` by `SetFromSeqOrder` and `SetFromDistinct`. `Join` is stated by `JoinSplit` and `SplitJoin`, `RewriteNodes` by `RewriteNodesLines` and `RewriteNodesIdentity`, `InterceptedReply` by `InterceptedReplyCases`, and `IsEndSession` by `EndSessionShape`.

## Left out

- Socket I/O in the Redis client is not part of this model: connecting, framing, closing, and the `once('response')` subscription whose payload is re-emitted as `finished`. The backend is a function of the commands sent, so the model says nothing about timing.
- The `EventEmitter` wiring is left out: the session re-emitting the client's `finished`/`error` events, and the `Session.finished()` promise. The client's `error` events are kept as a log.
- `Date.now()` and `randomUUID()` are parameters (`time`, `id`). `console` logging is left out.
- The bodies of the reply parser, the protocol codec (`decodeRequest`, `decodeFull`, `render`, encode), the port substitutor and the command matcher are not part of this model. They are uninterpreted functions, and no round-trip or idempotence is claimed for them.
- These collaborators are modelled as total functions that never throw. The model therefore lacks two paths: a throwing response parser, which would end `execAction` in a cached Error response (src/session/session.ts:69-70), and a throwing `decodeRequest` or `decodeFull`, which would make `log` throw after the history was updated and without emitting (src/state/trafficRepository.ts:37-39).
- `Resp.IsString` decides which decoded values are JavaScript strings: simple strings and non-null bulk strings. The decoder is not part of this model, so this mapping is an assumption of the model, not something read from its code.
- `Arg` numbers and `LuaRequest.numberOfKeys` are integers. Fractional and NaN values are not modelled, though the source would print `1.5` as `"1.5"` and `slice(0, 1.5)` truncates the index.
- `Number(values[0])` in the breakpoint dispatch is not modelled. The breakpoint actions carry the already-parsed integer, so NaN and fractional lines are not covered.
- JsText.IntToString: models `Number.prototype.toString` on integers only. JavaScript switches to exponent notation from 10^21, and that case is not modelled.
- DebugSession.Session.Init: `state` only ever holds Pending or Running (src/session/session.ts:16, 31). Finished and Error appear only in responses and in the cached `result`. `Valid` states exactly this.
- ClusterInterceptor.ClusterNodesInterceptor.Handle: the pass-through test is `typeof result !== 'string'` (src/server/tcp/interceptors/cluster/clusterNodesInterceptor.ts:17). Simple strings and non-null bulk strings count as strings. Error replies, integers, arrays and null bulk strings pass through.
- DebugSession.Session.HandleAction: a missing first value for a watch action is modelled as the `TypeError` that `values[0].trim()` raises, and it ends in a cached Error response. The message text is modelled as a constant.
- Overlapping `execAction` calls on one session are not modelled. The `/cmd` route calls it once per request with no lock (src/http/server.ts:64-68), so two requests could interleave at its awaits. The model treats each `ExecAction` as one atomic step.
- The client is not modelled after it is closed. Further commands are still sent to the backend function, which decides their replies.
- A connection error is taken both to fire the client's error handler and to reject the pending request. Errors that arrive outside a request are not modelled.
- The proxy's traffic handler is not part of this model. `TrafficHandler` holds only the two things the interceptor uses: the side connection and the response channel to the client.
