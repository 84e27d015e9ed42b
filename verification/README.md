# Todo store and watch: a Dafny model

This project models the in-memory todo service of `TodoService` in
`src/server.rs`: a `HashMap<u32, Todo>` behind a mutex, the four unary calls
`add`, `remove`, `update_status` and `get`, and `watch`. `watch` checks that the
record exists and then spawns a task that polls the map once a second and
streams changes to the subscriber.

Each call reads and writes the map under a single acquisition of the mutex,
so it is modelled as one atomic step: a pure function from a store
(`map<u32, Todo>`) and a request to a reply and the store afterwards. The polling task is modelled as a state
machine with two states. `Polling(key, previous)` is still running and holds
the last record it observed. `Stopped` has returned. `Tick` is one loop
iteration, given the store as that poll sees it. `Run` folds `Tick` over the
stores seen at successive polls and collects the stream items the task would
send. `TodoSystem` interleaves client calls with polls and shows that what a
subscriber receives depends only on the stores at the polls (a "leveled"
watch: the latest value at each poll, not every change).

Files:
- `types.dfy` (`TodoTypes`): messages, status codes, the store and its key invariant `WellKeyed`.
- `store.dfy` (`TodoStore`): `add`, `remove`, `update_status`, `get` and their algebra.
- `watch.dfy` (`TodoWatch`): the `watch` precondition, the poll step and properties of poll traces.
- `system.dfy` (`TodoSystem`): interleavings of calls and polls, coalescing and the end-of-stream scenarios.

Two behaviours of the code shape the model:
- The polling task discards the result of both sends (src/server.rs:151, 157). So a task whose subscriber has gone away keeps polling until the record is removed, and the model has no disconnect transition.
- `remove` takes a plain `TodoIdentifier` (src/server.rs:56), so it can only fail with NotFound.

## Model

| member | source | states |
|---|---|---|
| TodoStore.Empty | src/server.rs:13-19 | a new service starts with an empty store, which satisfies the key invariant |
| TodoStore.Add | src/server.rs:26-49 | a missing id gives InvalidArgument and an existing key gives AlreadyExists, both leaving the store unchanged; otherwise the record is stored under its identifier's key, the key set grows by exactly that key, all other records are kept, and the identifier is echoed with "New todo created" |
| TodoStore.Remove | src/server.rs:54-72 | an absent key gives NotFound with the store unchanged; a present key is the only key deleted, every other record is kept, and the identifier is echoed |
| TodoStore.UpdateStatus | src/server.rs:77-100 | a missing id gives InvalidArgument and an absent key gives NotFound, store unchanged; on success the key set is the same, the record's status is the requested one, its id and other fields are unchanged, and every other record is kept |
| TodoStore.Get | src/server.rs:105-119 | the store is never modified; the reply is the stored record exactly when the key is present, otherwise NotFound |
| TodoStore.AddThenGet | src/server.rs:39-46 | a `get` right after a successful `add` returns exactly the added record |
| TodoStore.AddTwice | src/server.rs:39-40 | a second `add` of the same key is refused with AlreadyExists, changes nothing, and the first record stays |
| TodoStore.RemoveUndoesAdd | src/server.rs:60-62 | `remove` of a key just added restores the store as it was before the `add` |
| TodoStore.RemoveThenGet | src/server.rs:60-69 | after `remove`, whether or not the key was present, `get` of that key gives NotFound |
| TodoStore.UpdateStatusThenGet | src/server.rs:89-91 | after a successful `update_status`, `get` returns the previous record with only `status` replaced |
| TodoStore.UpdateStatusIdempotent | src/server.rs:89-91 | applying the same status update twice leaves the same store as applying it once |
| TodoStore.AddPreservesWellKeyed | src/server.rs:32-42 | `add` stores a record only under the key its own identifier names, so the key invariant holds afterwards |
| TodoStore.RemovePreservesWellKeyed | src/server.rs:60-62 | `remove` keeps the key invariant |
| TodoStore.UpdateStatusPreservesWellKeyed | src/server.rs:85-91 | `update_status` writes only `status`, so the key invariant is kept |
| TodoWatch.Subscribe | src/server.rs:131-136 | `watch` fails with NotFound exactly when the key is absent at call time; otherwise the session starts polling that key with the current record as the last observed value |
| TodoWatch.Tick | src/server.rs:143-160 | a poll on an absent key sends one NotFound and stops; on a present key it sends the record exactly when it differs from the last observed one; either way the session then holds the current record |
| TodoWatch.Run | src/server.rs:142-161 | a polling task sends at most one item per poll, and a stopped task sends nothing more |
| TodoWatch.RunAppend | src/server.rs:142-161 | running over two stretches of polls is running over the first and then continuing from where it left off over the second |
| TodoWatch.StopsIffRemoved | src/server.rs:148-153 | a session stops exactly when some poll finds the watched key absent |
| TodoWatch.NotFoundIsFinal | src/server.rs:150-152 | NotFound is the only error sent, it is always the last item, and a session that stopped sent it |
| TodoWatch.StopsForGood | src/server.rs:150-152 | polls after the one that finds the key absent have no effect |
| TodoWatch.Leveled | src/server.rs:156-159 | while the key stays present, the session ends holding the record of the last poll, and the last item sent is that record |
| TodoWatch.SilentMeansUnchanged | src/server.rs:156-159 | a run that sends nothing leaves the last observed record as it was |
| TodoWatch.NoRepeats | src/server.rs:133-159 | the first item sent differs from the snapshot taken at subscription, and no item repeats the one before it |
| TodoWatch.SentValuesWereObserved | src/server.rs:148-158 | every record sent is the watched record as one of the polls saw it |
| TodoWatch.TickKeepsConsistent | src/server.rs:148-158 | on a well-keyed store a poll keeps the observed record's identifier equal to the watched key, and every record sent carries that identifier |
| TodoWatch.SubscribeIsConsistent | src/server.rs:133-136 | on a well-keyed store `watch` starts with a record whose identifier is the watched key |
| TodoSystem.Apply | src/server.rs:37-113 | serving one call keeps the key invariant, and `get` leaves the store unchanged |
| TodoSystem.ApplyAll | src/server.rs:39-91 | every store reached by calls served one after another keeps the key invariant |
| TodoSystem.Simulate | src/server.rs:142-161 | an interleaving of unary calls, each one locked step on the map (src/server.rs:37, 59, 83, 110), with the polling task's locked reads (src/server.rs:146); the subscriber receives at most one item per poll and nothing once the session has stopped; its full meaning is fixed by `SimulateIsRunOverSnapshots` |
| TodoSystem.SimulateIsRunOverSnapshots | src/server.rs:142-161 | under any interleaving of calls and polls, the subscriber receives what the polling task sends given only the stores at the polls, and the store ends as if the calls had run back to back |
| TodoSystem.SubscribeAgreesWithGet | src/server.rs:131-136 | `watch` accepts exactly the keys `get` finds, fails with the same NotFound otherwise, and starts from the record `get` returns |
| TodoSystem.CoalescingBetweenPolls | src/server.rs:144-159 | any number of calls between two polls yield at most one item, equal to the record in the store at the later poll; if the record is gone by then, exactly one NotFound and the session stops |
| TodoSystem.LastStatusWins | src/server.rs:146-158 | two status updates between polls yield at most one item, and it carries the second status |
| TodoSystem.StoppedStaysSilent | src/server.rs:150-152 | a stopped session receives nothing more, whatever calls and polls follow |
| TodoSystem.RemoveEndsWatch | src/server.rs:148-153 | after `remove` of the watched key, the next poll ends the stream with exactly one NotFound and nothing follows |

## Left out

- Transport: the tonic request/response wrapping, the `Status` message texts (only the code is kept) and the boxing of the response stream (src/server.rs:122, 163-165).
- Concurrency: the tokio `Mutex`, the `Arc` sharing and `tokio::spawn`. Every call is one atomic step, and interleaving is an explicit sequence of calls and polls.
- Timing: the one-second `tokio::time::sleep` between polls (src/server.rs:144). Polls are abstract ticks.
- The `mpsc` channel and the stream handed to the caller. Items are collected in a sequence. Send results are ignored by the code, so the model has no disconnect transition.
- The polling loop itself never ends while the record exists. `Run` describes any finite prefix of polls.
- The generated message types (`todos.rs`) are not part of this model. `Todo` keeps `id`, an integer-coded `status` and an opaque remainder of descriptive fields. Derived equality stands in for the generated `PartialEq` used at src/server.rs:156.
- `watch` holds the mutex from its initial lookup until it returns (src/server.rs:132-165). Only the lookup is modelled.
- src/main.rs (binding the address, reflection service) and build.rs (protobuf code generation) are outside the modelled core.
