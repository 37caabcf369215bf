# BuddiesNetwork batch loader, modelled in Dafny

BuddiesNetwork's network manager (`BDNNetworkManager`) loads a batch of URL
requests. It keeps at most four tasks in flight (a sliding window) and
returns one `Result` per request, in the order the tasks finish. This project
models that manager:

- `loadMultipleData` is `BuddiesNetwork.NetworkManager.LoadMultipleData`. It is
  an imperative method on a class whose fields are the manager's stored batch
  (`arrRqModel`) and its dispatch counter (`completedCount`).
  - The task group is a `map` from each launched, unfinished index to the value
    its task delivers. Which task finishes next is an arbitrary choice (`:|`).
  - The first wave is `LaunchFirstWave`. One round of `for await … in group`
    is `CollectNext`, which uses `LaunchNext` for the launch that follows a
    completion.
- `getUrlToLoad` is `GetUrlToLoad`.
- `loadData` is the function `LoadData`.
- `NetworkError` is the datatype of the same name, with its four cases.

The scheduling rule is stated on its own over values, in module
`SlidingWindow`:

- A `Window` holds the cursor, the in-flight set and the finishing order.
- `Start` is the first wave and `Complete` is one task finishing.
- `Run` says that a sequence of windows is a legal execution.
- `Valid` is the window's invariant: the cursor is `min(4, n) + finished`,
  capped at `n`. The launched indices `0..cursor-1` are split between in
  flight and finished, with none finished twice.

Each call of `LoadMultipleData` returns:

- a ghost finishing order;
- a ghost trace of windows.

Its contract (`LoadedAll`) ties the concrete results to them:

- the trace is an execution of the window;
- it ends with nothing in flight;
- the finishing order is a permutation of `0..n-1`;
- `results[k]` is the result of request `order[k]`.

The lemmas about `Run` then give the bounds on every execution:

- at most `min(4, n)` tasks in flight;
- `min(4, n) <= cursor <= n`;
- each completion launches at most one task.

The HTTP client is the constant `fetch: R -> Outcome<D, E>` of the manager,
fixed when the manager is created. The `as? T` cast in `loadData` is the
predicate `isT: D -> bool`. Swift picks `T` on each call of
`loadMultipleData`, `loadData` and `getUrlToLoad`, so `isT` is a parameter of
each call: one manager can load one batch whose payloads all pass the cast and
another whose payloads all fail it with `noValidData`.

A task's body (`getUrlToLoad`) runs when the task is launched, and its value
waits in the task group until the task is collected. The manager reads
`arrRqModel` only while one batch runs, and `fetch` is a function, so
launching earlier than Swift would does not change any result. It does mean
that `completedCount` counts requests *dispatched* so far, not requests
finished:

- during a batch it equals the old value plus the cursor;
- after a batch it equals the old value plus `|arrUrl|`.

The doc comment at line 40 of the Swift source calls it the number of
completed tasks. The code increments it before the fetch (line 87), and the
model follows the code.

An index past the end of the stored batch traps in Swift (`arrRqModel?[index]`
subscripts an array). The model therefore has it as a precondition of
`GetUrlToLoad`, not an `IndexNotFound` result. `IndexNotFound` is returned
only when no batch was ever stored.

## Model

| member | source | states |
|---|---|---|
| SlidingWindow.Width | BuddiesNetwork/Sources/BuddiesNetwork/BuddiesNetwork.swift:47 | the first wave has `min(4, n)` tasks: at most 4, at most `n`, and one of the two |
| SlidingWindow.Start | BuddiesNetwork/Sources/BuddiesNetwork/BuddiesNetwork.swift:47-54 | after the first wave the cursor is `min(4, n)`, nothing has finished, and exactly the indices `0..min(4, n)-1` are in flight |
| SlidingWindow.StartValid | BuddiesNetwork/Sources/BuddiesNetwork/BuddiesNetwork.swift:47-54 | the first wave satisfies the window invariant |
| SlidingWindow.Complete | BuddiesNetwork/Sources/BuddiesNetwork/BuddiesNetwork.swift:56-64 | a finishing task is appended to the finishing order; the cursor moves by one exactly when an unlaunched request remains; the only index that can join the in-flight set is the one under the cursor |
| SlidingWindow.CompleteKeepsValid | BuddiesNetwork/Sources/BuddiesNetwork/BuddiesNetwork.swift:56-64 | a completion keeps the invariant: cursor = min(width + finished, n), nothing finished twice, and the launched indices are exactly the in-flight plus the finished ones, disjointly |
| SlidingWindow.CompleteLaunchesAtMostOne | BuddiesNetwork/Sources/BuddiesNetwork/BuddiesNetwork.swift:57-61 | a completion never raises the number of tasks in flight, so it launches at most one |
| SlidingWindow.InFlightCount | BuddiesNetwork/Sources/BuddiesNetwork/BuddiesNetwork.swift:47-61 | in a valid window the number in flight is `cursor - finished`; it equals `min(4, n)` until fewer requests than that remain unfinished, and never exceeds it |
| SlidingWindow.Drained | BuddiesNetwork/Sources/BuddiesNetwork/BuddiesNetwork.swift:56-66 | nothing is in flight exactly when all `n` tasks finished; then the cursor is `n` and every index finished |
| SlidingWindow.Covers | BuddiesNetwork/Sources/BuddiesNetwork/BuddiesNetwork.swift:56-66 | a finishing order whose indices are `0..n-1` contains every index below `n` |
| SlidingWindow.RunExtend | BuddiesNetwork/Sources/BuddiesNetwork/BuddiesNetwork.swift:56-64 | any in-flight task may finish next: an execution extended by completing any in-flight task is an execution |
| SlidingWindow.RunPrefix | BuddiesNetwork/Sources/BuddiesNetwork/BuddiesNetwork.swift:56-64 | every non-empty prefix of an execution is an execution |
| SlidingWindow.RunLast | BuddiesNetwork/Sources/BuddiesNetwork/BuddiesNetwork.swift:47-64 | the last window of any execution satisfies the invariant |
| SlidingWindow.RunValid | BuddiesNetwork/Sources/BuddiesNetwork/BuddiesNetwork.swift:47-64 | every window of any execution satisfies the invariant |
| SlidingWindow.Advance | BuddiesNetwork/Sources/BuddiesNetwork/BuddiesNetwork.swift:56-64 | while a task is in flight, fewer than `n` tasks have finished, and the execution extends by completing it |
| SlidingWindow.WindowBound | BuddiesNetwork/Sources/BuddiesNetwork/BuddiesNetwork.swift:47-65 | at every point of every execution: at most `min(4, n)` in flight, `min(4, n) <= cursor <= n`, and in flight plus finished is exactly `0..cursor-1` |
| BuddiesNetwork.LoadData | BuddiesNetwork/Sources/BuddiesNetwork/BuddiesNetwork.swift:75-83 | success exactly when the client returned a payload of the expected type, with that payload; a thrown error is passed on unchanged; the only error of the manager's own is `noValidData` |
| BuddiesNetwork.NetworkManager.constructor | BuddiesNetwork/Sources/BuddiesNetwork/BuddiesNetwork.swift:22-35 | a new manager has no stored batch and a zero counter |
| BuddiesNetwork.NetworkManager.GetUrlToLoad | BuddiesNetwork/Sources/BuddiesNetwork/BuddiesNetwork.swift:85-89 | with no stored batch: `indexNotFound` and the counter unchanged; otherwise the request's `loadData` result and the counter up by exactly one |
| BuddiesNetwork.NetworkManager.LaunchFirstWave | BuddiesNetwork/Sources/BuddiesNetwork/BuddiesNetwork.swift:50-54 | the task group holds exactly the indices `0..count-1`, each with its request's result, and the counter rose by `count` |
| BuddiesNetwork.NetworkManager.Loaded | BuddiesNetwork/Sources/BuddiesNetwork/BuddiesNetwork.swift:62-63 | the collected results have one entry per finished index, the result of that index's request |
| BuddiesNetwork.NetworkManager.LoadedAppend | BuddiesNetwork/Sources/BuddiesNetwork/BuddiesNetwork.swift:62-63 | collecting one more task appends exactly its request's result |
| BuddiesNetwork.NetworkManager.FirstWaveInProgress | BuddiesNetwork/Sources/BuddiesNetwork/BuddiesNetwork.swift:47-55 | the state after the first wave (cursor `min(4, n)`, no results) is the start of an execution of the window |
| BuddiesNetwork.NetworkManager.InProgressBounds | BuddiesNetwork/Sources/BuddiesNetwork/BuddiesNetwork.swift:38-61 | while a batch runs the task group holds at most `min(4, n)` tasks, `min(4, n) <= cursor <= n`, and the cursor equals the finished tasks plus those in flight |
| BuddiesNetwork.NetworkManager.Relaunch | BuddiesNetwork/Sources/BuddiesNetwork/BuddiesNetwork.swift:57-61 | the launch adds the index under the cursor to the group exactly when a request is left, and keeps every value equal to its request's result |
| BuddiesNetwork.NetworkManager.LaunchNext | BuddiesNetwork/Sources/BuddiesNetwork/BuddiesNetwork.swift:57-61 | when a request is left, the next one is launched, the cursor moves by one and the counter rises by one; otherwise nothing changes |
| BuddiesNetwork.NetworkManager.CollectStep | BuddiesNetwork/Sources/BuddiesNetwork/BuddiesNetwork.swift:56-64 | one round keeps the loop's bookkeeping: the new state is the window after `Complete`, and its results extend the old ones by the finished request's result |
| BuddiesNetwork.NetworkManager.CollectNext | BuddiesNetwork/Sources/BuddiesNetwork/BuddiesNetwork.swift:56-64 | one round of `for await`: some task `finished` of the group delivers its value. The new group is the old one without `finished`, plus the index under the cursor when a request is left, and the cursor moves by one exactly then. The results gain `finished`'s own result at the end, and the finishing order gains `finished`. The window takes the `Complete` step for `finished`, the bookkeeping is kept, and the counter rises by exactly the cursor's advance |
| BuddiesNetwork.NetworkManager.Finished | BuddiesNetwork/Sources/BuddiesNetwork/BuddiesNetwork.swift:56-66 | once the group is empty the cursor reached `n`, and the batch is finished (`LoadedAll`) |
| BuddiesNetwork.NetworkManager.LoadedNothing | BuddiesNetwork/Sources/BuddiesNetwork/BuddiesNetwork.swift:44 | an empty batch is finished with no results |
| BuddiesNetwork.NetworkManager.LoadMultipleData | BuddiesNetwork/Sources/BuddiesNetwork/BuddiesNetwork.swift:43-68 | an empty batch returns no results and leaves the stored batch and the counter as they were. Otherwise the batch is stored and the counter rises by exactly `n`. The results are those of an execution of the sliding window that drained, one per request, in finishing order, with each index finishing exactly once. The largest task group after any launch (`busiest`) is exactly `min(4, n)`: the first wave fills the window and the loop never goes beyond it |
| BuddiesNetwork.NetworkManager.EveryRequestAnswered | BuddiesNetwork/Sources/BuddiesNetwork/BuddiesNetwork.swift:62-66 | a finished batch has `n` results: every index occurs in the finishing order, exactly once, with its own request's result at its position, so the `!= nil` filter drops nothing |
| BuddiesNetwork.NetworkManager.OnlyNoValidData | BuddiesNetwork/Sources/BuddiesNetwork/BuddiesNetwork.swift:62-63 | a finished batch never holds `noDecodable`, `indexNotFound` or `noValidUrl`: the `?? noDecodable` fallback is never used |

## Left out

- The `URLSession` configuration is not modelled (lines 28-35): the operation queue of 4, the 30-second request timeout, the 4-connection cap, `waitsForConnectivity` and the session name. The network is the `fetch` function, so timeouts and connectivity have no counterpart.
- The HTTP client itself (`session.data(for:)`) is the manager's constant `fetch`, and the payload cast `as? T` is the predicate `isT` passed on each call. A fetch is deterministic in the model: the same request always gives the same outcome.
- Concurrency is replaced by a sequential loop that picks the next finishing task nondeterministically. Real parallel interleaving, actor isolation (`@globalActor`) and suspension points are not modelled.
- LoadMultipleData: the model does not cover a second batch started while one is running on the same manager, which overwrites `arrRqModel` under the first one. One call runs to completion before anything else touches the manager.
- The `[weak self]` capture and its `guard let self else { return [] }` exit (lines 46-48) are left out: the manager stays alive for the whole batch.
- `BDNGlobalNetworkManager.shared`, `BDNNetworkManager.shared` and `EKTNetworkManager` (lines 12-20) are not modelled: they are singletons and a type that is not part of this model.
- `completedCount` is a `Double` in Swift and a `nat` here. The count stays a whole number far below 2^53, where `Double` counts exactly.
- `NoValidUrl` is declared but never produced by any code path of the manager. It appears only as a case of `NetworkError`.
- GetUrlToLoad: an index past the end of the stored batch is a precondition (Swift traps) rather than an `IndexNotFound` result.
- LoadMultipleData: the window bound is stated on the ghost result `busiest`, which records the size of the real task group after each launch, and is kept by the loop's invariants. A method's contract cannot name the states inside its loop, so the bound is not a clause about the counter alone.
- LoadMultipleData: a task's body runs at launch, not when the task is scheduled, so `completedCount` counts dispatched lookups as they are launched.
