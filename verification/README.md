# Cross-context variable search — a Dafny model

js-hook records variable observations in every execution context of a web
page: the main document, its embedded frames, its parent frame and its
workers. A developer can search those records from any one context. The
query is a message. A context with a document (a page or a frame) posts it
to itself first, so its own listener handles it before anyone else. A worker
posts it to the `Worker` object its owner holds, which the listener in this
file does not watch. Every context that
accepts the message searches its own record store, prints what it found,
remembers the message's identifier and forwards the same message to its
workers, its embedded frames and its parent frame. No coordinator exists.
The only thing that stops a query from circulating forever between a frame
and its parent is the set of handled identifiers each context keeps.

This project models that protocol in `packages/core/src/browser/search-string.ts`
as immutable data and pure functions, and proves properties of it:

- `Records`: the record store and JavaScript's `String(...)` coercion of a record's fields.
- `Matcher`: literal and regular-expression patterns; `search` as an order-preserving filter.
- `StackFrame`: `parseCodeLocation` and the two lazy regular expressions it runs, scanned exactly as a backtracking engine scans them.
- `Presenter`: what `printResult` decides to show.
- `Envelope`: the message, `isValidMessageEvent`, and the `searchByMsg` / `searchNameByMsg` message builders.
- `FanOut`: `crossThreadSearch` as a function from a context to its ordered targets.
- `Handler`: the `message` listener as a transition over the handled-identifier set.
- `Flood`: a finite graph of contexts that deliver messages in any order. Each context processes a nonzero identifier at most once. The flood of such a query always drains. Once drained, it has reached every neighbour of every context that processed it. With identifier 0 nothing is deduplicated: a page and its embedded frame pass the query back and forth forever.

The regular-expression engine is an opaque predicate: `Regex(test)`. The
identifier, which the source derives from `Date`, is a parameter. Message
delivery is a direct call of the handler.

Two behaviours of the code deserve a note:

- An identifier of 0 is never refused as a duplicate. The validator tests
  `uid && messageSet.has(uid)` (line 29), and 0 is falsy. See
  `Envelope.IsValidMessageEvent`, `Handler.ZeroUidReprocessed` and
  `Flood.ZeroUidFloodNeverDrains`.
- The fan-out has a fixed order: the workers first, then the frames, then the
  parent (lines 49-61). `FanOut.CrossThreadSearch` keeps that order.

## Model

| member | source | states |
|---|---|---|
| Records.FieldText | packages/core/src/browser/search-string.ts:94-99 | `String(item[fieldName])`: `name`, `type` and `codeLocation` as they are, `value` through `String(...)`, `execOrder` as the decimal numeral of the number; a name that is not a record field reads as `"undefined"` |
| Records.ToJsString | packages/core/src/browser/search-string.ts:97 | `String(v)`: a string as it is, an integer as its sign and canonical decimal numeral, `true`/`false`, `null`, `undefined` |
| Records.DigitsRoundTrip | packages/core/src/browser/search-string.ts:97 | the decimal numeral of `n` reads back as `n` |
| Records.IntStringRoundTrip | packages/core/src/browser/search-string.ts:97 | the string of an integer is a minus sign for a negative, then a canonical numeral that reads back as its magnitude |
| Matcher.IsTargetValue | packages/core/src/browser/search-string.ts:86-92 | a `RegExp` pattern decides by its `test` on the value; any other pattern by `===` |
| Matcher.Search | packages/core/src/browser/search-string.ts:94-99 | every result is a store record that the pattern accepts, and every accepted store record is in the result |
| Matcher.SearchIsOrderedFilter | packages/core/src/browser/search-string.ts:94-99 | the result is the store read at strictly increasing positions, and those positions are exactly the positions of accepted records |
| Matcher.SearchAppend | packages/core/src/browser/search-string.ts:94-99 | searching two concatenated stores equals searching each store and concatenating the results (the filter keeps order) |
| Matcher.SearchIdempotent | packages/core/src/browser/search-string.ts:94-99 | searching a search result again with the same query changes nothing |
| Matcher.LiteralSearchIsExactMatch | packages/core/src/browser/search-string.ts:86-92 | a literal pattern returns only records whose field text equals it exactly, and misses none of them |
| StackFrame.CloseFromFindsShortestRun | packages/core/src/browser/search-string.ts:70-80 | the inner scan of `(.+?)` stops at the shortest non-empty run without line terminators that ends at the closing character, and fails when there is no such run |
| StackFrame.FirstMatchFindsLeftmost | packages/core/src/browser/search-string.ts:70-80 | the outer scan returns the leftmost match position, and finds nothing only when no position matches |
| StackFrame.MatchGroupIsLeftmostCapture | packages/core/src/browser/search-string.ts:70-80 | `match(...)[1]` is the group of the leftmost match, and is absent exactly when the expression matches nowhere |
| StackFrame.ParseCodeLocation | packages/core/src/browser/search-string.ts:68-83 | `codeAddress` is the group of the leftmost `(…)` match, or the whole location when there is none; `codeName` is the group of the leftmost `at …(` match, and is absent exactly when there is no such match |
| StackFrame.ParenMatchWithoutTerminators | packages/core/src/browser/search-string.ts:70-75 | on a location without line terminators, the address match is a `(` followed, at least two places on, by the first `)`: the first parenthesised segment with non-empty content |
| StackFrame.ChromiumFrame | packages/core/src/browser/search-string.ts:66-83 | a Chromium-style frame `  at add (t.js:1)` gives address `t.js:1` and name `add ` with its trailing space |
| StackFrame.FirefoxFrame | packages/core/src/browser/search-string.ts:66-83 | a Firefox-style frame `add@t.js:2` gives the whole frame as address and no name |
| Presenter.DisplayRows | packages/core/src/browser/search-string.ts:118-129 | one display row per result, in result order |
| Presenter.Blank | packages/core/src/browser/search-string.ts:148-150 | `blank(n)` is exactly `n` spaces |
| Presenter.PrintResult | packages/core/src/browser/search-string.ts:101-146 | nothing is shown for no results; otherwise one row per result, with the execution count looked up by the raw `codeLocation` and the parsed name and address; `min(n, 10)` line entries numbered in result order; the table group is collapsed iff there are more than 10 results |
| Presenter.LinesAreLeadingRows | packages/core/src/browser/search-string.ts:138-144 | each line entry repeats the name and address of the table row at the same position |
| Presenter.LinesIgnoreMatchesPastLimit | packages/core/src/browser/search-string.ts:130-144 | once there are 10 results, further results do not change the line entries |
| Envelope.IsValidMessageEvent | packages/core/src/browser/search-string.ts:19-33 | a message is valid iff its data is present, its type is the protocol tag, its `uid` is a number, and the `uid` is 0 or not yet in the handled set |
| Envelope.ZeroUidNeverDuplicate | packages/core/src/browser/search-string.ts:29-31 | a well-formed message with `uid` 0 is valid whatever the handled set holds |
| Envelope.SearchByMsg | packages/core/src/browser/search-string.ts:156-165 | the built message carries the protocol tag, the given `uid` and pattern, and the given field, or `value` when the field is left out |
| Envelope.SearchNameByMsg | packages/core/src/browser/search-string.ts:152-154 | the built message carries the protocol tag, the given `uid` and pattern, and the field `name` |
| Envelope.DefaultFieldIsValue | packages/core/src/browser/search-string.ts:156-158 | leaving out the field builds the same message as asking for `value` |
| Envelope.BuiltQueryValidity | packages/core/src/browser/search-string.ts:19-33 | a freshly built query is valid iff its `uid` is 0 or not yet handled in this context |
| FanOut.WorkerTargets | packages/core/src/browser/search-string.ts:49-51 | one post per registered worker, in registry order |
| FanOut.FrameTargets | packages/core/src/browser/search-string.ts:54-56 | one post per embedded frame, in document order |
| FanOut.CrossThreadSearch | packages/core/src/browser/search-string.ts:48-64 | the targets are all workers; then, only when a document exists, all frames; then the parent when the context is not the top frame |
| FanOut.FanOutReachesExactlyNeighbours | packages/core/src/browser/search-string.ts:48-64 | the handles posted to are exactly the context's one-hop neighbours |
| FanOut.WorkerContextForwardsToWorkersOnly | packages/core/src/browser/search-string.ts:52-63 | a context without a document forwards to its own workers only |
| FanOut.ParentTargetedIffEmbedded | packages/core/src/browser/search-string.ts:58-61 | the parent is a target iff the context has a document and is not the top frame |
| Handler.HandleMessage | packages/core/src/browser/search-string.ts:36-45 | an invalid message is dropped; a valid one adds its `uid` to the handled set, yields the search's matches and their display, and forwards the same message to the fan-out targets |
| Handler.SeenOnlyGrows | packages/core/src/browser/search-string.ts:36-45 | the handled set never shrinks and gains at most the message's own `uid` |
| Handler.MalformedMessageDropped | packages/core/src/browser/search-string.ts:36-40 | missing data, a foreign type tag or a non-numeric `uid` leaves the context unchanged and forwards nothing |
| Handler.RedeliveryIsNoOp | packages/core/src/browser/search-string.ts:36-45 | a well-formed message with a new nonzero `uid` is processed, and redelivering it to the same context is then dropped, whatever that context now holds |
| Handler.ZeroUidReprocessed | packages/core/src/browser/search-string.ts:29-43 | a message with `uid` 0 is processed again on every delivery |
| Handler.SearchFrom | packages/core/src/browser/search-string.ts:156-171 | a context with a document posts the query to itself, and exactly then its own handler takes it first: it is processed iff its `uid` is 0 or new there, and then it searches the requested field (default `value`); a worker instead posts the built query to its owner |
| Handler.SameMillisecondQueriesCollide | packages/core/src/browser/search-string.ts:160-170 | two queries with the same time-derived `uid`: from a context with a document the second is dropped as a duplicate, whatever its pattern and field; from a worker both go to the owner under that `uid` |
| Flood.DeliverEffect | packages/core/src/browser/search-string.ts:36-45 | one delivery, `Flood.Deliver`: a message the destination refuses, or one to no context, only leaves the inbox; an accepted one adds its `uid` to the destination's set, logs one processing event, and puts one message per fan-out target in flight |
| Flood.Run | packages/core/src/browser/search-string.ts:36-45 | a sequence of deliveries in the chosen order: the contexts are unchanged, and each delivery logs at most one processing event |
| Flood.RunExtendsLog | packages/core/src/browser/search-string.ts:36-45 | deliveries only append to the log: what was processed stays recorded, in order |
| Flood.DeliverKeepsInv | packages/core/src/browser/search-string.ts:36-45 | every delivery keeps this invariant: each processing event is in its context's handled set, and no nonzero-`uid` event happens twice |
| Flood.RunKeepsInv | packages/core/src/browser/search-string.ts:36-45 | any order of deliveries keeps that invariant |
| Flood.AtMostOncePerContext | packages/core/src/browser/search-string.ts:9-45 | from a start with no processing, and in any delivery order, each context processes a nonzero `uid` at most once, so at most as many times as there are contexts |
| Flood.DeliverLowersPotential | packages/core/src/browser/search-string.ts:36-64 | in the flood of one nonzero-`uid` query, each delivery lowers (messages in flight + forwards still owed) |
| Flood.FloodDrains | packages/core/src/browser/search-string.ts:36-64 | in any delivery order, such a flood drains within that many deliveries |
| Flood.DrainedFloodIsClosed | packages/core/src/browser/search-string.ts:36-64 | in a drained flood, every neighbour of a context that processed the query has processed it |
| Flood.FloodReachesNeighbours | packages/core/src/browser/search-string.ts:36-64 | a flood started by one message to the originator (a page posting to itself, as `Handler.SearchFrom` does) drains; the originator processes the query; and the processing contexts are closed under fan-out |
| Flood.ZeroUidFloodNeverDrains | packages/core/src/browser/search-string.ts:29-64 | with `uid` 0, a top page and its embedded frame hand the query back and forth: after `2k` deliveries it has been processed `2k` times and is still in flight |

## Left out

- `packages/whistle.hook-server/src/server.ts` is not part of this model. It is proxy plumbing over streams and the file system.
- The `postMessage` transport, listener registration and the `'*'` target origin are not modelled. A delivery is a direct call of `Handler.HandleMessage`. In `Flood`, messages in flight wait in an inbox and may be delivered in any order: `Flood.Run` takes a sequence of choices, and each delivery takes the message at the chosen position, or the oldest one when the position is past the end. A message to a handle that no context answers is lost.
- Regular expressions are an opaque `string -> bool` test. The `lastIndex` state that `test` keeps for a global or sticky expression is not modelled.
- The `uid` is a parameter, not `+new Date()`. Numeric `uid`s are integers: NaN, `-0` and fractions are not modelled. NaN would act like 0: falsy and never deduplicated.
- Records.FieldText: `String(...)` is modelled for strings, integers, booleans, `null` and `undefined`. Integers are limited to magnitudes below 10^21 (`Records.PlainInt`), the range that `String(...)` writes in plain decimal; larger numbers, which it writes in exponent form, fractions and objects are not modelled. Integers below 10^21 that no double can hold (such as 2^53 + 1) are still allowed. Inherited properties such as `toString` are not modelled.
- The group label (`location.href` or the fallback text, plus the result count) is left out. So are console styling, `console.group`/`groupCollapsed`/`table`/`log` side effects and the column selection of the table. `Presenter.PrintResult` returns what is shown, not how.
- The console format string of a line entry (`%c`, the index, the name, `blank(2)`, the address label and the address) is not built; `Presenter.PrintResult` returns the entry's index, name and address, and `Presenter.Blank` models `blank`.
- The examples `StackFrame.ChromiumFrame` and `StackFrame.FirefoxFrame` use shortened frames of the two shapes quoted in the source (`  at add (t.js:1)`, `add@t.js:2`). The general statement is the contract of `StackFrame.ParseCodeLocation`.
- `Flood.FloodReachesNeighbours` states reachability as closure under one fan-out hop. It does not define an explicit path relation.
- Handler.SearchFrom: a worker posts its query to the `Worker` object its owner holds. Nothing in this file listens there, so the model stops at `OwnerPost`: whether the owner relays the query is outside this model. A worker's own listener never handles its own query.
- Handler.HandleMessage: the globals `e_user_string_db`, `e_user_execute_times` and `e_user_hook_worker_list` are assumed present, and every record's `codeLocation` is assumed to be a string. The source does not check either. If `printResult` throws (for one, `.match` on a `codeLocation` that is not a string, reached from line 119), lines 43-44 never run: the `uid` stays unrecorded, nothing is forwarded, and every redelivery processes the query again. If the worker list is missing, line 49 throws after the `add` at line 43: the `uid` is recorded and nothing is forwarded. Neither failure path is modelled.
- Concurrency: the model treats one handler run as one atomic step of its context. That matches the single-threaded event loop of each context. Timing across contexts appears only as the arbitrary delivery order.
