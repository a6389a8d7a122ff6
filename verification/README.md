# Throttled JSON-RPC client engine: a Dafny model

This project models the engine of `throttled-bitcoin-rpc`, a client for a
node's JSON-RPC interface over HTTP. The whole engine is generated by one
macro, `jsonrpc_client!`. It covers:

- **single calls**: build an envelope, pace, take a concurrency slot, send,
  give the slot back, then decode the body as one response envelope;
- **polymorphic calls**: methods such as `getblock` can answer in one of
  several shapes. The body is tried against the declared shapes in order,
  and the first that parses decides the outcome;
- **the batcher**: a queue of request envelopes and a map from correlation
  id to raw result. It supports enqueue (with an implicit flush when the
  queue is full), an all-or-nothing flush, and a collecting `send`;
- **the admission gate**: an in-flight counter bounded by `max_concurrency`
  (0 = no bound) and a last-dispatch stamp that paces starts to `rps`
  requests per second (0 = no pacing).

Modules:

- `Envelope` (envelope.dfy): ids, JSON values, request and response envelopes,
  error classes, and the outcome of one HTTP exchange.
- `Correlation` (correlation.dfy): a single call's reply, the id→result map
  built from a batch body, and the decoding of all collected results.
- `Resolver` (resolver.dfy): the ordered candidate resolution and the
  `reply::<method>::<Title>` accessors.
- `Methods` (methods.dfy): the declared method table of `BitcoinRpcClient`,
  a catalogue of names, parameters and variant orders. For a polymorphic
  entry, `TableAccessorsExclusive` connects the declared variant order to the
  resolver.
- `Pacing` (pacing.dfy): the integer-nanosecond pacing arithmetic, and the
  spacing of dispatch stamps over a run.
- `Admission` (admission.dfy): class `Client`, holding the counter and the
  stamp, with `Pace`, `Acquire`, `Release`, `Dispatch`, `Call` and
  `CallPolymorphic`.
- `Batching` (batching.dfy): class `Batcher`, holding `reqs` and `resps`,
  with `Flush`, `Enqueue` and `Send`.

Parameters stand in for the outside world:

- the transport is a `Wire` value: the send failed, the body could not be
  read, or the body text;
- every JSON decoding is an oracle function: it returns `None` for "does not
  parse", or a response envelope;
- the clock is a `now` reading in nanoseconds;
- new UUIDs are an `id` argument and a `mint` function that supplies the id
  for the i-th batch member that echoes none.

The condition-variable wait is replaced by the precondition `Admits()` of
`Client.Acquire`: a slot can be taken only when `counter < max_concurrency`.
A ghost trace on the client records the gate's events in order: stamp,
slot taken, send, slot given back, body read. Each send is tagged with the
slots held while it is outstanding. `Client.Valid()` keeps
`counter <= max_concurrency` and requires every recorded send to hold
between one and `max_concurrency` slots. A call or flush performs its whole
exchange as one `Dispatch`, so the model is sequential. Exchanges of
concurrent callers do not overlap in it.

Three behaviours of the code are easy to misread; the model follows the code:

- A single call returns the result whenever `result` is present, even if
  `error` is non-null. It fails with the `error` field only when `result`
  is absent (src/macros.rs:320-323).
- In the polymorphic resolver, the first candidate that parses without a
  result fails the call at once with its `error`. Later candidates are not
  tried, and exhaustion is reported only when no candidate parses
  (src/macros.rs:385-393).
- When a batch body is not an array and does not parse as one envelope
  either, the error raised is that of the single-envelope parse
  (src/macros.rs:201). Decode errors carry no payload in the model, so the
  two readings coincide here.

## Model

| member | source | states |
|---|---|---|
| Envelope.Received | src/macros.rs:300-318 | a failed send is a transport error and a failed body read a body-read error; otherwise the body text is returned |
| Correlation.SingleReply | src/macros.rs:319-323 | Ok(v) exactly when the body parses with `result` present, v being that result; an unparsable body is a decode error; an absent result is an error carrying the envelope's `error` field |
| Correlation.CallReply | src/macros.rs:300-323 | a single call's outcome: transport-class errors for a failed exchange, otherwise the single reply of the body |
| Correlation.KeyOf | src/macros.rs:206 | a member is filed under the id it echoes, or under a newly minted id when it echoes none |
| Correlation.Correlate | src/macros.rs:204-210 | collecting the batch members succeeds exactly when every member has a result |
| Correlation.CorrelateOk | src/macros.rs:204-210 | on success every member's key (its id, or a newly minted id when absent) is in the map, and each key holds the result of the last member filed under it |
| Correlation.CorrelateErr | src/macros.rs:204-210 | the first member without a result fails the whole collection with that member's `error` |
| Correlation.CorrelateLastWins | src/macros.rs:204-210 | every member's key is in the map, and a key holds the result of the last member filed under it |
| Correlation.CorrelateKeys | src/macros.rs:204-210 | the keys of a successful collection are exactly the members' keys |
| Correlation.CorrelateSize | src/macros.rs:204-210 | with pairwise distinct keys the map has one entry per batch member |
| Correlation.BatchReply | src/macros.rs:198-210 | a batch body succeeds exactly when it parses as an array whose members all have results; a non-array body always fails, with the single envelope's `error` if it parses as one, else with a decode error |
| Correlation.DecodeAll | src/macros.rs:218 | Ok exactly when every raw result decodes; the decoded map has exactly the input's keys and each value is its entry's decoding |
| Resolver.Resolve | src/macros.rs:383-394 | the ordered resolution fails only with exhaustion naming the method or with a parsed envelope's `error`; its outcome is pinned down by ResolveExhausted, ResolveFirst and ResolveSound |
| Resolver.ResolveExhausted | src/macros.rs:383-394 | when no candidate shape parses the body, the call fails with "cannot deserialize to any variant" naming the method |
| Resolver.ResolveFirst | src/macros.rs:384-392 | the first candidate that parses decides: its value wrapped in its variant when the result is present, otherwise an error carrying its `error` field |
| Resolver.ResolveIgnoresLater | src/macros.rs:384-392 | candidates after the first that parses are never tried: removing them changes nothing |
| Resolver.ResolveSound | src/macros.rs:383-394 | a successful resolution carries the variant of the first parsing candidate and the result that candidate decoded |
| Resolver.Expect | src/macros.rs:66-73 | the accessor returns the value exactly when the reply has the requested variant, otherwise a wrong-variant error naming the expected shape and the received variant |
| Resolver.ExpectExactlyOne | src/macros.rs:60-73 | after a successful resolution over variants with distinct titles, exactly one accessor succeeds: that of the first parsing candidate |
| Methods.SinglesUnique | src/lib.rs:307-321 | the single-shape methods have distinct names |
| Methods.TablesWellFormed | src/lib.rs:306-327 | in both the default and the fork builds, method names are unique and each polymorphic method declares at least one variant, with distinct titles |
| Methods.TableAccessorsExclusive | src/macros.rs:60-73 | for a polymorphic method of a well-formed table, resolving against its declared variants in order leaves exactly one accessor that succeeds: that of the first variant whose shape parses |
| Pacing.Wait | src/macros.rs:157-158 | the pacing interval is the largest whole number of nanoseconds of which `rps` fit into one second |
| Pacing.WaitAsWritten | src/macros.rs:158 | with `rps` narrowed to 32 bits the division panics exactly when the narrowed value is zero, and agrees with `Wait` below 2^32 |
| Pacing.WaitNarrowingCounterexample | src/macros.rs:158 | rps = 2^32 panics and rps = 2^32 + 1 waits a full second, where the intended interval is zero |
| Pacing.Elapsed | src/macros.rs:160 | the time since the last stamp, zero if the clock reads earlier |
| Pacing.SleepFor | src/macros.rs:161-163 | after sleeping the whole interval has elapsed, and the sleep is no longer than needed; no sleep once the interval has passed |
| Pacing.NextStamp | src/macros.rs:157-165 | the stamp of a paced dispatch is never before the clock reading and at most one interval after it; with a clock not behind the last stamp it is at least one interval after that stamp |
| Pacing.NextStampIsLater | src/macros.rs:157-165 | the new stamp is the later of the current time and one interval after the previous stamp |
| Pacing.StampsNearReadings | src/macros.rs:157-165 | over a run of paced dispatches each stamp lies between its clock reading and one interval after it |
| Pacing.StampsSpread | src/macros.rs:157-166 | over any run of serialised paced dispatches the first stamp is at least one interval after the initial stamp, and dispatches i ≤ j are at least (j - i) intervals apart |
| Admission.Client.constructor | src/macros.rs:239-250 | a new client has the configured bounds, a zero counter and the creation time as its last stamp |
| Admission.Client.PacedStamp | src/macros.rs:278-287 | with rps = 0 the stamp is unchanged; otherwise it is between the clock reading and one interval after it, and with a clock not behind the last stamp it is at least one interval after that stamp |
| Admission.Client.Admits | src/macros.rs:288-291 | a slot can be taken now: there is no bound, or the counter is below it, so that taking one keeps the slots held within the bound |
| Admission.Client.Held | src/macros.rs:288-298 | the slots held while a send is outstanding: one more than the counter with a bound, the counter itself without one |
| Admission.Client.Pace | src/macros.rs:278-287 | with rps > 0 the call sleeps the rest of the interval, stamps the dispatch (with a clock not behind the last stamp, at least one interval after it) and records the stamp in the trace; with rps = 0 nothing happens |
| Admission.Client.Acquire | src/macros.rs:288-298 | with a bound, a slot is taken only when one is free and the counter rises by one, never past the bound; without a bound the counter is untouched; the slot taken is recorded |
| Admission.Client.Release | src/macros.rs:312-317 | with a bound, giving a slot back lowers the counter by one; the release is recorded |
| Admission.Client.Dispatch | src/macros.rs:278-318 | one exchange appends exactly its events: the stamp (when pacing), the slot taken, the send holding it, the slot given back once on either send outcome, then the body read unless the send failed. Every send holds between one and max_concurrency slots, the counter ends where it started, and the result is the exchange's body or its transport-class error |
| Admission.Client.Call | src/macros.rs:264-324 | a single call's result is the call reply of the exchange, with the counter restored, the dispatch stamped and the exchange's events recorded |
| Admission.Client.CallPolymorphic | src/macros.rs:328-396 | a polymorphic call resolves the delivered body against the candidates in declaration order; a failed exchange surfaces its transport-class error; the exchange's events are recorded |
| Batching.Capacity | src/macros.rs:118-121 | the queue bound is the batch size, or one for a batch size of zero |
| Batching.Flushed | src/macros.rs:143-214 | flushing an empty queue leaves the results as they are; otherwise the flush succeeds exactly when the body arrives and its batch reply succeeds |
| Batching.FlushMerges | src/macros.rs:204-212 | a successful flush keeps every earlier result the batch does not answer, files every member under its key, and a key the batch answers holds the result of the last member filed under it, replacing any earlier result |
| Batching.FlushFilesEveryRequest | src/macros.rs:198-212 | when every request is answered and its id echoed, the results are keyed by exactly the ids of the requests sent |
| Batching.Batcher.constructor | src/macros.rs:252-259 | a new batcher has an empty queue, no results and the client's batch size |
| Batching.Batcher.Flush | src/macros.rs:143-214 | an empty queue is a no-op (no pacing, no slot, results untouched); otherwise either the queue is emptied and the results extended, or queue and results are unchanged and the error returned; the counter is restored; a non-empty queue stamps the client and records one exchange, an empty one neither |
| Batching.Batcher.Enqueue | src/macros.rs:111-123 | a full queue is flushed first; if that fails nothing is queued and the error is returned; otherwise the request is appended at the end and its id returned; the queue never exceeds its capacity; the client is stamped and one exchange recorded exactly when a non-empty full queue is flushed |
| Batching.Batcher.Send | src/macros.rs:216-223 | flushes first; on success returns the decoded results with exactly the flushed keys and empties the results; if any result fails to decode the results are kept and the error returned; the client is stamped and one exchange recorded exactly when the queue was non-empty |

## Findings

| source | as written | input that shows it | evidently intended | confidence | as-written member | corrected member |
|---|---|---|---|---|---|---|
| src/macros.rs:158 (also 279, 343) | the pacing interval divides one second by `rps as u32`, which keeps only the low 32 bits of the 64-bit `rps` | rps = 4294967296 narrows to 0 and the duration division panics; rps = 4294967297 narrows to 1 and paces at one request per second | interval = 1 s / rps, which is zero nanoseconds for such rates | high that the arithmetic is as stated, low practical impact (such rates are unrealistic); not executed | Pacing.WaitNarrowingCounterexample | Pacing.Wait |

The rest of the model paces with `Pacing.Wait`. The as-written interval is
`Pacing.WaitAsWritten`.

## Left out

- HTTP transport: the `reqwest` client, the `Connection: close` header, basic-auth header construction and the serialisation of request bodies. Each exchange is the `Wire` outcome parameter.
- JSON parsing and serialisation (serde and serde_json), including `polymorphize`'s serialise-and-reparse of the parameters. Every decode is an oracle parameter, and request parameters are already JSON values.
- UUID v4 generation: ids are supplied as arguments (`id`, `mint`). Where a property needs distinct ids (`Correlation.CorrelateSize`), distinctness is a precondition, not a proof.
- Admission.Client.Dispatch: concurrent exchanges are not interleaved. A whole exchange is one method call, and a caller blocked on a full gate is a precondition (`Admits()`) rather than a waiting thread. The admission bound is stated per recorded send, not over overlapping exchanges of several threads.
- Mutex and condition-variable mechanics: locking, `wait` and `notify_one`, and wake-up fairness. The wait is the precondition `Admits()`; `Client.Acquire` and `Client.Release` are atomic steps.
- Real sleeping and reading the clock: the clock is the `now` parameter. The sleep is exact, so the stamp is `now + delay`. A real `thread::sleep` may oversleep, which only widens the gaps.
- Admission.Client.Call: the request envelope it builds (method name, positional parameters, new id) goes only to the transport, so the model does not represent it.
- Error text: `bail!("{:?}", …)` formats the server's `error` value. In the model the error carries the value itself, and `WrongVariant` carries the received variant's title rather than the debug rendering of the whole reply.
- Correlation.DecodeAll: the entry whose decode error is reported depends on hash-map iteration order. Decode errors carry no payload here, so every failing entry gives the same error.
- The domain record types, the feature-gated variants' payload types and all floating-point fields and arguments in src/lib.rs:15-304: plain data with no logic.
- The per-method expansion of the macro: one generic `Call`, `CallPolymorphic` and `Enqueue`, plus the `Methods` table, stand for every generated method.
- The `logging` feature's console output, and the network integration test in tests/integration_bch.rs.
