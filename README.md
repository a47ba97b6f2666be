# K2V batch API handlers — a Dafny model

This project models the request-handling layer of Garage's K2V batch API
(`src/api/k2v/batch.rs`): insert batches, read batches, delete batches and
the range long-poll. The layer is a small amount of decision logic between
the HTTP transport and the collaborators that do the real work:

- the causality layer (`CausalContext::parse` and `serialize`, an item's `causal_context()` and `values()`),
- base64,
- the item table (`item_table.get`, `K2VItemTable::matches_filter`, the range enumerator `read_range`),
- the K2V RPC layer (`rpc.insert`, `rpc.insert_batch`, `rpc.poll_range`).

Each collaborator is an arbitrary function. `Codec` and `ItemTable` hold the
pure ones as function-valued fields, and `Poller` is the poll call. The two
writing calls go through a `K2vModel.Rpc` object: its `issued` field logs
every call in order, and its `respond` function gives the layer's answer
to each call. The properties below hold whatever these functions are,
except where a lemma assumes one of two kinds of collaborator law:
`NoPanicWhenScansComplete` assumes the range enumerator's promise that an
unlimited scan is never truncated; `ReadTokenWritesBack` assumes that
parsing undoes serializing, and `ReadItemWritesBack` assumes that and
that base64 decoding undoes encoding. Each collaborator is a fixed function of
its arguments: the model has no state below the handlers, so the same call
always gets the same answer and a read never sees a write of the same
batch (see "## Left out").

Modules, one per handler, plus the shared model:

- `Wrappers`: `Option` and `Result`; `:-` stands for Rust's `?`.
- `K2vModel`: items, values, filters, errors, write entries, RPC calls and the collaborator interfaces.
- `ResponseItem`: `ReadBatchResponseItem::from`.
- `Assembly`: the `resps.push(resp?)` loop shared by the read and delete batches.
- `InsertBatch`, `ReadBatch`, `DeleteBatch`, `PollRange`: the handlers.

Properties proved:

- **Insert batch is all-or-nothing on validation.** A causality token that does not parse, or a payload that does not decode, rejects the batch. The error is that of the first bad item, with the token checked before the payload, and no write is issued. Otherwise exactly one `insert_batch` call carries every item in input order, and a missing payload becomes a `Deleted` tombstone.
- **Single-item reads.** `prefix`, `end` or `limit` being set, or `reverse` being true, is a bad request. So is a missing `start`. Such a query gives the same answer whatever the table and codec hold, so no lookup is made. Otherwise the query returns at most one item, the one at `start`, exactly when it exists and passes the filter `exclude_only_tombstones = !tombstones, conflicts_only = conflicts_only`. It always returns `more = false` and `next_start = None`.
- **Range reads.** The query's parameters, the filter and the direction reach `read_range` unchanged, and its answer is returned with each item converted.
- **Responses echo every query parameter.**
- **Single-item deletes** reject only `prefix`/`end` (and a missing `start`). They write at most one tombstone, with one `insert` that carries the found item's own causal context.
- **Range deletes** scan forward with no limit under the filter `exclude_only_tombstones = true, conflicts_only = false`. A truncated scan panics. A complete scan issues one `insert_batch` whose k-th entry is a tombstone over the k-th scanned item. `deleted_items` always equals the number of tombstones written.
- **Batches.** Response i answers query i, and the first failed query's error fails the whole call.
- **Poll timeout.** The timeout is 300 s by default, clamped to [10, 600] s, and given in milliseconds, so it always lies in [10000, 600000]. It is monotone in the requested value. A `None` poll result gives `NOT_MODIFIED`.
- **Response items.** Conversion keeps the sort key, serializes the context, and keeps the number and order of the values. Under the codec's round-trip laws, the token and each value of a response item translate, through the insert path, into a write that carries the item's own causal context and that value.

Sub-queries do not fail independently: the `resps.push(resp?)` loops at
lines 62-65 and 154-157 of `src/api/k2v/batch.rs` make the first failed
sub-query fail the whole batch. `HandleReadBatch` and `HandleDeleteBatch`
state that behaviour.

## Model

| member | source | states |
|---|---|---|
| `InsertBatch.TranslateItem` | src/api/k2v/batch.rs:27-38 | an item is accepted iff its token (if any) parses and its payload (if any) decodes; a bad token is reported before a bad payload; the write keeps pk and sk, carries the parsed context (or none), and the value is `Deleted` exactly when `v` is absent, else the decoded bytes |
| `InsertBatch.Translated` | src/api/k2v/batch.rs:25-39 | the list of writes for a valid batch has the input's length and order: entry k is item k's translation, so it keeps item k's keys, carries its parsed context, and is a tombstone exactly when item k has no payload, else its decoded bytes |
| `InsertBatch.TranslateInsertBatch` | src/api/k2v/batch.rs:25-39 | the validation loop succeeds iff every item is valid, and then returns the translated list; otherwise it returns the error of the first invalid item |
| `InsertBatch.HandleInsertBatch` | src/api/k2v/batch.rs:18-46 | an invalid batch issues no RPC call and fails with the first bad item's error; a valid one issues exactly one `insert_batch` with the translated list and returns the RPC layer's answer |
| `InsertBatch.TranslateCt` | src/api/k2v/batch.rs:27-31 | an absent token gives no context; a token that parses gives the parsed context; one that does not is a bad request with the reason "Invalid causality token" |
| `InsertBatch.TranslateValue` | src/api/k2v/batch.rs:32-37 | an absent payload gives `Deleted`; one that decodes gives `Value` of the decoded bytes; one that does not is a bad request with the reason "Invalid base64 value" |
| `InsertBatch.OneBadItemRejectsBatch` | src/api/k2v/batch.rs:25-41 | one invalid item anywhere rejects the batch, and the first invalid item, whose error the batch reports, is at or before it |
| `InsertBatch.ReadTokenWritesBack` | src/api/k2v/batch.rs:27-31 | if parse undoes serialize, the token of a response item parses back to the item's own context, and sent with no payload it yields a tombstone over that context, whatever the item's values |
| `InsertBatch.ReadItemWritesBack` | src/api/k2v/batch.rs:358-374 | if parse undoes serialize and decode undoes encode, then the token and any value of a response item translate back, through the insert path, to the item's own context and that exact value |
| `ResponseItem.ConvertValues` | src/api/k2v/batch.rs:361-368 | the converted values keep the number and order of the item's values; entry k is `None` exactly for a tombstone and the base64 encoding of the payload otherwise |
| `ResponseItem.FromItem` | src/api/k2v/batch.rs:359-374 | a response item has the item's sort key, the serialized causal context, and one entry per value in order (`Value(x)` to `Some(encode(x))`, `Deleted` to `None`) |
| `ResponseItem.FromItems` | src/api/k2v/batch.rs:116-119 | converting a scanned list keeps its length and order: the k-th response item is the conversion of the k-th item, so it has that item's sort key, serialized context and converted values |
| `K2vModel.Lift` | src/api/k2v/batch.rs:97 | the `?` on a collaborator's result keeps a success unchanged and turns its error into the handler's storage error |
| `K2vModel.FromReverse` | src/api/k2v/batch.rs:112 | the scan order is `Reverse` exactly when the query's `reverse` flag is set |
| `K2vModel.Rpc.Insert` | src/api/k2v/batch.rs:194-204 | an `insert` call is appended to the log of issued calls and answered by the RPC layer |
| `K2vModel.Rpc.InsertBatch` | src/api/k2v/batch.rs:41 | an `insert_batch` call is appended to the log of issued calls and answered by the RPC layer |
| `Assembly.CollectAll` | src/api/k2v/batch.rs:62-65 | the collected batch succeeds iff every result succeeded, and then holds result i at position i; otherwise it fails with the error of the first failed result |
| `Assembly.FirstFailureAtOrBefore` | src/api/k2v/batch.rs:154-157 | a list of results with a failure at position j is not all successes, and its first failure, where the collecting loop stops, is at some position k <= j |
| `ReadBatch.HandleReadBatchQuery` | src/api/k2v/batch.rs:70-138 | a successful response echoes all nine query parameters; in single-item mode a set `prefix`/`end`/`limit` or `reverse` is a bad request with the conflict message, a missing `start` is a bad request with its own message, and the answer holds at most one item with `more = false` and no `next_start`; every other failure is a collaborator error |
| `ReadBatch.ReadFilter` | src/api/k2v/batch.rs:80-83 | a read query excludes tombstone-only items unless it asks for `tombstones`, and passes `conflicts_only` through |
| `ReadBatch.SingleItemKey` | src/api/k2v/batch.rs:85-92 | a single-item read is keyed by `start`; a set `prefix`, `end` or `limit`, or `reverse`, is rejected first with the conflict message, then a missing `start` with its own message |
| `ReadBatch.RangeRequestOf` | src/api/k2v/batch.rs:104-113 | a range read scans the query's partition with its prefix, start, end and limit, the filter `(!tombstones, conflicts_only)`, and in reverse exactly when `reverse` is set |
| `ReadBatch.RejectedQueryReadsNothing` | src/api/k2v/batch.rs:85-92 | a rejected single-item query gives the same bad-request answer for any item table and codec, so it looks nothing up |
| `ReadBatch.SingleItemRead` | src/api/k2v/batch.rs:93-102 | a valid single-item query looks up `start` in the query's partition; a lookup error is returned; otherwise it returns exactly one item iff the item exists and matches the filter `(!tombstones, conflicts_only)`, converted, with `more = false` and no `next_start` |
| `ReadBatch.RangeRead` | src/api/k2v/batch.rs:103-121 | a range query calls `read_range` with its prefix, start, end and limit, the filter `(!tombstones, conflicts_only)` and the order given by `reverse`, and returns its items converted in order together with its `more` and `next_start` |
| `ReadBatch.ReadResults` | src/api/k2v/batch.rs:55-60 | the fan-out yields one result per query, result i being the answer to query i |
| `ReadBatch.HandleReadBatch` | src/api/k2v/batch.rs:48-68 | the batch succeeds iff every query does; then response i is the answer to query i and echoes it; otherwise it fails with the first failed query's error |
| `DeleteBatch.DeleteFilter` | src/api/k2v/batch.rs:172-175 | deletes look items up under `exclude_only_tombstones = true, conflicts_only = false` |
| `DeleteBatch.SingleItemKey` | src/api/k2v/batch.rs:178-184 | a single-item delete is keyed by `start`; only a set `prefix` or `end` is rejected (first, with the conflict message), then a missing `start` |
| `DeleteBatch.RangeRequestOf` | src/api/k2v/batch.rs:210-219 | a range delete scans the query's partition with its prefix, start and end, with no limit, forward, under the delete filter |
| `DeleteBatch.Tombstone` | src/api/k2v/batch.rs:193-203 | the write deleting an item is at the item's own partition and sort key, declares the item's own causal context, and has the value `Deleted` |
| `DeleteBatch.DeleteResultOutcome` | src/api/k2v/batch.rs:177-250 | a query fails with its lookup's error when planning fails; otherwise it succeeds iff every write it issues is accepted, and then echoes its parameters with `deleted_items` equal to the planned count; a rejected write's error is the query's error |
| `DeleteBatch.Tombstones` | src/api/k2v/batch.rs:224-235 | one write per scanned item, in scan order, each keyed by the item's own partition and sort key, carrying the item's own causal context and the value `Deleted` |
| `DeleteBatch.PlanDelete` | src/api/k2v/batch.rs:162-241 | in single-item mode a set `prefix` or `end` is a bad request with the conflict message and a missing `start` is a bad request; the plan is a single-item plan exactly in single-item mode; only a range delete can panic |
| `DeleteBatch.HandleDeleteBatchQuery` | src/api/k2v/batch.rs:162-251 | the query appends exactly its planned writes to the RPC log (none when it fails before writing) and returns the result its plan and the RPC layer's answer determine |
| `DeleteBatch.DeletedItemsCountsTombstones` | src/api/k2v/batch.rs:177-250 | a successful delete reports `deleted_items` equal to the number of writes it issued, each a tombstone with a causal context, and echoes its query's parameters |
| `DeleteBatch.SingleItemDelete` | src/api/k2v/batch.rs:177-208 | a valid single-item delete looks up `start`; `deleted_items` is 0 or 1; it is 1 iff the item exists and matches the filter `(true, false)`, and then exactly one `insert` is issued with a tombstone carrying that item's own context; when 0, nothing is issued |
| `DeleteBatch.RangeDeleteWrites` | src/api/k2v/batch.rs:210-240 | a range delete scans with no limit, forward, under the filter `(true, false)`; a truncated scan panics; a complete one issues one `insert_batch` whose k-th entry is a tombstone over the k-th scanned item with its own context, and `deleted_items` is the number of scanned items |
| `DeleteBatch.NoPanicWhenScansComplete` | src/api/k2v/batch.rs:210-221 | if the range enumerator never reports an unlimited scan as truncated, no delete query panics |
| `DeleteBatch.RunDeleteQueries` | src/api/k2v/batch.rs:147-152 | the queries run in order, each appending its writes to the RPC log; on a panic it stops at the first panicking query, having issued only the earlier queries' writes; otherwise it returns one result per query |
| `DeleteBatch.HandleDeleteBatch` | src/api/k2v/batch.rs:140-160 | a panic fails the batch with only the earlier queries' writes issued; otherwise every query's writes are issued, in order, and the batch succeeds iff every query does, with response i answering query i, or else fails with the first failed query's error |
| `PollRange.Clamp` | src/api/k2v/batch.rs:263 | `clamp(lo, hi)` lies in [lo, hi], keeps a value inside it, and gives the nearer bound outside it |
| `PollRange.TimeoutMsec` | src/api/k2v/batch.rs:263 | the wait is 300000 ms when no timeout is given, the requested seconds times 1000 inside [10, 600], and 10000 or 600000 ms outside, so it is always in [10000, 600000] |
| `PollRange.TimeoutMonotone` | src/api/k2v/batch.rs:263 | a longer requested timeout never gives a shorter wait |
| `PollRange.FromPolled` | src/api/k2v/batch.rs:285-288 | the polled items are converted in order, keeping their number: the k-th response item is the conversion of the k-th polled item, its key dropped |
| `PollRange.HandlePollRange` | src/api/k2v/batch.rs:253-298 | the poll is issued for the partition, start, end and prefix with the client's marker and the clamped timeout; its error is returned; otherwise the answer is `NOT_MODIFIED` exactly when the poll returned `None`, and else carries the new marker and the converted items |

## Left out

- HTTP and JSON: parsing request bodies, serde field names, building responses (`json_ok_response`, `Response::builder`) and their errors are transport plumbing. Queries and responses are plain datatypes, a 204 is `Success(())`, and a 304 is `NotModified`.
- Concurrency: `join_all` runs sub-queries concurrently. The model runs them one after the other, in query order, because the results are collected by position.
- RunDeleteQueries: under real concurrency, the queries other than a panicking one may have issued any subset of their writes when the panic unwinds the handler. The model fixes one interleaving, in which everything before the panicking query has run and nothing after it.
- Causality internals: the DVVS, merging, and how `causal_context()` and `values()` are computed live in the causality module, which is not part of this model. An item carries them as given fields. `CausalContext::parse` is a partial function; `serialize` is total.
- Stateless collaborators: `Rpc.respond`, `ItemTable.get`, `ItemTable.readRange` and `matchesFilter` are fixed functions of their arguments. Reads see one fixed snapshot, unaffected by the batch's own writes, and each RPC call has one fixed answer. So the model does not capture that a later query of a delete batch may see (and skip) the tombstones an earlier one wrote, nor that the same call may be answered differently when repeated.
- Storage and replication: `item_table.get`, `read_range` (with its pagination and ordering), and the RPC layer's quorum writes are arbitrary functions. The log records which writes were issued, not their effect on stored items.
- base64: an arbitrary partial decode and total encode. The causality token's round-trip law (`ParseUndoesSerialize`) is assumed only by `ReadTokenWritesBack` and `ReadItemWritesBack`; the base64 law (`DecodeUndoesEncode`) only by `ReadItemWritesBack`.
- Bad-request messages for an invalid token or payload: the source applies `ok_or_bad_request` to a `Result` there (lines 27-31 and 34), whose message also carries the underlying parse or decode error, formatted by a helper that is not part of this model. `parseCt` and `decode64` return `Option`, so the model uses the reason string alone ("Invalid causality token", "Invalid base64 value") as the message of these two bad requests.
- Long-poll waiting, wake-up and cancellation live inside the RPC layer's `poll_range` and are not part of this model. Only the arguments it receives and the mapping of its answer are modelled.
- Integer widths: `deleted_items` (`usize`) is a `nat`. `limit`, `timeout` and the millisecond timeout are `U64`. The clamp keeps the product at most 600000, so the multiplication at line 263 cannot overflow.
