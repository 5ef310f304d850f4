# Netflow indexer core in Dafny

This project models the ingestion and aggregation core of a Polygon netflow
indexer. The indexer watches a token's ERC-20 `Transfer` logs. For each log
it decides whether the sender or the recipient is one of an exchange's
watched addresses. It records each qualifying transfer and keeps rolling
inflow, outflow and net totals per (exchange, token), plus a checkpoint of
the highest block seen.

The project has five modules:

- `Types` (types.dfy) holds fixed-width integers, 20-byte addresses,
  32-byte words, and the `Transfer` record of src/types.rs.
- `BigEndian` (big_endian.dfy) reads byte strings as big-endian unsigned
  integers, as `U256::from_big_endian` does. It also has the inverse
  encoding and the round trips between them.
- `Config` (config.dfy) models `parse_addresses`:
  - split on `,`;
  - trim Unicode whitespace;
  - drop empty pieces;
  - parse each remaining piece;
  - collect into one result that fails on the first bad piece.

  The address parser `Address::from_str` is a function parameter.
- `Storage` (storage.dfy) models the SQLite store of src/db.rs:
  - `Tables` is the value of the whole database.
  - Pure functions say what each SQL statement and each operation does to it.
  - The class `Db` holds the tables as fields. Its methods run the
    statements one at a time inside a transaction.
  - A `Fault` parameter says which database call of an operation fails, if
    any. After a failure the method rolls back to the state before the
    transaction.
- `Ingestion` (ingestion.dfy) models src/indexer.rs:
  - decoding and classifying a log (`Decide`);
  - `process_log`, `run` and `new`, as methods of the class `Indexer`;
  - the run loop as a fold over the log stream (`RunSpec`). It is proved
    equal to applying, in order, exactly the transfers that were recorded
    and committed.

The block lookup and the amount normaliser are functions held in the
indexer's `Context`, and the log stream is a sequence.

The schema file is not part of this model. The store takes as given:

- a new `net_flows` row starts with zero totals, and its `last_updated_bn`
  starts at 0;
- `net_flows` has the unique key (exchange_id, token_address);
- `exchange_addresses` has the unique key (exchange_id, address);
- `erc20_transfers` has the unique key (tx_hash, log_index), and `blocks`
  has the unique key `number`;
- the single checkpoint row exists and starts at 0.

In three places an indexer of this kind would be expected to behave
otherwise than this code does; the model follows the code:

- Re-delivery. One would expect a second delivery of the same event to
  change nothing. The code guards only the transfer and block inserts with
  INSERT OR IGNORE; the totals UPDATE runs every time. Applying the same
  transfer twice therefore adds its amount twice (`Storage.ReapplyCountsTwice`).
- Malformed records. One would expect a log that cannot be decoded to be
  reported. The code returns success without logging anything.
- Last update of a row. One would expect `last_updated_bn` never to move
  backwards, like the checkpoint. The code overwrites it with the event's
  block (src/db.rs:79, 92), so an older event moves it back, while the
  checkpoint takes the maximum (`Storage.CheckpointMonotoneLastUpdatedNot`).

## Model

| member | source | states |
|---|---|---|
| BigEndian.BeValue | src/indexer.rs:96 | the value of a big-endian byte string is below 256^length |
| BigEndian.BeDecodeEncode | src/indexer.rs:96 | decoding the k-byte big-endian encoding of n gives n back |
| BigEndian.BeEncodeDecode | src/indexer.rs:96 | encoding the value of a byte string to its own length gives the string back |
| BigEndian.BeLowBytes | src/indexer.rs:87-88 | the last k bytes of a word hold its value modulo 256^k |
| Config.Split | src/config.rs:18 | splitting on ',' yields at least one piece and no piece contains a comma |
| Config.JoinSplit | src/config.rs:18 | gluing the pieces of a split back with commas gives the input |
| Config.SplitJoin | src/config.rs:18 | splitting comma-free pieces joined by commas gives those pieces |
| Config.SplitAfterPiece | src/config.rs:18 | a comma-free piece followed by a comma splits off as the first piece |
| Config.StartOf | src/config.rs:19 | the leading-whitespace scan stops at the first non-whitespace position, or at the end, having skipped only whitespace |
| Config.EndOf | src/config.rs:19 | the trailing-whitespace scan stops just after the last non-whitespace position, having skipped only whitespace |
| Config.Trim | src/config.rs:19 | the trimmed piece is no longer than the input and neither starts nor ends with whitespace |
| Config.TrimKeepsInfix | src/config.rs:19 | trim keeps one contiguous slice of the input with only whitespace on either side |
| Config.StartOfStopsAt | src/config.rs:19 | past a run of whitespace, the scan stops exactly at the first non-whitespace position |
| Config.EndOfStopsAt | src/config.rs:19 | before a run of trailing whitespace, the scan stops exactly after the last non-whitespace position |
| Config.TrimOfPadded | src/config.rs:19 | trimming whitespace + s + whitespace gives s when s is itself trimmed |
| Config.TrimAllWhitespace | src/config.rs:19-20 | an all-whitespace piece trims to the empty string |
| Config.IsWhitespace | src/config.rs:19 | the separator ',' is never whitespace; below U+0080, whitespace is exactly space, tab, LF, VT, FF and CR |
| Config.NonEmptyTrimmed | src/config.rs:19-20 | keeps at most one entry per piece; its partners below say which pieces are kept and that order is kept |
| Config.NonEmptyTrimmedSingle | src/config.rs:19-20 | a single piece is kept, trimmed, exactly when its trim is not empty |
| Config.NonEmptyTrimmedConcat | src/config.rs:19-20 | the filter works piece by piece, so it keeps input order |
| Config.CollectParsed | src/config.rs:21-22 | Ok iff every piece parses; on Ok, the same length and entry i is piece i parsed |
| Config.CollectReportsFirstFailure | src/config.rs:21-22 | an error names the first piece the parser rejects |
| Config.ParseAddresses | src/config.rs:17-23 | Ok iff every non-blank trimmed piece parses; on Ok, one address per such piece, in order; on Err, the first such piece the parser rejects |
| Config.BlankInputParsesToEmpty | src/config.rs:17-23 | input of only commas and whitespace yields Ok of the empty list |
| Config.DropsEmptyPieces | src/config.rs:17-23 | "a,,b," yields exactly the two parsed addresses, in order |
| Storage.AsI64 | src/db.rs:52 | `as i64` keeps values below 2^63, lands in the i64 range, and agrees with the input modulo 2^64 |
| Storage.EnsureRow | src/db.rs:35-45 | the key is present afterwards, existing rows are untouched, and a new row is the zero row with the given symbol and decimals |
| Storage.UpsertAddresses | src/db.rs:24-33 | every given address is a member afterwards, old members stay, and nothing else is added |
| Storage.UpdatedRow | src/db.rs:74-100 | an inflow grows in by the amount and keeps out; an outflow grows out and keeps in; net = new in - new out; last_updated_bn is the event's block |
| Storage.RecordBlock | src/db.rs:50-56 | the block number is a key afterwards, existing block rows are untouched, and the other tables do not change |
| Storage.RecordTransfer | src/db.rs:58-71 | the (tx hash, log index) key is present afterwards, existing rows are untouched, a new row is the transfer itself, and the other tables do not change |
| Storage.UpdateTotals | src/db.rs:73-100 | the set of netflow keys is unchanged; only the (exchange, token) row changes, as UpdatedRow says; the other tables do not change |
| Storage.RaiseCheckpoint | src/db.rs:102-106 | the checkpoint ends at or above both its old value and the block, and equals one of them; nothing else changes |
| Storage.ApplyTransfer | src/db.rs:47-110 | the exchange addresses and the set of netflow keys are unchanged; the checkpoint becomes the max of its old value and the block |
| Storage.ApplyTransferEffects | src/db.rs:47-110 | block and transfer rows are insert-if-absent and existing ones are kept; only the (exchange, token) row changes, as UpdatedRow says |
| Storage.ApplyTransferRecords | src/db.rs:50-71 | the block and transfer tables gain the new row only when its key is absent |
| Storage.ApplyTransferTotals | src/db.rs:73-100 | the totals after an apply are those of the UPDATE statement alone |
| Storage.Fetch | src/db.rs:112-119 | None exactly when no row exists for the key |
| Storage.EmptyIsConsistent | src/db.rs:18-22 | a freshly migrated, empty database satisfies the store invariant |
| Storage.EnsureRowKeepsConsistent | src/db.rs:35-45 | inserting the zero row keeps net = in - out and the checkpoint bounds |
| Storage.UpsertKeepsConsistent | src/db.rs:24-33 | the address upsert keeps the store invariant |
| Storage.ApplyKeepsConsistent | src/db.rs:47-110 | every apply keeps net = in - out and keeps the checkpoint above every recorded block and row update |
| Storage.RecordBlockBounded | src/db.rs:50-56 | inserting the block row keeps every row within a bound at or above the block number |
| Storage.RecordTransferBounded | src/db.rs:58-71 | inserting the transfer row keeps every row within such a bound |
| Storage.UpdateTotalsBounded | src/db.rs:73-100 | the totals UPDATE keeps net = in - out and the bound |
| Storage.EnsureRowIdempotent | src/db.rs:35-45 | a second ensure_netflow_row, with any symbol and decimals, changes nothing |
| Storage.CheckpointMonotoneLastUpdatedNot | src/db.rs:74-106 | the checkpoint never decreases, while last_updated_bn becomes the event's block even when it is lower |
| Storage.ReapplyCountsTwice | src/db.rs:50-100 | applying a transfer twice leaves the transfer and block tables as after once, but adds the amount twice to the totals |
| Storage.ReapplyKeepsRecords | src/db.rs:50-71 | a second apply of the same transfer changes neither the transfer and block tables nor the checkpoint |
| Storage.MissingRowLeavesTotals | src/db.rs:74-100 | with no row for the key, the totals are unchanged and no error arises |
| Storage.InflowThenOutflow | src/db.rs:74-100 | on a zero row, an inflow of 1.0 and then an outflow of 0.5 give in 1.0, out 0.5, net 0.5 |
| Storage.ApplySingleRow | src/db.rs:74-100 | with a single netflow row, an apply to its key leaves that one row, updated as UpdatedRow says |
| Storage.InflowsAddUp | src/db.rs:74-86 | inflows into one row add their amounts to in, leave out alone, and net is in - out |
| Storage.CheckpointIsMax | src/db.rs:102-106 | after a sequence of applies the checkpoint is the maximum of its old value and the applied block numbers |
| Storage.ApplyAllKeepsConsistent | src/db.rs:47-110 | any sequence of applies keeps the store invariant |
| Storage.Db.constructor | src/db.rs:10-22 | the opened, migrated database holds exactly the given tables: the empty tables on a first start (which satisfy the store invariant, `Storage.EmptyIsConsistent`), the previous run's tables on a restart |
| Storage.Db.Rollback | src/db.rs:25-31 | a transaction dropped on an error puts back the tables as they were at `begin` |
| Storage.Db.UpsertExchangeAddresses | src/db.rs:24-33 | succeeds iff none of its begin, inserts and commit fails; on success the state is UpsertAddresses of the old one, otherwise unchanged |
| Storage.Db.EnsureNetflowRow | src/db.rs:35-45 | on success the state is EnsureRow of the old one, on failure unchanged |
| Storage.Db.InsertBlock | src/db.rs:50-56 | the blocks insert-or-ignore |
| Storage.Db.InsertTransfer | src/db.rs:58-71 | the transfers insert-or-ignore |
| Storage.Db.UpdateNetflow | src/db.rs:73-100 | the totals UPDATE of the matching row, with the SET right-hand sides reading pre-update values |
| Storage.Db.UpdateCheckpoint | src/db.rs:102-106 | the checkpoint becomes the max of itself and the block |
| Storage.Db.InsertTransferAndUpdateNetflow | src/db.rs:47-110 | all or nothing: on success the state is ApplyTransfer of the old one; if any of the six calls fails, the state is unchanged |
| Storage.Db.FetchNetflow | src/db.rs:112-120 | changes nothing; the result is Fetch of the current tables: None iff there is no row, otherwise the row's four totals |
| Ingestion.TopicAddress | src/indexer.rs:87-88 | the address is the value of the topic modulo 2^160, that is, its low 20 bytes |
| Ingestion.AddressTopic | src/indexer.rs:57 | the topic of an address decodes back to that address and has the same numeric value |
| Ingestion.AddressTopicRoundTrip | src/indexer.rs:57 | a topic whose top 12 bytes are zero is the topic of its address |
| Ingestion.TopicFromSlice | src/indexer.rs:57 | `from_slice` succeeds exactly on a 32-byte slice, and then yields that slice |
| Ingestion.WatchedTopicsAsWritten | src/indexer.rs:57 | the topic list exists only when every watched address passes `from_slice` |
| Ingestion.WatchedTopicsAsWrittenPanics | src/indexer.rs:57 | with any watched address, building the topic list panics |
| Ingestion.WatchedTopics | src/indexer.rs:57-58 | an address is watched iff its topic is in the set, and every topic in the set names a watched address |
| Ingestion.RawAmount | src/indexer.rs:96 | the amount is below 2^256, and 0 when data has fewer than 32 bytes |
| Ingestion.RawAmountOfWord | src/indexer.rs:96 | the amount is the value of the first ABI word, whatever follows it |
| Ingestion.Classify | src/indexer.rs:90-93 | ignored iff neither side is watched; inflow iff the recipient is watched; outflow iff only the sender is |
| Ingestion.InternalTransferIsInflow | src/indexer.rs:91-93 | a transfer between two watched addresses is an inflow only |
| Ingestion.DecimalsFromCall | src/indexer.rs:39 | the value of the last (up to) 32 bytes; panics (None) at or above 2^32; otherwise that value mod 256 |
| Ingestion.DecimalsOfWord | src/indexer.rs:39 | return data ending in a word holding v yields v mod 256 when v < 2^32, a panic otherwise |
| Ingestion.DecimalsRoundTrip | src/indexer.rs:39 | an ABI-encoded u8 decimals value is read back unchanged |
| Ingestion.ResolveDecimals | src/indexer.rs:30-41 | configured decimals win; otherwise the call's value, a call failure, or the as_u32 panic |
| Ingestion.Decide | src/indexer.rs:84-113 | not exactly three topics, or neither side watched: ignored; else a missing block number is MissingBlockNumber, a failed lookup BlockFetchFailed and a missing block BlockNotFound, and a decision is never a store error; else the Transfer carries the log's block, from/to bytes 12..32 of topics 1 and 2, the raw amount, the token, the block timestamp, and tx hash / log index defaulting to zero; direction is "recipient watched" |
| Ingestion.Step | src/indexer.rs:84-117 | a log that ends in an error leaves the store as it was; no log adds an exchange address or a netflow row, or lowers the checkpoint |
| Ingestion.StepResult | src/indexer.rs:84-117 | success iff the log is ignored, or recorded and committed; a rejected log fails with the decision's error; a store error names the failing call |
| Ingestion.RunSpec | src/indexer.rs:76-80 | a run adds no exchange address or netflow row and never lowers the checkpoint |
| Ingestion.Applied | src/indexer.rs:76-80 | at most one committed transfer per log |
| Ingestion.RunIsFoldOfApplied | src/indexer.rs:76-80 | the store after the loop equals applying, in stream order, exactly the transfers recorded and committed; a failed log does not stop the ones after it |
| Ingestion.AppliedComeFromLogs | src/indexer.rs:76-80 | every applied transfer is the decision of some log of the stream |
| Ingestion.UnrecordedLogsChangeNothing | src/indexer.rs:76-93 | a stream in which no log is recorded leaves the store as it was |
| Ingestion.RunRaisesCheckpoint | src/indexer.rs:76-80 | over a run the checkpoint never decreases and ends at or above every committed block |
| Ingestion.RunKeepsConsistent | src/indexer.rs:76-80 | a run keeps the store invariant |
| Ingestion.Indexer.constructor | src/indexer.rs:47-51 | the indexer holds the given context and store |
| Ingestion.Indexer.New | src/indexer.rs:25-52 | decimals resolved first; then the row is ensured for exchange 1; then the addresses are upserted; each failure stops the rest, and the row stays if the upsert fails; on success the context has exchange 1, the token, the decimals and the set of configured addresses |
| Ingestion.Indexer.ProcessLog | src/indexer.rs:84-117 | the new store is Step of the old and the result is StepResult; the block is looked up only for a log that is not ignored and has a block number |
| Ingestion.Indexer.Run | src/indexer.rs:54-81 | the store after the loop is RunSpec of the old store over the whole stream |

## Left out

- Network I/O is outside the model: the node connections, the `decimals()` call, the log subscription and `get_block`. The stream is a sequence, the call's return data is an `Option` (None: the call failed), and the block lookup is a function that may report failure or a missing block.
- Ingestion.Indexer.Run: models `run` with the topic list of src/indexer.rs:57 corrected (see Findings) and without the subscribe step; the logs arrive as a given sequence.
- The subscription ending with an error and the `Ok(())` after the stream ends are outside the model; `Run` processes a finite sequence.
- `normalize` (src/indexer.rs:120-127) is an opaque function from raw amount and decimals to a real. Its f64 arithmetic, the u128 overflow for decimals above 38, the `as_u128` panic for amounts of 2^192 and more, and the overlapping high and low parts are outside the model.
- Storage.UpdatedRow: amounts are reals, so f64 rounding in the totals is not modelled.
- Ingestion.Decide: log indexes and block timestamps are u64 values in the model; the `as_u64` panic for U256 values of 2^64 and more is not modelled.
- Neither the model nor the code checks a log's topic 0 or emitting contract; `process_log` relies on the subscription filter for that.
- The unused filter built at src/indexer.rs:60-64 and the broad filter at src/indexer.rs:69-72 are library values outside the model. Only the topic list built at src/indexer.rs:57 is modelled (see Findings).
- The connection I/O of `Db::connect`, the DDL of `Db::migrate` and the schema file are outside the model; what the model takes as given about the schema is listed above.
- Storage.Db.constructor: the opened database's tables are a parameter, not read from a file. The constructor does not promise the store invariant. It is proved for the empty first start (`Storage.EmptyIsConsistent`), and the invariant lemmas over arbitrary `Tables` carry it across a restart on a file this code wrote. A file edited by other means that breaks the invariant is not covered.
- The parent-hash column of `blocks` is always an empty byte string; the model stores it as written and proves nothing about it.
- `fetch_netflow`'s connection error is not modelled: a read always succeeds.
- `Config::load` (environment variables, dotenv), src/apis.rs (the HTTP handler and its zero fallback), src/main.rs (CLI dispatch and task spawning), logging, and concurrency between the loop and the query handler are outside the model.
- `Address::from_str` is a library parser; `parse_addresses` takes it as a parameter.

## Findings

| source | as written | input that shows it | evidently intended | confidence | as-written member | corrected member |
|---|---|---|---|---|---|---|
| src/indexer.rs:57 | `H256::from_slice(a.as_fixed_bytes())` is given the 20 bytes of an address, but `from_slice` accepts exactly 32 bytes and panics otherwise | any non-empty watched address list: `run` panics before it subscribes | each address left-padded with 12 zero bytes to a 32-byte topic | high (relies on the library's length assertion); not executed | Ingestion.WatchedTopicsAsWrittenPanics | Ingestion.WatchedTopics |
