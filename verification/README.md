# TTQueueNewOnVCTable, modelled in Dafny

This project models the queue engine of `TTQueueNewOnVCTable`. The queue is
partitioned and serves several consumer groups. It is stored in a columnar
table, together with the forward-only `CachedList` cursor that its dequeue
path drains. Every operation is a pure function: it takes a table (and a
queue state) and returns the new table and state, or an error.

- **Table** (`tables.dfy`, module `Tables`). The table is a finite map from
  (row key, column key) to a value, plus a map of atomic counter cells.
  `incrementAtomicDirtily` is `Increment`; with a delta of 0 it is a plain
  read. Versions and read pointers are not modelled, so every read sees the
  latest write.
- **Keys** (`keys.dfy`, module `Keys`; `bytes.dfy`, module `Bytes`).
  - The prefix and column constants are modelled exactly.
  - `makeRowName`, `makeRowKey` (two overloads) and `makeColumnName` (two
    overloads) are modelled.
  - `Bytes.toBytes(long/int)` is an 8/4-byte big-endian two's-complement
    encoding with a decoder. Its round trip, injectivity and order are
    proved, and so is the disjointness of the four row families of a queue.
- **Data model** (`queue_model.dfy`, module `QueueModel`).
  - Entry and claim states, consumer, partitioner, queue entry, pointers.
  - `QueueStateImpl` and its constructors.
  - Where each piece of queue state lives in the table.
  - Cell decoders for `Bytes.toLong` and `Bytes.toInt`, which read the
    first 8 (resp. 4) bytes of a cell and fail on a null or a shorter array,
    and for the metadata readers, which fail on a missing or foreign cell.
- **Producer side** (`entry_store.dfy`, module `EntryStore`): `enqueue` and
  `invalidate`.
- **Consumer side**:
  - `fetch.dfy`, module `Fetch`: `getBatchSize`, `fetchNextEntryId` (window,
    scan, loop) and `readEntries`. Without header data, a fetch is complete:
    it passes over no id the partitioner emits to the consumer.
  - `dequeue.dfy`, module `Dequeue`: `saveDequeueEntryState` and
    `dequeueInternal`, split into restore, refill and serve.
  - `acks.dfy`, module `Acks`: `ack` and `unack`.
- **Cursor** (`cached_list.dfy`, module `CachedLists`): `CachedList` with its
  constructor, `EMPTY_LIST`/`emptyList`, `hasNext`, `getNext`, and a drain
  loop.
- **Cross-operation properties** (`properties.dfy`, module
  `QueueProperties`):
  - the claim/ack protocol;
  - redelivery of the active entry after `unack` and after a restart;
  - successive dequeues on a supplied state hand out the cache in order;
  - the enqueue/read round trip, and an enqueued entry reaching a waiting
    disjoint consumer through fetch, `readEntries` and serve;
  - invalidated entries are never served;
  - exclusive claims in shared groups;
  - a consumer-row invariant under which restoring state never faults.

The partitioner (`QueuePartitioner`) is a record of two flags
(`isDisjoint`, `usesHeaderData`) and two uninterpreted emission tests.
`EntryMeta` and `EntryConsumerMeta` are tagged cell values; their byte
encodings are not modelled. The partition-map serializer is a function
parameter that may fail. A failed counter increment is an optional status
parameter.

The source signals trouble in three ways, and each becomes an `Error`:
- `OperationException` with `INTERNAL_ERROR` becomes `InternalError`.
- `OperationException` with `ILLEGAL_ACK` becomes `IllegalAck`.
- Unchecked exceptions become `RuntimeFault`: a null dereference, a
  `Bytes.toLong`/`toInt` on too short an array, or an undecodable metadata cell.

Callers are not required to avoid these cases. The one precondition the
fetch and dequeue functions carry is that a disjoint consumer's group size
is not negative (see "Left out").

Behaviour reproduced as written:
- The disjoint window is inclusive: `end - start + 1` candidates.
- The window's cap test uses the raw `batchSize`, but its step uses
  `getBatchSize()`. With a batch size below 1, the window therefore always
  ends one group size past its start. When fewer than a group size of ids
  remain before the write pointer, that end lies beyond the write pointer the
  window is meant to be capped at. `Fetch.WindowOvershootsWithUnsetBatchSize`
  exhibits this.
- A non-disjoint consumer persists its claim and active entry, but not its
  read pointer.
- `ack` checks the claim only for non-disjoint partitioners.
- The active entry is redelivered only when no queue state is supplied, and
  only while it is VALID; an active entry id of -1 means "none".
- A disjoint consumer's read pointer moves only when an entry is served. A
  fetched batch whose ids `readEntries` all drops therefore leaves it where
  it was, and the consumer stalls (see "Findings"). The rest of the model
  keeps this as-written `Dequeue.DequeueInternal`; the corrected
  `Dequeue.DequeueSkippingDropped` agrees with it whenever either serves.
- With header data and a non-empty batch read, a missing header is a null
  dereference in the code, although a missing header reads naturally as
  "no match"; this model follows the code and yields `RuntimeFault(NullValue)`.

## Model

| member | source | states |
|---|---|---|
| Bytes.LongRoundTrip | src/main/java/com/continuuity/data/operation/ttqueue/TTQueueNewOnVCTable.java:295-301 | decoding the 8-byte encoding of any Java long gives the long back, so a persisted active entry or read pointer is restored exactly |
| Bytes.IntRoundTrip | src/main/java/com/continuuity/data/operation/ttqueue/TTQueueNewOnVCTable.java:230-233 | decoding the 4-byte encoding of any Java int gives it back, so a header hash written by enqueue is read back unchanged by the fetch scan |
| Bytes.LongBytesOrdered | src/main/java/com/continuuity/data/operation/ttqueue/TTQueueNewOnVCTable.java:483-485 | for non-negative longs, the encoding is strictly lexicographically ordered like the numbers |
| Keys.RowKeyInjective | src/main/java/com/continuuity/data/operation/ttqueue/TTQueueNewOnVCTable.java:483-485 | under one queue name and prefix, two row keys are equal if and only if their long ids are equal |
| Keys.RowKeyPairInjective | src/main/java/com/continuuity/data/operation/ttqueue/TTQueueNewOnVCTable.java:487-490 | a (group id, instance id) row key is equal to another if and only if both ids are equal |
| Keys.ColumnNameInjective | src/main/java/com/continuuity/data/operation/ttqueue/TTQueueNewOnVCTable.java:491-493 | under one prefix, two id column names are equal if and only if the ids are equal |
| Keys.RowKeyOrdered | src/main/java/com/continuuity/data/operation/ttqueue/TTQueueNewOnVCTable.java:483-485 | entry row keys of non-negative ids sort in id order |
| Keys.RowFamiliesDisjoint | src/main/java/com/continuuity/data/operation/ttqueue/TTQueueNewOnVCTable.java:64-67 | the global counter row, the group pointer rows, the entry rows and the consumer rows of a queue are pairwise distinct |
| Keys.EntryColumnsDistinct | src/main/java/com/continuuity/data/operation/ttqueue/TTQueueNewOnVCTable.java:72-75 | a header column is never the meta or data column, and two header columns are equal if and only if their keys are |
| Keys.ConsumerColumnsDistinct | src/main/java/com/continuuity/data/operation/ttqueue/TTQueueNewOnVCTable.java:79-82 | on a consumer row, claim columns, ACTIVE_ENTRY and CONSUMER_READ_POINTER are pairwise distinct |
| CachedLists.Make | src/main/java/com/continuuity/data/operation/ttqueue/internal/CachedList.java:18-21 | a new cursor is valid, keeps the list, and has the whole list still to hand out |
| CachedLists.Empty | src/main/java/com/continuuity/data/operation/ttqueue/internal/CachedList.java:13-16 | the empty list is valid and has no next element from the start |
| CachedLists.HasNextIffRemaining | src/main/java/com/continuuity/data/operation/ttqueue/internal/CachedList.java:30-32 | `hasNext` holds exactly when elements remain to be handed out |
| CachedLists.GetNext | src/main/java/com/continuuity/data/operation/ttqueue/internal/CachedList.java:23-28 | the list never changes and validity is kept; with a next element it returns `list[currentIndex]` and advances by exactly one, so what remains is the rest; without one it raises IllegalState carrying the size and leaves the cursor untouched |
| CachedLists.Drain | src/main/java/com/continuuity/data/operation/ttqueue/internal/CachedList.java:23-32 | draining with hasNext/getNext yields exactly the remaining elements in order, each once, and leaves the cursor exhausted |
| QueueModel.NewQueueState | src/main/java/com/continuuity/data/operation/ttqueue/TTQueueNewOnVCTable.java:498-506 | a fresh queue state has no active entry (-1), read and write pointers at 0, and an exhausted empty cache |
| QueueModel.QueueStateWith | src/main/java/com/continuuity/data/operation/ttqueue/TTQueueNewOnVCTable.java:507-509 | the cache-taking constructor keeps the cache and sets the same initial pointers |
| QueueModel.LongValueReadsBack | src/main/java/com/continuuity/data/operation/ttqueue/TTQueueNewOnVCTable.java:387-397 | a long that saveDequeueEntryState, ack or unack stores in a cell decodes back to the same long |
| EntryStore.EntryColumns | src/main/java/com/continuuity/data/operation/ttqueue/TTQueueNewOnVCTable.java:220-233 | the entry row holds the data, meta VALID and one header column per partition key with its hash, and nothing else |
| EntryStore.Enqueue | src/main/java/com/continuuity/data/operation/ttqueue/TTQueueNewOnVCTable.java:190-242 | a serializer failure or an increment failure gives INTERNAL_ERROR with no table change; it succeeds exactly when neither happens. On success the global counter rises by exactly 1, the returned pointer carries the new counter value and the queue name, and the entry row holds data, VALID and every header. No other row and no other counter changes |
| EntryStore.Invalidate | src/main/java/com/continuuity/data/operation/ttqueue/TTQueueNewOnVCTable.java:245-253 | the entry's meta becomes INVALID and its data column is gone; every other cell and every counter is unchanged |
| Fetch.GetBatchSize | src/main/java/com/continuuity/data/operation/ttqueue/TTQueueNewOnVCTable.java:98-105 | the effective batch size is at least 1, and equals the configured one whenever that is at least 1 |
| Fetch.NextWindow | src/main/java/com/continuuity/data/operation/ttqueue/TTQueueNewOnVCTable.java:126-140 | a disjoint window starts just past the cursor and leaves table and state alone. It ends one batch (with `getBatchSize()`) of group-size ids past its start when the raw batch size times the group size, added to the start, stays below the write pointer, and at the write pointer otherwise. With a set batch size it therefore ends at or before the write pointer. A shared window is the single id obtained by moving the group read pointer up by one, and that id becomes the active entry |
| Fetch.WindowOvershootsWithUnsetBatchSize | src/main/java/com/continuuity/data/operation/ttqueue/TTQueueNewOnVCTable.java:131-132 | with a batch size below 1, the window end passes the write pointer when fewer than group-size ids remain |
| Fetch.EmitDecision | src/main/java/com/continuuity/data/operation/ttqueue/TTQueueNewOnVCTable.java:158-178 | without header data, or when the batch header read came back empty, the verdict is the id-only test. Otherwise a missing header is a null dereference, a header shorter than 4 bytes is a length fault, a foreign cell fails, and a header of at least 4 bytes hands the int its first 4 bytes encode to the hash test |
| Fetch.HashedHeaderDecision | src/main/java/com/continuuity/data/operation/ttqueue/TTQueueNewOnVCTable.java:162-166 | a header cell holding the encoding of a Java int hands exactly that int to the hash test |
| Fetch.Scan | src/main/java/com/continuuity/data/operation/ttqueue/TTQueueNewOnVCTable.java:142-179 | the scanned ids are strictly ascending, lie in the window, and number at most its size. An id of the window is returned if and only if the partitioner emits it |
| Fetch.ScanStep | src/main/java/com/continuuity/data/operation/ttqueue/TTQueueNewOnVCTable.java:158-178 | the verdict on the window's first id, put in front of the scan of the rest, keeps the scan ascending, inside the window and no longer than it. Every id of the window is still returned exactly when the verdict accepts it |
| Fetch.FetchRound | src/main/java/com/continuuity/data/operation/ttqueue/TTQueueNewOnVCTable.java:113-180 | one round keeps the entry cells, the global counter, the read pointer and the cache. It ends with a result, or hands on a cursor below a write pointer that never exceeds the larger of the cached and the stored one. An empty result comes only with a freshly read write pointer. The write pointer it hands on is the cached one or the global counter |
| Fetch.NextRound | src/main/java/com/continuuity/data/operation/ttqueue/TTQueueNewOnVCTable.java:113-124 | after a window that yielded nothing, the loop stops with no ids exactly when the cursor, now at the window end, is at or past a freshly read write pointer. Otherwise the next round starts at the window end, below the write pointer, with table and state unchanged except a possibly refreshed write pointer |
| Fetch.DisjointRound | src/main/java/com/continuuity/data/operation/ttqueue/TTQueueNewOnVCTable.java:129-132 | for a disjoint partitioner, a round touches neither table nor active entry and moves the cursor forward. Its ids are ascending, past the cursor and emitted by the partitioner, and within the write pointer when the batch size is set |
| Fetch.GroupRound | src/main/java/com/continuuity/data/operation/ttqueue/TTQueueNewOnVCTable.java:133-140 | for a shared partitioner, every round moves the group read pointer up; a returned id is that pointer's new value and is the active entry |
| Fetch.RoundComplete | src/main/java/com/continuuity/data/operation/ttqueue/TTQueueNewOnVCTable.java:126-180 | a round returns only ids of its window, and returns each id of the window exactly when the emission verdict (with the batch header read) accepts it. A round that returns nothing moves the cursor to the window end |
| Fetch.DisjointRoundComplete | src/main/java/com/continuuity/data/operation/ttqueue/TTQueueNewOnVCTable.java:129-180 | without header data, a disjoint round that returns nothing has passed over no emitted id up to its new cursor, and one that returns ids returns every emitted id of its window |
| Fetch.GroupRoundEmits | src/main/java/com/continuuity/data/operation/ttqueue/TTQueueNewOnVCTable.java:133-178 | a shared round returns an id exactly when the emission verdict on the group pointer's next value accepts it; without header data, exactly when the partitioner emits that id |
| Fetch.FetchLoop | src/main/java/com/continuuity/data/operation/ttqueue/TTQueueNewOnVCTable.java:113-182 | the loop terminates; it fails only with header data. Disjoint ids are strictly ascending and past the start cursor. A shared result is the single new group pointer value, and the pointer always grows. An empty result comes with a freshly read write pointer |
| Fetch.FetchLoopSkipsNothing | src/main/java/com/continuuity/data/operation/ttqueue/TTQueueNewOnVCTable.java:113-182 | an empty disjoint fetch without header data has passed over no id up to the global counter that the partitioner would emit |
| Fetch.LoopStep | src/main/java/com/continuuity/data/operation/ttqueue/TTQueueNewOnVCTable.java:113-181 | a round that ends with a result gives the loop's result. A round that does not leaves its cursor below its write pointer, and the loop goes on from that round's table, state and cursor |
| Fetch.LoopWritePointer | src/main/java/com/continuuity/data/operation/ttqueue/TTQueueNewOnVCTable.java:113-124 | the loop's final write pointer is either the one it started with or the global counter |
| Fetch.FetchLoopComplete | src/main/java/com/continuuity/data/operation/ttqueue/TTQueueNewOnVCTable.java:113-181 | without header data, a disjoint loop that returns ids returns every id the partitioner emits from just past its start cursor up to its last id, and no other id |
| Fetch.GroupLoopComplete | src/main/java/com/continuuity/data/operation/ttqueue/TTQueueNewOnVCTable.java:113-140 | without header data, a shared loop returns exactly the emitted ids among all the group ids its group pointer moves across; every id it passes over is one the partitioner does not emit |
| Fetch.FetchNextEntryIds | src/main/java/com/continuuity/data/operation/ttqueue/TTQueueNewOnVCTable.java:107-183 | with the cursor at or past both write pointers, the result is empty with the write pointer re-read and no table change. Disjoint ids are strictly ascending, each above the consumer read pointer, and each within the write pointer when the batch size is set. A non-empty shared result is the one id claimed by raising the group pointer |
| Fetch.StartOfFetch | src/main/java/com/continuuity/data/operation/ttqueue/TTQueueNewOnVCTable.java:114-119 | the loop's starting state differs from the given one at most in its write pointer, which is re-read only once the read pointer has reached it |
| Fetch.FetchStarts | src/main/java/com/continuuity/data/operation/ttqueue/TTQueueNewOnVCTable.java:107-124 | when the read pointer is at or past the (possibly re-read) write pointer, the fetch is empty with no table change; otherwise it is the loop run from the read pointer |
| Fetch.FetchWritePointer | src/main/java/com/continuuity/data/operation/ttqueue/TTQueueNewOnVCTable.java:114-119 | the returned write pointer is either the cached one or the global counter |
| Fetch.FetchNextEntryIdsComplete | src/main/java/com/continuuity/data/operation/ttqueue/TTQueueNewOnVCTable.java:107-182 | without header data, a disjoint fetch returns every emitted id between the consumer read pointer and its last returned id, and nothing else there. A shared fetch returns exactly the emitted ids among the group ids its group pointer moves across |
| Fetch.FetchEmptyOnlyWhenNothingToEmit | src/main/java/com/continuuity/data/operation/ttqueue/TTQueueNewOnVCTable.java:113-124 | an empty disjoint fetch without header data means no id between the consumer read pointer and the global counter is emitted to this consumer |
| Fetch.LoadOne | src/main/java/com/continuuity/data/operation/ttqueue/TTQueueNewOnVCTable.java:357-374 | a row yields an entry exactly when its meta is VALID, and then with its own id and payload |
| Fetch.DeliverableIds | src/main/java/com/continuuity/data/operation/ttqueue/TTQueueNewOnVCTable.java:357-374 | the ids a `readEntries` pass keeps: a same-order subsequence of the input that holds an id exactly when it was requested and its row is VALID |
| Fetch.FirstDeliverable | src/main/java/com/continuuity/data/operation/ttqueue/TTQueueNewOnVCTable.java:357-374 | the first deliverable id stands at a position of the input before which no id is deliverable |
| Fetch.DeliverableIdsOfCells | src/main/java/com/continuuity/data/operation/ttqueue/TTQueueNewOnVCTable.java:357-374 | which ids are deliverable depends only on the table cells, so a moved group pointer does not change it |
| Fetch.LoadOneReadsOwnRow | src/main/java/com/continuuity/data/operation/ttqueue/TTQueueNewOnVCTable.java:358-374 | loading one id reads only the meta and data cells of that id's own row |
| Fetch.LoadOneDecodes | src/main/java/com/continuuity/data/operation/ttqueue/TTQueueNewOnVCTable.java:359-374 | a row whose meta is an entry meta and whose data is absent or raw bytes loads without fault |
| Fetch.LoadEntriesSucceed | src/main/java/com/continuuity/data/operation/ttqueue/TTQueueNewOnVCTable.java:356-376 | the per-row pass succeeds whenever every requested row loads without fault |
| Fetch.LoadEntries | src/main/java/com/continuuity/data/operation/ttqueue/TTQueueNewOnVCTable.java:356-376 | the loaded ids are a same-order subsequence of the requested ids, and contain an id exactly when it was requested and its row is VALID; they are exactly `Fetch.DeliverableIds` of the request, and each entry carries its row's payload |
| Fetch.ReadEntries | src/main/java/com/continuuity/data/operation/ttqueue/TTQueueNewOnVCTable.java:338-378 | empty input gives an empty cache. Otherwise the new cache starts at index 0, its ids are a same-order subsequence of the input holding exactly the VALID requested rows with their payloads (exactly `Fetch.DeliverableIds` of the input), and the rest of the state is unchanged |
| Fetch.ReadEntriesSucceed | src/main/java/com/continuuity/data/operation/ttqueue/TTQueueNewOnVCTable.java:338-378 | `readEntries` succeeds whenever every requested row loads without fault |
| Fetch.NoRowsNoneDeliverable | src/main/java/com/continuuity/data/operation/ttqueue/TTQueueNewOnVCTable.java:353-354 | when the batch read finds no requested row holding meta or data, no requested id is deliverable, so the empty cache is what the per-row pass would have built |
| Fetch.ReadCacheHead | src/main/java/com/continuuity/data/operation/ttqueue/TTQueueNewOnVCTable.java:338-378 | the loaded cache has a next entry exactly when some requested id is deliverable; its head is then the first deliverable requested id |
| Dequeue.SaveDequeueEntryState | src/main/java/com/continuuity/data/operation/ttqueue/TTQueueNewOnVCTable.java:380-399 | ACTIVE_ENTRY is always written. A disjoint consumer also writes its read pointer; a shared one writes a CLAIMED marker for the active entry instead. Nothing else changes |
| Dequeue.RestoreState | src/main/java/com/continuuity/data/operation/ttqueue/TTQueueNewOnVCTable.java:289-307 | restoring succeeds exactly when the consumer row has neither column, or its active entry and any read pointer decode. It reloads both from the row (defaults -1 and 0 otherwise), re-reads the write pointer and starts with an exhausted cache |
| Dequeue.StartState | src/main/java/com/continuuity/data/operation/ttqueue/TTQueueNewOnVCTable.java:289-313 | a supplied state is used as is. A restored state keeps the restored pointers, and its cache has a next element exactly when the restored active entry is not -1 and is VALID; that cache is then the one entry, with its stored payload |
| Dequeue.RedeliveryCache | src/main/java/com/continuuity/data/operation/ttqueue/TTQueueNewOnVCTable.java:309-312 | re-reading the active entry gives a one-entry cache when the entry is VALID and an exhausted one otherwise |
| Dequeue.Refill | src/main/java/com/continuuity/data/operation/ttqueue/TTQueueNewOnVCTable.java:316-319 | a refilled cache holds only VALID entries with their payloads, past the read pointer for a disjoint consumer; entry cells are untouched |
| Dequeue.RefillLoadsFetchedIds | src/main/java/com/continuuity/data/operation/ttqueue/TTQueueNewOnVCTable.java:315-319 | a refill succeeds exactly when `fetchNextEntryId` and then `readEntries` over the ids it returned succeed. Its table is the fetch's, its state is the one `readEntries` returns, and its cache starts at index 0 with exactly the deliverable fetched ids, in fetch order |
| Dequeue.PrepareCache | src/main/java/com/continuuity/data/operation/ttqueue/TTQueueNewOnVCTable.java:289-319 | a supplied state with a next element is served from as is, with no table change. Otherwise the serving cache keeps the starting read pointer and touches no entry cell, and a cache that had to be filled holds only VALID entries with their stored payloads |
| Dequeue.Serve | src/main/java/com/continuuity/data/operation/ttqueue/TTQueueNewOnVCTable.java:321-335 | an entry is served exactly when the cache has one. The served entry is the cache head, the cursor moves past it (what remains is the rest), the head becomes the active entry and the read pointer, the write pointer is kept, and the state is persisted. Otherwise the state is persisted unchanged. Only the consumer row changes |
| Dequeue.DequeueInternal | src/main/java/com/continuuity/data/operation/ttqueue/TTQueueNewOnVCTable.java:276-336 | a supplied state with a cached entry is served its head, and the returned state is the supplied one with the cursor advanced and the head as active entry and read pointer. A served pointer's id equals both the new active entry and the new read pointer. An empty dequeue leaves the read pointer where it started. Only the consumer's row changes, and the persisted columns match the consumer's kind |
| Dequeue.DequeueServesDeliverable | src/main/java/com/continuuity/data/operation/ttqueue/TTQueueNewOnVCTable.java:315-329 | an entry served from a freshly filled cache is VALID in the table and carries its stored payload; a disjoint consumer gets one past its old read pointer |
| Dequeue.DequeueRefillServesFirstDeliverable | src/main/java/com/continuuity/data/operation/ttqueue/TTQueueNewOnVCTable.java:315-335 | on the refill path, a dequeue succeeds exactly when `readEntries` over the fetched ids does. It reports the queue empty exactly when no fetched id is deliverable, and otherwise serves the first deliverable fetched id |
| Dequeue.DequeueServesPrepared | src/main/java/com/continuuity/data/operation/ttqueue/TTQueueNewOnVCTable.java:315-335 | a dequeue serves from the cache that restore and refill prepared |
| Dequeue.DequeueFromStartCache | src/main/java/com/continuuity/data/operation/ttqueue/TTQueueNewOnVCTable.java:315-329 | when the start state's cache has an entry, the dequeue serves from it without fetching |
| Dequeue.DequeueOnRefill | src/main/java/com/continuuity/data/operation/ttqueue/TTQueueNewOnVCTable.java:315-335 | on the refill path, the dequeue succeeds exactly when the refill does, and then serves from the refilled cache |
| Dequeue.SaveOfStoredStateKeepsTable | src/main/java/com/continuuity/data/operation/ttqueue/TTQueueNewOnVCTable.java:380-399 | saving a disjoint consumer's state that its row already records leaves the table as it was |
| Dequeue.DequeueSkippingDropped | src/main/java/com/continuuity/data/operation/ttqueue/TTQueueNewOnVCTable.java:315-325 | the corrected dequeue (see Findings) fails exactly when the as-written one does. It agrees with it whenever either serves an entry, and always for a shared consumer. When it reports the queue empty, so does the as-written one, and the two states differ only in a read pointer that is at least as far on |
| Dequeue.SkippingDroppedMakesProgress | src/main/java/com/continuuity/data/operation/ttqueue/TTQueueNewOnVCTable.java:315-335 | with the correction, a disjoint refill without header data that reports the queue empty either moves the read pointer forward and persists it, or no id up to the global counter is emitted to the consumer |
| Acks.Ack | src/main/java/com/continuuity/data/operation/ttqueue/TTQueueNewOnVCTable.java:401-435 | a disjoint ack always succeeds. A shared ack succeeds exactly when the claim column holds CLAIMED: a missing claim is "never claimed" and an ACKED one is refused. On success the claim is ACKED, ACTIVE_ENTRY is -1, and nothing else changes |
| Acks.Unack | src/main/java/com/continuuity/data/operation/ttqueue/TTQueueNewOnVCTable.java:443-453 | the claim is CLAIMED again and ACTIVE_ENTRY is the entry id; nothing else changes |
| QueueProperties.AckTwiceFails | src/main/java/com/continuuity/data/operation/ttqueue/TTQueueNewOnVCTable.java:414-434 | for a shared consumer, acking the same entry a second time fails as an illegal ack of an ACKED entry |
| QueueProperties.UnackThenAckSucceeds | src/main/java/com/continuuity/data/operation/ttqueue/TTQueueNewOnVCTable.java:443-453 | after unack, the next ack succeeds |
| QueueProperties.DequeueThenAckSucceeds | src/main/java/com/continuuity/data/operation/ttqueue/TTQueueNewOnVCTable.java:391-398 | a shared consumer can ack the entry it has just been served |
| QueueProperties.UnackRestoresActiveEntry | src/main/java/com/continuuity/data/operation/ttqueue/TTQueueNewOnVCTable.java:294-301 | after unack, restoring the consumer's state succeeds and makes the unacked entry active |
| QueueProperties.UnackThenStartServesEntry | src/main/java/com/continuuity/data/operation/ttqueue/TTQueueNewOnVCTable.java:309-312 | after unack of a VALID entry, a dequeue without supplied state starts with that entry next in its cache, with its payload |
| QueueProperties.UnackThenDequeueRedelivers | src/main/java/com/continuuity/data/operation/ttqueue/TTQueueNewOnVCTable.java:289-329 | after unack of a VALID entry, a dequeue without supplied state serves that same entry again with its stored payload |
| QueueProperties.RestartRestoresServedEntry | src/main/java/com/continuuity/data/operation/ttqueue/TTQueueNewOnVCTable.java:294-301 | after a dequeue serves an entry, restoring the consumer's state from the saved row succeeds and makes that entry active |
| QueueProperties.RestoredActiveEntryServed | src/main/java/com/continuuity/data/operation/ttqueue/TTQueueNewOnVCTable.java:309-329 | a dequeue without supplied state serves the restored active entry first whenever it is not -1 and still VALID, with its stored payload |
| QueueProperties.DequeueThenRestartRedelivers | src/main/java/com/continuuity/data/operation/ttqueue/TTQueueNewOnVCTable.java:289-329 | after a dequeue that filled its cache from the table, a dequeue that rebuilds its state from the table (as after a crash) serves the same pointer with the same payload again |
| QueueProperties.DequeueFromCache | src/main/java/com/continuuity/data/operation/ttqueue/TTQueueNewOnVCTable.java:321-329 | a dequeue on a supplied state with a cached entry serves the first remaining entry and leaves exactly the rest |
| QueueProperties.SuccessiveDequeuesFollowCache | src/main/java/com/continuuity/data/operation/ttqueue/TTQueueNewOnVCTable.java:321-329 | two dequeues threaded through the returned state serve the first two remaining cached entries in order and leave the rest |
| QueueProperties.ReadOneValidEntry | src/main/java/com/continuuity/data/operation/ttqueue/TTQueueNewOnVCTable.java:340-377 | a single VALID row with a readable payload reads back as a one-entry cache |
| QueueProperties.EnqueueThenReadRoundTrip | src/main/java/com/continuuity/data/operation/ttqueue/TTQueueNewOnVCTable.java:207-241 | reading the id returned by enqueue loads exactly one entry, with the enqueued payload |
| QueueProperties.EnqueuedHeaderDrivesEmission | src/main/java/com/continuuity/data/operation/ttqueue/TTQueueNewOnVCTable.java:230-233 | the hash enqueue stores under a partition key is the value the partitioner's hash test sees for a consumer with that key |
| QueueProperties.EnqueueKeepsRowsDecodable | src/main/java/com/continuuity/data/operation/ttqueue/TTQueueNewOnVCTable.java:220-233 | if every entry row loads without fault before `enqueue`, every one still does after it |
| QueueProperties.InvalidateKeepsRowsDecodable | src/main/java/com/continuuity/data/operation/ttqueue/TTQueueNewOnVCTable.java:245-253 | if every entry row loads without fault before `invalidate`, every one still does after it |
| QueueProperties.FetchedNewEntryFirst | src/main/java/com/continuuity/data/operation/ttqueue/TTQueueNewOnVCTable.java:126-180 | a disjoint fetch without header data that starts just below an emitted id equal to the global counter returns that id first |
| QueueProperties.EnqueueThenDequeueServes | src/main/java/com/continuuity/data/operation/ttqueue/TTQueueNewOnVCTable.java:315-329 | after `enqueue`, a disjoint consumer without header data whose partitioner emits the new id, and which has read up to the old global counter with nothing cached, is served exactly the enqueued pointer and payload by its next dequeue |
| QueueProperties.InvalidatedNeverLoaded | src/main/java/com/continuuity/data/operation/ttqueue/TTQueueNewOnVCTable.java:366-368 | an invalidated entry is never loaded into a cache |
| QueueProperties.InvalidatedNeverServed | src/main/java/com/continuuity/data/operation/ttqueue/TTQueueNewOnVCTable.java:315-329 | a dequeue that fills its cache from the table never serves an invalidated entry |
| QueueProperties.FifoClaimsAreExclusive | src/main/java/com/continuuity/data/operation/ttqueue/TTQueueNewOnVCTable.java:133-140 | two successive fetches by instances of one shared group obtain different ids, the later one larger |
| QueueProperties.DroppedBatchStalls | src/main/java/com/continuuity/data/operation/ttqueue/TTQueueNewOnVCTable.java:316-325 | as written, a disjoint consumer whose row records its state, whose write pointer is fresh and whose fetched ids all load as dropped is told the queue is empty, with table and state unchanged, so the next dequeue repeats the same fetch. The corrected dequeue moves the read pointer past a non-empty dropped batch |
| QueueProperties.InvalidEntryStallsExample | src/main/java/com/continuuity/data/operation/ttqueue/TTQueueNewOnVCTable.java:366-368 | in a table where entry 1 is INVALID and entry 3 is VALID and emitted, the as-written dequeue from read pointer 0 reports the queue empty and changes nothing, although entry 3 lies between the read pointer and the global counter |
| QueueProperties.RestoreSucceedsOnWellFormedRow | src/main/java/com/continuuity/data/operation/ttqueue/TTQueueNewOnVCTable.java:294-302 | on a well-formed consumer row, restoring the queue state never faults |
| QueueProperties.SaveKeepsRowWellFormed | src/main/java/com/continuuity/data/operation/ttqueue/TTQueueNewOnVCTable.java:386-398 | saving dequeue state keeps the consumer row well formed |
| QueueProperties.DequeueKeepsRowWellFormed | src/main/java/com/continuuity/data/operation/ttqueue/TTQueueNewOnVCTable.java:321-335 | a dequeue keeps the consumer row well formed |
| QueueProperties.AckKeepsRowWellFormed | src/main/java/com/continuuity/data/operation/ttqueue/TTQueueNewOnVCTable.java:409-434 | ack keeps the consumer row well formed |
| QueueProperties.UnackKeepsRowWellFormed | src/main/java/com/continuuity/data/operation/ttqueue/TTQueueNewOnVCTable.java:449-452 | unack keeps the consumer row well formed |

## Left out

- MVCC versioning: read pointers, write versions, `readPointer.getMaximum()`, `TimestampOracle` and `dirtyPointer`. The table is a single unversioned map, and the write pointer is re-read as a plain counter read.
- Fixed-width arithmetic: ids, counters and the int product `batchSize * groupSize` are unbounded integers. Only the stored encodings reduce modulo 2^64 or 2^32.
- Encodings of collaborators not shown: `EntryMeta`, `EntryConsumerMeta`, the partition-map serializer, and the UTF-8 encoding of string partitioning keys (keys are byte strings here).
- Byte-array map keys: the source looks rows and columns up in `Map<byte[], …>` results. The model assumes these lookups match by content.
- Storage failures other than the enqueue counter increment are not modelled. On an error no table is returned, so writes made before a fault are not represented. This includes the group pointer increment of a shared fetch that later faults.
- `getGroupID` (a process-global counter), `getQueueInfo` (returns null), `finalize` (a no-op), the `dequeueReturns` counter, and `TRACE`/`log` output are left out.
- The three public `dequeue` overloads are left out; they only forward to `dequeueInternal`, with or without a queue state.
- Negative group sizes for a disjoint partitioner: the fetch and dequeue functions require `isDisjoint ==> groupSize >= 0`. With a negative group size the disjoint window moves backwards or stays put, so the source loops forever; with header data it may instead throw `NegativeArraySizeException` when it allocates the row-key array. A group size of 0 is modelled (the window then holds one id), and a non-disjoint consumer never reads its group size.
- The `Bytes` utility class is not part of this model. `AsLong`/`AsInt` follow the usual behaviour of `Bytes.toLong(byte[])`/`Bytes.toInt(byte[])`: decode the first 8 (resp. 4) bytes, and throw on a null or shorter array.
- Fetch.FetchEmptyOnlyWhenNothingToEmit: the model does not prove "an empty fetch means the consumer read pointer is at or past the fresh write pointer", because a round whose scan emits nothing moves the cursor on. It proves that an empty fetch comes with a freshly read write pointer (`Fetch.FetchNextEntryIds`). It also proves that, for a disjoint partitioner without header data, no id between the read pointer and the global counter would have been emitted.
- Fetch.FetchLoopSkipsNothing: stated only for disjoint partitioners without header data. With header data, the verdict depends on cells that a batch read may miss.
- Fetch.FetchNextEntryIdsComplete: stated only without header data. With header data, `Fetch.RoundComplete` states per round that a window's ids are returned exactly when the emission verdict accepts them; the verdict then depends on header cells, so completeness across rounds is not stated.
- Fetch.GroupLoopComplete: a shared fetch's ids beyond the moved group pointer belong to other instances of the group, so completeness is stated only over the ids the group pointer moves across.

## Findings

| source | as written | input that shows it | evidently intended | confidence | as-written member | corrected member |
|---|---|---|---|---|---|---|
| src/main/java/com/continuuity/data/operation/ttqueue/TTQueueNewOnVCTable.java:316-325 | a disjoint consumer's read pointer moves only when an entry is served (lines 324-325), while `readEntries` drops INVALID and EVICTED ids (src/main/java/com/continuuity/data/operation/ttqueue/TTQueueNewOnVCTable.java:366-368). A fetched batch that is entirely dropped leaves the read pointer in place, so every later dequeue fetches the same batch and reports the queue empty | batch size 1, group size 1, read pointer 0, global counter 3; entry 1 INVALID, entry 3 VALID, the partitioner emits ids 1 and 3. Each dequeue fetches only id 1 and reports the queue empty, and entry 3 is never served | the consumer passes over invalidated or evicted ids and goes on to later entries | not executed | QueueProperties.InvalidEntryStallsExample (general form: QueueProperties.DroppedBatchStalls) | Dequeue.DequeueSkippingDropped (progress: Dequeue.SkippingDroppedMakesProgress) |
