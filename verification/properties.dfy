/** Properties that relate several queue operations: the claim/ack protocol,
    redelivery after `unack`, what `enqueue` and `invalidate` mean to readers,
    exclusive claims in a shared group, and the consumer-row invariant that
    keeps state restoration from faulting. */
module QueueProperties {
  import opened Bytes
  import opened Options
  import opened Tables
  import opened Keys
  import opened CachedLists
  import opened QueueModel
  import opened EntryStore
  import opened Fetch
  import opened Dequeue
  import opened Acks

  // ---- Claim / ack protocol ------------------------------------------------

  /** For a non-disjoint consumer, a second `ack` of the same entry is refused
      as an illegal ack of an already ACKED entry. */
  lemma AckTwiceFails(q: Queue, t: QueueTable, p: QueueEntryPointer, c: Consumer)
    requires !c.config.partitioner.isDisjoint
    requires Ack(q, t, p, c).Ok?
    ensures Ack(q, Ack(q, t, p, c).value, p, c) == Err(IllegalAck(NotClaimed(Acked)))
  {
  }

  /** `unack` re-arms the claim: the following `ack` succeeds. */
  lemma UnackThenAckSucceeds(q: Queue, t: QueueTable, p: QueueEntryPointer, c: Consumer)
    ensures Ack(q, Unack(q, t, p, c), p, c).Ok?
  {
  }

  /** An entry a non-disjoint consumer has just been served can be acked by
      that consumer. */
  lemma DequeueThenAckSucceeds(q: Queue, t: QueueTable, c: Consumer, qs: Option<QueueState>)
    requires !c.config.partitioner.isDisjoint
    requires DequeueInternal(q, t, c.id, c.config, qs).Ok?
    requires DequeueInternal(q, t, c.id, c.config, qs).value.result.Dequeued?
    ensures var step := DequeueInternal(q, t, c.id, c.config, qs).value;
            Ack(q, step.table, step.result.pointer, c).Ok?
  {
  }

  // ---- Redelivery ----------------------------------------------------------

  /** After `unack`, rebuilding the consumer's state from the table makes the
      unacked entry the active one again. */
  lemma UnackRestoresActiveEntry(q: Queue, t: QueueTable, p: QueueEntryPointer, c: Consumer)
    requires InLongRange(p.entryId)
    requires StoredReadPointerReadable(q, t, c.id)
    ensures RestoreState(q, Unack(q, t, p, c), c.id).Ok?
    ensures RestoreState(q, Unack(q, t, p, c), c.id).value.activeEntryId == p.entryId
  {
    var t1 := Unack(q, t, p, c);
    var row := ConsumerRow(q, c.id);
    ConsumerColumnsDistinct(p.entryId);
    LongValueReadsBack(p.entryId);
    assert Get(t1, row, CONSUMER_READ_POINTER) == Get(t, row, CONSUMER_READ_POINTER);
    assert ACTIVE_ENTRY in {ACTIVE_ENTRY, CONSUMER_READ_POINTER};
    assert RowHasAny(t1, row, {ACTIVE_ENTRY, CONSUMER_READ_POINTER});
  }

  /** After `unack` of a valid entry, the start state of a dequeue without a
      supplied state has that entry next in its cache, with its payload. */
  lemma UnackThenStartServesEntry(q: Queue, t: QueueTable, p: QueueEntryPointer, c: Consumer)
    requires InLongRange(p.entryId) && p.entryId != INVALID_ENTRY_ID
    requires Deliverable(q, t, p.entryId)
    requires PayloadOf(Get(t, EntryRow(q, p.entryId), ENTRY_DATA)).Ok?
    requires StoredReadPointerReadable(q, t, c.id)
    ensures var r := StartState(q, Unack(q, t, p, c), c.id, None);
            && r.Ok? && HasNext(r.value.cachedEntries)
            && r.value.cachedEntries.list[r.value.cachedEntries.currentIndex].entryId == p.entryId
            && PayloadOf(Get(t, EntryRow(q, p.entryId), ENTRY_DATA))
               == Ok(r.value.cachedEntries.list[r.value.cachedEntries.currentIndex].data)
  {
    var t1 := Unack(q, t, p, c);
    UnackRestoresActiveEntry(q, t, p, c);
    RowFamiliesDisjoint(q.name, 0, p.entryId, c.id.groupId, c.id.instanceId);
    assert Deliverable(q, t1, p.entryId);
    assert Get(t1, EntryRow(q, p.entryId), ENTRY_DATA) == Get(t, EntryRow(q, p.entryId), ENTRY_DATA);
    ReadOneValidEntry(q, t1, RestoreState(q, t1, c.id).value, p.entryId);
  }

  /** After `unack` of a valid entry, a dequeue that rebuilds its state from
      the table serves that same entry again with its stored payload. */
  lemma UnackThenDequeueRedelivers(q: Queue, t: QueueTable, p: QueueEntryPointer, c: Consumer, cfg: QueueConfig)
    requires cfg.partitioner.isDisjoint ==> c.id.groupSize >= 0
    requires InLongRange(p.entryId) && p.entryId != INVALID_ENTRY_ID
    requires Deliverable(q, t, p.entryId)
    requires PayloadOf(Get(t, EntryRow(q, p.entryId), ENTRY_DATA)).Ok?
    requires StoredReadPointerReadable(q, t, c.id)
    ensures var r := DequeueInternal(q, Unack(q, t, p, c), c.id, cfg, None);
            && r.Ok? && r.value.result.Dequeued?
            && r.value.result.pointer == QueueEntryPointer(q.name, p.entryId)
            && PayloadOf(Get(t, EntryRow(q, p.entryId), ENTRY_DATA)) == Ok(r.value.result.data)
  {
    var t1 := Unack(q, t, p, c);
    UnackThenStartServesEntry(q, t, p, c);
    DequeueFromStartCache(q, t1, c.id, cfg, None);
  }

  /** The consumer row a dequeue has just saved restores, after a restart,
      to a state whose active entry is the entry just served. */
  lemma RestartRestoresServedEntry(q: Queue, t: QueueTable, c: ConsumerId, cfg: QueueConfig, qs: Option<QueueState>)
    requires cfg.partitioner.isDisjoint ==> c.groupSize >= 0
    requires StoredReadPointerReadable(q, t, c)
    requires DequeueInternal(q, t, c, cfg, qs).Ok? && DequeueInternal(q, t, c, cfg, qs).value.result.Dequeued?
    requires InLongRange(DequeueInternal(q, t, c, cfg, qs).value.result.pointer.entryId)
    ensures var d := DequeueInternal(q, t, c, cfg, qs).value;
            && RestoreState(q, d.table, c).Ok?
            && RestoreState(q, d.table, c).value.activeEntryId == d.result.pointer.entryId
  {
    var d := DequeueInternal(q, t, c, cfg, qs).value;
    var id := d.result.pointer.entryId;
    var row := ConsumerRow(q, c);
    LongValueReadsBack(id);
    assert ACTIVE_ENTRY in {ACTIVE_ENTRY, CONSUMER_READ_POINTER};
    assert RowHasAny(d.table, row, {ACTIVE_ENTRY, CONSUMER_READ_POINTER});
    assert StoredReadPointerReadable(q, d.table, c);
  }

  /** At-least-once delivery across a restart: after a dequeue that filled
      its cache from the table, a dequeue that rebuilds its state from the
      saved consumer row (no state supplied) serves the same entry again,
      with the same payload. */
  lemma DequeueThenRestartRedelivers(q: Queue, t: QueueTable, c: ConsumerId, cfg: QueueConfig, qs: Option<QueueState>)
    requires cfg.partitioner.isDisjoint ==> c.groupSize >= 0
    requires qs.None? || !HasNext(qs.value.cachedEntries)
    requires StoredReadPointerReadable(q, t, c)
    requires DequeueInternal(q, t, c, cfg, qs).Ok? && DequeueInternal(q, t, c, cfg, qs).value.result.Dequeued?
    requires InLongRange(DequeueInternal(q, t, c, cfg, qs).value.result.pointer.entryId)
    requires DequeueInternal(q, t, c, cfg, qs).value.result.pointer.entryId != INVALID_ENTRY_ID
    ensures var d := DequeueInternal(q, t, c, cfg, qs).value;
            var again := DequeueInternal(q, d.table, c, cfg, None);
            again.Ok? && again.value.result == d.result
  {
    var d := DequeueInternal(q, t, c, cfg, qs).value;
    var id := d.result.pointer.entryId;
    DequeueServesDeliverable(q, t, c, cfg, qs);
    RestartRestoresServedEntry(q, t, c, cfg, qs);
    RowFamiliesDisjoint(q.name, 0, id, c.groupId, c.instanceId);
    assert Get(d.table, EntryRow(q, id), ENTRY_META) == Get(t, EntryRow(q, id), ENTRY_META);
    assert Get(d.table, EntryRow(q, id), ENTRY_DATA) == Get(t, EntryRow(q, id), ENTRY_DATA);
    RestoredActiveEntryServed(q, d.table, c, cfg);
  }

  /** A dequeue without a supplied state serves the restored active entry
      first whenever that entry is still VALID, with its stored payload. */
  lemma RestoredActiveEntryServed(q: Queue, t: QueueTable, c: ConsumerId, cfg: QueueConfig)
    requires cfg.partitioner.isDisjoint ==> c.groupSize >= 0
    requires RestoreState(q, t, c).Ok?
    requires RestoreState(q, t, c).value.activeEntryId != INVALID_ENTRY_ID
    requires Deliverable(q, t, RestoreState(q, t, c).value.activeEntryId)
    requires PayloadOf(Get(t, EntryRow(q, RestoreState(q, t, c).value.activeEntryId), ENTRY_DATA)).Ok?
    ensures var id := RestoreState(q, t, c).value.activeEntryId;
            var r := DequeueInternal(q, t, c, cfg, None);
            && r.Ok? && r.value.result.Dequeued?
            && r.value.result.pointer == QueueEntryPointer(q.name, id)
            && PayloadOf(Get(t, EntryRow(q, id), ENTRY_DATA)) == Ok(r.value.result.data)
  {
    var s := RestoreState(q, t, c).value;
    ReadOneValidEntry(q, t, s, s.activeEntryId);
    DequeueFromStartCache(q, t, c, cfg, None);
  }

  /** Dequeues on a supplied state with a non-empty cache hand out the cached
      entries one after another, in list order: the second dequeue, given the
      state the first returned, serves the entry after the first one. */
  lemma SuccessiveDequeuesFollowCache(q: Queue, t: QueueTable, c: ConsumerId, cfg: QueueConfig, s: QueueState)
    requires cfg.partitioner.isDisjoint ==> c.groupSize >= 0
    requires s.cachedEntries.Valid() && |Remaining(s.cachedEntries)| >= 2
    ensures var d1 := DequeueInternal(q, t, c, cfg, Some(s));
            && d1.Ok? && d1.value.result.Dequeued?
            && d1.value.result.pointer.entryId == Remaining(s.cachedEntries)[0].entryId
            && var d2 := DequeueInternal(q, d1.value.table, c, cfg, Some(d1.value.state));
               && d2.Ok? && d2.value.result.Dequeued?
               && d2.value.result.pointer.entryId == Remaining(s.cachedEntries)[1].entryId
               && Remaining(d2.value.state.cachedEntries) == Remaining(s.cachedEntries)[2..]
  {
    DequeueFromCache(q, t, c, cfg, s);
    var d1 := DequeueInternal(q, t, c, cfg, Some(s)).value;
    DequeueFromCache(q, d1.table, c, cfg, d1.state);
  }

  /** One dequeue on a supplied state with a non-empty cache serves the first
      remaining entry and leaves the rest of the cache for the next call. */
  lemma DequeueFromCache(q: Queue, t: QueueTable, c: ConsumerId, cfg: QueueConfig, s: QueueState)
    requires cfg.partitioner.isDisjoint ==> c.groupSize >= 0
    requires s.cachedEntries.Valid() && |Remaining(s.cachedEntries)| >= 1
    ensures var d := DequeueInternal(q, t, c, cfg, Some(s));
            && d.Ok? && d.value.result.Dequeued?
            && d.value.result.pointer.entryId == Remaining(s.cachedEntries)[0].entryId
            && d.value.state.cachedEntries.Valid()
            && Remaining(d.value.state.cachedEntries) == Remaining(s.cachedEntries)[1..]
  {
  }

  // ---- Producer operations seen by readers ---------------------------------

  /** A single valid entry row with a readable payload reads back as a
      one-entry cache. */
  lemma ReadOneValidEntry(q: Queue, t: QueueTable, qs: QueueState, id: int)
    requires Deliverable(q, t, id)
    requires PayloadOf(Get(t, EntryRow(q, id), ENTRY_DATA)).Ok?
    ensures ReadEntries(q, t, qs, [id]) ==
            Ok(qs.(cachedEntries := Make([QueueStateEntry(PayloadOf(Get(t, EntryRow(q, id), ENTRY_DATA)).value, id)])))
  {
    var row := EntryRow(q, id);
    var e := QueueStateEntry(PayloadOf(Get(t, row, ENTRY_DATA)).value, id);
    assert ENTRY_META in {ENTRY_META, ENTRY_DATA};
    assert RowHasAny(t, row, {ENTRY_META, ENTRY_DATA});
    assert LoadOne(q, t, id) == Ok(Some(e));
    assert [id][1..] == [];
    assert LoadEntries(q, t, []) == Ok([]);
    assert [e] + [] == [e];
    assert LoadEntries(q, t, [id]) == Ok([e]);
  }

  /** What `enqueue` writes is what `readEntries` loads back for the new id:
      exactly one cached entry, carrying the enqueued payload. */
  lemma EnqueueThenReadRoundTrip(q: Queue, t: QueueTable, e: QueueEntry,
                                 serialize: map<seq<byte>, int> -> Option<seq<byte>>,
                                 qs: QueueState)
    requires Enqueue(q, t, e, serialize, None).Ok?
    ensures var (t', p) := Enqueue(q, t, e, serialize, None).value;
            ReadEntries(q, t', qs, [p.entryId]) == Ok(qs.(cachedEntries := Make([QueueStateEntry(Some(e.data), p.entryId)])))
  {
    var (t', p) := Enqueue(q, t, e, serialize, None).value;
    ReadOneValidEntry(q, t', qs, p.entryId);
  }

  /** `enqueue` keeps every entry row decodable: the row it writes has
      meta VALID and raw data, and no other entry row changes. */
  lemma EnqueueKeepsRowsDecodable(q: Queue, t: QueueTable, e: QueueEntry,
                                  serialize: map<seq<byte>, int> -> Option<seq<byte>>)
    requires Enqueue(q, t, e, serialize, None).Ok?
    requires EntryRowsDecode(q, t)
    ensures EntryRowsDecode(q, Enqueue(q, t, e, serialize, None).value.0)
  {
    var (t', p) := Enqueue(q, t, e, serialize, None).value;
    forall id
      ensures LoadOne(q, t', id).Ok?
    {
      if EntryRow(q, id) != EntryRow(q, p.entryId) {
        LoadOneReadsOwnRow(q, t, t', id);
      } else {
        LoadOneDecodes(q, t', id);
      }
    }
  }

  /** `invalidate` keeps every entry row decodable: the row it touches reads
      as INVALID, and no other cell changes. */
  lemma InvalidateKeepsRowsDecodable(q: Queue, t: QueueTable, p: QueueEntryPointer)
    requires EntryRowsDecode(q, t)
    ensures EntryRowsDecode(q, Invalidate(q, t, p))
  {
    var t' := Invalidate(q, t, p);
    forall id
      ensures LoadOne(q, t', id).Ok?
    {
      if EntryRow(q, id) != EntryRow(q, p.entryId) {
        LoadOneReadsOwnRow(q, t, t', id);
      } else {
        LoadOneDecodes(q, t', id);
      }
    }
  }

  /** What `enqueue` writes reaches a waiting disjoint consumer: one that has
      consumed everything up to the global counter, whose partitioner emits
      the new id, is served exactly that entry and its payload by its next
      dequeue. */
  lemma EnqueueThenDequeueServes(q: Queue, t: QueueTable, e: QueueEntry,
                                 serialize: map<seq<byte>, int> -> Option<seq<byte>>,
                                 c: ConsumerId, cfg: QueueConfig, s: QueueState)
    requires Enqueue(q, t, e, serialize, None).Ok?
    requires cfg.partitioner.isDisjoint && !cfg.partitioner.usesHeaderData && c.groupSize >= 0
    requires EntryRowsDecode(q, t)
    requires !HasNext(s.cachedEntries)
    requires s.consumerReadPointer == GlobalCounter(q, t) && s.queueWritePointer <= GlobalCounter(q, t)
    requires cfg.partitioner.shouldEmit(c, GlobalCounter(q, t) + 1)
    ensures var (t', p) := Enqueue(q, t, e, serialize, None).value;
            && DequeueInternal(q, t', c, cfg, Some(s)).Ok?
            && DequeueInternal(q, t', c, cfg, Some(s)).value.result == Dequeued(p, Some(e.data))
  {
    var (t', p) := Enqueue(q, t, e, serialize, None).value;
    var id := p.entryId;
    EnqueueKeepsRowsDecodable(q, t, e, serialize);
    assert StartState(q, t', c, Some(s)) == Ok(s);
    var ids := FetchNextEntryIds(q, t', c, cfg, s).value.ids;
    FetchedNewEntryFirst(q, t', c, cfg, s, id);
    ReadEntriesSucceed(q, t', FetchNextEntryIds(q, t', c, cfg, s).value.state, ids);
    DequeueRefillServesFirstDeliverable(q, t', c, cfg, Some(s));
    assert DeliverableIds(q, t', ids)[0] == id;
    assert id in ids;
    DequeueServesDeliverable(q, t', c, cfg, Some(s));
  }

  /** A disjoint fetch without header data, started right below an emitted
      id that is the global counter, returns that id first. */
  lemma FetchedNewEntryFirst(q: Queue, t: QueueTable, c: ConsumerId, cfg: QueueConfig, s: QueueState, id: int)
    requires cfg.partitioner.isDisjoint && !cfg.partitioner.usesHeaderData && c.groupSize >= 0
    requires id == GlobalCounter(q, t) && s.consumerReadPointer == id - 1
    requires cfg.partitioner.shouldEmit(c, id)
    ensures var ids := FetchNextEntryIds(q, t, c, cfg, s).value.ids;
            ids != [] && ids[0] == id
  {
    var ids := FetchNextEntryIds(q, t, c, cfg, s).value.ids;
    if ids == [] {
      FetchEmptyOnlyWhenNothingToEmit(q, t, c, cfg, s);
    }
    FetchNextEntryIdsComplete(q, t, c, cfg, s);
    assert id <= ids[|ids| - 1];
    assert id in ids;
  }

  // ---- Invalid entries stall a disjoint consumer ----------------------------

  /** As written, a disjoint consumer whose fetched ids all load as dropped
      (INVALID, EVICTED or absent) is stuck: when the state it passes in is
      the one its row already records, with a freshly read write pointer,
      `dequeueInternal` reports the queue empty and hands back that very
      state and table, so every later dequeue repeats the same fetch. The
      corrected dequeue moves its read pointer past the dropped ids. */
  lemma DroppedBatchStalls(q: Queue, t: QueueTable, c: ConsumerId, cfg: QueueConfig, s: QueueState)
    requires cfg.partitioner.isDisjoint && c.groupSize >= 0
    requires s.cachedEntries == Empty() && s.queueWritePointer == GlobalCounter(q, t)
    requires Get(t, ConsumerRow(q, c), ACTIVE_ENTRY) == Some(LongValue(s.activeEntryId))
    requires Get(t, ConsumerRow(q, c), CONSUMER_READ_POINTER) == Some(LongValue(s.consumerReadPointer))
    requires FetchNextEntryIds(q, t, c, cfg, s).Ok?
    requires forall id :: id in FetchNextEntryIds(q, t, c, cfg, s).value.ids ==> LoadOne(q, t, id) == Ok(None)
    ensures DequeueInternal(q, t, c, cfg, Some(s)) == Ok(DequeueStep(t, s, QueueEmpty))
    ensures FetchNextEntryIds(q, t, c, cfg, s).value.ids != [] ==>
              DequeueSkippingDropped(q, t, c, cfg, Some(s)).value.state.consumerReadPointer > s.consumerReadPointer
  {
    var f := FetchNextEntryIds(q, t, c, cfg, s).value;
    FetchWritePointer(q, t, c, cfg, s);
    assert f.state == s && f.table == t;
    ReadEntriesSucceed(q, t, s, f.ids);
    var s1 := ReadEntries(q, t, s, f.ids).value;
    assert EntryIds(s1.cachedEntries.list) == [];
    assert s1 == s;
    DequeueOnRefill(q, t, c, cfg, Some(s));
    SaveOfStoredStateKeepsTable(q, t, c, cfg, s);
  }

  /** A concrete stall. Entry 1 is INVALID and entry 3 is VALID, and the
      consumer's partitioner emits both. Batch and group size are 1, and the
      consumer has read nothing. Its first window is ids 1-2, so it only ever
      fetches id 1, and entry 3 is never served. */
  const STALL_QUEUE := Queue([], 1)
  const STALL_CONSUMER := ConsumerId(0, 0, 1, [])
  const STALL_CONFIG := QueueConfig(Partitioner(true, false, (c: ConsumerId, id: int) => id == 1 || id == 3,
                                                (c: ConsumerId, id: int, h: int) => false))
  const STALL_STATE := QueueState(-1, 0, 3, Empty())
  const STALL_TABLE: QueueTable :=
    Table(map[(EntryRow(STALL_QUEUE, 1), ENTRY_META) := EntryMetaV(Invalid),
              (EntryRow(STALL_QUEUE, 3), ENTRY_META) := EntryMetaV(Valid),
              (ConsumerRow(STALL_QUEUE, STALL_CONSUMER), ACTIVE_ENTRY) := LongValue(-1),
              (ConsumerRow(STALL_QUEUE, STALL_CONSUMER), CONSUMER_READ_POINTER) := LongValue(0)],
          map[GlobalCounterCell(STALL_QUEUE) := 3])

  /** The example's cells: entry 1 reads as dropped, entry 3 as deliverable,
      and the consumer row records the example state. */
  lemma StallTableCells()
    ensures LoadOne(STALL_QUEUE, STALL_TABLE, 1) == Ok(None)
    ensures Deliverable(STALL_QUEUE, STALL_TABLE, 3)
    ensures Get(STALL_TABLE, ConsumerRow(STALL_QUEUE, STALL_CONSUMER), ACTIVE_ENTRY) == Some(LongValue(-1))
    ensures Get(STALL_TABLE, ConsumerRow(STALL_QUEUE, STALL_CONSUMER), CONSUMER_READ_POINTER) == Some(LongValue(0))
  {
    var q := STALL_QUEUE;
    RowKeyInjective(q.name, GLOBAL_DATA_PREFIX, 1, 3);
    RowFamiliesDisjoint(q.name, 0, 1, 0, 0);
    RowFamiliesDisjoint(q.name, 0, 3, 0, 0);
    assert Get(STALL_TABLE, EntryRow(q, 1), ENTRY_META) == Some(EntryMetaV(Invalid));
    assert ENTRY_META in {ENTRY_META, ENTRY_DATA};
  }

  /** The example's first window is ids 1-2, of which the partitioner
      emits 1. */
  lemma StallWindow()
    ensures Scan(STALL_QUEUE, STALL_TABLE, STALL_CONSUMER, STALL_CONFIG.partitioner, 1, 2, true) == Ok([1])
  {
    var p := STALL_CONFIG.partitioner;
    assert p.shouldEmit(STALL_CONSUMER, 1) && !p.shouldEmit(STALL_CONSUMER, 2);
    assert Scan(STALL_QUEUE, STALL_TABLE, STALL_CONSUMER, p, 3, 0, true) == Ok([]);
    assert Scan(STALL_QUEUE, STALL_TABLE, STALL_CONSUMER, p, 2, 1, true) == Ok([]);
    assert EmitDecision(STALL_QUEUE, STALL_TABLE, STALL_CONSUMER, p, 1, true) == Ok(true);
    assert [1] + [] == [1];
  }

  /** The example's fetch returns id 1 alone. */
  lemma StallFetch()
    ensures FetchNextEntryIds(STALL_QUEUE, STALL_TABLE, STALL_CONSUMER, STALL_CONFIG, STALL_STATE).Ok?
    ensures FetchNextEntryIds(STALL_QUEUE, STALL_TABLE, STALL_CONSUMER, STALL_CONFIG, STALL_STATE).value.ids == [1]
  {
    var (q, t, c, p, s) := (STALL_QUEUE, STALL_TABLE, STALL_CONSUMER, STALL_CONFIG.partitioner, STALL_STATE);
    StallWindow();
    assert GlobalCounter(q, t) == 3;
    assert NextWindow(q, t, c, p, s, 0) == Window(t, s, 1, 2);
    assert FetchRound(q, t, c, p, s, 0) == Ok(Done(Fetched(t, s, [1])));
    LoopStep(q, t, c, p, s, 0);
    FetchStarts(q, t, c, STALL_CONFIG, s);
  }

  /** In the example, entry 3 is deliverable and emitted, yet the as-written
      dequeue reports the queue empty and changes nothing. */
  lemma InvalidEntryStallsExample()
    ensures STALL_STATE.consumerReadPointer < 3 <= GlobalCounter(STALL_QUEUE, STALL_TABLE)
    ensures Deliverable(STALL_QUEUE, STALL_TABLE, 3) && STALL_CONFIG.partitioner.shouldEmit(STALL_CONSUMER, 3)
    ensures DequeueInternal(STALL_QUEUE, STALL_TABLE, STALL_CONSUMER, STALL_CONFIG, Some(STALL_STATE)) ==
              Ok(DequeueStep(STALL_TABLE, STALL_STATE, QueueEmpty))
  {
    StallTableCells();
    StallFetch();
    assert GlobalCounter(STALL_QUEUE, STALL_TABLE) == 3;
    DroppedBatchStalls(STALL_QUEUE, STALL_TABLE, STALL_CONSUMER, STALL_CONFIG, STALL_STATE);
  }

  /** The hash `enqueue` writes under a partition key is the one a
      header-reading partitioner is asked about for a consumer with that key. */
  lemma EnqueuedHeaderDrivesEmission(q: Queue, t: QueueTable, e: QueueEntry,
                                     serialize: map<seq<byte>, int> -> Option<seq<byte>>,
                                     c: ConsumerId, p: Partitioner)
    requires Enqueue(q, t, e, serialize, None).Ok?
    requires p.usesHeaderData
    requires c.partitioningKey in e.partitioningMap && InIntRange(e.partitioningMap[c.partitioningKey])
    ensures var (t', ptr) := Enqueue(q, t, e, serialize, None).value;
            EmitDecision(q, t', c, p, ptr.entryId, false) ==
              Ok(p.shouldEmitHash(c, ptr.entryId, e.partitioningMap[c.partitioningKey]))
  {
    var r := Enqueue(q, t, e, serialize, None).value;
    HashedHeaderDecision(q, r.0, c, p, r.1.entryId, e.partitioningMap[c.partitioningKey]);
  }

  /** Once invalidated, an entry is never loaded into a consumer's cache. */
  lemma InvalidatedNeverLoaded(q: Queue, t: QueueTable, p: QueueEntryPointer, qs: QueueState, ids: seq<int>)
    requires ReadEntries(q, Invalidate(q, t, p), qs, ids).Ok?
    ensures p.entryId !in EntryIds(ReadEntries(q, Invalidate(q, t, p), qs, ids).value.cachedEntries.list)
  {
  }

  /** Once invalidated, an entry is never served by a dequeue that reads from
      the table (no state supplied, or its cache exhausted). */
  lemma InvalidatedNeverServed(q: Queue, t: QueueTable, p: QueueEntryPointer, c: ConsumerId, cfg: QueueConfig, qs: Option<QueueState>)
    requires cfg.partitioner.isDisjoint ==> c.groupSize >= 0
    requires qs.None? || !HasNext(qs.value.cachedEntries)
    requires DequeueInternal(q, Invalidate(q, t, p), c, cfg, qs).Ok?
    requires DequeueInternal(q, Invalidate(q, t, p), c, cfg, qs).value.result.Dequeued?
    ensures DequeueInternal(q, Invalidate(q, t, p), c, cfg, qs).value.result.pointer.entryId != p.entryId
  {
    DequeueServesDeliverable(q, Invalidate(q, t, p), c, cfg, qs);
  }

  // ---- Shared (non-disjoint) groups ----------------------------------------

  /** In a non-disjoint group the shared group read pointer makes claims
      exclusive: two successive fetches by any two instances of the same
      group never obtain the same id. */
  lemma FifoClaimsAreExclusive(q: Queue, t: QueueTable, c1: ConsumerId, c2: ConsumerId, cfg: QueueConfig,
                               qs1: QueueState, qs2: QueueState)
    requires c1.groupId == c2.groupId
    requires !cfg.partitioner.isDisjoint
    requires FetchNextEntryIds(q, t, c1, cfg, qs1).Ok?
    requires FetchNextEntryIds(q, FetchNextEntryIds(q, t, c1, cfg, qs1).value.table, c2, cfg, qs2).Ok?
    ensures var f1 := FetchNextEntryIds(q, t, c1, cfg, qs1).value;
            var f2 := FetchNextEntryIds(q, f1.table, c2, cfg, qs2).value;
            forall a, b :: a in f1.ids && b in f2.ids ==> a < b
  {
  }

  // ---- Consumer-row invariant ----------------------------------------------

  /** The consumer row holds decodable longs in its active-entry and
      read-pointer columns, and the read pointer never appears without the
      active entry. */
  ghost predicate ConsumerRowWellFormed(q: Queue, t: QueueTable, c: ConsumerId) {
    var row := ConsumerRow(q, c);
    && (Get(t, row, ACTIVE_ENTRY).None? || AsLong(Get(t, row, ACTIVE_ENTRY)).Ok?)
    && (Get(t, row, CONSUMER_READ_POINTER).None? || AsLong(Get(t, row, CONSUMER_READ_POINTER)).Ok?)
    && (Get(t, row, CONSUMER_READ_POINTER).Some? ==> Get(t, row, ACTIVE_ENTRY).Some?)
  }

  /** On a well-formed consumer row, rebuilding the queue state never faults. */
  lemma RestoreSucceedsOnWellFormedRow(q: Queue, t: QueueTable, c: ConsumerId)
    requires ConsumerRowWellFormed(q, t, c)
    ensures RestoreState(q, t, c).Ok?
  {
    var row := ConsumerRow(q, c);
    if RowHasAny(t, row, {ACTIVE_ENTRY, CONSUMER_READ_POINTER}) {
      var col :| col in {ACTIVE_ENTRY, CONSUMER_READ_POINTER} && (row, col) in t.cells;
      assert Get(t, row, ACTIVE_ENTRY).Some?;
    }
  }

  /** `saveDequeueEntryState` keeps a consumer row well formed: it writes the
      active entry, and a disjoint consumer's read pointer, as longs. */
  lemma SaveKeepsRowWellFormed(q: Queue, t: QueueTable, c: ConsumerId, cfg: QueueConfig, s: QueueState)
    requires ConsumerRowWellFormed(q, t, c)
    ensures ConsumerRowWellFormed(q, SaveDequeueEntryState(q, t, c, cfg, s), c)
  {
    ConsumerColumnsDistinct(s.activeEntryId);
    assert |LongValue(s.activeEntryId).bytes| == 8;
    assert |LongValue(s.consumerReadPointer).bytes| == 8;
  }

  /** Every write to a consumer row keeps it well formed: a dequeue's save,
      `ack` and `unack` all rewrite the active entry as a long. */
  lemma DequeueKeepsRowWellFormed(q: Queue, t: QueueTable, c: ConsumerId, cfg: QueueConfig, qs: Option<QueueState>)
    requires cfg.partitioner.isDisjoint ==> c.groupSize >= 0
    requires ConsumerRowWellFormed(q, t, c)
    requires DequeueInternal(q, t, c, cfg, qs).Ok?
    ensures ConsumerRowWellFormed(q, DequeueInternal(q, t, c, cfg, qs).value.table, c)
  {
    var prepared := PrepareCache(q, t, c, cfg, qs).value;
    DequeueServesPrepared(q, t, c, cfg, qs);
    var step := Serve(q, prepared.0, c, cfg, prepared.1);
    assert ConsumerRowWellFormed(q, prepared.0, c);
    SaveKeepsRowWellFormed(q, prepared.0, c, cfg, step.state);
  }

  lemma AckKeepsRowWellFormed(q: Queue, t: QueueTable, p: QueueEntryPointer, c: Consumer)
    requires ConsumerRowWellFormed(q, t, c.id)
    requires Ack(q, t, p, c).Ok?
    ensures ConsumerRowWellFormed(q, Ack(q, t, p, c).value, c.id)
  {
    ConsumerColumnsDistinct(p.entryId);
    assert |LongValue(INVALID_ENTRY_ID).bytes| == 8;
  }

  lemma UnackKeepsRowWellFormed(q: Queue, t: QueueTable, p: QueueEntryPointer, c: Consumer)
    requires ConsumerRowWellFormed(q, t, c.id)
    ensures ConsumerRowWellFormed(q, Unack(q, t, p, c), c.id)
  {
    ConsumerColumnsDistinct(p.entryId);
    assert |LongValue(p.entryId).bytes| == 8;
  }
}
