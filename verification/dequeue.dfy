/** `dequeueInternal`: serve one entry to a consumer, re-serving its
    unacknowledged active entry after a restart, and persist the consumer's
    cursor. */
module Dequeue {
  import opened Bytes
  import opened Options
  import opened Tables
  import opened Keys
  import opened CachedLists
  import opened QueueModel
  import opened Fetch
  import opened Sequences

  datatype DequeueResult =
    | Dequeued(pointer: QueueEntryPointer, data: Option<seq<byte>>)
    | QueueEmpty

  datatype DequeueStep = DequeueStep(table: QueueTable, state: QueueState, result: DequeueResult)

  /** `saveDequeueEntryState`. A disjoint consumer persists its read pointer
      and active entry; a non-disjoint one persists a CLAIMED marker for the
      active entry and the active entry, but not its read pointer. Nothing
      outside those cells changes. */
  function SaveDequeueEntryState(q: Queue, t: QueueTable, c: ConsumerId, cfg: QueueConfig, qs: QueueState): (t': QueueTable)
    ensures t'.counters == t.counters
    ensures Get(t', ConsumerRow(q, c), ACTIVE_ENTRY) == Some(LongValue(qs.activeEntryId))
    ensures cfg.partitioner.isDisjoint ==>
              && Get(t', ConsumerRow(q, c), CONSUMER_READ_POINTER) == Some(LongValue(qs.consumerReadPointer))
              && forall row, col :: (row, col) != (ConsumerRow(q, c), ACTIVE_ENTRY)
                                 && (row, col) != (ConsumerRow(q, c), CONSUMER_READ_POINTER)
                                ==> Get(t', row, col) == Get(t, row, col)
    ensures !cfg.partitioner.isDisjoint ==>
              && Get(t', ConsumerRow(q, c), ClaimColumn(qs.activeEntryId)) == Some(ClaimV(Claimed, 0))
              && forall row, col :: (row, col) != (ConsumerRow(q, c), ACTIVE_ENTRY)
                                 && (row, col) != (ConsumerRow(q, c), ClaimColumn(qs.activeEntryId))
                                ==> Get(t', row, col) == Get(t, row, col)
  {
    var row := ConsumerRow(q, c);
    ConsumerColumnsDistinct(qs.activeEntryId);
    if cfg.partitioner.isDisjoint then
      PutRow(t, row, map[CONSUMER_READ_POINTER := LongValue(qs.consumerReadPointer),
                         ACTIVE_ENTRY := LongValue(qs.activeEntryId)])
    else
      var entryId := qs.activeEntryId;
      PutRow(t, row, map[ClaimColumn(entryId) := ClaimV(Claimed, 0),
                         ACTIVE_ENTRY := LongValue(entryId)])
  }

  /** The read-pointer column of a consumer row decodes, when present. */
  predicate StoredReadPointerReadable(q: Queue, t: QueueTable, c: ConsumerId) {
    Get(t, ConsumerRow(q, c), CONSUMER_READ_POINTER).None? ||
    AsLong(Get(t, ConsumerRow(q, c), CONSUMER_READ_POINTER)).Ok?
  }

  /** Rebuilding the queue state from the consumer row when none is supplied:
      active entry and read pointer from the table (the active entry must be
      present whenever either column is), write pointer from the global
      counter, and an empty cache. */
  function RestoreState(q: Queue, t: QueueTable, c: ConsumerId): (r: Result<QueueState>)
    ensures r.Ok? <==>
              !RowHasAny(t, ConsumerRow(q, c), {ACTIVE_ENTRY, CONSUMER_READ_POINTER}) ||
              (AsLong(Get(t, ConsumerRow(q, c), ACTIVE_ENTRY)).Ok? && StoredReadPointerReadable(q, t, c))
    ensures r.Ok? ==> r.value.queueWritePointer == GlobalCounter(q, t)
    ensures r.Ok? ==> r.value.cachedEntries.Valid() && !HasNext(r.value.cachedEntries)
    ensures r.Ok? && !RowHasAny(t, ConsumerRow(q, c), {ACTIVE_ENTRY, CONSUMER_READ_POINTER}) ==>
              r.value.activeEntryId == INVALID_ENTRY_ID && r.value.consumerReadPointer == 0
    ensures r.Ok? && RowHasAny(t, ConsumerRow(q, c), {ACTIVE_ENTRY, CONSUMER_READ_POINTER}) ==>
              && AsLong(Get(t, ConsumerRow(q, c), ACTIVE_ENTRY)) == Ok(r.value.activeEntryId)
              && r.value.consumerReadPointer ==
                   (if Get(t, ConsumerRow(q, c), CONSUMER_READ_POINTER).Some?
                    then AsLong(Get(t, ConsumerRow(q, c), CONSUMER_READ_POINTER)).value else 0)
  {
    var row := ConsumerRow(q, c);
    var initial := NewQueueState();
    var loaded :-
      if !RowHasAny(t, row, {ACTIVE_ENTRY, CONSUMER_READ_POINTER}) then
        Ok(initial)
      else
        var active :- AsLong(Get(t, row, ACTIVE_ENTRY));
        var withActive := initial.(activeEntryId := active);
        var crpCell := Get(t, row, CONSUMER_READ_POINTER);
        if crpCell.Some? then
          var crp :- AsLong(crpCell);
          Ok(withActive.(consumerReadPointer := crp))
        else
          Ok(withActive);
    Ok(loaded.(queueWritePointer := GlobalCounter(q, t)))
  }

  /** The state a dequeue starts from: the supplied one, or the restored one
      with its active entry (if any) re-read into the cache for redelivery. */
  function StartState(q: Queue, t: QueueTable, c: ConsumerId, qs: Option<QueueState>): (r: Result<QueueState>)
    ensures qs.Some? ==> r == Ok(qs.value)
    ensures qs.None? && r.Ok? ==> RestoreState(q, t, c).Ok?
    ensures qs.None? && r.Ok? ==>
              var s := RestoreState(q, t, c).value;
              && r.value.activeEntryId == s.activeEntryId
              && r.value.consumerReadPointer == s.consumerReadPointer
              && r.value.queueWritePointer == s.queueWritePointer
              && r.value.cachedEntries.Valid()
              && (forall e :: e in r.value.cachedEntries.list ==>
                    e.entryId == s.activeEntryId && Deliverable(q, t, e.entryId) &&
                    PayloadOf(Get(t, EntryRow(q, e.entryId), ENTRY_DATA)) == Ok(e.data))
    ensures qs.None? && r.Ok? ==>
              var s := RestoreState(q, t, c).value;
              HasNext(r.value.cachedEntries) <==> s.activeEntryId != INVALID_ENTRY_ID && Deliverable(q, t, s.activeEntryId)
    ensures qs.None? && r.Ok? && HasNext(r.value.cachedEntries) ==>
              Remaining(r.value.cachedEntries) == r.value.cachedEntries.list == [r.value.cachedEntries.list[0]]
  {
    if qs.Some? then
      Ok(qs.value)
    else
      var s :- RestoreState(q, t, c);
      if s.activeEntryId != INVALID_ENTRY_ID then
        var s1 :- ReadEntries(q, t, s, [s.activeEntryId]);
        RedeliveryCache(q, t, s, s1);
        Ok(s1)
      else
        Ok(s)
  }

  /** Re-reading the active entry yields a one-entry cache exactly when that
      entry is still VALID, and an exhausted cache otherwise. */
  lemma RedeliveryCache(q: Queue, t: QueueTable, s: QueueState, s1: QueueState)
    requires ReadEntries(q, t, s, [s.activeEntryId]) == Ok(s1)
    ensures HasNext(s1.cachedEntries) <==> Deliverable(q, t, s.activeEntryId)
    ensures HasNext(s1.cachedEntries) ==>
              Remaining(s1.cachedEntries) == s1.cachedEntries.list == [s1.cachedEntries.list[0]]
  {
    var list := s1.cachedEntries.list;
    SubsequenceLength(EntryIds(list), [s.activeEntryId]);
    if Deliverable(q, t, s.activeEntryId) {
      assert s.activeEntryId in EntryIds(list);
    }
    if list != [] {
      assert list == [list[0]];
    }
  }

  /** Refilling a used-up cache: fetch the next ids (which may move the group
      read pointer) and load them through `readEntries`. */
  function Refill(q: Queue, t: QueueTable, c: ConsumerId, cfg: QueueConfig, s0: QueueState): (r: Result<(QueueTable, QueueState)>)
    requires cfg.partitioner.isDisjoint ==> c.groupSize >= 0
    ensures r.Ok? ==> r.value.0.cells == t.cells
    ensures r.Ok? && cfg.partitioner.isDisjoint ==> r.value.0.counters == t.counters
    ensures r.Ok? ==> r.value.1.cachedEntries.Valid() && r.value.1.consumerReadPointer == s0.consumerReadPointer
    ensures r.Ok? ==> forall e :: e in r.value.1.cachedEntries.list ==>
              Deliverable(q, t, e.entryId) && PayloadOf(Get(t, EntryRow(q, e.entryId), ENTRY_DATA)) == Ok(e.data)
    ensures r.Ok? && cfg.partitioner.isDisjoint ==>
              forall e :: e in r.value.1.cachedEntries.list ==> e.entryId > s0.consumerReadPointer
  {
    var fetched :- FetchNextEntryIds(q, t, c, cfg, s0);
    var s1 :- ReadEntries(q, fetched.table, fetched.state, fetched.ids);
    assert cfg.partitioner.isDisjoint ==> forall id :: id in fetched.ids ==> id > s0.consumerReadPointer;
    Ok((fetched.table, s1))
  }

  /** A refill is the `readEntries` pass over exactly the ids the fetch
      returned: it succeeds exactly when both do, and its cache holds the
      deliverable fetched ids, in fetch order, from index 0. */
  lemma RefillLoadsFetchedIds(q: Queue, t: QueueTable, c: ConsumerId, cfg: QueueConfig, s0: QueueState)
    requires cfg.partitioner.isDisjoint ==> c.groupSize >= 0
    ensures var r := Refill(q, t, c, cfg, s0);
            r.Ok? <==>
              && FetchNextEntryIds(q, t, c, cfg, s0).Ok?
              && var f := FetchNextEntryIds(q, t, c, cfg, s0).value;
                 ReadEntries(q, f.table, f.state, f.ids).Ok?
    ensures var r := Refill(q, t, c, cfg, s0);
            r.Ok? ==>
              var f := FetchNextEntryIds(q, t, c, cfg, s0).value;
              && r.value.0 == f.table
              && ReadEntries(q, f.table, f.state, f.ids) == Ok(r.value.1)
              && r.value.1.cachedEntries.currentIndex == 0
              && EntryIds(r.value.1.cachedEntries.list) == DeliverableIds(q, t, f.ids)
  {
    var f := FetchNextEntryIds(q, t, c, cfg, s0);
    if f.Ok? {
      DeliverableIdsOfCells(q, f.value.table, t, f.value.ids);
    }
  }

  /** The cache a dequeue serves from: the start state's cache when it still
      has entries, otherwise a fresh fetch loaded through `readEntries`. */
  function PrepareCache(q: Queue, t: QueueTable, c: ConsumerId, cfg: QueueConfig, qs: Option<QueueState>): (r: Result<(QueueTable, QueueState)>)
    requires cfg.partitioner.isDisjoint ==> c.groupSize >= 0
    ensures r.Ok? ==> r.value.0.cells == t.cells
    ensures r.Ok? && cfg.partitioner.isDisjoint ==> r.value.0.counters == t.counters
    ensures r.Ok? ==> r.value.1.cachedEntries.Valid() || (qs.Some? && r.value.1 == qs.value)
    ensures r.Ok? && qs.Some? ==> r.value.1.consumerReadPointer == qs.value.consumerReadPointer
    ensures r.Ok? && qs.None? ==>
              RestoreState(q, t, c).Ok? &&
              r.value.1.consumerReadPointer == RestoreState(q, t, c).value.consumerReadPointer
    ensures r.Ok? && (qs.None? || !HasNext(qs.value.cachedEntries)) ==>
              && r.value.1.cachedEntries.Valid()
              && forall e :: e in r.value.1.cachedEntries.list ==>
                   Deliverable(q, t, e.entryId) && PayloadOf(Get(t, EntryRow(q, e.entryId), ENTRY_DATA)) == Ok(e.data)
    ensures qs.Some? && HasNext(qs.value.cachedEntries) ==> r == Ok((t, qs.value))
    ensures r.Ok? && cfg.partitioner.isDisjoint && qs.Some? && !HasNext(qs.value.cachedEntries) ==>
              forall e :: e in r.value.1.cachedEntries.list ==> e.entryId > qs.value.consumerReadPointer
  {
    var s0 :- StartState(q, t, c, qs);
    if !HasNext(s0.cachedEntries) then Refill(q, t, c, cfg, s0)
    else
      Ok((t, s0))
  }

  /** Serving from a prepared cache: hand out the next cached entry, make it
      the active entry and the read pointer, and persist; or report the queue
      empty and persist the state as it is. */
  function Serve(q: Queue, t: QueueTable, c: ConsumerId, cfg: QueueConfig, s: QueueState): (r: DequeueStep)
    ensures r.result.Dequeued? <==> HasNext(s.cachedEntries)
    ensures r.result.Dequeued? ==>
              var e := s.cachedEntries.list[s.cachedEntries.currentIndex];
              && r.result.pointer == QueueEntryPointer(q.name, e.entryId)
              && r.result.data == e.data
              && r.state.activeEntryId == e.entryId
              && r.state.consumerReadPointer == e.entryId
    ensures r.result.Dequeued? ==>
              && r.state.queueWritePointer == s.queueWritePointer
              && r.state.cachedEntries == GetNext(s.cachedEntries).0
              && (s.cachedEntries.Valid() ==>
                    Remaining(s.cachedEntries) == [s.cachedEntries.list[s.cachedEntries.currentIndex]] + Remaining(r.state.cachedEntries))
    ensures r.result.QueueEmpty? ==> r.state == s
    ensures r.table == SaveDequeueEntryState(q, t, c, cfg, r.state)
    ensures r.table.counters == t.counters
    ensures forall row, col :: row != ConsumerRow(q, c) ==> Get(r.table, row, col) == Get(t, row, col)
    ensures r.result.Dequeued? ==>
              Get(r.table, ConsumerRow(q, c), ACTIVE_ENTRY) == Some(LongValue(r.result.pointer.entryId))
    ensures r.result.Dequeued? && cfg.partitioner.isDisjoint ==>
              Get(r.table, ConsumerRow(q, c), CONSUMER_READ_POINTER) == Some(LongValue(r.result.pointer.entryId))
    ensures r.result.Dequeued? && !cfg.partitioner.isDisjoint ==>
              && Get(r.table, ConsumerRow(q, c), ClaimColumn(r.result.pointer.entryId)) == Some(ClaimV(Claimed, 0))
              && Get(r.table, ConsumerRow(q, c), CONSUMER_READ_POINTER) == Get(t, ConsumerRow(q, c), CONSUMER_READ_POINTER)
  {
    ConsumerColumnsDistinct(if HasNext(s.cachedEntries) then s.cachedEntries.list[s.cachedEntries.currentIndex].entryId else s.activeEntryId);
    if HasNext(s.cachedEntries) then
      var (rest, next) := GetNext(s.cachedEntries);
      var e := next.value;
      var s2 := s.(cachedEntries := rest, activeEntryId := e.entryId, consumerReadPointer := e.entryId);
      DequeueStep(SaveDequeueEntryState(q, t, c, cfg, s2), s2, Dequeued(QueueEntryPointer(q.name, e.entryId), e.data))
    else
      DequeueStep(SaveDequeueEntryState(q, t, c, cfg, s), s, QueueEmpty)
  }

  /** `dequeueInternal(consumer, config, queueState, readPointer)`; a missing
      `queueState` is `None`. */
  function DequeueInternal(q: Queue, t: QueueTable, c: ConsumerId, cfg: QueueConfig, qs: Option<QueueState>): (r: Result<DequeueStep>)
    requires cfg.partitioner.isDisjoint ==> c.groupSize >= 0
    ensures r.Ok? && r.value.result.Dequeued? ==>
              && r.value.result.pointer.queueName == q.name
              && r.value.result.pointer.entryId == r.value.state.activeEntryId
              && r.value.result.pointer.entryId == r.value.state.consumerReadPointer
    ensures qs.Some? && HasNext(qs.value.cachedEntries) ==>
              var s := qs.value;
              var e := s.cachedEntries.list[s.cachedEntries.currentIndex];
              && r.Ok? && r.value.result == Dequeued(QueueEntryPointer(q.name, e.entryId), e.data)
              && r.value.state == s.(cachedEntries := GetNext(s.cachedEntries).0,
                                     activeEntryId := e.entryId, consumerReadPointer := e.entryId)
    ensures r.Ok? && r.value.result.QueueEmpty? && qs.Some? ==>
              r.value.state.consumerReadPointer == qs.value.consumerReadPointer
    ensures r.Ok? && r.value.result.QueueEmpty? && qs.None? ==>
              RestoreState(q, t, c).Ok? &&
              r.value.state.consumerReadPointer == RestoreState(q, t, c).value.consumerReadPointer
    ensures r.Ok? ==> forall row, col :: row != ConsumerRow(q, c) ==> Get(r.value.table, row, col) == Get(t, row, col)
    ensures r.Ok? && cfg.partitioner.isDisjoint ==> r.value.table.counters == t.counters
    ensures r.Ok? && r.value.result.Dequeued? ==>
              Get(r.value.table, ConsumerRow(q, c), ACTIVE_ENTRY) == Some(LongValue(r.value.result.pointer.entryId))
    ensures r.Ok? && r.value.result.Dequeued? && cfg.partitioner.isDisjoint ==>
              Get(r.value.table, ConsumerRow(q, c), CONSUMER_READ_POINTER) == Some(LongValue(r.value.result.pointer.entryId))
    ensures r.Ok? && r.value.result.Dequeued? && !cfg.partitioner.isDisjoint ==>
              && Get(r.value.table, ConsumerRow(q, c), ClaimColumn(r.value.result.pointer.entryId)) == Some(ClaimV(Claimed, 0))
              && Get(r.value.table, ConsumerRow(q, c), CONSUMER_READ_POINTER) == Get(t, ConsumerRow(q, c), CONSUMER_READ_POINTER)
  {
    var prepared :- PrepareCache(q, t, c, cfg, qs);
    var step := Serve(q, prepared.0, c, cfg, prepared.1);
    Ok(step)
  }

  /** On the refill path (the start state's cache is exhausted), a dequeue
      succeeds exactly when the fetch and its `readEntries` pass do; it
      reports the queue empty exactly when no fetched id is deliverable, and
      otherwise serves the first deliverable fetched id. */
  lemma DequeueRefillServesFirstDeliverable(q: Queue, t: QueueTable, c: ConsumerId, cfg: QueueConfig, qs: Option<QueueState>)
    requires cfg.partitioner.isDisjoint ==> c.groupSize >= 0
    requires StartState(q, t, c, qs).Ok? && !HasNext(StartState(q, t, c, qs).value.cachedEntries)
    requires FetchNextEntryIds(q, t, c, cfg, StartState(q, t, c, qs).value).Ok?
    ensures var f := FetchNextEntryIds(q, t, c, cfg, StartState(q, t, c, qs).value).value;
            DequeueInternal(q, t, c, cfg, qs).Ok? <==> ReadEntries(q, f.table, f.state, f.ids).Ok?
    ensures var f := FetchNextEntryIds(q, t, c, cfg, StartState(q, t, c, qs).value).value;
            var d := DequeueInternal(q, t, c, cfg, qs);
            d.Ok? ==> (d.value.result.QueueEmpty? <==> forall id :: id in f.ids ==> !Deliverable(q, t, id))
    ensures var f := FetchNextEntryIds(q, t, c, cfg, StartState(q, t, c, qs).value).value;
            var d := DequeueInternal(q, t, c, cfg, qs);
            d.Ok? && d.value.result.Dequeued? ==>
              && d.value.result.pointer.entryId == DeliverableIds(q, t, f.ids)[0]
              && exists k :: 0 <= k < |f.ids| && f.ids[k] == d.value.result.pointer.entryId &&
                             forall j :: 0 <= j < k ==> !Deliverable(q, t, f.ids[j])
  {
    var s0 := StartState(q, t, c, qs).value;
    var prepared := Refill(q, t, c, cfg, s0);
    DequeueOnRefill(q, t, c, cfg, qs);
    RefillLoadsFetchedIds(q, t, c, cfg, s0);
    if prepared.Ok? {
      var f := FetchNextEntryIds(q, t, c, cfg, s0).value;
      ReadCacheHead(q, t, f.table, f.state, f.ids);
    }
  }

  /** A dequeue serves from the prepared cache. */
  lemma DequeueServesPrepared(q: Queue, t: QueueTable, c: ConsumerId, cfg: QueueConfig, qs: Option<QueueState>)
    requires cfg.partitioner.isDisjoint ==> c.groupSize >= 0
    requires PrepareCache(q, t, c, cfg, qs).Ok?
    ensures var prepared := PrepareCache(q, t, c, cfg, qs).value;
            DequeueInternal(q, t, c, cfg, qs) == Ok(Serve(q, prepared.0, c, cfg, prepared.1))
  {
  }

  /** When the start state's cache has a next entry, a dequeue serves from
      it without fetching. */
  lemma DequeueFromStartCache(q: Queue, t: QueueTable, c: ConsumerId, cfg: QueueConfig, qs: Option<QueueState>)
    requires cfg.partitioner.isDisjoint ==> c.groupSize >= 0
    requires StartState(q, t, c, qs).Ok? && HasNext(StartState(q, t, c, qs).value.cachedEntries)
    ensures DequeueInternal(q, t, c, cfg, qs) == Ok(Serve(q, t, c, cfg, StartState(q, t, c, qs).value))
  {
    assert PrepareCache(q, t, c, cfg, qs) == Ok((t, StartState(q, t, c, qs).value));
  }

  /** On the refill path a dequeue serves from the refilled cache. */
  lemma DequeueOnRefill(q: Queue, t: QueueTable, c: ConsumerId, cfg: QueueConfig, qs: Option<QueueState>)
    requires cfg.partitioner.isDisjoint ==> c.groupSize >= 0
    requires StartState(q, t, c, qs).Ok? && !HasNext(StartState(q, t, c, qs).value.cachedEntries)
    ensures var prepared := Refill(q, t, c, cfg, StartState(q, t, c, qs).value);
            && (DequeueInternal(q, t, c, cfg, qs).Ok? <==> prepared.Ok?)
            && (prepared.Ok? ==>
                  DequeueInternal(q, t, c, cfg, qs).value == Serve(q, prepared.value.0, c, cfg, prepared.value.1))
  {
    assert PrepareCache(q, t, c, cfg, qs) == Refill(q, t, c, cfg, StartState(q, t, c, qs).value);
  }

  /** An entry served from a freshly filled cache (no state supplied, or its
      cache used up) is one the table holds as VALID, served with its stored
      payload; for a disjoint consumer it lies past the old read pointer. */
  lemma DequeueServesDeliverable(q: Queue, t: QueueTable, c: ConsumerId, cfg: QueueConfig, qs: Option<QueueState>)
    requires cfg.partitioner.isDisjoint ==> c.groupSize >= 0
    requires qs.None? || !HasNext(qs.value.cachedEntries)
    requires DequeueInternal(q, t, c, cfg, qs).Ok? && DequeueInternal(q, t, c, cfg, qs).value.result.Dequeued?
    ensures var d := DequeueInternal(q, t, c, cfg, qs).value.result;
            && Deliverable(q, t, d.pointer.entryId)
            && PayloadOf(Get(t, EntryRow(q, d.pointer.entryId), ENTRY_DATA)) == Ok(d.data)
    ensures var d := DequeueInternal(q, t, c, cfg, qs).value.result;
            cfg.partitioner.isDisjoint && qs.Some? ==> d.pointer.entryId > qs.value.consumerReadPointer
  {
    var prepared := PrepareCache(q, t, c, cfg, qs).value;
    var cache := prepared.1.cachedEntries;
    assert cache.list[cache.currentIndex] in cache.list;
  }

  /** Saving a disjoint consumer's state that its row already holds leaves
      the table as it was. */
  lemma SaveOfStoredStateKeepsTable(q: Queue, t: QueueTable, c: ConsumerId, cfg: QueueConfig, s: QueueState)
    requires cfg.partitioner.isDisjoint
    requires Get(t, ConsumerRow(q, c), ACTIVE_ENTRY) == Some(LongValue(s.activeEntryId))
    requires Get(t, ConsumerRow(q, c), CONSUMER_READ_POINTER) == Some(LongValue(s.consumerReadPointer))
    ensures SaveDequeueEntryState(q, t, c, cfg, s) == t
  {
    var t' := SaveDequeueEntryState(q, t, c, cfg, s);
    forall k
      ensures k in t'.cells <==> k in t.cells
      ensures k in t.cells ==> t'.cells[k] == t.cells[k]
    {
      assert Get(t', k.0, k.1) == Get(t, k.0, k.1);
    }
    assert t'.cells == t.cells;
  }

  /** `dequeueInternal` corrected so that a disjoint consumer passes over the
      fetched ids that `readEntries` drops: when a refill loads nothing from a
      non-empty fetch, the read pointer moves to the last fetched id, so that
      the next dequeue fetches past them. Everywhere else it is
      `DequeueInternal`. */
  function DequeueSkippingDropped(q: Queue, t: QueueTable, c: ConsumerId, cfg: QueueConfig, qs: Option<QueueState>): (r: Result<DequeueStep>)
    requires cfg.partitioner.isDisjoint ==> c.groupSize >= 0
    ensures r.Ok? <==> DequeueInternal(q, t, c, cfg, qs).Ok?
    ensures r.Ok? && (r.value.result.Dequeued? || DequeueInternal(q, t, c, cfg, qs).value.result.Dequeued?) ==>
              r == DequeueInternal(q, t, c, cfg, qs)
    ensures !cfg.partitioner.isDisjoint ==> r == DequeueInternal(q, t, c, cfg, qs)
    ensures r.Ok? && r.value.result.QueueEmpty? ==>
              var d := DequeueInternal(q, t, c, cfg, qs).value;
              && d.result.QueueEmpty?
              && r.value.state == d.state.(consumerReadPointer := r.value.state.consumerReadPointer)
              && r.value.state.consumerReadPointer >= d.state.consumerReadPointer
  {
    var s0 :- StartState(q, t, c, qs);
    if HasNext(s0.cachedEntries) || !cfg.partitioner.isDisjoint then
      DequeueInternal(q, t, c, cfg, qs)
    else
      var fetched :- FetchNextEntryIds(q, t, c, cfg, s0);
      var s1 :- ReadEntries(q, fetched.table, fetched.state, fetched.ids);
      assert DequeueInternal(q, t, c, cfg, qs) == Ok(Serve(q, fetched.table, c, cfg, s1));
      if fetched.ids != [] && !HasNext(s1.cachedEntries) then
        assert fetched.ids[|fetched.ids| - 1] > s0.consumerReadPointer;
        Ok(Serve(q, fetched.table, c, cfg, s1.(consumerReadPointer := fetched.ids[|fetched.ids| - 1])))
      else
        Ok(Serve(q, fetched.table, c, cfg, s1))
  }

  /** The corrected dequeue never stalls a disjoint consumer on dropped ids:
      a refill that reports the queue empty either moves the read pointer
      forward, and persists it, or has found no id up to the global counter
      that the partitioner emits to this consumer. */
  lemma SkippingDroppedMakesProgress(q: Queue, t: QueueTable, c: ConsumerId, cfg: QueueConfig, qs: Option<QueueState>)
    requires cfg.partitioner.isDisjoint && !cfg.partitioner.usesHeaderData && c.groupSize >= 0
    requires StartState(q, t, c, qs).Ok? && !HasNext(StartState(q, t, c, qs).value.cachedEntries)
    requires DequeueSkippingDropped(q, t, c, cfg, qs).Ok?
    requires DequeueSkippingDropped(q, t, c, cfg, qs).value.result.QueueEmpty?
    ensures var s0 := StartState(q, t, c, qs).value;
            var r := DequeueSkippingDropped(q, t, c, cfg, qs).value;
            || (&& r.state.consumerReadPointer > s0.consumerReadPointer
                && Get(r.table, ConsumerRow(q, c), CONSUMER_READ_POINTER) == Some(LongValue(r.state.consumerReadPointer)))
            || (forall id :: s0.consumerReadPointer < id <= GlobalCounter(q, t) ==> !cfg.partitioner.shouldEmit(c, id))
  {
    var s0 := StartState(q, t, c, qs).value;
    var f := FetchNextEntryIds(q, t, c, cfg, s0).value;
    if f.ids == [] {
      FetchEmptyOnlyWhenNothingToEmit(q, t, c, cfg, s0);
    } else {
      assert f.ids[|f.ids| - 1] > s0.consumerReadPointer;
    }
  }
}
