/** Consumer-side reading: choosing the next candidate entry ids
    (`fetchNextEntryId`) and loading them into the forward-only cache
    (`readEntries`). */
module Fetch {
  import opened Bytes
  import opened Options
  import opened Tables
  import opened Keys
  import opened CachedLists
  import opened QueueModel
  import opened Sequences

  /** `getBatchSize()`: a configured batch size below 1 counts as 1. */
  function GetBatchSize(batchSize: int): (r: int)
    ensures r >= 1
    ensures batchSize >= 1 ==> r == batchSize
    ensures batchSize < 1 ==> r == 1
  {
    if batchSize < 1 then 1 else batchSize
  }

  /** One candidate id window `[start, end]` and the table and state after
      choosing it. */
  datatype Window = Window(table: QueueTable, state: QueueState, start: int, end: int)

  /** The window computed in one round of the fetch loop. A disjoint
      partitioner scans forward from the cursor by up to batch size x group
      size ids, capped at the write pointer; the cap test uses the raw batch
      size while the step uses `getBatchSize()`. A non-disjoint partitioner
      claims the single next id of the group by incrementing the group read
      pointer, and makes it the active entry. */
  function NextWindow(q: Queue, t: QueueTable, c: ConsumerId, p: Partitioner, qs: QueueState, entryId: int): (w: Window)
    requires p.isDisjoint ==> c.groupSize >= 0
    requires entryId < qs.queueWritePointer
    ensures w.start <= w.end
    ensures w.table.cells == t.cells && GlobalCounter(q, w.table) == GlobalCounter(q, t)
    ensures p.isDisjoint ==> w.table == t && w.state == qs && w.start == entryId + 1
    ensures p.isDisjoint && q.batchSize >= 1 ==> w.end <= qs.queueWritePointer
    ensures p.isDisjoint ==>
              w.end == (if entryId + 1 + q.batchSize * c.groupSize < qs.queueWritePointer
                        then entryId + 1 + GetBatchSize(q.batchSize) * c.groupSize
                        else qs.queueWritePointer)
    ensures !p.isDisjoint ==>
              && w.start == w.end == GroupCounter(q, w.table, c) == GroupCounter(q, t, c) + 1
              && w.state == qs.(activeEntryId := w.end)
  {
    if p.isDisjoint then
      var start := entryId + 1;
      var step := GetBatchSize(q.batchSize) * c.groupSize;
      assert step >= 0;
      var end := if start + q.batchSize * c.groupSize < qs.queueWritePointer
                 then start + step
                 else qs.queueWritePointer;
      Window(t, qs, start, end)
    else
      CounterCellsDistinct(q, c.groupId);
      var (t1, end) := Increment(t, GroupPointerCell(q, c.groupId), 1);
      Window(t1, qs.(activeEntryId := end), end, end)
  }

  /** With a configured batch size below 1 the cap test (raw batch size) and
      the step (`getBatchSize()`) disagree: the window ends one group size past
      its start, beyond the write pointer it was supposed to be capped at. */
  lemma WindowOvershootsWithUnsetBatchSize(q: Queue, t: QueueTable, c: ConsumerId, p: Partitioner, qs: QueueState, entryId: int)
    requires p.isDisjoint && q.batchSize < 1 && c.groupSize >= 1
    requires entryId + 1 < qs.queueWritePointer < entryId + 1 + c.groupSize
    ensures NextWindow(q, t, c, p, qs, entryId).end == entryId + 1 + c.groupSize
    ensures NextWindow(q, t, c, p, qs, entryId).end > qs.queueWritePointer
  {
    assert q.batchSize * c.groupSize <= 0 by {
      assert q.batchSize <= 0;
    }
  }

  /** Whether the batched header read over `[start, start + n)` comes back
      empty: no entry row in the window holds the consumer's header column. */
  predicate HeaderBatchEmpty(q: Queue, t: QueueTable, key: seq<byte>, start: int, n: int) {
    forall id :: start <= id < start + n ==> Get(t, EntryRow(q, id), HeaderColumn(key)).None?
  }

  /** Whether the batched header read of window `w` comes back empty; without
      header data there is no such read and the id-only test applies. */
  predicate WindowBatchEmpty(q: Queue, c: ConsumerId, p: Partitioner, w: Window) {
    !p.usesHeaderData || HeaderBatchEmpty(q, w.table, c.partitioningKey, w.start, w.end - w.start + 1)
  }

  /** The partitioner's verdict on one candidate id. With header data and a
      non-empty batch read, the entry's hash for the consumer's partitioning
      key is decoded (a missing header is a null dereference); otherwise the
      id-only test is used. */
  function EmitDecision(q: Queue, t: QueueTable, c: ConsumerId, p: Partitioner, id: int, batchEmpty: bool): (r: Result<bool>)
    ensures !p.usesHeaderData || batchEmpty ==> r == Ok(p.shouldEmit(c, id))
    ensures p.usesHeaderData && !batchEmpty ==>
              var header := Get(t, EntryRow(q, id), HeaderColumn(c.partitioningKey));
              && (header.None? ==> r == Err(RuntimeFault(NullValue)))
              && (header.Some? && header.value.Raw? && |header.value.bytes| < 4 ==>
                    r == Err(RuntimeFault(WrongLength(|header.value.bytes|))))
              && (header.Some? && header.value.Raw? && |header.value.bytes| >= 4 ==>
                    r == Ok(p.shouldEmitHash(c, id, DecodeInt(header.value.bytes[..4]))))
              && (header.Some? && !header.value.Raw? ==> r.Err?)
  {
    if p.usesHeaderData && !batchEmpty then
      var hash :- AsInt(Get(t, EntryRow(q, id), HeaderColumn(c.partitioningKey)));
      Ok(p.shouldEmitHash(c, id, hash))
    else
      Ok(p.shouldEmit(c, id))
  }

  /** A header cell holding the 4-byte encoding of a Java int hands that
      very int to the partitioner's hash test. */
  lemma HashedHeaderDecision(q: Queue, t: QueueTable, c: ConsumerId, p: Partitioner, id: int, hash: int)
    requires p.usesHeaderData && InIntRange(hash)
    requires Get(t, EntryRow(q, id), HeaderColumn(c.partitioningKey)) == Some(Raw(IntBytes(hash)))
    ensures EmitDecision(q, t, c, p, id, false) == Ok(p.shouldEmitHash(c, id, hash))
  {
    IntRoundTrip(hash);
    assert IntBytes(hash)[..4] == IntBytes(hash);
  }

  /** Filters the window `[start, start + n)` through the partitioner, in
      ascending id order. */
  function Scan(q: Queue, t: QueueTable, c: ConsumerId, p: Partitioner, start: int, n: int, batchEmpty: bool): (r: Result<seq<int>>)
    decreases n
    ensures !p.usesHeaderData ==> r.Ok?
    ensures r.Ok? ==> StrictlyAscending(r.value) && |r.value| <= if n < 0 then 0 else n
    ensures r.Ok? ==> forall k :: 0 <= k < |r.value| ==> start <= r.value[k] < start + n
    ensures r.Ok? ==> forall id :: start <= id < start + n ==>
              (id in r.value <==> EmitDecision(q, t, c, p, id, batchEmpty) == Ok(true))
  {
    if n <= 0 then
      Ok([])
    else
      var keep :- EmitDecision(q, t, c, p, start, batchEmpty);
      var rest :- Scan(q, t, c, p, start + 1, n - 1, batchEmpty);
      ScanStep(q, t, c, p, start, n, batchEmpty, keep, rest);
      if keep then Ok([start] + rest) else Ok(rest)
  }

  /** One step of `Scan`: the verdict on `start`, put in front of the scan
      of the rest of the window, gives the scan of the whole window. */
  lemma ScanStep(q: Queue, t: QueueTable, c: ConsumerId, p: Partitioner, start: int, n: int, batchEmpty: bool,
                 keep: bool, rest: seq<int>)
    requires n > 0
    requires EmitDecision(q, t, c, p, start, batchEmpty) == Ok(keep)
    requires StrictlyAscending(rest) && |rest| <= n - 1
    requires forall k :: 0 <= k < |rest| ==> start + 1 <= rest[k] < start + n
    requires forall id :: start + 1 <= id < start + n ==>
               (id in rest <==> EmitDecision(q, t, c, p, id, batchEmpty) == Ok(true))
    ensures var r := if keep then [start] + rest else rest;
            && StrictlyAscending(r) && |r| <= n
            && (forall k :: 0 <= k < |r| ==> start <= r[k] < start + n)
            && (forall id :: start <= id < start + n ==>
                  (id in r <==> EmitDecision(q, t, c, p, id, batchEmpty) == Ok(true)))
  {
    if keep {
      AscendingCons(start, rest);
      assert forall id :: id in [start] + rest <==> id == start || id in rest;
    } else {
      assert start !in rest;
    }
  }

  /** The outcome of a fetch: the table (a non-disjoint fetch moves the group
      read pointer), the updated queue state and the claimed ids. */
  datatype Fetched = Fetched(table: QueueTable, state: QueueState, ids: seq<int>)

  /** An upper bound on the write pointer a fetch can still move towards. */
  function Bound(q: Queue, t: QueueTable, qs: QueueState): int {
    if qs.queueWritePointer > GlobalCounter(q, t) then qs.queueWritePointer else GlobalCounter(q, t)
  }

  /** How one round of the fetch loop ends: with a result (ids found, or the
      cursor has caught up with a freshly read write pointer), or with the
      table, state and cursor the next round starts from. */
  datatype Round =
    | Done(fetched: Fetched)
    | Again(table: QueueTable, state: QueueState, cursor: int)

  /** One round of the `while (newEntryIds.isEmpty())` loop, entered with the
      scan cursor `entryId` below the cached write pointer, together with the
      re-check at the head of the next round. What a round guarantees for
      each kind of partitioner is stated by `DisjointRound` and
      `GroupRound`. */
  function FetchRound(q: Queue, t: QueueTable, c: ConsumerId, p: Partitioner, qs: QueueState, entryId: int): (r: Result<Round>)
    requires p.isDisjoint ==> c.groupSize >= 0
    requires entryId < qs.queueWritePointer
    ensures !p.usesHeaderData ==> r.Ok?
    ensures r.Ok? && r.value.Again? ==>
              && r.value.table.cells == t.cells && GlobalCounter(q, r.value.table) == GlobalCounter(q, t)
              && r.value.state.consumerReadPointer == qs.consumerReadPointer
              && r.value.state.cachedEntries == qs.cachedEntries
              && r.value.cursor < r.value.state.queueWritePointer <= Bound(q, t, qs)
    ensures r.Ok? && r.value.Done? ==>
              var f := r.value.fetched;
              && f.table.cells == t.cells && GlobalCounter(q, f.table) == GlobalCounter(q, t)
              && f.state.consumerReadPointer == qs.consumerReadPointer
              && f.state.cachedEntries == qs.cachedEntries
              && (f.ids == [] ==> f.state.queueWritePointer == GlobalCounter(q, t))
    ensures r.Ok? ==>
              var st := if r.value.Done? then r.value.fetched.state else r.value.state;
              st.queueWritePointer == qs.queueWritePointer || st.queueWritePointer == GlobalCounter(q, t)
  {
    var w := NextWindow(q, t, c, p, qs, entryId);
    var n := w.end - w.start + 1;
    var batchEmpty := WindowBatchEmpty(q, c, p, w);
    var scanned :- Scan(q, w.table, c, p, w.start, n, batchEmpty);
    if scanned != [] then Ok(Done(Fetched(w.table, w.state, scanned)))
    else Ok(NextRound(q, w))
  }

  /** The head of the next round after a window that yielded nothing: the
      write pointer is re-read (an increment by 0 is a plain read) once the
      cursor has reached the cached one, and the loop stops when the cursor
      is still not below it. */
  function NextRound(q: Queue, w: Window): (r: Round)
    ensures r.Done? ==>
              && r.fetched == Fetched(w.table, w.state.(queueWritePointer := GlobalCounter(q, w.table)), [])
              && w.end >= GlobalCounter(q, w.table)
    ensures r.Again? ==>
              && r.table == w.table && r.cursor == w.end
              && r.state.(queueWritePointer := w.state.queueWritePointer) == w.state
              && r.cursor < r.state.queueWritePointer
              && (r.state.queueWritePointer == w.state.queueWritePointer ||
                  r.state.queueWritePointer == GlobalCounter(q, w.table))
  {
    var st := if w.end >= w.state.queueWritePointer
              then w.state.(queueWritePointer := GlobalCounter(q, w.table))
              else w.state;
    if w.end >= st.queueWritePointer then Done(Fetched(w.table, st, []))
    else Again(w.table, st, w.end)
  }

  /** A disjoint round leaves the table and the active entry alone, moves
      the cursor forward, and returns ascending ids past the cursor that the
      partitioner emits, within the write pointer when the batch size is set. */
  lemma DisjointRound(q: Queue, t: QueueTable, c: ConsumerId, p: Partitioner, qs: QueueState, entryId: int)
    requires p.isDisjoint ==> c.groupSize >= 0
    requires entryId < qs.queueWritePointer
    requires FetchRound(q, t, c, p, qs, entryId).Ok?
    ensures var r := FetchRound(q, t, c, p, qs, entryId).value;
            p.isDisjoint && r.Again? ==> r.table == t && r.state.activeEntryId == qs.activeEntryId && entryId < r.cursor
    ensures var r := FetchRound(q, t, c, p, qs, entryId).value;
            p.isDisjoint && r.Done? ==>
              && r.fetched.table == t && r.fetched.state.activeEntryId == qs.activeEntryId
              && StrictlyAscending(r.fetched.ids)
              && (forall k :: 0 <= k < |r.fetched.ids| ==> entryId < r.fetched.ids[k])
              && (q.batchSize >= 1 ==> forall k :: 0 <= k < |r.fetched.ids| ==> r.fetched.ids[k] <= r.fetched.state.queueWritePointer)
              && (!p.usesHeaderData ==> forall id :: id in r.fetched.ids ==> p.shouldEmit(c, id))
  {
  }

  /** A round returns exactly the ids of its window that the partitioner
      emits, and one that returns nothing moves the cursor to the window's
      end. */
  lemma RoundComplete(q: Queue, t: QueueTable, c: ConsumerId, p: Partitioner, qs: QueueState, entryId: int)
    requires p.isDisjoint ==> c.groupSize >= 0
    requires entryId < qs.queueWritePointer
    requires FetchRound(q, t, c, p, qs, entryId).Ok?
    ensures var r := FetchRound(q, t, c, p, qs, entryId).value;
            var w := NextWindow(q, t, c, p, qs, entryId);
            var ids := if r.Done? then r.fetched.ids else [];
            && (forall id :: id in ids ==> w.start <= id <= w.end)
            && (forall id :: w.start <= id <= w.end ==>
                  (id in ids <==> EmitDecision(q, w.table, c, p, id, WindowBatchEmpty(q, c, p, w)) == Ok(true)))
            && (r.Again? ==> r.cursor == w.end)
  {
  }

  /** Without header data, a disjoint round that returns nothing has passed
      over no emitted id, and one that returns ids returns every emitted id
      of its window. */
  lemma DisjointRoundComplete(q: Queue, t: QueueTable, c: ConsumerId, p: Partitioner, qs: QueueState, entryId: int)
    requires c.groupSize >= 0
    requires entryId < qs.queueWritePointer
    requires p.isDisjoint && !p.usesHeaderData
    ensures var r := FetchRound(q, t, c, p, qs, entryId).value;
            r.Again? ==>
              forall id :: entryId < id <= r.cursor ==> !p.shouldEmit(c, id)
    ensures var r := FetchRound(q, t, c, p, qs, entryId).value;
            r.Done? ==>
              forall id :: entryId < id <= NextWindow(q, t, c, p, qs, entryId).end ==>
                (id in r.fetched.ids <==> p.shouldEmit(c, id))
  {
    var w := NextWindow(q, t, c, p, qs, entryId);
    RoundComplete(q, t, c, p, qs, entryId);
    forall id | w.start <= id <= w.end
      ensures EmitDecision(q, w.table, c, p, id, WindowBatchEmpty(q, c, p, w)) == Ok(p.shouldEmit(c, id))
    {
    }
  }

  /** A round of a non-disjoint consumer claims the next id of its group by
      moving the group read pointer; an id it returns is that one, and it
      becomes the active entry. */
  lemma GroupRound(q: Queue, t: QueueTable, c: ConsumerId, p: Partitioner, qs: QueueState, entryId: int)
    requires p.isDisjoint ==> c.groupSize >= 0
    requires entryId < qs.queueWritePointer
    requires FetchRound(q, t, c, p, qs, entryId).Ok?
    ensures var r := FetchRound(q, t, c, p, qs, entryId).value;
            !p.isDisjoint && r.Again? ==> r.cursor == GroupCounter(q, r.table, c) > GroupCounter(q, t, c)
    ensures var r := FetchRound(q, t, c, p, qs, entryId).value;
            !p.isDisjoint && r.Done? ==>
              && GroupCounter(q, r.fetched.table, c) > GroupCounter(q, t, c)
              && (r.fetched.ids != [] ==>
                    r.fetched.ids == [GroupCounter(q, r.fetched.table, c)] && r.fetched.state.activeEntryId == r.fetched.ids[0])
              && (!p.usesHeaderData ==> forall id :: id in r.fetched.ids ==> p.shouldEmit(c, id))
  {
  }

  /** A shared round returns its claimed id exactly when the partitioner
      emits it. */
  lemma GroupRoundEmits(q: Queue, t: QueueTable, c: ConsumerId, p: Partitioner, qs: QueueState, entryId: int)
    requires entryId < qs.queueWritePointer
    requires !p.isDisjoint
    requires FetchRound(q, t, c, p, qs, entryId).Ok?
    ensures var r := FetchRound(q, t, c, p, qs, entryId).value;
            var w := NextWindow(q, t, c, p, qs, entryId);
            ((r.Done? && r.fetched.ids != []) <==>
               EmitDecision(q, w.table, c, p, GroupCounter(q, t, c) + 1, WindowBatchEmpty(q, c, p, w)) == Ok(true))
    ensures var r := FetchRound(q, t, c, p, qs, entryId).value;
            !p.usesHeaderData ==>
              ((r.Done? && r.fetched.ids != []) <==> p.shouldEmit(c, GroupCounter(q, t, c) + 1))
  {
  }

  /** The `while (newEntryIds.isEmpty())` loop of `fetchNextEntryId`: rounds
      until one of them ends with a result. */
  function FetchLoop(q: Queue, t: QueueTable, c: ConsumerId, p: Partitioner, qs: QueueState, entryId: int): (r: Result<Fetched>)
    requires p.isDisjoint ==> c.groupSize >= 0
    requires entryId < qs.queueWritePointer
    decreases if p.isDisjoint then Bound(q, t, qs) - entryId else Bound(q, t, qs) - GroupCounter(q, t, c)
    ensures !p.usesHeaderData ==> r.Ok?
    ensures r.Ok? ==> r.value.table.cells == t.cells && GlobalCounter(q, r.value.table) == GlobalCounter(q, t)
    ensures r.Ok? ==> r.value.state.consumerReadPointer == qs.consumerReadPointer
    ensures r.Ok? ==> r.value.state.cachedEntries == qs.cachedEntries
    ensures r.Ok? && r.value.ids == [] ==> r.value.state.queueWritePointer == GlobalCounter(q, t)
    ensures r.Ok? && !p.usesHeaderData ==> forall id :: id in r.value.ids ==> p.shouldEmit(c, id)
    ensures r.Ok? && p.isDisjoint ==> r.value.table == t && r.value.state.activeEntryId == qs.activeEntryId
    ensures r.Ok? && p.isDisjoint ==>
              StrictlyAscending(r.value.ids) && forall k :: 0 <= k < |r.value.ids| ==> entryId < r.value.ids[k]
    ensures r.Ok? && p.isDisjoint && q.batchSize >= 1 ==>
              forall k :: 0 <= k < |r.value.ids| ==> r.value.ids[k] <= r.value.state.queueWritePointer
    ensures r.Ok? && !p.isDisjoint && r.value.ids != [] ==>
              && r.value.ids == [GroupCounter(q, r.value.table, c)]
              && r.value.state.activeEntryId == r.value.ids[0]
    ensures r.Ok? && !p.isDisjoint ==> GroupCounter(q, r.value.table, c) > GroupCounter(q, t, c)
  {
    var round :- FetchRound(q, t, c, p, qs, entryId);
    DisjointRound(q, t, c, p, qs, entryId);
    GroupRound(q, t, c, p, qs, entryId);
    if round.Done? then Ok(round.fetched)
    else FetchLoop(q, round.table, c, p, round.state, round.cursor)
  }

  /** A disjoint fetch without header data skips no id it should return:
      every id from past the cursor up to the last one returned is returned
      exactly when the partitioner emits it. */
  lemma {:induction false} FetchLoopComplete(q: Queue, t: QueueTable, c: ConsumerId, p: Partitioner, qs: QueueState, entryId: int)
    requires c.groupSize >= 0
    requires entryId < qs.queueWritePointer
    requires p.isDisjoint && !p.usesHeaderData
    requires FetchLoop(q, t, c, p, qs, entryId).value.ids != []
    ensures var ids := FetchLoop(q, t, c, p, qs, entryId).value.ids;
            forall id :: entryId < id <= ids[|ids| - 1] ==> (id in ids <==> p.shouldEmit(c, id))
    decreases Bound(q, t, qs) - entryId
  {
    var round := FetchRound(q, t, c, p, qs, entryId).value;
    DisjointRoundComplete(q, t, c, p, qs, entryId);
    LoopStep(q, t, c, p, qs, entryId);
    var ids := FetchLoop(q, t, c, p, qs, entryId).value.ids;
    if round.Again? {
      FetchLoopComplete(q, round.table, c, p, round.state, round.cursor);
      CompleteAcrossSkipped(ids, c, p, entryId, round.cursor);
    } else {
      assert ids == round.fetched.ids;
      RoundComplete(q, t, c, p, qs, entryId);
      assert ids[|ids| - 1] in ids;
    }
  }

  /** One unfolding of the fetch loop: a round that ends with a result
      returns it, and one that does not hands over to the next round. */
  lemma LoopStep(q: Queue, t: QueueTable, c: ConsumerId, p: Partitioner, qs: QueueState, entryId: int)
    requires p.isDisjoint ==> c.groupSize >= 0
    requires entryId < qs.queueWritePointer
    requires FetchRound(q, t, c, p, qs, entryId).Ok?
    ensures var round := FetchRound(q, t, c, p, qs, entryId).value;
            && (round.Done? ==> FetchLoop(q, t, c, p, qs, entryId) == Ok(round.fetched))
            && (round.Again? ==>
                  && round.cursor < round.state.queueWritePointer
                  && FetchLoop(q, t, c, p, qs, entryId) == FetchLoop(q, round.table, c, p, round.state, round.cursor))
  {
  }

  /** The fetch loop either keeps the cached write pointer or re-reads it
      from the global counter. */
  lemma {:induction false} LoopWritePointer(q: Queue, t: QueueTable, c: ConsumerId, p: Partitioner, qs: QueueState, entryId: int)
    requires p.isDisjoint ==> c.groupSize >= 0
    requires entryId < qs.queueWritePointer
    requires FetchLoop(q, t, c, p, qs, entryId).Ok?
    ensures var st := FetchLoop(q, t, c, p, qs, entryId).value.state;
            st.queueWritePointer == qs.queueWritePointer || st.queueWritePointer == GlobalCounter(q, t)
    decreases if p.isDisjoint then Bound(q, t, qs) - entryId else Bound(q, t, qs) - GroupCounter(q, t, c)
  {
    var round := FetchRound(q, t, c, p, qs, entryId).value;
    LoopStep(q, t, c, p, qs, entryId);
    if round.Again? {
      LoopWritePointer(q, round.table, c, p, round.state, round.cursor);
    }
  }

  /** Completeness from `mid` on extends back to `lo` when nothing in
      between is emitted and every id lies past `mid`. */
  lemma CompleteAcrossSkipped(ids: seq<int>, c: ConsumerId, p: Partitioner, lo: int, mid: int)
    requires ids != []
    requires forall k :: 0 <= k < |ids| ==> mid < ids[k]
    requires forall id :: lo < id <= mid ==> !p.shouldEmit(c, id)
    requires forall id :: mid < id <= ids[|ids| - 1] ==> (id in ids <==> p.shouldEmit(c, id))
    ensures forall id :: lo < id <= ids[|ids| - 1] ==> (id in ids <==> p.shouldEmit(c, id))
  {
  }

  /** A shared (non-disjoint) fetch without header data passes over exactly
      the group ids the partitioner does not emit: of all the ids its group
      pointer moves across, it returns those that are emitted. */
  lemma {:induction false} GroupLoopComplete(q: Queue, t: QueueTable, c: ConsumerId, p: Partitioner, qs: QueueState, entryId: int)
    requires entryId < qs.queueWritePointer
    requires !p.isDisjoint && !p.usesHeaderData
    ensures var r := FetchLoop(q, t, c, p, qs, entryId).value;
            forall id :: GroupCounter(q, t, c) < id <= GroupCounter(q, r.table, c) ==>
              (id in r.ids <==> p.shouldEmit(c, id))
    decreases Bound(q, t, qs) - GroupCounter(q, t, c)
  {
    var round := FetchRound(q, t, c, p, qs, entryId).value;
    GroupRound(q, t, c, p, qs, entryId);
    GroupRoundEmits(q, t, c, p, qs, entryId);
    var r := FetchLoop(q, t, c, p, qs, entryId).value;
    if round.Again? {
      GroupLoopComplete(q, round.table, c, p, round.state, round.cursor);
      assert r == FetchLoop(q, round.table, c, p, round.state, round.cursor).value;
    } else {
      assert r == round.fetched;
    }
  }

  /** A disjoint fetch without header data that comes back empty has
      passed over no id the partitioner would emit, up to the global
      counter. */
  lemma {:induction false} FetchLoopSkipsNothing(q: Queue, t: QueueTable, c: ConsumerId, p: Partitioner, qs: QueueState, entryId: int)
    requires c.groupSize >= 0
    requires entryId < qs.queueWritePointer
    requires p.isDisjoint && !p.usesHeaderData
    requires FetchLoop(q, t, c, p, qs, entryId).value.ids == []
    ensures forall id :: entryId < id <= GlobalCounter(q, t) ==> !p.shouldEmit(c, id)
    decreases Bound(q, t, qs) - entryId
  {
    var w := NextWindow(q, t, c, p, qs, entryId);
    var n := w.end - w.start + 1;
    var ids := Scan(q, w.table, c, p, w.start, n, true).value;
    assert ids == [];
    assert forall id :: entryId < id <= w.end ==> !p.shouldEmit(c, id) by {
      forall id | entryId < id <= w.end
        ensures !p.shouldEmit(c, id)
      {
        assert w.start <= id < w.start + n;
        assert id !in ids;
        assert EmitDecision(q, w.table, c, p, id, true) == Ok(p.shouldEmit(c, id));
      }
    }
    if w.end >= w.state.queueWritePointer {
      var st := w.state.(queueWritePointer := GlobalCounter(q, t));
      if w.end < GlobalCounter(q, t) {
        FetchLoopSkipsNothing(q, t, c, p, st, w.end);
      }
    } else {
      FetchLoopSkipsNothing(q, t, c, p, w.state, w.end);
    }
  }

  /** The state the fetch loop starts from: the write pointer is re-read
      when the read pointer has reached the cached one. */
  function StartOfFetch(q: Queue, t: QueueTable, qs: QueueState): (st: QueueState)
    ensures st.(queueWritePointer := qs.queueWritePointer) == qs
    ensures qs.consumerReadPointer < qs.queueWritePointer ==> st == qs
  {
    if qs.consumerReadPointer >= qs.queueWritePointer
    then qs.(queueWritePointer := GlobalCounter(q, t))
    else qs
  }

  /** `fetchNextEntryId`: the next ids this consumer owns, ascending for a
      disjoint partitioner; empty only once the scan has caught up with a
      freshly read write pointer. */
  function FetchNextEntryIds(q: Queue, t: QueueTable, c: ConsumerId, cfg: QueueConfig, qs: QueueState): (r: Result<Fetched>)
    requires cfg.partitioner.isDisjoint ==> c.groupSize >= 0
    ensures !cfg.partitioner.usesHeaderData ==> r.Ok?
    ensures qs.consumerReadPointer >= qs.queueWritePointer && qs.consumerReadPointer >= GlobalCounter(q, t) ==>
              r == Ok(Fetched(t, qs.(queueWritePointer := GlobalCounter(q, t)), []))
    ensures r.Ok? ==> r.value.table.cells == t.cells && GlobalCounter(q, r.value.table) == GlobalCounter(q, t)
    ensures r.Ok? ==> r.value.state.consumerReadPointer == qs.consumerReadPointer
    ensures r.Ok? ==> r.value.state.cachedEntries == qs.cachedEntries
    ensures r.Ok? && r.value.ids == [] ==> r.value.state.queueWritePointer == GlobalCounter(q, t)
    ensures r.Ok? && !cfg.partitioner.usesHeaderData ==> forall id :: id in r.value.ids ==> cfg.partitioner.shouldEmit(c, id)
    ensures r.Ok? && cfg.partitioner.isDisjoint ==> r.value.table == t && r.value.state.activeEntryId == qs.activeEntryId
    ensures r.Ok? && cfg.partitioner.isDisjoint ==>
              && StrictlyAscending(r.value.ids)
              && forall k :: 0 <= k < |r.value.ids| ==> qs.consumerReadPointer < r.value.ids[k]
    ensures r.Ok? && cfg.partitioner.isDisjoint && q.batchSize >= 1 ==>
              forall k :: 0 <= k < |r.value.ids| ==> r.value.ids[k] <= r.value.state.queueWritePointer
    ensures r.Ok? && !cfg.partitioner.isDisjoint && r.value.ids != [] ==>
              && r.value.ids == [GroupCounter(q, r.value.table, c)]
              && r.value.state.activeEntryId == r.value.ids[0]
    ensures r.Ok? && !cfg.partitioner.isDisjoint ==> GroupCounter(q, r.value.table, c) >= GroupCounter(q, t, c)
    ensures r.Ok? && !cfg.partitioner.isDisjoint && r.value.ids != [] ==> GroupCounter(q, r.value.table, c) > GroupCounter(q, t, c)
  {
    var entryId := qs.consumerReadPointer;
    var st := StartOfFetch(q, t, qs);
    if entryId >= st.queueWritePointer then Ok(Fetched(t, st, []))
    else FetchLoop(q, t, c, cfg.partitioner, st, entryId)
  }

  /** `fetchNextEntryId` either finds nothing to scan or runs the loop from
      the consumer's read pointer. */
  lemma FetchStarts(q: Queue, t: QueueTable, c: ConsumerId, cfg: QueueConfig, qs: QueueState)
    requires cfg.partitioner.isDisjoint ==> c.groupSize >= 0
    ensures var st := StartOfFetch(q, t, qs);
            && (qs.consumerReadPointer >= st.queueWritePointer ==>
                  FetchNextEntryIds(q, t, c, cfg, qs) == Ok(Fetched(t, st, [])))
            && (qs.consumerReadPointer < st.queueWritePointer ==>
                  FetchNextEntryIds(q, t, c, cfg, qs) == FetchLoop(q, t, c, cfg.partitioner, st, qs.consumerReadPointer))
  {
  }

  /** `fetchNextEntryId` either keeps the cached write pointer or re-reads it
      from the global counter. */
  lemma FetchWritePointer(q: Queue, t: QueueTable, c: ConsumerId, cfg: QueueConfig, qs: QueueState)
    requires cfg.partitioner.isDisjoint ==> c.groupSize >= 0
    requires FetchNextEntryIds(q, t, c, cfg, qs).Ok?
    ensures var st := FetchNextEntryIds(q, t, c, cfg, qs).value.state;
            st.queueWritePointer == qs.queueWritePointer || st.queueWritePointer == GlobalCounter(q, t)
  {
    var st := StartOfFetch(q, t, qs);
    FetchStarts(q, t, c, cfg, qs);
    if qs.consumerReadPointer < st.queueWritePointer {
      LoopWritePointer(q, t, c, cfg.partitioner, st, qs.consumerReadPointer);
    }
  }

  /** Without header data, `fetchNextEntryId` skips nothing it should
      return: a disjoint consumer gets every emitted id from past its read
      pointer up to the last id returned, and a shared consumer gets exactly
      the emitted ones among the group ids its group pointer moves across. */
  lemma FetchNextEntryIdsComplete(q: Queue, t: QueueTable, c: ConsumerId, cfg: QueueConfig, qs: QueueState)
    requires cfg.partitioner.isDisjoint ==> c.groupSize >= 0
    requires !cfg.partitioner.usesHeaderData
    ensures var r := FetchNextEntryIds(q, t, c, cfg, qs).value;
            cfg.partitioner.isDisjoint && r.ids != [] ==>
              forall id :: qs.consumerReadPointer < id <= r.ids[|r.ids| - 1] ==>
                (id in r.ids <==> cfg.partitioner.shouldEmit(c, id))
    ensures var r := FetchNextEntryIds(q, t, c, cfg, qs).value;
            !cfg.partitioner.isDisjoint ==>
              forall id :: GroupCounter(q, t, c) < id <= GroupCounter(q, r.table, c) ==>
                (id in r.ids <==> cfg.partitioner.shouldEmit(c, id))
  {
    var p := cfg.partitioner;
    var entryId := qs.consumerReadPointer;
    var st := StartOfFetch(q, t, qs);
    FetchStarts(q, t, c, cfg, qs);
    if entryId < st.queueWritePointer {
      if p.isDisjoint && FetchLoop(q, t, c, p, st, entryId).value.ids != [] {
        FetchLoopComplete(q, t, c, p, st, entryId);
      }
      if !p.isDisjoint {
        GroupLoopComplete(q, t, c, p, st, entryId);
      }
    }
  }

  // ---- readEntries ---------------------------------------------------------

  /** The entry row is present with meta VALID: it may be served. */
  predicate Deliverable(q: Queue, t: QueueTable, id: int) {
    Get(t, EntryRow(q, id), ENTRY_META) == Some(EntryMetaV(Valid))
  }

  /** The ids among `ids` that may be served, in the order given: what a
      `readEntries` pass over `ids` keeps. */
  function DeliverableIds(q: Queue, t: QueueTable, ids: seq<int>): (r: seq<int>)
    decreases |ids|
    ensures IsSubsequence(r, ids)
    ensures forall id :: id in r <==> id in ids && Deliverable(q, t, id)
  {
    if ids == [] then []
    else if Deliverable(q, t, ids[0]) then [ids[0]] + DeliverableIds(q, t, ids[1..])
    else DeliverableIds(q, t, ids[1..])
  }

  /** The first deliverable id of a sequence is the head of its deliverable
      ids: every id before it is not deliverable. */
  lemma {:induction false} FirstDeliverable(q: Queue, t: QueueTable, ids: seq<int>)
    requires DeliverableIds(q, t, ids) != []
    ensures exists k :: 0 <= k < |ids| && ids[k] == DeliverableIds(q, t, ids)[0] &&
                        forall j :: 0 <= j < k ==> !Deliverable(q, t, ids[j])
    decreases |ids|
  {
    if Deliverable(q, t, ids[0]) {
      assert ids[0] == DeliverableIds(q, t, ids)[0];
    } else {
      FirstDeliverable(q, t, ids[1..]);
      var k :| 0 <= k < |ids[1..]| && ids[1..][k] == DeliverableIds(q, t, ids[1..])[0] &&
               forall j :: 0 <= j < k ==> !Deliverable(q, t, ids[1..][j]);
      assert ids[k + 1] == DeliverableIds(q, t, ids)[0];
      forall j | 0 <= j < k + 1
        ensures !Deliverable(q, t, ids[j])
      {
        if j > 0 {
          assert ids[j] == ids[1..][j - 1];
        }
      }
    }
  }

  /** Deliverability depends on the cells alone, not on the counters. */
  lemma {:induction false} DeliverableIdsOfCells(q: Queue, t: QueueTable, t': QueueTable, ids: seq<int>)
    requires t.cells == t'.cells
    ensures DeliverableIds(q, t, ids) == DeliverableIds(q, t', ids)
    decreases |ids|
  {
    if ids != [] {
      DeliverableIdsOfCells(q, t, t', ids[1..]);
      assert Deliverable(q, t, ids[0]) == Deliverable(q, t', ids[0]);
    }
  }

  /** The payload read from an entry's data column (absent = null). */
  function PayloadOf(v: Option<Value>): (r: Result<Option<seq<byte>>>)
    ensures r.Ok? <==> v.None? || v.value.Raw?
    ensures r.Ok? && v.Some? ==> r.value == Some(v.value.bytes)
  {
    match v
    case None => Ok(None)
    case Some(Raw(b)) => Ok(Some(b))
    case Some(_) => Err(RuntimeFault(Undecodable))
  }

  function EntryIds(es: seq<QueueStateEntry>): (ids: seq<int>)
    ensures |ids| == |es|
    ensures forall i :: 0 <= i < |es| ==> ids[i] == es[i].entryId
  {
    if es == [] then [] else [es[0].entryId] + EntryIds(es[1..])
  }

  /** The per-row pass of `readEntries`: rows holding neither meta nor data
      are skipped, INVALID and EVICTED entries are dropped, the rest are
      loaded with their payload, in input order. */
  function LoadEntries(q: Queue, t: QueueTable, ids: seq<int>): (r: Result<seq<QueueStateEntry>>)
    decreases |ids|
    ensures ids == [] ==> r == Ok([])
    ensures r.Ok? ==> IsSubsequence(EntryIds(r.value), ids)
    ensures r.Ok? ==> forall id :: id in EntryIds(r.value) <==> id in ids && Deliverable(q, t, id)
    ensures r.Ok? ==> forall e :: e in r.value ==>
              && e.entryId in ids && Deliverable(q, t, e.entryId)
              && PayloadOf(Get(t, EntryRow(q, e.entryId), ENTRY_DATA)) == Ok(e.data)
    ensures r.Ok? ==> EntryIds(r.value) == DeliverableIds(q, t, ids)
  {
    if ids == [] then
      Ok([])
    else
      var row := EntryRow(q, ids[0]);
      var first :- LoadOne(q, t, ids[0]);
      var rest :- LoadEntries(q, t, ids[1..]);
      var es := if first.Some? then [first.value] + rest else rest;
      assert EntryIds(es) == (if first.Some? then [ids[0]] + EntryIds(rest) else EntryIds(rest));
      Ok(es)
  }

  /** One row of the `readEntries` loop. */
  function LoadOne(q: Queue, t: QueueTable, id: int): (r: Result<Option<QueueStateEntry>>)
    ensures r.Ok? && r.value.Some? <==> r.Ok? && Deliverable(q, t, id)
    ensures r.Ok? && r.value.Some? ==>
              r.value.value.entryId == id && PayloadOf(Get(t, EntryRow(q, id), ENTRY_DATA)) == Ok(r.value.value.data)
  {
    var row := EntryRow(q, id);
    if !RowHasAny(t, row, {ENTRY_META, ENTRY_DATA}) then
      Ok(None)
    else
      var meta :- AsEntryMeta(Get(t, row, ENTRY_META));
      if meta == Invalid || meta == Evicted then
        Ok(None)
      else
        var data :- PayloadOf(Get(t, row, ENTRY_DATA));
        Ok(Some(QueueStateEntry(data, id)))
  }

  /** Every entry row of the store decodes: no row the `readEntries` loop
      might meet makes it fault. */
  ghost predicate EntryRowsDecode(q: Queue, t: QueueTable) {
    forall id :: LoadOne(q, t, id).Ok?
  }

  /** `LoadOne` depends on the meta and data cells of its own row alone. */
  lemma LoadOneReadsOwnRow(q: Queue, t: QueueTable, t': QueueTable, id: int)
    requires Get(t', EntryRow(q, id), ENTRY_META) == Get(t, EntryRow(q, id), ENTRY_META)
    requires Get(t', EntryRow(q, id), ENTRY_DATA) == Get(t, EntryRow(q, id), ENTRY_DATA)
    ensures LoadOne(q, t', id) == LoadOne(q, t, id)
  {
    var row := EntryRow(q, id);
    assert RowHasAny(t', row, {ENTRY_META, ENTRY_DATA}) == RowHasAny(t, row, {ENTRY_META, ENTRY_DATA}) by {
      assert (row, ENTRY_META) in t'.cells <==> (row, ENTRY_META) in t.cells;
      assert (row, ENTRY_DATA) in t'.cells <==> (row, ENTRY_DATA) in t.cells;
    }
  }

  /** A row whose meta decodes and whose data, if any, is raw bytes loads
      without fault. */
  lemma LoadOneDecodes(q: Queue, t: QueueTable, id: int)
    requires Get(t, EntryRow(q, id), ENTRY_META).Some? && Get(t, EntryRow(q, id), ENTRY_META).value.EntryMetaV?
    requires PayloadOf(Get(t, EntryRow(q, id), ENTRY_DATA)).Ok?
    ensures LoadOne(q, t, id).Ok?
  {
    assert ENTRY_META in {ENTRY_META, ENTRY_DATA};
  }

  /** The per-row pass fails only on a row that does not decode. */
  lemma {:induction false} LoadEntriesSucceed(q: Queue, t: QueueTable, ids: seq<int>)
    requires forall id :: id in ids ==> LoadOne(q, t, id).Ok?
    ensures LoadEntries(q, t, ids).Ok?
    decreases |ids|
  {
    if ids != [] {
      assert ids[0] in ids;
      assert forall id :: id in ids[1..] ==> id in ids;
      LoadEntriesSucceed(q, t, ids[1..]);
    }
  }

  /** `readEntries` fails only on a row that does not decode. */
  lemma ReadEntriesSucceed(q: Queue, t: QueueTable, qs: QueueState, ids: seq<int>)
    requires forall id :: id in ids ==> LoadOne(q, t, id).Ok?
    ensures ReadEntries(q, t, qs, ids).Ok?
  {
    LoadEntriesSucceed(q, t, ids);
  }

  /** `readEntries`: replaces the state's cache with a fresh cursor over the
      deliverable entries among `ids`, in the order given. */
  function ReadEntries(q: Queue, t: QueueTable, qs: QueueState, ids: seq<int>): (r: Result<QueueState>)
    ensures ids == [] ==> r.Ok? && !HasNext(r.value.cachedEntries)
    ensures r.Ok? ==> r.value == qs.(cachedEntries := r.value.cachedEntries)
    ensures r.Ok? ==> r.value.cachedEntries.Valid() && r.value.cachedEntries.currentIndex == 0
    ensures r.Ok? ==> IsSubsequence(EntryIds(r.value.cachedEntries.list), ids)
    ensures r.Ok? ==> forall id :: id in EntryIds(r.value.cachedEntries.list) <==> id in ids && Deliverable(q, t, id)
    ensures r.Ok? ==> forall e :: e in r.value.cachedEntries.list ==>
              && e.entryId in ids && Deliverable(q, t, e.entryId)
              && PayloadOf(Get(t, EntryRow(q, e.entryId), ENTRY_DATA)) == Ok(e.data)
    ensures r.Ok? ==> EntryIds(r.value.cachedEntries.list) == DeliverableIds(q, t, ids)
  {
    if ids == [] then
      Ok(qs.(cachedEntries := Empty()))
    else if !exists id :: id in ids && RowHasAny(t, EntryRow(q, id), {ENTRY_META, ENTRY_DATA}) then
      NoRowsNoneDeliverable(q, t, ids);
      Ok(qs.(cachedEntries := Empty()))
    else
      var es :- LoadEntries(q, t, ids);
      Ok(qs.(cachedEntries := Make(es)))
  }

  /** A cache loaded by `readEntries` (from a table with the same cells as
      `t`) has a next entry exactly when some requested id is deliverable,
      and that entry is the first deliverable requested id. */
  lemma ReadCacheHead(q: Queue, t: QueueTable, t': QueueTable, qs: QueueState, ids: seq<int>)
    requires t'.cells == t.cells
    requires ReadEntries(q, t', qs, ids).Ok?
    ensures var cache := ReadEntries(q, t', qs, ids).value.cachedEntries;
            HasNext(cache) <==> exists id :: id in ids && Deliverable(q, t, id)
    ensures var cache := ReadEntries(q, t', qs, ids).value.cachedEntries;
            HasNext(cache) ==>
              && cache.list[cache.currentIndex].entryId == DeliverableIds(q, t, ids)[0]
              && exists k :: 0 <= k < |ids| && ids[k] == cache.list[cache.currentIndex].entryId &&
                             forall j :: 0 <= j < k ==> !Deliverable(q, t, ids[j])
  {
    var cache := ReadEntries(q, t', qs, ids).value.cachedEntries;
    DeliverableIdsOfCells(q, t', t, ids);
    var d := DeliverableIds(q, t, ids);
    assert |cache.list| == |d|;
    if d != [] {
      assert cache.list[0].entryId == d[0];
      FirstDeliverable(q, t, ids);
    }
    if exists id :: id in ids && Deliverable(q, t, id) {
      var id :| id in ids && Deliverable(q, t, id);
      assert id in d;
    }
  }

  /** When none of the rows holds meta or data, none is deliverable. */
  lemma NoRowsNoneDeliverable(q: Queue, t: QueueTable, ids: seq<int>)
    requires !exists id :: id in ids && RowHasAny(t, EntryRow(q, id), {ENTRY_META, ENTRY_DATA})
    ensures forall id :: id in ids ==> !Deliverable(q, t, id)
    ensures DeliverableIds(q, t, ids) == []
  {
    forall id | id in ids && Deliverable(q, t, id)
      ensures RowHasAny(t, EntryRow(q, id), {ENTRY_META, ENTRY_DATA})
    {
      assert ENTRY_META in {ENTRY_META, ENTRY_DATA};
    }
    var none := DeliverableIds(q, t, ids);
    if none != [] {
      assert none[0] in none;
    }
  }

  /** A disjoint fetch without header data returns nothing only if no id
      between the consumer read pointer and the global counter is one the
      partitioner would emit to this consumer. */
  lemma FetchEmptyOnlyWhenNothingToEmit(q: Queue, t: QueueTable, c: ConsumerId, cfg: QueueConfig, qs: QueueState)
    requires c.groupSize >= 0
    requires cfg.partitioner.isDisjoint && !cfg.partitioner.usesHeaderData
    requires FetchNextEntryIds(q, t, c, cfg, qs).value.ids == []
    ensures forall id :: qs.consumerReadPointer < id <= GlobalCounter(q, t) ==> !cfg.partitioner.shouldEmit(c, id)
  {
    var entryId := qs.consumerReadPointer;
    if entryId >= qs.queueWritePointer {
      var st := qs.(queueWritePointer := GlobalCounter(q, t));
      if entryId < GlobalCounter(q, t) {
        FetchLoopSkipsNothing(q, t, c, cfg.partitioner, st, entryId);
      }
    } else {
      FetchLoopSkipsNothing(q, t, c, cfg.partitioner, qs, entryId);
    }
  }
}
