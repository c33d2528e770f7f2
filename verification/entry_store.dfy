/** Producer side of the queue: `enqueue` allocates an entry id from the
    global counter and writes the entry row; `invalidate` tombstones it. */
module EntryStore {
  import opened Bytes
  import opened Options
  import opened Tables
  import opened Keys
  import opened QueueModel

  /** The header columns of an entry: one per partition key, holding the
      key's hash as a 4-byte int. */
  function HeaderCells(m: map<seq<byte>, int>): (cols: map<Key, Value>)
    ensures forall k :: k in m ==> HeaderColumn(k) in cols && cols[HeaderColumn(k)] == Raw(IntBytes(m[k]))
    ensures forall col :: col in cols ==> |col| >= 1 && col[1..] in m && col == HeaderColumn(col[1..])
  {
    var cols := map col | col in (set k | k in m :: HeaderColumn(k)) :: Raw(IntBytes(m[col[1..]]));
    forall k | k in m
      ensures HeaderColumn(k) in cols && cols[HeaderColumn(k)] == Raw(IntBytes(m[k]))
    {
      assert HeaderColumn(k)[1..] == k;
    }
    cols
  }

  /** The columns `enqueue` writes into a fresh entry row: data, meta VALID
      and one header column per partition key holding its hash value. */
  function EntryColumns(e: QueueEntry): (cols: map<Key, Value>)
    ensures ENTRY_DATA in cols && cols[ENTRY_DATA] == Raw(e.data)
    ensures ENTRY_META in cols && cols[ENTRY_META] == EntryMetaV(Valid)
    ensures forall k :: k in e.partitioningMap ==>
              HeaderColumn(k) in cols && cols[HeaderColumn(k)] == Raw(IntBytes(e.partitioningMap[k]))
    ensures forall col :: col in cols ==>
              col == ENTRY_DATA || col == ENTRY_META || exists k :: k in e.partitioningMap && col == HeaderColumn(k)
  {
    var headers := HeaderCells(e.partitioningMap);
    forall k ensures HeaderColumn(k) != ENTRY_DATA && HeaderColumn(k) != ENTRY_META {
      EntryColumnsDistinct(k, k);
    }
    var cols := headers[ENTRY_DATA := Raw(e.data)][ENTRY_META := EntryMetaV(Valid)];
    forall col | col in cols && col != ENTRY_DATA && col != ENTRY_META
      ensures exists k :: k in e.partitioningMap && col == HeaderColumn(k)
    {
      assert col in headers;
      var k := col[1..];
      assert k in e.partitioningMap && col == HeaderColumn(k);
    }
    cols
  }

  /** `enqueue(entry, writeVersion)`. `serialize` stands for the partition
      map serializer (`None` = it threw); `incrementFault` is the status of a
      storage failure on the counter increment, if one happens. On success the
      result is the new table and the pointer to the new entry. */
  function Enqueue(q: Queue, t: QueueTable, e: QueueEntry,
                   serialize: map<seq<byte>, int> -> Option<seq<byte>>,
                   incrementFault: Option<int>): (r: Result<(QueueTable, QueueEntryPointer)>)
    ensures serialize(e.partitioningMap).None? ==> r == Err(InternalError(SerializationFailed))
    ensures serialize(e.partitioningMap).Some? && incrementFault.Some? ==>
              r == Err(InternalError(IncrementFailed(incrementFault.value)))
    ensures r.Ok? <==> serialize(e.partitioningMap).Some? && incrementFault.None?
    ensures r.Ok? ==>
              var (t', p) := r.value;
              && p.queueName == q.name
              && GlobalCounter(q, t') == GlobalCounter(q, t) + 1
              && p.entryId == GlobalCounter(q, t')
              && (forall cell :: cell != GlobalCounterCell(q) ==> Counter(t', cell) == Counter(t, cell))
              && Get(t', EntryRow(q, p.entryId), ENTRY_DATA) == Some(Raw(e.data))
              && Get(t', EntryRow(q, p.entryId), ENTRY_META) == Some(EntryMetaV(Valid))
              && (forall k :: k in e.partitioningMap ==>
                    Get(t', EntryRow(q, p.entryId), HeaderColumn(k)) == Some(Raw(IntBytes(e.partitioningMap[k]))))
              && (forall row, col :: row != EntryRow(q, p.entryId) ==> Get(t', row, col) == Get(t, row, col))
  {
    if serialize(e.partitioningMap).None? then
      Err(InternalError(SerializationFailed))
    else if incrementFault.Some? then
      Err(InternalError(IncrementFailed(incrementFault.value)))
    else
      var (t1, entryId) := Increment(t, GlobalCounterCell(q), 1);
      var t2 := PutRow(t1, EntryRow(q, entryId), EntryColumns(e));
      Ok((t2, QueueEntryPointer(q.name, entryId)))
  }

  /** `invalidate(pointer, writeVersion)`: meta becomes INVALID and the data
      column is deleted; nothing else in the table changes. */
  function Invalidate(q: Queue, t: QueueTable, p: QueueEntryPointer): (t': QueueTable)
    ensures Get(t', EntryRow(q, p.entryId), ENTRY_META) == Some(EntryMetaV(Invalid))
    ensures Get(t', EntryRow(q, p.entryId), ENTRY_DATA) == None
    ensures forall row, col :: (row, col) != (EntryRow(q, p.entryId), ENTRY_META)
                            && (row, col) != (EntryRow(q, p.entryId), ENTRY_DATA)
                           ==> Get(t', row, col) == Get(t, row, col)
    ensures t'.counters == t.counters
  {
    var row := EntryRow(q, p.entryId);
    var t1 := Put(t, row, ENTRY_META, EntryMetaV(Invalid));
    Delete(t1, row, ENTRY_DATA)
  }
}
