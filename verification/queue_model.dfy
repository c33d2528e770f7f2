/** The data model of the queue: cell values, partitioner strategy, consumer
    identity, queue state, results and errors, and where each piece of
    queue state lives in the table. */
module QueueModel {
  import opened Bytes
  import opened Options
  import opened Tables
  import opened Keys
  import opened CachedLists

  const INVALID_ENTRY_ID: int := -1
  const FIRST_QUEUE_ENTRY_ID: int := 1

  /** `EntryMeta.EntryState`: lifecycle of a stored entry. */
  datatype EntryState = Valid | Invalid | Evicted

  /** `EntryConsumerMeta.EntryState`: a consumer's claim on one entry. */
  datatype ClaimState = Claimed | Acked

  /** A table cell: raw bytes, or a serialized `EntryMeta` /
      `EntryConsumerMeta` (whose byte encodings are not part of this model). */
  datatype Value =
    | Raw(bytes: seq<byte>)
    | EntryMetaV(state: EntryState)
    | ClaimV(claim: ClaimState, tries: int)

  type QueueTable = Table<Value>

  /** Causes of `INTERNAL_ERROR`. */
  datatype InternalCause = SerializationFailed | IncrementFailed(status: int)

  /** Causes of `ILLEGAL_ACK`. */
  datatype AckRefusal = NeverClaimed | NotClaimed(state: ClaimState)

  /** Unchecked exceptions the source would raise on malformed table contents:
      a null dereference, a wrong-length `Bytes.toLong`/`toInt`, or a cell
      that does not decode as the metadata the reader expects. */
  datatype Fault = NullValue | WrongLength(length: nat) | Undecodable

  datatype Error =
    | InternalError(cause: InternalCause)
    | IllegalAck(refusal: AckRefusal)
    | RuntimeFault(fault: Fault)

  datatype Result<+T> = Ok(value: T) | Err(error: Error) {
    predicate IsFailure() {
      Err?
    }

    function PropagateFailure<U>(): Result<U>
      requires Err?
    {
      Err(error)
    }

    function Extract(): T
      requires Ok?
    {
      value
    }
  }

  /** What a partitioner sees of its consumer. */
  datatype ConsumerId = ConsumerId(groupId: int, instanceId: int, groupSize: int, partitioningKey: seq<byte>)

  /** `QueuePartitioner`: two capability flags and two emission tests, left
      uninterpreted. */
  datatype Partitioner = Partitioner(
    isDisjoint: bool,
    usesHeaderData: bool,
    shouldEmit: (ConsumerId, int) -> bool,
    shouldEmitHash: (ConsumerId, int, int) -> bool)

  datatype QueueConfig = QueueConfig(partitioner: Partitioner)

  /** `QueueConsumer`. */
  datatype Consumer = Consumer(id: ConsumerId, config: QueueConfig)

  /** The queue object: its name and its (mutable in the source) batch size. */
  datatype Queue = Queue(name: seq<byte>, batchSize: int)

  /** `QueueEntry`: payload and partitioning map (partition key -> hash). */
  datatype QueueEntry = QueueEntry(data: seq<byte>, partitioningMap: map<seq<byte>, int>)

  datatype QueueEntryPointer = QueueEntryPointer(queueName: seq<byte>, entryId: int)

  /** `QueueStateEntry`: a fetched entry waiting in the cache; the payload is
      absent when the data column was (a null `byte[]` in the source). */
  datatype QueueStateEntry = QueueStateEntry(data: Option<seq<byte>>, entryId: int)

  /** `QueueStateImpl`. */
  datatype QueueState = QueueState(
    activeEntryId: int,
    consumerReadPointer: int,
    queueWritePointer: int,
    cachedEntries: CachedList<QueueStateEntry>)

  /** `new QueueStateImpl(cachedEntries)`. */
  function QueueStateWith(cached: CachedList<QueueStateEntry>): (s: QueueState)
    ensures s.activeEntryId == INVALID_ENTRY_ID
    ensures s.consumerReadPointer == FIRST_QUEUE_ENTRY_ID - 1
    ensures s.queueWritePointer == FIRST_QUEUE_ENTRY_ID - 1
    ensures s.cachedEntries == cached
  {
    QueueState(INVALID_ENTRY_ID, FIRST_QUEUE_ENTRY_ID - 1, FIRST_QUEUE_ENTRY_ID - 1, cached)
  }

  /** `new QueueStateImpl()`: nothing active, nothing read, nothing cached. */
  function NewQueueState(): (s: QueueState)
    ensures s.activeEntryId == INVALID_ENTRY_ID
    ensures s.consumerReadPointer == 0 && s.queueWritePointer == 0
    ensures s.cachedEntries.Valid() && !HasNext(s.cachedEntries)
  {
    QueueStateWith(Empty())
  }

  // ---- Where things live in the table -------------------------------------

  function GlobalCounterCell(q: Queue): Cell {
    (MakeRowName(q.name, GLOBAL_ENTRY_ID_PREFIX), GLOBAL_ENTRYID_COUNTER)
  }

  function GroupPointerCell(q: Queue, groupId: int): Cell {
    (MakeRowKey(q.name, GROUP_READ_POINTER, groupId), GROUP_READ_POINTER)
  }

  function EntryRow(q: Queue, entryId: int): Key {
    MakeRowKey(q.name, GLOBAL_DATA_PREFIX, entryId)
  }

  function HeaderColumn(partitioningKey: seq<byte>): Key {
    MakeStringColumnName(ENTRY_HEADER, partitioningKey)
  }

  function ConsumerRow(q: Queue, c: ConsumerId): Key {
    MakeRowKeyPair(q.name, CONSUMER_META_PREFIX, c.groupId, c.instanceId)
  }

  function ClaimColumn(entryId: int): Key {
    MakeColumnName(META_ENTRY_PREFIX, entryId)
  }

  /** The latest value of the global entry id counter. */
  function GlobalCounter(q: Queue, t: QueueTable): int {
    Counter(t, GlobalCounterCell(q))
  }

  function GroupCounter(q: Queue, t: QueueTable, c: ConsumerId): int {
    Counter(t, GroupPointerCell(q, c.groupId))
  }

  lemma CounterCellsDistinct(q: Queue, g: int)
    ensures GlobalCounterCell(q) != GroupPointerCell(q, g)
  {
    RowFamiliesDisjoint(q.name, g, 0, 0, 0);
  }

  // ---- Decoding cells ------------------------------------------------------

  /** `Bytes.toLong` applied to a possibly-missing cell. It reads the first
      8 bytes, so only a null or a shorter array is rejected; longer arrays
      decode by their prefix. */
  function AsLong(v: Option<Value>): (r: Result<int>)
    ensures r.Ok? <==> v.Some? && v.value.Raw? && |v.value.bytes| >= 8
    ensures r.Ok? ==> r.value == DecodeLong(v.value.bytes[..8])
    ensures v.None? ==> r == Err(RuntimeFault(NullValue))
    ensures v.Some? && v.value.Raw? && |v.value.bytes| < 8 ==> r == Err(RuntimeFault(WrongLength(|v.value.bytes|)))
  {
    match v
    case None => Err(RuntimeFault(NullValue))
    case Some(Raw(b)) => if |b| >= 8 then Ok(DecodeLong(b[..8])) else Err(RuntimeFault(WrongLength(|b|)))
    case Some(_) => Err(RuntimeFault(Undecodable))
  }

  /** `Bytes.toInt` applied to a possibly-missing cell: the first 4 bytes,
      with the same failure cases as `AsLong`. */
  function AsInt(v: Option<Value>): (r: Result<int>)
    ensures r.Ok? <==> v.Some? && v.value.Raw? && |v.value.bytes| >= 4
    ensures r.Ok? ==> r.value == DecodeInt(v.value.bytes[..4])
    ensures v.None? ==> r == Err(RuntimeFault(NullValue))
    ensures v.Some? && v.value.Raw? && |v.value.bytes| < 4 ==> r == Err(RuntimeFault(WrongLength(|v.value.bytes|)))
  {
    match v
    case None => Err(RuntimeFault(NullValue))
    case Some(Raw(b)) => if |b| >= 4 then Ok(DecodeInt(b[..4])) else Err(RuntimeFault(WrongLength(|b|)))
    case Some(_) => Err(RuntimeFault(Undecodable))
  }

  /** `EntryMeta.fromBytes`. */
  function AsEntryMeta(v: Option<Value>): (r: Result<EntryState>)
    ensures r.Ok? <==> v.Some? && v.value.EntryMetaV?
    ensures r.Ok? ==> r.value == v.value.state
  {
    match v
    case Some(EntryMetaV(s)) => Ok(s)
    case None => Err(RuntimeFault(NullValue))
    case Some(_) => Err(RuntimeFault(Undecodable))
  }

  /** `EntryConsumerMeta.fromBytes`. */
  function AsClaim(v: Value): (r: Result<ClaimState>)
    ensures r.Ok? <==> v.ClaimV?
    ensures r.Ok? ==> r.value == v.claim
  {
    match v
    case ClaimV(s, _) => Ok(s)
    case _ => Err(RuntimeFault(Undecodable))
  }

  /** A long as stored in a cell. */
  function LongValue(x: int): Value {
    Raw(LongBytes(x))
  }

  lemma LongValueReadsBack(x: int)
    requires InLongRange(x)
    ensures AsLong(Some(LongValue(x))) == Ok(x)
  {
    LongRoundTrip(x);
    assert LongBytes(x)[..8] == LongBytes(x);
  }
}
