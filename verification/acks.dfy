/** `ack` / `unack`: the per-entry CLAIMED -> ACKED state machine kept on the
    consumer's meta row. */
module Acks {
  import opened Bytes
  import opened Options
  import opened Tables
  import opened Keys
  import opened QueueModel

  /** The claim state recorded for `entryId` on the consumer's row, if any. */
  function ClaimOf(q: Queue, t: QueueTable, c: ConsumerId, entryId: int): Option<Value> {
    Get(t, ConsumerRow(q, c), ClaimColumn(entryId))
  }

  /** `ack(pointer, consumer, readPointer)`. A disjoint consumer writes ACKED
      without looking; a non-disjoint one first requires a CLAIMED marker
      (none: "never been claimed"; another state: "Entry is ..."). On success
      the entry is ACKED and the active entry is cleared to -1. */
  function Ack(q: Queue, t: QueueTable, p: QueueEntryPointer, c: Consumer): (r: Result<QueueTable>)
    ensures c.config.partitioner.isDisjoint ==> r.Ok?
    ensures !c.config.partitioner.isDisjoint ==>
              (r.Ok? <==> ClaimOf(q, t, c.id, p.entryId).Some? && ClaimOf(q, t, c.id, p.entryId).value.ClaimV?
                          && ClaimOf(q, t, c.id, p.entryId).value.claim == Claimed)
    ensures !c.config.partitioner.isDisjoint && ClaimOf(q, t, c.id, p.entryId).None? ==>
              r == Err(IllegalAck(NeverClaimed))
    ensures !c.config.partitioner.isDisjoint && ClaimOf(q, t, c.id, p.entryId).Some?
            && ClaimOf(q, t, c.id, p.entryId).value.ClaimV? && ClaimOf(q, t, c.id, p.entryId).value.claim == Acked ==>
              r == Err(IllegalAck(NotClaimed(Acked)))
    ensures r.Ok? ==>
              && ClaimOf(q, r.value, c.id, p.entryId) == Some(ClaimV(Acked, 0))
              && Get(r.value, ConsumerRow(q, c.id), ACTIVE_ENTRY) == Some(LongValue(INVALID_ENTRY_ID))
              && r.value.counters == t.counters
              && forall row, col :: (row, col) != (ConsumerRow(q, c.id), ACTIVE_ENTRY)
                                 && (row, col) != (ConsumerRow(q, c.id), ClaimColumn(p.entryId))
                                ==> Get(r.value, row, col) == Get(t, row, col)
  {
    var row := ConsumerRow(q, c.id);
    var col := ClaimColumn(p.entryId);
    ConsumerColumnsDistinct(p.entryId);
    var acked := map[col := ClaimV(Acked, 0), ACTIVE_ENTRY := LongValue(INVALID_ENTRY_ID)];
    if c.config.partitioner.isDisjoint then
      Ok(PutRow(t, row, acked))
    else
      var current := Get(t, row, col);
      if current.None? then
        Err(IllegalAck(NeverClaimed))
      else
        var state :- AsClaim(current.value);
        if state != Claimed then
          Err(IllegalAck(NotClaimed(state)))
        else
          Ok(PutRow(t, row, acked))
  }

  /** `unack(pointer, consumer, readPointer)`: the entry is CLAIMED again and
      becomes the consumer's active entry once more. */
  function Unack(q: Queue, t: QueueTable, p: QueueEntryPointer, c: Consumer): (t': QueueTable)
    ensures ClaimOf(q, t', c.id, p.entryId) == Some(ClaimV(Claimed, 0))
    ensures Get(t', ConsumerRow(q, c.id), ACTIVE_ENTRY) == Some(LongValue(p.entryId))
    ensures t'.counters == t.counters
    ensures forall row, col :: (row, col) != (ConsumerRow(q, c.id), ACTIVE_ENTRY)
                            && (row, col) != (ConsumerRow(q, c.id), ClaimColumn(p.entryId))
                           ==> Get(t', row, col) == Get(t, row, col)
  {
    ConsumerColumnsDistinct(p.entryId);
    PutRow(t, ConsumerRow(q, c.id),
           map[ClaimColumn(p.entryId) := ClaimV(Claimed, 0), ACTIVE_ENTRY := LongValue(p.entryId)])
  }
}
