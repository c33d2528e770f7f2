/** Row and column keys of the queue's table layout. Every key is a byte
    concatenation: queue name, a one-byte family prefix, then fixed-width
    big-endian ids.

      row                                  | columns
      <queue>10                            | 10 = global entry id counter
      <queue>10<groupId>                   | 10 = group read pointer
      <queue>20<entryId>                   | 10 = meta, 20 = data, 30<key> = header
      <queue>30<groupId><instanceId>       | 10 = active entry, 20<entryId> = claim,
                                           | 30 = consumer read pointer          */
module Keys {
  import opened Bytes

  // Row prefixes.
  const GLOBAL_ENTRY_ID_PREFIX: seq<byte> := [10]
  const GLOBAL_DATA_PREFIX: seq<byte> := [20]
  const CONSUMER_META_PREFIX: seq<byte> := [30]

  // Column of the global entry id row.
  const GLOBAL_ENTRYID_COUNTER: seq<byte> := [10]

  // Columns of an entry row.
  const ENTRY_META: seq<byte> := [10]
  const ENTRY_DATA: seq<byte> := [20]
  const ENTRY_HEADER: seq<byte> := [30]

  // Column (and row prefix) of a group read pointer.
  const GROUP_READ_POINTER: seq<byte> := [10]

  // Columns of a consumer meta row.
  const ACTIVE_ENTRY: seq<byte> := [10]
  const META_ENTRY_PREFIX: seq<byte> := [20]
  const CONSUMER_READ_POINTER: seq<byte> := [30]

  /** `makeRowName(suffix)`. */
  function MakeRowName(queueName: seq<byte>, suffix: seq<byte>): seq<byte> {
    queueName + suffix
  }

  /** `makeRowKey(prefix, long id1)`. */
  function MakeRowKey(queueName: seq<byte>, prefix: seq<byte>, id1: int): seq<byte> {
    queueName + prefix + LongBytes(id1)
  }

  /** `makeRowKey(prefix, long id1, int id2)`. */
  function MakeRowKeyPair(queueName: seq<byte>, prefix: seq<byte>, id1: int, id2: int): seq<byte> {
    queueName + prefix + LongBytes(id1) + IntBytes(id2)
  }

  /** `makeColumnName(prefix, long id)`. */
  function MakeColumnName(prefix: seq<byte>, id: int): seq<byte> {
    prefix + LongBytes(id)
  }

  /** `makeColumnName(prefix, String id)`; the string is taken already
      encoded as bytes. */
  function MakeStringColumnName(prefix: seq<byte>, id: seq<byte>): seq<byte> {
    prefix + id
  }

  lemma SuffixesOfEqualKeys(p: seq<byte>, a: seq<byte>, b: seq<byte>)
    requires p + a == p + b
    ensures a == b
  {
    assert a == (p + a)[|p|..];
    assert b == (p + b)[|p|..];
  }

  /** For a fixed queue name and prefix, distinct long ids give distinct
      row keys. */
  lemma RowKeyInjective(queueName: seq<byte>, prefix: seq<byte>, a: int, b: int)
    requires InLongRange(a) && InLongRange(b)
    ensures MakeRowKey(queueName, prefix, a) == MakeRowKey(queueName, prefix, b) <==> a == b
  {
    if MakeRowKey(queueName, prefix, a) == MakeRowKey(queueName, prefix, b) {
      SuffixesOfEqualKeys(queueName + prefix, LongBytes(a), LongBytes(b));
      LongBytesInjective(a, b);
    }
  }

  /** For a fixed queue name and prefix, distinct (long, int) id pairs give
      distinct row keys. */
  lemma RowKeyPairInjective(queueName: seq<byte>, prefix: seq<byte>, a1: int, a2: int, b1: int, b2: int)
    requires InLongRange(a1) && InLongRange(b1) && InIntRange(a2) && InIntRange(b2)
    ensures MakeRowKeyPair(queueName, prefix, a1, a2) == MakeRowKeyPair(queueName, prefix, b1, b2)
            <==> a1 == b1 && a2 == b2
  {
    var ka, kb := MakeRowKeyPair(queueName, prefix, a1, a2), MakeRowKeyPair(queueName, prefix, b1, b2);
    if ka == kb {
      var n := |queueName + prefix|;
      assert LongBytes(a1) == ka[n..n + 8];
      assert LongBytes(b1) == kb[n..n + 8];
      assert IntBytes(a2) == ka[n + 8..];
      assert IntBytes(b2) == kb[n + 8..];
      LongBytesInjective(a1, b1);
      IntBytesInjective(a2, b2);
    }
  }

  /** For a fixed prefix, distinct long ids give distinct column names. */
  lemma ColumnNameInjective(prefix: seq<byte>, a: int, b: int)
    requires InLongRange(a) && InLongRange(b)
    ensures MakeColumnName(prefix, a) == MakeColumnName(prefix, b) <==> a == b
  {
    if MakeColumnName(prefix, a) == MakeColumnName(prefix, b) {
      SuffixesOfEqualKeys(prefix, LongBytes(a), LongBytes(b));
      LongBytesInjective(a, b);
    }
  }

  /** Row keys of non-negative ids sort in id order under a common queue
      name and prefix, which is what a range scan over entry rows relies on. */
  lemma RowKeyOrdered(queueName: seq<byte>, prefix: seq<byte>, a: int, b: int)
    requires 0 <= a < b < TWO_TO_THE_63
    ensures LexLess(MakeRowKey(queueName, prefix, a), MakeRowKey(queueName, prefix, b))
  {
    LongBytesOrdered(a, b);
    LexLessPrefix(queueName + prefix, LongBytes(a), LongBytes(b));
  }

  /** The four row families of one queue never share a key: the global
      counter row, group read pointer rows, entry rows and consumer rows. */
  lemma RowFamiliesDisjoint(queueName: seq<byte>, g: int, e: int, g2: int, i: int)
    ensures MakeRowName(queueName, GLOBAL_ENTRY_ID_PREFIX) != MakeRowKey(queueName, GROUP_READ_POINTER, g)
    ensures MakeRowName(queueName, GLOBAL_ENTRY_ID_PREFIX) != MakeRowKey(queueName, GLOBAL_DATA_PREFIX, e)
    ensures MakeRowName(queueName, GLOBAL_ENTRY_ID_PREFIX) != MakeRowKeyPair(queueName, CONSUMER_META_PREFIX, g2, i)
    ensures MakeRowKey(queueName, GROUP_READ_POINTER, g) != MakeRowKey(queueName, GLOBAL_DATA_PREFIX, e)
    ensures MakeRowKey(queueName, GROUP_READ_POINTER, g) != MakeRowKeyPair(queueName, CONSUMER_META_PREFIX, g2, i)
    ensures MakeRowKey(queueName, GLOBAL_DATA_PREFIX, e) != MakeRowKeyPair(queueName, CONSUMER_META_PREFIX, g2, i)
  {
    var n := |queueName|;
    assert MakeRowKey(queueName, GROUP_READ_POINTER, g)[n] == 10;
    assert MakeRowKey(queueName, GLOBAL_DATA_PREFIX, e)[n] == 20;
    assert MakeRowKeyPair(queueName, CONSUMER_META_PREFIX, g2, i)[n] == 30;
  }

  /** Header columns never coincide with the meta or data column of an entry
      row, and two header columns coincide only for the same key. */
  lemma EntryColumnsDistinct(k: seq<byte>, k2: seq<byte>)
    ensures MakeStringColumnName(ENTRY_HEADER, k) != ENTRY_META
    ensures MakeStringColumnName(ENTRY_HEADER, k) != ENTRY_DATA
    ensures MakeStringColumnName(ENTRY_HEADER, k) == MakeStringColumnName(ENTRY_HEADER, k2) <==> k == k2
  {
    assert MakeStringColumnName(ENTRY_HEADER, k)[0] == 30;
    if MakeStringColumnName(ENTRY_HEADER, k) == MakeStringColumnName(ENTRY_HEADER, k2) {
      SuffixesOfEqualKeys(ENTRY_HEADER, k, k2);
    }
  }

  /** On a consumer row, the active-entry column, the read-pointer column and
      the per-entry claim columns are pairwise distinct. */
  lemma ConsumerColumnsDistinct(id: int)
    ensures MakeColumnName(META_ENTRY_PREFIX, id) != ACTIVE_ENTRY
    ensures MakeColumnName(META_ENTRY_PREFIX, id) != CONSUMER_READ_POINTER
    ensures ACTIVE_ENTRY != CONSUMER_READ_POINTER
  {
    assert |MakeColumnName(META_ENTRY_PREFIX, id)| == 9;
  }
}
