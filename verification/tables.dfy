/** The storage collaborator of the queue: an unversioned columnar table.
    Cells are addressed by (row key, column key); atomic counters live in
    their own cells and read as 0 until first incremented. MVCC versions and
    read pointers are not part of this model: every read sees the latest
    write. */
module Tables {
  import opened Bytes
  import opened Options

  type Key = seq<byte>

  /** (row key, column key). */
  type Cell = (Key, Key)

  datatype Table<V> = Table(cells: map<Cell, V>, counters: map<Cell, int>)

  /** Single-cell `get`. */
  function Get<V>(t: Table<V>, row: Key, col: Key): (r: Option<V>)
    ensures r.Some? <==> (row, col) in t.cells
    ensures r.Some? ==> r.value == t.cells[(row, col)]
  {
    if (row, col) in t.cells then Some(t.cells[(row, col)]) else None
  }

  /** A multi-column `get` on one row is empty exactly when the row holds
      none of the requested columns. */
  predicate RowHasAny<V>(t: Table<V>, row: Key, cols: set<Key>) {
    exists col :: col in cols && (row, col) in t.cells
  }

  /** `put` of several columns of one row in one call. */
  function PutRow<V>(t: Table<V>, row: Key, cols: map<Key, V>): (t': Table<V>)
    ensures t'.counters == t.counters
    ensures forall col :: col in cols ==> Get(t', row, col) == Some(cols[col])
    ensures forall r, col :: (r != row || col !in cols) ==> Get(t', r, col) == Get(t, r, col)
  {
    var written := map col | col in cols :: (row, col) := cols[col];
    Table(t.cells + written, t.counters)
  }

  /** Single-column `put`. */
  function Put<V>(t: Table<V>, row: Key, col: Key, v: V): (t': Table<V>)
    ensures t'.counters == t.counters
    ensures Get(t', row, col) == Some(v)
    ensures forall r, c :: (r, c) != (row, col) ==> Get(t', r, c) == Get(t, r, c)
  {
    Table(t.cells[(row, col) := v], t.counters)
  }

  /** Single-column `delete`. */
  function Delete<V>(t: Table<V>, row: Key, col: Key): (t': Table<V>)
    ensures t'.counters == t.counters
    ensures Get(t', row, col) == None
    ensures forall r, c :: (r, c) != (row, col) ==> Get(t', r, c) == Get(t, r, c)
  {
    Table(t.cells - {(row, col)}, t.counters)
  }

  /** The current value of a counter cell. */
  function Counter<V>(t: Table<V>, cell: Cell): int {
    if cell in t.counters then t.counters[cell] else 0
  }

  /** `incrementAtomicDirtily(row, col, delta)`: adds `delta` and returns the
      new value; with `delta == 0` it is a plain read. */
  function Increment<V>(t: Table<V>, cell: Cell, delta: int): (r: (Table<V>, int))
    ensures r.1 == Counter(t, cell) + delta
    ensures Counter(r.0, cell) == r.1
    ensures forall other :: other != cell ==> Counter(r.0, other) == Counter(t, other)
    ensures r.0.cells == t.cells
    ensures delta == 0 ==> r.0 == t
  {
    var v := Counter(t, cell) + delta;
    if delta == 0 then (t, v) else (Table(t.cells, t.counters[cell := v]), v)
  }
}
