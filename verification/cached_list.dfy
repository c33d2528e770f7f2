/** `CachedList`: a forward-only, single-pass cursor over an immutable list.
    The list never changes; `GetNext` only moves the index. */
module CachedLists {

  datatype CachedList<T> = CachedList(list: seq<T>, currentIndex: nat) {

    /** The index never runs past the end of the list. */
    predicate Valid() {
      currentIndex <= |list|
    }
  }

  /** What `getNext()` produces: the element, or the `IllegalStateException`
      raised on an out-of-bounds access, which carries the list size. */
  datatype Next<T> = Item(value: T) | IllegalState(size: nat)

  /** The elements not yet handed out. */
  function Remaining<T>(c: CachedList<T>): seq<T>
    requires c.Valid()
  {
    c.list[c.currentIndex..]
  }

  /** `new CachedList(list)`: a cursor at the start of `list`. */
  function Make<T>(list: seq<T>): (c: CachedList<T>)
    ensures c.Valid() && c.list == list
    ensures Remaining(c) == list
  {
    CachedList(list, 0)
  }

  /** `EMPTY_LIST` / `emptyList()`. */
  function Empty<T>(): (c: CachedList<T>)
    ensures c.Valid() && !HasNext(c)
    ensures Remaining(c) == []
  {
    CachedList([], 0)
  }

  /** `hasNext()`. */
  predicate HasNext<T>(c: CachedList<T>)
  {
    c.currentIndex < |c.list|
  }

  /** `hasNext()` is true exactly when elements remain to be handed out. */
  lemma HasNextIffRemaining<T>(c: CachedList<T>)
    requires c.Valid()
    ensures HasNext(c) <==> Remaining(c) != []
  {
    if !HasNext(c) {
      assert |Remaining(c)| == 0;
    }
  }

  /** `getNext()`: the element at the index and the cursor one further on, or
      the exception with the cursor untouched. */
  function GetNext<T>(c: CachedList<T>): (r: (CachedList<T>, Next<T>))
    ensures r.0.list == c.list
    ensures c.Valid() ==> r.0.Valid()
    ensures HasNext(c) ==> r.1 == Item(c.list[c.currentIndex]) && r.0.currentIndex == c.currentIndex + 1
    ensures !HasNext(c) ==> r.1 == IllegalState(|c.list|) && r.0 == c
    ensures c.Valid() && HasNext(c) ==> Remaining(c) == [r.1.value] + Remaining(r.0)
  {
    if c.currentIndex >= |c.list| then
      (c, IllegalState(|c.list|))
    else
      (c.(currentIndex := c.currentIndex + 1), Item(c.list[c.currentIndex]))
  }

  /** Draining a cursor with `hasNext`/`getNext` yields the remaining elements
      in list order, each exactly once, and leaves it exhausted. */
  method Drain<T>(c: CachedList<T>) returns (out: seq<T>, last: CachedList<T>)
    requires c.Valid()
    ensures out == Remaining(c)
    ensures last.list == c.list && last.Valid() && !HasNext(last)
  {
    out := [];
    var cur := c;
    while HasNext(cur)
      invariant cur.Valid() && cur.list == c.list
      invariant c.currentIndex <= cur.currentIndex
      invariant out == c.list[c.currentIndex..cur.currentIndex]
      decreases |cur.list| - cur.currentIndex
    {
      var step := GetNext(cur);
      out := out + [step.1.value];
      cur := step.0;
    }
    last := cur;
  }
}
