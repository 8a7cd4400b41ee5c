/** One FreeRTOS queue object: the circular byte buffer behind a data queue, or
    the bare token count of a semaphore (item size zero). */
module QueueRing {
  import opened GuestMemory

  const MAX_QUEUE_ITEMS: nat := 32
  const MAX_ITEM_SIZE: nat := 64

  type Item = seq<bv8>

  datatype Queue = Queue(
    handle: nat, itemSize: nat, maxItems: nat, count: nat, head: nat, tail: nat,
    buf: seq<bv8>, isMutex: bool, mutexOwner: nat, mutexDepth: int)

  datatype Position = Back | Front | Overwrite

  /** What the counters of any queue object keep. */
  predicate InRing(q: Queue) {
    q.count <= q.maxItems && q.head < q.maxItems && q.tail < q.maxItems
  }

  /** What the ring of a data queue keeps: tail trails head by the count. */
  ghost predicate RingOk(q: Queue) {
    && 0 < q.itemSize <= MAX_ITEM_SIZE
    && 0 < q.maxItems <= MAX_QUEUE_ITEMS
    && |q.buf| == MAX_QUEUE_ITEMS * MAX_ITEM_SIZE
    && InRing(q)
    && q.tail == Mod(q.head + q.count, q.maxItems)
  }

  /** Byte offset of slot `i`: `i` times the item size, built up slot by slot. */
  function Offset(i: nat, size: nat): nat {
    if i == 0 then 0 else Offset(i - 1, size) + size
  }

  /** `a` modulo `n`, for the once-around sums that ring indices are. */
  function Mod(a: nat, n: nat): (r: nat)
    requires a < n + n
    ensures r < n
  {
    if a < n then a else a - n
  }

  lemma {:induction false} OffsetIsProduct(i: nat, size: nat)
    ensures Offset(i, size) == i * size
  {
    if i > 0 { OffsetIsProduct(i - 1, size); }
  }

  lemma ModIsRemainder(a: nat, n: nat)
    requires a < n + n
    ensures Mod(a, n) == a % n
  {
    assert a == (if a < n then 0 else 1) * n + Mod(a, n);
  }

  lemma {:induction false} SlotBounds(i: nat, j: nat, size: nat)
    requires i < j
    ensures Offset(i, size) + size <= Offset(j, size)
    decreases j
  {
    if i < j - 1 { SlotBounds(i, j - 1, size); }
  }

  lemma SlotFits(q: Queue, i: nat)
    requires RingOk(q) && i < q.maxItems
    ensures Offset(i, q.itemSize) + q.itemSize <= |q.buf|
  {
    SlotBounds(i, q.maxItems, q.itemSize);
    if q.maxItems < MAX_QUEUE_ITEMS { SlotBounds(q.maxItems, MAX_QUEUE_ITEMS, q.itemSize); }
    OffsetIsProduct(MAX_QUEUE_ITEMS, q.itemSize);
  }

  ghost function Slot(q: Queue, i: nat): (x: Item)
    requires RingOk(q) && i < q.maxItems
    ensures |x| == q.itemSize
  {
    SlotFits(q, i);
    q.buf[Offset(i, q.itemSize)..Offset(i, q.itemSize) + q.itemSize]
  }

  /** The queued items, oldest first. */
  ghost function Contents(q: Queue): (c: seq<Item>)
    requires RingOk(q)
    ensures |c| == q.count
    ensures forall k :: 0 <= k < q.count ==> c[k] == Slot(q, Mod(q.head + k, q.maxItems))
  {
    seq(q.count, k requires 0 <= k < q.count => Slot(q, Mod(q.head + k, q.maxItems)))
  }

  /** The abstract deque operation a send performs. */
  ghost function Pushed(c: seq<Item>, x: Item, pos: Position, overwrite: bool): seq<Item> {
    if overwrite && c != [] then c[0 := x]
    else if pos.Front? then [x] + c
    else c + [x]
  }

  function WriteSlot(buf: seq<bv8>, off: nat, x: seq<bv8>): (r: seq<bv8>)
    requires off + |x| <= |buf|
    ensures |r| == |buf|
  {
    buf[..off] + x + buf[off + |x|..]
  }

  function SendSlot(q: Queue, pos: Position, overwrite: bool): (slot: nat)
    requires InRing(q)
  {
    if overwrite && q.count != 0 then q.head
    else if pos.Front? then Mod(q.head + q.maxItems - 1, q.maxItems)
    else q.tail
  }

  /** The queue record after copying in `x`. */
  function Enqueued(q: Queue, x: Item, pos: Position, overwrite: bool): Queue
    requires InRing(q) && Offset(SendSlot(q, pos, overwrite), q.itemSize) + |x| <= |q.buf|
  {
    var slot := SendSlot(q, pos, overwrite);
    var r := q.(buf := WriteSlot(q.buf, Offset(slot, q.itemSize), x));
    if overwrite && q.count != 0 then r
    else if pos.Front? then r.(head := slot, count := q.count + 1)
    else r.(tail := Mod(q.tail + 1, q.maxItems), count := q.count + 1)
  }

  /** The queue record after removing the head item. */
  function Dequeued(q: Queue): Queue
    requires InRing(q) && q.count > 0
  {
    q.(head := Mod(q.head + 1, q.maxItems), count := q.count - 1)
  }

  lemma SliceAfterWrite(buf: seq<bv8>, off: nat, x: seq<bv8>, p: nat)
    requires off + |x| <= |buf| && p + |x| <= |buf|
    requires p == off || p + |x| <= off || off + |x| <= p
    ensures WriteSlot(buf, off, x)[p..p + |x|] == if p == off then x else buf[p..p + |x|]
  {
    var r := WriteSlot(buf, off, x);
    assert forall k :: 0 <= k < |buf| ==> r[k] == if off <= k < off + |x| then x[k - off] else buf[k];
  }

  /** Writing one slot leaves every other slot as it was. */
  lemma SlotAfterWrite(q: Queue, q': Queue, slot: nat, x: Item, i: nat)
    requires RingOk(q) && RingOk(q') && slot < q.maxItems && i < q.maxItems && |x| == q.itemSize
    requires Offset(slot, q.itemSize) + |x| <= |q.buf|
    requires q'.buf == WriteSlot(q.buf, Offset(slot, q.itemSize), x)
    requires q'.itemSize == q.itemSize && q'.maxItems == q.maxItems
    ensures Slot(q', i) == if i == slot then x else Slot(q, i)
  {
    SlotFits(q, i);
    if i < slot { SlotBounds(i, slot, q.itemSize); }
    if slot < i { SlotBounds(slot, i, q.itemSize); }
    SliceAfterWrite(q.buf, Offset(slot, q.itemSize), x, Offset(i, q.itemSize));
  }

  lemma SendFits(q: Queue, pos: Position, overwrite: bool)
    requires RingOk(q)
    ensures SendSlot(q, pos, overwrite) < q.maxItems
    ensures Offset(SendSlot(q, pos, overwrite), q.itemSize) + q.itemSize <= |q.buf|
  {
    SlotFits(q, SendSlot(q, pos, overwrite));
  }

  lemma EnqueueKeepsRing(q: Queue, x: Item, pos: Position, overwrite: bool)
    requires RingOk(q) && |x| == q.itemSize
    requires q.count < q.maxItems || (overwrite && q.count != 0)
    requires Offset(SendSlot(q, pos, overwrite), q.itemSize) + |x| <= |q.buf|
    ensures RingOk(Enqueued(q, x, pos, overwrite))
  {
  }

  /** The `k`-th item after a write to `slot`, wherever the head now is. */
  lemma ItemAfterWrite(q: Queue, q': Queue, slot: nat, x: Item, k: nat)
    requires RingOk(q) && RingOk(q') && slot < q.maxItems && |x| == q.itemSize
    requires Offset(slot, q.itemSize) + |x| <= |q.buf|
    requires q'.buf == WriteSlot(q.buf, Offset(slot, q.itemSize), x)
    requires q'.itemSize == q.itemSize && q'.maxItems == q.maxItems && k < q'.count
    ensures var i := Mod(q'.head + k, q.maxItems); Contents(q')[k] == if i == slot then x else Slot(q, i)
  {
    SlotAfterWrite(q, q', slot, x, Mod(q'.head + k, q.maxItems));
  }

  lemma OverwriteItems(q: Queue, q': Queue, x: Item)
    requires RingOk(q) && RingOk(q') && q.count != 0 && |x| == q.itemSize
    requires Offset(q.head, q.itemSize) + |x| <= |q.buf|
    requires q' == q.(buf := WriteSlot(q.buf, Offset(q.head, q.itemSize), x))
    ensures Contents(q') == Contents(q)[0 := x]
  {
    var c, c' := Contents(q), Contents(q');
    forall k | 0 <= k < |c'| ensures c'[k] == c[0 := x][k] {
      ItemAfterWrite(q, q', q.head, x, k);
    }
  }

  lemma FrontSlot(head: nat, k: nat, n: nat)
    requires head < n && k < n
    ensures Mod(Mod(head + n - 1, n) + k, n) == if k == 0 then Mod(head + n - 1, n) else Mod(head + (k - 1), n)
    ensures 0 < k ==> Mod(head + (k - 1), n) != Mod(head + n - 1, n)
  {
  }

  lemma FrontItem(q: Queue, q': Queue, slot: nat, x: Item, k: nat)
    requires RingOk(q) && RingOk(q') && q.count < q.maxItems && |x| == q.itemSize && k <= q.count
    requires slot == Mod(q.head + q.maxItems - 1, q.maxItems)
    requires Offset(slot, q.itemSize) + |x| <= |q.buf|
    requires q'.buf == WriteSlot(q.buf, Offset(slot, q.itemSize), x) && q'.head == slot && q'.count == q.count + 1
    requires q'.itemSize == q.itemSize && q'.maxItems == q.maxItems
    ensures Contents(q')[k] == if k == 0 then x else Contents(q)[k - 1]
  {
    ItemAfterWrite(q, q', slot, x, k);
    FrontSlot(q.head, k, q.maxItems);
  }

  lemma FrontItems(q: Queue, q': Queue, slot: nat, x: Item)
    requires RingOk(q) && RingOk(q') && q.count < q.maxItems && |x| == q.itemSize
    requires slot == Mod(q.head + q.maxItems - 1, q.maxItems)
    requires Offset(slot, q.itemSize) + |x| <= |q.buf|
    requires q'.buf == WriteSlot(q.buf, Offset(slot, q.itemSize), x) && q'.head == slot && q'.count == q.count + 1
    requires q'.itemSize == q.itemSize && q'.maxItems == q.maxItems
    ensures Contents(q') == [x] + Contents(q)
  {
    var c, c' := Contents(q), Contents(q');
    forall k | 0 <= k < |c'| ensures c'[k] == if k == 0 then x else c[k - 1] {
      FrontItem(q, q', slot, x, k);
    }
  }

  lemma BackSlot(head: nat, count: nat, k: nat, n: nat)
    requires head < n && k <= count < n
    ensures Mod(head + k, n) == Mod(head + count, n) <==> k == count
  {
  }

  lemma BackItem(q: Queue, q': Queue, x: Item, k: nat)
    requires RingOk(q) && RingOk(q') && q.count < q.maxItems && |x| == q.itemSize && k <= q.count
    requires Offset(q.tail, q.itemSize) + |x| <= |q.buf|
    requires q'.buf == WriteSlot(q.buf, Offset(q.tail, q.itemSize), x) && q'.head == q.head && q'.count == q.count + 1
    requires q'.itemSize == q.itemSize && q'.maxItems == q.maxItems
    ensures Contents(q')[k] == if k < q.count then Contents(q)[k] else x
  {
    ItemAfterWrite(q, q', q.tail, x, k);
    BackSlot(q.head, q.count, k, q.maxItems);
  }

  lemma BackItems(q: Queue, q': Queue, x: Item)
    requires RingOk(q) && RingOk(q') && q.count < q.maxItems && |x| == q.itemSize
    requires Offset(q.tail, q.itemSize) + |x| <= |q.buf|
    requires q'.buf == WriteSlot(q.buf, Offset(q.tail, q.itemSize), x) && q'.head == q.head && q'.count == q.count + 1
    requires q'.itemSize == q.itemSize && q'.maxItems == q.maxItems
    ensures Contents(q') == Contents(q) + [x]
  {
    var c, c' := Contents(q), Contents(q');
    forall k | 0 <= k < |c'| ensures c'[k] == if k < |c| then c[k] else x {
      BackItem(q, q', x, k);
    }
  }

  /** The enqueue keeps the ring and acts on the contents as the deque operation. */
  lemma EnqueueRefines(q: Queue, x: Item, pos: Position, overwrite: bool)
    requires RingOk(q) && |x| == q.itemSize
    requires q.count < q.maxItems || (overwrite && q.count != 0)
    ensures SendSlot(q, pos, overwrite) < q.maxItems
    ensures Offset(SendSlot(q, pos, overwrite), q.itemSize) + |x| <= |q.buf|
    ensures RingOk(Enqueued(q, x, pos, overwrite))
    ensures Contents(Enqueued(q, x, pos, overwrite)) == Pushed(Contents(q), x, pos, overwrite)
  {
    var slot := SendSlot(q, pos, overwrite);
    SlotFits(q, slot);
    EnqueueKeepsRing(q, x, pos, overwrite);
    var q' := Enqueued(q, x, pos, overwrite);
    if overwrite && q.count != 0 {
      OverwriteItems(q, q', x);
    } else if pos.Front? {
      FrontItems(q, q', slot, x);
    } else {
      BackItems(q, q', x);
    }
  }

  /** Removing the head keeps the ring and drops the oldest item. */
  lemma DequeueRefines(q: Queue)
    requires RingOk(q) && q.count > 0
    ensures Contents(q)[0] == Slot(q, q.head)
    ensures RingOk(Dequeued(q))
    ensures Contents(Dequeued(q)) == Contents(q)[1..]
  {
    var q' := Dequeued(q);
    assert q.head + 0 == q.head;
    var c, c' := Contents(q), Contents(q');
    forall k | 0 <= k < |c'| ensures c'[k] == c[k + 1] {
      assert Mod(q'.head + k, q.maxItems) == Mod(q.head + (k + 1), q.maxItems);
      SlotFits(q, Mod(q.head + k + 1, q.maxItems));
    }
  }

  /** Copies `n` guest bytes over the bytes of `buf` from `off` on. */
  method CopyIn(mem: Mem, ptr: nat, n: nat, buf: seq<bv8>, off: nat) returns (r: seq<bv8>)
    requires off + n <= |buf|
    ensures r == WriteSlot(buf, off, ReadBytes(mem, ptr, n))
  {
    r := buf;
    var i := 0;
    while i < n
      invariant 0 <= i <= n && |r| == |buf|
      invariant forall k :: 0 <= k < |buf| ==>
                  r[k] == if off <= k < off + i then Read8(mem, ptr + (k - off)) else buf[k]
    {
      r := r[off + i := Read8(mem, ptr + i)];
      i := i + 1;
    }
  }

  /** Copies one item out of guest memory into the queue. */
  method Enqueue(mem: Mem, q: Queue, itemPtr: nat, pos: Position, overwrite: bool) returns (r: Queue)
    requires InRing(q) && Offset(SendSlot(q, pos, overwrite), q.itemSize) + q.itemSize <= |q.buf|
    ensures r == Enqueued(q, ReadBytes(mem, itemPtr, q.itemSize), pos, overwrite)
  {
    var slot: nat;
    r := q;
    if overwrite && q.count != 0 {
      slot := q.head;
    } else if pos.Front? {
      r := r.(head := Mod(q.head + q.maxItems - 1, q.maxItems));
      slot := r.head;
    } else {
      slot := q.tail;
    }
    var buf := CopyIn(mem, itemPtr, q.itemSize, q.buf, Offset(slot, q.itemSize));
    r := r.(buf := buf);
    if !overwrite || q.count == 0 {
      if !pos.Front? {
        r := r.(tail := Mod(q.tail + 1, q.maxItems));
      }
      r := r.(count := q.count + 1);
    }
  }

  /** Copies the head item to guest memory, leaving it queued. */
  method CopyHead(mem: Mem, q: Queue, dst: nat) returns (r: Mem)
    requires RingOk(q) || q.itemSize == 0
    ensures RingOk(q) ==> r == WriteBytes(mem, dst, Slot(q, q.head))
    ensures q.itemSize == 0 ==> r == mem
  {
    r := mem;
    if q.itemSize == 0 { return; }
    SlotFits(q, q.head);
    ghost var x := Slot(q, q.head);
    var off := Offset(q.head, q.itemSize);
    var i := 0;
    assert x[..0] == [];
    while i < q.itemSize
      invariant 0 <= i <= q.itemSize
      invariant r == WriteBytes(mem, dst, x[..i])
    {
      assert x[..i + 1][..i] == x[..i];
      r := Write8(r, dst + i, q.buf[off + i]);
      i := i + 1;
    }
    assert x[..i] == x;
  }
}
