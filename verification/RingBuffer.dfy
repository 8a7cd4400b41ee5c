/** Ring buffers with borrowed items and in-place sends. The payload is kept in guest RAM
    from `storage` on, oldest byte first; item lengths are kept beside it. */
module RingBuffer {
  import opened GuestMemory

  datatype Kind = NoSplit | AllowSplit | ByteBuf

  const MAX_ITEMS: nat := 256

  /** Everything but the payload. `lens` are the item lengths, oldest first. */
  datatype Meta = Meta(used: nat, lens: seq<nat>, borrowed: Loan, acquired: Loan)

  /** An outstanding borrow or reservation, and its length. */
  datatype Loan = Free | Out(len: nat)

  function LoanLen(l: Loan): nat { if l.Out? then l.len else 0 }

  function Sum(lens: seq<nat>): nat { if lens == [] then 0 else lens[0] + Sum(lens[1..]) }

  /** Bookkeeping that every operation keeps. */
  ghost predicate MetaOk(kind: Kind, capacity: nat, m: Meta) {
    m.used + LoanLen(m.acquired) <= capacity
    && (if kind.ByteBuf? then m.lens == [] && m.acquired.Free? else Sum(m.lens) == m.used && |m.lens| <= MAX_ITEMS)
    && (m.acquired.Out? ==> |m.lens| < MAX_ITEMS)
    && (m.borrowed.Out? ==>
         m.borrowed.len <= m.used && (!kind.ByteBuf? ==> m.lens != [] && m.borrowed.len == m.lens[0]))
  }

  /** The validation made when a saved state is restored. */
  predicate Restorable(capacity: nat, m: Meta) {
    m.used <= capacity && LoanLen(m.borrowed) <= m.used && LoanLen(m.acquired) <= capacity - m.used
      && |m.lens| <= MAX_ITEMS
  }

  lemma {:induction false} SumAppend(a: seq<nat>, b: nat)
    ensures Sum(a + [b]) == Sum(a) + b
  {
    if a == [] {
      assert ([] + [b])[1..] == [];
    } else {
      SumAppend(a[1..], b);
      assert (a + [b])[1..] == a[1..] + [b];
    }
  }

  // ----- items -----

  /** The bytes cut into items. */
  function Split(bytes: seq<bv8>, lens: seq<nat>): seq<seq<bv8>>
    requires Sum(lens) == |bytes|
  {
    if lens == [] then [] else [bytes[..lens[0]]] + Split(bytes[lens[0]..], lens[1..])
  }

  lemma {:induction false} SplitAppend(bytes: seq<bv8>, lens: seq<nat>, item: seq<bv8>)
    requires Sum(lens) == |bytes|
    ensures Sum(lens + [|item|]) == |bytes + item|
    ensures Split(bytes + item, lens + [|item|]) == Split(bytes, lens) + [item]
    decreases |lens|
  {
    SumAppend(lens, |item|);
    var more := lens + [|item|];
    if lens == [] {
      assert bytes + item == item && more[1..] == [];
      assert item[|item|..] == [] && item[..|item|] == item;
      assert Split([], []) == [];
    } else {
      var n := lens[0];
      SplitAppend(bytes[n..], lens[1..], item);
      assert more[1..] == lens[1..] + [|item|];
      assert (bytes + item)[n..] == bytes[n..] + item && (bytes + item)[..n] == bytes[..n];
    }
  }

  lemma SplitTail(bytes: seq<bv8>, lens: seq<nat>)
    requires lens != [] && Sum(lens) == |bytes|
    ensures Sum(lens[1..]) == |bytes[lens[0]..]|
    ensures Split(bytes, lens) == [bytes[..lens[0]]] + Split(bytes[lens[0]..], lens[1..])
  {
  }

  // ----- copying in guest memory -----

  /** Copying upward byte by byte is faithful unless the target starts inside the source. */
  predicate Faithful(dst: nat, src: nat, n: nat) { src + n <= ADDR_SPACE && (dst <= src || src + n <= dst) }

  lemma WriteAt(m: Mem, a: nat, b: bv8, x: nat)
    requires a in m && a < ADDR_SPACE && x < ADDR_SPACE
    ensures Read8(Write8(m, a, b), x) == if x == a then b else Read8(m, x)
  {
  }

  /** The first `i` bytes copied, the rest of memory as it was. */
  ghost predicate CopiedSoFar(m0: Mem, m: Mem, dst: nat, src: nat, n: nat, i: nat) {
    m.Keys == m0.Keys
    && (forall x {:trigger Read8(m, x)} :: 0 <= x < ADDR_SPACE && !(dst <= x < dst + i) ==> Read8(m, x) == Read8(m0, x))
    && (Faithful(dst, src, n) ==> forall x {:trigger Read8(m, x)} :: dst <= x < dst + i ==>
         Read8(m, x) == Read8(m0, src + (x - dst)))
  }

  lemma CopyOne(m0: Mem, m: Mem, dst: nat, src: nat, n: nat, i: nat)
    requires Mapped(m0, dst, n) && i < n && CopiedSoFar(m0, m, dst, src, n, i)
    ensures CopiedSoFar(m0, CopyNext(m, dst, src, i), dst, src, n, i + 1)
  {
    var m' := Write8(m, dst + i, Read8(m, src + i));
    assert dst + i in m;
    forall x | 0 <= x < ADDR_SPACE
      ensures Read8(m', x) == if x == dst + i then Read8(m, src + i) else Read8(m, x)
    {
      WriteAt(m, dst + i, Read8(m, src + i), x);
    }
    if Faithful(dst, src, n) {
      assert Read8(m, src + i) == Read8(m0, src + i);
      assert src + i == src + (dst + i - dst);
    }
  }

  /** Memory after copying `n` bytes upward, one at a time. */
  function CopyUp(m: Mem, dst: nat, src: nat, n: nat): Mem {
    if n == 0 then m
    else
      CopyNext(CopyUp(m, dst, src, n - 1), dst, src, n - 1)
  }

  function CopyNext(m: Mem, dst: nat, src: nat, i: nat): Mem { Write8(m, dst + i, Read8(m, src + i)) }

  lemma {:induction false} CopyUpSoFar(m: Mem, dst: nat, src: nat, n: nat, i: nat)
    requires Mapped(m, dst, n) && i <= n
    ensures CopiedSoFar(m, CopyUp(m, dst, src, i), dst, src, n, i)
  {
    if i > 0 {
      var r := CopyUp(m, dst, src, i - 1);
      CopyUpSoFar(m, dst, src, n, i - 1);
      CopyOne(m, r, dst, src, n, i - 1);
      assert CopyUp(m, dst, src, i) == CopyNext(r, dst, src, i - 1);
    }
  }

  method Copy(m0: Mem, dst: nat, src: nat, n: nat) returns (m: Mem)
    requires Mapped(m0, dst, n)
    ensures m == CopyUp(m0, dst, src, n) && CopiedSoFar(m0, m, dst, src, n, n)
  {
    m := m0;
    for i := 0 to n
      invariant m == CopyUp(m0, dst, src, i)
    {
      assert CopyUp(m0, dst, src, i + 1) == CopyNext(m, dst, src, i);
      m := Write8(m, dst + i, Read8(m, src + i));
    }
    CopyUpSoFar(m0, dst, src, n, n);
  }

  /** Place `i` of a pattern of length `d` that repeats. */
  function Turn(i: nat, d: nat): (r: nat)
    requires d > 0
    ensures r < d
  {
    if i < d then i else Turn(i - d, d)
  }

  /** Where the target does start inside the source, the bytes between the two starts are
      repeated to the end. */
  lemma {:induction false} CopyRepeats(m: Mem, dst: nat, src: nat, n: nat, i: nat)
    requires Mapped(m, dst, n) && src < dst && i < n
    ensures Read8(CopyUp(m, dst, src, n), dst + i) == Read8(m, src + Turn(i, dst - src))
    decreases n, i
  {
    var d := dst - src;
    if i < n - 1 {
      LastRepeats(m, dst, src, n, i, dst + i);
      CopyRepeats(m, dst, src, n - 1, i);
    } else if i >= d {
      LastRepeats(m, dst, src, n, i, dst + (i - d));
      CopyRepeats(m, dst, src, n - 1, i - d);
    } else {
      LastRepeats(m, dst, src, n, i, src + i);
      CopyUpBelow(m, dst, src, n - 1, src + i);
    }
  }

  /** The byte copied last is the one a period before it. */
  lemma LastRepeats(m: Mem, dst: nat, src: nat, n: nat, i: nat, at: nat)
    requires Mapped(m, dst, n) && src < dst && i < n && at == if i < n - 1 then dst + i else src + i
    ensures Read8(CopyUp(m, dst, src, n), dst + i) == Read8(CopyUp(m, dst, src, n - 1), at)
  {
    CopyUpKeys(m, dst, src, n - 1);
    assert dst + (n - 1) in m;
    CopyNextAt(CopyUp(m, dst, src, n - 1), dst, src, n - 1, dst + i);
  }

  lemma {:induction false} CopyUpKeys(m: Mem, dst: nat, src: nat, n: nat)
    ensures CopyUp(m, dst, src, n).Keys == m.Keys
  {
    if n > 0 {
      CopyUpKeys(m, dst, src, n - 1);
    }
  }

  lemma CopyNextAt(m: Mem, dst: nat, src: nat, i: nat, x: nat)
    requires dst + i in m && dst + i < ADDR_SPACE && x < ADDR_SPACE
    ensures Read8(CopyNext(m, dst, src, i), x) == if x == dst + i then Read8(m, src + i) else Read8(m, x)
  {
    WriteAt(m, dst + i, Read8(m, src + i), x);
  }

  /** Below the target nothing changes. */
  lemma {:induction false} CopyUpBelow(m: Mem, dst: nat, src: nat, n: nat, x: nat)
    requires Mapped(m, dst, n) && x < dst
    ensures Read8(CopyUp(m, dst, src, n), x) == Read8(m, x)
  {
    if n > 0 {
      CopyUpBelow(m, dst, src, n - 1, x);
      CopyUpKeys(m, dst, src, n - 1);
      CopyNextAt(CopyUp(m, dst, src, n - 1), dst, src, n - 1, x);
    }
  }

  /** `n` bytes from `a` on are the same in both memories. */
  lemma SameBytes(m: Mem, m': Mem, a: nat, a': nat, n: nat)
    requires forall x :: a <= x < a + n ==> Read8(m', a' + (x - a)) == Read8(m, x)
    ensures ReadBytes(m', a', n) == ReadBytes(m, a, n)
  {
    forall i | 0 <= i < n
      ensures ReadBytes(m', a', n)[i] == ReadBytes(m, a, n)[i]
    {
      assert Read8(m, a + i) == Read8(m', a' + (a + i - a));
    }
  }

  lemma BytesJoin(m: Mem, a: nat, n: nat, k: nat)
    ensures ReadBytes(m, a, n + k) == ReadBytes(m, a, n) + ReadBytes(m, a + n, k)
  {
  }

  lemma BytesTail(m: Mem, a: nat, n: nat, k: nat)
    requires k <= n
    ensures ReadBytes(m, a, n)[k..] == ReadBytes(m, a + k, n - k)
  {
  }

  lemma WrittenBack(m: Mem, a: nat, s: seq<bv8>)
    requires Mapped(m, a, |s|)
    ensures ReadBytes(WriteBytes(m, a, s), a, |s|) == s
  {
    forall i | 0 <= i < |s|
      ensures ReadBytes(WriteBytes(m, a, s), a, |s|)[i] == s[i]
    {
      WriteBytesAt(m, a, s, a + i);
    }
  }

  /** Appending behind the used bytes: they stay, and the new ones follow. */
  method Put(m0: Mem, storage: nat, used: nat, src: nat, size: nat) returns (m: Mem)
    requires Mapped(m0, storage, used + size)
    ensures m == CopyUp(m0, storage + used, src, size) && m.Keys == m0.Keys
    ensures ReadBytes(m, storage, used + size) == ReadBytes(m0, storage, used) + ReadBytes(m, storage + used, size)
    ensures Faithful(storage + used, src, size) ==> ReadBytes(m, storage + used, size) == ReadBytes(m0, src, size)
  {
    m := Copy(m0, storage + used, src, size);
    BytesJoin(m, storage, used, size);
    SameBytes(m0, m, storage, storage, used);
    if Faithful(storage + used, src, size) {
      Copied(m0, m, storage + used, src, size);
    }
  }

  lemma Copied(m: Mem, m': Mem, dst: nat, src: nat, n: nat)
    requires forall x :: dst <= x < dst + n ==> Read8(m', x) == Read8(m, src + (x - dst))
    ensures ReadBytes(m', dst, n) == ReadBytes(m, src, n)
  {
    forall i | 0 <= i < n
      ensures ReadBytes(m', dst, n)[i] == ReadBytes(m, src, n)[i]
    {
      assert Read8(m', dst + i) == Read8(m, src + (dst + i - dst));
    }
  }

  /** Closing the gap left by the first `k` bytes. */
  method Close(m0: Mem, storage: nat, used: nat, k: nat) returns (m: Mem)
    requires Mapped(m0, storage, used) && k <= used
    ensures m.Keys == m0.Keys
    ensures ReadBytes(m, storage, used - k) == ReadBytes(m0, storage, used)[k..]
  {
    m := Copy(m0, storage, storage + k, used - k);
    Copied(m0, m, storage, storage + k, used - k);
    BytesTail(m0, storage, used, k);
  }

  // ----- operations on the bookkeeping -----

  /** Calls on one buffer; `offset` is where in the storage a reserved item begins. */
  datatype Call = Send(size: nat) | Borrow(max: nat) | GiveBack | Acquire(size: nat) | Complete(offset: int)

  predicate Sends(kind: Kind, capacity: nat, m: Meta, size: nat) {
    m.acquired.Free? && m.used + size <= capacity && (kind.ByteBuf? || |m.lens| < MAX_ITEMS)
  }

  predicate Borrows(kind: Kind, m: Meta, max: nat) {
    m.borrowed.Free? && max != 0 && (if kind.ByteBuf? then m.used != 0 else m.lens != [])
  }

  function BorrowSize(kind: Kind, m: Meta, max: nat): nat
    requires Borrows(kind, m, max)
  {
    if !kind.ByteBuf? then m.lens[0] else if m.used < max then m.used else max
  }

  predicate Acquires(kind: Kind, capacity: nat, m: Meta, size: nat) {
    kind.NoSplit? && m.acquired.Free? && m.borrowed.Free? && m.used + size <= capacity && |m.lens| < MAX_ITEMS
  }

  predicate Completes(m: Meta, offset: int) { m.acquired.Out? && offset == m.used }

  function Grown(kind: Kind, m: Meta, size: nat): Meta {
    m.(used := m.used + size, lens := if kind.ByteBuf? then m.lens else m.lens + [size])
  }

  function After(kind: Kind, capacity: nat, m: Meta, call: Call): Meta {
    match call
    case Send(size) => if Sends(kind, capacity, m, size) then Grown(kind, m, size) else m
    case Borrow(max) => if Borrows(kind, m, max) then m.(borrowed := Out(BorrowSize(kind, m, max))) else m
    case GiveBack =>
      if m.borrowed.Out? && m.borrowed.len <= m.used then
        Meta(m.used - m.borrowed.len, if kind.ByteBuf? || m.lens == [] then m.lens else m.lens[1..], Free, m.acquired)
      else m
    case Acquire(size) => if Acquires(kind, capacity, m, size) then m.(acquired := Out(size)) else m
    case Complete(offset) => if Completes(m, offset) then Grown(kind, m, m.acquired.len).(acquired := Free) else m
  }

  /** Every call keeps the bookkeeping in order. */
  lemma CallKeeps(kind: Kind, capacity: nat, m: Meta, call: Call)
    requires MetaOk(kind, capacity, m)
    ensures MetaOk(kind, capacity, After(kind, capacity, m, call))
  {
    match call
    case Send(size) => SumAppend(m.lens, size);
    case Borrow(max) =>
    case GiveBack =>
    case Acquire(size) =>
    case Complete(offset) => SumAppend(m.lens, LoanLen(m.acquired));
  }

  function AfterAll(kind: Kind, capacity: nat, m: Meta, calls: seq<Call>): Meta
    decreases |calls|
  {
    if calls == [] then m
    else After(kind, capacity, AfterAll(kind, capacity, m, calls[..|calls| - 1]), calls[|calls| - 1])
  }

  /** So every state a new buffer can reach passes the check made on restore. */
  lemma {:induction false} ReachableRestorable(kind: Kind, capacity: nat, calls: seq<Call>)
    ensures var m := AfterAll(kind, capacity, Meta(0, [], Free, Free), calls);
      MetaOk(kind, capacity, m) && Restorable(capacity, m)
    decreases |calls|
  {
    if calls != [] {
      var before := calls[..|calls| - 1];
      ReachableRestorable(kind, capacity, before);
      CallKeeps(kind, capacity, AfterAll(kind, capacity, Meta(0, [], Free, Free), before), calls[|calls| - 1]);
    }
  }

  // ----- reservations -----

  /** Bytes given back by a run of calls. */
  function GivenBack(kind: Kind, capacity: nat, m: Meta, calls: seq<Call>): nat
    decreases |calls|
  {
    if calls == [] then 0
    else
      var before := calls[..|calls| - 1];
      var s := AfterAll(kind, capacity, m, before);
      GivenBack(kind, capacity, m, before)
      + if calls[|calls| - 1].GiveBack? && s.borrowed.Out? && s.borrowed.len <= s.used then s.borrowed.len else 0
  }

  /** Between reserving at `offset` and completing there, the only thing that moves the end
      of the used bytes is giving back. */
  lemma {:induction false} WhileReserved(kind: Kind, capacity: nat, m: Meta, offset: nat, calls: seq<Call>)
    requires m.acquired.Out? && m.used == offset
    requires forall i :: 0 <= i < |calls| ==> !calls[i].Complete?
    ensures var s := AfterAll(kind, capacity, m, calls);
      s.acquired == m.acquired && s.used + GivenBack(kind, capacity, m, calls) == offset
    decreases |calls|
  {
    if calls != [] {
      var before := calls[..|calls| - 1];
      assert forall i :: 0 <= i < |before| ==> !calls[i].Complete?;
      WhileReserved(kind, capacity, m, offset, before);
    }
  }

  /** A reservation can be completed if and only if no byte was given back since it was made. */
  lemma CompletesExactly(kind: Kind, capacity: nat, m: Meta, offset: nat, calls: seq<Call>)
    requires m.acquired.Out? && m.used == offset
    requires forall i :: 0 <= i < |calls| ==> !calls[i].Complete?
    ensures Completes(AfterAll(kind, capacity, m, calls), offset) <==> GivenBack(kind, capacity, m, calls) == 0
  {
    WhileReserved(kind, capacity, m, offset, calls);
  }

  /** Call `i` completes the reservation: it names where the used bytes end at that moment,
      which is where the reservation began unless bytes were given back. */
  ghost predicate CompletesIt(kind: Kind, capacity: nat, m: Meta, calls: seq<Call>, i: nat)
    requires i < |calls|
  {
    calls[i].Complete? && calls[i].offset == AfterAll(kind, capacity, m, calls[..i]).used
  }

  /** The reservation is out after each of the calls, and so no send is accepted and no other
      reservation made. */
  ghost predicate StaysOut(kind: Kind, capacity: nat, m: Meta, calls: seq<Call>) {
    forall n | 0 <= n <= |calls| ::
      var s := AfterAll(kind, capacity, m, calls[..n]);
      s.acquired == m.acquired && forall size :: !Sends(kind, capacity, s, size) && !Acquires(kind, capacity, s, size)
  }

  lemma OneStep(kind: Kind, capacity: nat, m: Meta, calls: seq<Call>, n: nat)
    requires n < |calls|
    ensures AfterAll(kind, capacity, m, calls[..n + 1])
            == After(kind, capacity, AfterAll(kind, capacity, m, calls[..n]), calls[n])
  {
    assert calls[..n + 1][..n] == calls[..n];
  }

  lemma {:induction false} OutSoFar(kind: Kind, capacity: nat, m: Meta, calls: seq<Call>, n: nat)
    requires m.acquired.Out? && n <= |calls| && forall i | 0 <= i < n :: !CompletesIt(kind, capacity, m, calls, i)
    ensures AfterAll(kind, capacity, m, calls[..n]).acquired == m.acquired
  {
    if n > 0 {
      OutSoFar(kind, capacity, m, calls, n - 1);
      OneStep(kind, capacity, m, calls, n - 1);
      assert !CompletesIt(kind, capacity, m, calls, n - 1);
    }
  }

  /** Over any calls, the reservation stays out, and blocks every send, exactly as long as no
      completion names the end that the used bytes have at that moment. */
  lemma OutUntilCompleted(kind: Kind, capacity: nat, m: Meta, calls: seq<Call>)
    requires m.acquired.Out?
    ensures StaysOut(kind, capacity, m, calls)
            <==> forall i | 0 <= i < |calls| :: !CompletesIt(kind, capacity, m, calls, i)
  {
    if forall i | 0 <= i < |calls| :: !CompletesIt(kind, capacity, m, calls, i) {
      forall n | 0 <= n <= |calls|
        ensures AfterAll(kind, capacity, m, calls[..n]).acquired == m.acquired
      {
        OutSoFar(kind, capacity, m, calls, n);
      }
    } else {
      var i :| 0 <= i < |calls| && CompletesIt(kind, capacity, m, calls, i);
      OneStep(kind, capacity, m, calls, i);
      var before, after := AfterAll(kind, capacity, m, calls[..i]), AfterAll(kind, capacity, m, calls[..i + 1]);
      assert before.acquired != m.acquired || after.acquired.Free?;
    }
  }

  /** It happens from a new buffer: an item is lent, room is reserved behind it, the item
      comes back. The address handed out, offset 1, is no longer accepted; offset 0 is. */
  lemma ReservationMissed(capacity: nat)
    requires capacity >= 3
    ensures var m0, calls := Meta(0, [], Free, Free), [Send(1), Acquire(2), Borrow(9), GiveBack];
            var m := AfterAll(NoSplit, capacity, m0, calls);
            && AfterAll(NoSplit, capacity, m0, calls[..1]).used == 1
            && m == Meta(0, [], Free, Out(2)) && !Completes(m, 1) && Completes(m, 0)
  {
    var m0, calls := Meta(0, [], Free, Free), [Send(1), Acquire(2), Borrow(9), GiveBack];
    assert calls[..0] == [] && calls[..4] == calls;
    OneStep(NoSplit, capacity, m0, calls, 0);
    OneStep(NoSplit, capacity, m0, calls, 1);
    OneStep(NoSplit, capacity, m0, calls, 2);
    OneStep(NoSplit, capacity, m0, calls, 3);
  }

  // ----- the buffer -----

  /** What went in is what came out, then what is held: byte for byte, and item for item. */
  ghost predicate Ledger(kind: Kind, bytes: seq<bv8>, lens: seq<nat>, put: seq<bv8>, got: seq<bv8>,
                         sent: seq<seq<bv8>>, taken: seq<seq<bv8>>) {
    got + bytes == put && (!kind.ByteBuf? ==> Sum(lens) == |bytes| && taken + Split(bytes, lens) == sent)
  }

  lemma LedgerPut(kind: Kind, bytes: seq<bv8>, lens: seq<nat>, put: seq<bv8>, got: seq<bv8>, sent: seq<seq<bv8>>,
                  taken: seq<seq<bv8>>, item: seq<bv8>)
    requires Ledger(kind, bytes, lens, put, got, sent, taken)
    ensures var lens' := if kind.ByteBuf? then lens else lens + [|item|];
            Ledger(kind, bytes + item, lens', put + item, got, sent + [item], taken)
  {
    assert got + (bytes + item) == put + item;
    if !kind.ByteBuf? {
      SplitAppend(bytes, lens, item);
      assert taken + (Split(bytes, lens) + [item]) == sent + [item];
    }
  }

  lemma LedgerGot(kind: Kind, bytes: seq<bv8>, lens: seq<nat>, put: seq<bv8>, got: seq<bv8>, sent: seq<seq<bv8>>,
                  taken: seq<seq<bv8>>, k: nat)
    requires Ledger(kind, bytes, lens, put, got, sent, taken) && k <= |bytes|
    requires !kind.ByteBuf? ==> lens != [] && k == lens[0]
    ensures var lens' := if kind.ByteBuf? then lens else lens[1..];
            Ledger(kind, bytes[k..], lens', put, got + bytes[..k], sent, taken + [bytes[..k]])
    ensures !kind.ByteBuf? ==> |taken| < |sent| && sent[|taken|] == bytes[..k]
  {
    assert got + bytes[..k] + bytes[k..] == got + bytes;
    if !kind.ByteBuf? {
      SplitTail(bytes, lens);
      assert taken + ([bytes[..k]] + Split(bytes[k..], lens[1..]))
             == taken + [bytes[..k]] + Split(bytes[k..], lens[1..]);
    }
  }

  // ----- whole runs -----

  /** What the guest does with a buffer; addresses are guest addresses. `Fill` is a store of its own. */
  datatype Use =
    | SendBytes(src: nat, size: nat)
    | BorrowUpTo(max: nat)
    | ReturnItem(item: nat)
    | Reserve(size: nat)
    | Commit(item: nat)
    | Fill(a: nat, data: seq<bv8>)

  /** The call a use amounts to, if any. */
  function Effect(storage: nat, use: Use): (calls: seq<Call>)
    ensures |calls| <= 1
  {
    match use
    case SendBytes(src, size) => if size == 0 || src != 0 then [Send(size)] else []
    case BorrowUpTo(max) => [Borrow(max)]
    case ReturnItem(item) => if item == storage then [GiveBack] else []
    case Reserve(size) => [Acquire(size)]
    case Commit(item) => [Complete(item - storage)]
    case Fill(_, _) => []
  }

  function Effects(storage: nat, uses: seq<Use>): seq<Call> {
    if uses == [] then [] else Effects(storage, uses[..|uses| - 1]) + Effect(storage, uses[|uses| - 1])
  }

  lemma OneCall(kind: Kind, capacity: nat, m: Meta, use: Use, storage: nat)
    ensures var calls := Effect(storage, use);
            AfterAll(kind, capacity, m, calls) == if calls == [] then m else After(kind, capacity, m, calls[0])
  {
    var calls := Effect(storage, use);
    if calls != [] {
      assert calls[..0] == [];
      assert AfterAll(kind, capacity, m, calls[..0]) == m;
    }
  }

  lemma CallsAppend(kind: Kind, capacity: nat, m: Meta, calls: seq<Call>, more: seq<Call>)
    requires |more| <= 1
    ensures AfterAll(kind, capacity, m, calls + more)
            == AfterAll(kind, capacity, AfterAll(kind, capacity, m, calls), more)
  {
    if more == [] {
      assert calls + more == calls;
    } else {
      assert (calls + more)[..|calls|] == calls && more[..0] == [];
      var s := AfterAll(kind, capacity, m, calls);
      assert AfterAll(kind, capacity, s, more[..0]) == s;
    }
  }

  lemma OneUse(kind: Kind, capacity: nat, m: Meta, storage: nat, uses: seq<Use>, i: nat)
    requires i < |uses|
    ensures AfterAll(kind, capacity, m, Effects(storage, uses[..i + 1]))
            == AfterAll(kind, capacity, AfterAll(kind, capacity, m, Effects(storage, uses[..i])),
                        Effect(storage, uses[i]))
    ensures GiveBack !in Effects(storage, uses[..i + 1]) ==>
              GiveBack !in Effects(storage, uses[..i]) && Effect(storage, uses[i]) != [GiveBack]
  {
    assert uses[..i + 1][..i] == uses[..i];
    CallsAppend(kind, capacity, m, Effects(storage, uses[..i]), Effect(storage, uses[i]));
  }

  /** If nothing was given back, what is held only grows. */
  lemma HeldGrows(put: seq<bv8>, put': seq<bv8>, got: seq<bv8>, bytes: seq<bv8>, bytes': seq<bv8>)
    requires put <= put' && got + bytes == put && got + bytes' == put'
    ensures bytes <= bytes'
  {
    assert bytes == put[|got|..] && bytes' == put'[|got|..];
  }

  /** A loan that is out stays out until it is given back. */
  lemma {:induction false} LoanStays(kind: Kind, capacity: nat, m: Meta, calls: seq<Call>)
    requires GiveBack !in calls
    ensures m.borrowed.Out? ==> AfterAll(kind, capacity, m, calls).borrowed == m.borrowed
    decreases |calls|
  {
    if calls != [] {
      var before := calls[..|calls| - 1];
      assert forall c :: c in before ==> c in calls;
      assert calls[|calls| - 1] in calls;
      LoanStays(kind, capacity, m, before);
    }
  }

  class Buffer {
    const kind: Kind
    const storage: nat
    const capacity: nat
    var mem: Mem
    var meta: Meta
    /** Bytes and items accepted, and bytes and items given back, in order. */
    ghost var put: seq<bv8>
    ghost var got: seq<bv8>
    ghost var sent: seq<seq<bv8>>
    ghost var taken: seq<seq<bv8>>

    ghost function Bytes(): seq<bv8>
      reads this
    {
      ReadBytes(mem, storage, meta.used)
    }

    ghost predicate Valid()
      reads this
    {
      storage != 0 && Mapped(mem, storage, capacity) && MetaOk(kind, capacity, meta)
      && Ledger(kind, Bytes(), meta.lens, put, got, sent, taken)
    }

    constructor (k: Kind, m: Mem, address: nat, size: nat)
      requires address != 0 && Mapped(m, address, size)
      ensures Valid() && kind == k && storage == address && capacity == size && mem == m
      ensures meta == Meta(0, [], Free, Free)
      ensures sent == taken == [] && put == got == []
    {
      kind, storage, capacity, mem, meta := k, address, size, m, Meta(0, [], Free, Free);
      put, got, sent, taken := [], [], [], [];
    }

    /** Send the `size` bytes at `src`; a null source is refused unless it is empty. */
    method DoSend(src: nat, size: nat) returns (ok: bool, ghost item: seq<bv8>)
      requires Valid()
      modifies this
      ensures Valid() && meta == if ok then After(kind, capacity, old(meta), Send(size)) else old(meta)
      ensures ok <==>
              && old(meta).acquired == Free && old(meta).used + size <= capacity && (size == 0 || src != 0)
              && (kind != ByteBuf ==> |old(meta).lens| < 256)
      ensures ok ==> meta.used == old(meta).used + size && meta.borrowed == old(meta).borrowed && meta.acquired == Free
                     && meta.lens == old(meta).lens + if kind == ByteBuf then [] else [size]
      ensures got == old(got) && taken == old(taken)
      ensures !ok ==> mem == old(mem) && sent == old(sent) && put == old(put)
      ensures ok ==> |item| == size && sent == old(sent) + [item] && Bytes() == old(Bytes()) + item
      ensures ok ==> put == old(put) + item
      ensures ok ==> mem == CopyUp(old(mem), storage + old(meta.used), src, size)
      ensures ok ==> item == ReadBytes(mem, storage + old(meta.used), size)
      ensures ok && Faithful(storage + old(meta.used), src, size) ==> item == ReadBytes(old(mem), src, size)
    {
      ok, item := Sends(kind, capacity, meta, size) && (size == 0 || src != 0), [];
      if !ok { return; }
      CallKeeps(kind, capacity, meta, Send(size));
      var m := Put(mem, storage, meta.used, src, size);
      item := ReadBytes(m, storage + meta.used, size);
      Store(m, Grown(kind, meta, size), item);
    }

    /** Borrow the oldest item, or up to `max` of the oldest bytes. They sit at the start of
        the storage. */
    method DoBorrow(max: nat) returns (size: nat, ok: bool)
      requires Valid()
      modifies this`meta
      ensures Valid() && meta == After(kind, capacity, old(meta), Borrow(max)) && Bytes() == old(Bytes())
      ensures ok <==>
        old(meta).borrowed == Free && max > 0 && if kind == ByteBuf then old(meta).used > 0 else |old(meta).lens| > 0
      ensures ok ==> size == if kind != ByteBuf then meta.lens[0] else if meta.used < max then meta.used else max
      ensures ok ==> size <= meta.used && meta == old(meta).(borrowed := Out(size))
      ensures !ok ==> size == 0 && meta == old(meta)
      ensures ok && !kind.ByteBuf? ==> |taken| < |sent| && Bytes()[..size] == sent[|taken|]
    {
      ok, size := Borrows(kind, meta, max), 0;
      CallKeeps(kind, capacity, meta, Borrow(max));
      if !ok { return; }
      size := BorrowSize(kind, meta, max);
      meta := meta.(borrowed := Out(size));
      LedgerGot(kind, Bytes(), meta.lens, put, got, sent, taken, size);
    }

    /** Give back what was borrowed, by its address. */
    method DoGiveBack(item: nat)
      requires Valid()
      modifies this
      ensures Valid() && sent == old(sent) && put == old(put)
      ensures meta == if item == storage then After(kind, capacity, old(meta), GiveBack) else old(meta)
      ensures item == storage && old(meta.borrowed).Out? ==>
        var k := old(meta.borrowed).len;
        got == old(got) + old(Bytes())[..k] && taken == old(taken) + [old(Bytes())[..k]] && Bytes() == old(Bytes())[k..]
      ensures item == storage && old(meta.borrowed).Out? ==>
        meta == Meta(old(meta).used - old(meta).borrowed.len,
                     if kind == ByteBuf then old(meta).lens else old(meta).lens[1..], Free, old(meta).acquired)
      ensures !(item == storage && old(meta.borrowed).Out?) ==>
                got == old(got) && taken == old(taken) && mem == old(mem) && meta == old(meta)
    {
      if item != storage || meta.borrowed.Free? { return; }
      var k := meta.borrowed.len;
      CallKeeps(kind, capacity, meta, GiveBack);
      LedgerGot(kind, Bytes(), meta.lens, put, got, sent, taken, k);
      var m := Close(mem, storage, meta.used, k);
      got, taken := got + Bytes()[..k], taken + [Bytes()[..k]];
      mem, meta := m, Meta(meta.used - k, if kind.ByteBuf? then meta.lens else meta.lens[1..], Free, meta.acquired);
    }

    /** Reserve room behind the used bytes; the caller fills it in. */
    method DoAcquire(size: nat) returns (item: nat)
      requires Valid()
      modifies this`meta
      ensures Valid() && meta == After(kind, capacity, old(meta), Acquire(size)) && Bytes() == old(Bytes())
      ensures var ok :=
                && kind == NoSplit && old(meta).acquired == Free && old(meta).borrowed == Free
                && old(meta).used + size <= capacity && |old(meta).lens| < 256;
              if ok then item == storage + old(meta.used) && meta == old(meta).(acquired := Out(size))
              else item == 0 && meta == old(meta)
    {
      CallKeeps(kind, capacity, meta, Acquire(size));
      item := 0;
      if Acquires(kind, capacity, meta, size) {
        item := storage + meta.used;
        meta := meta.(acquired := Out(size));
      }
    }

    /** Complete a reservation: what was filled in becomes the newest item. */
    method DoComplete(item: nat) returns (ok: bool)
      requires Valid()
      modifies this
      ensures Valid() && (ok <==> old(meta).acquired.Out? && item == storage + old(meta).used)
      ensures var m, n := old(meta), LoanLen(old(meta).acquired);
              meta == if ok then Meta(m.used + n, m.lens + [n], m.borrowed, Free) else m
      ensures meta == After(kind, capacity, old(meta), Complete(item - storage)) && mem == old(mem)
      ensures got == old(got) && taken == old(taken)
      ensures ok ==>
              var filled := ReadBytes(mem, item, old(meta.acquired).len);
              Bytes() == old(Bytes()) + filled && sent == old(sent) + [filled] && put == old(put) + filled
      ensures !ok ==> sent == old(sent) && put == old(put)
    {
      ok := Completes(meta, item - storage);
      if !ok { return; }
      CallKeeps(kind, capacity, meta, Complete(item - storage));
      BytesJoin(mem, storage, meta.used, meta.acquired.len);
      Store(mem, Grown(kind, meta, meta.acquired.len).(acquired := Free), ReadBytes(mem, item, meta.acquired.len));
    }

    /** What the owner of a reservation does: a guest store that stays clear of the bytes
        in use leaves everything held alone. */
    method GuestStore(a: nat, data: seq<bv8>)
      requires Valid() && Mapped(mem, a, |data|) && (a + |data| <= storage || storage + meta.used <= a)
      modifies this`mem
      ensures Valid() && Bytes() == old(Bytes()) && mem == WriteBytes(old(mem), a, data) && Filled(Fill(a, data))
    {
      WriteElsewhere(mem, a, data, storage, meta.used);
      WrittenBack(mem, a, data);
      mem := WriteBytes(mem, a, data);
    }

    /** A store that stays clear of the bytes in use is there. */
    ghost predicate Filled(use: Use)
      reads this
    {
      use.Fill? && Mapped(mem, use.a, |use.data|) && (use.a + |use.data| <= storage || storage + meta.used <= use.a) ==>
        ReadBytes(mem, use.a, |use.data|) == use.data
    }

    /** One use of the buffer by the guest. */
    method Step(use: Use)
      requires Valid()
      modifies this
      ensures Valid() && meta == AfterAll(kind, capacity, old(meta), Effect(storage, use))
      ensures old(put) <= put && old(got) <= got && old(sent) <= sent && old(taken) <= taken
      ensures Effect(storage, use) == [GiveBack] || got == old(got)
      ensures Filled(use)
    {
      OneCall(kind, capacity, meta, use, storage);
      match use
      case SendBytes(src, size) =>
        ghost var item;
        var ok;
        ok, item := DoSend(src, size);
      case BorrowUpTo(max) => var size, ok := DoBorrow(max);
      case ReturnItem(item) => DoGiveBack(item);
      case Reserve(size) => var item := DoAcquire(size);
      case Commit(item) => var ok := DoComplete(item);
      case Fill(a, data) =>
        if Mapped(mem, a, |data|) && (a + |data| <= storage || storage + meta.used <= a) {
          GuestStore(a, data);
        }
    }

    /** Any sequence of uses: the bookkeeping is that of the calls, everything accepted so far is
        what was given back followed by what is held, and until a loan is returned its bytes
        stay as they were. */
    method Run(uses: seq<Use>)
      requires Valid()
      modifies this
      ensures Valid() && meta == AfterAll(kind, capacity, old(meta), Effects(storage, uses))
      ensures old(put) <= put && old(got) <= got && old(sent) <= sent && old(taken) <= taken
      ensures GiveBack !in Effects(storage, uses) ==> got == old(got) && old(Bytes()) <= Bytes()
      ensures GiveBack !in Effects(storage, uses) && old(meta.borrowed).Out? ==> meta.borrowed == old(meta.borrowed)
    {
      assert uses[..0] == [];
      for i := 0 to |uses|
        invariant Valid() && meta == AfterAll(kind, capacity, old(meta), Effects(storage, uses[..i]))
        invariant old(put) <= put && old(got) <= got && old(sent) <= sent && old(taken) <= taken
        invariant GiveBack !in Effects(storage, uses[..i]) ==> got == old(got)
      {
        OneUse(kind, capacity, old(meta), storage, uses, i);
        Step(uses[i]);
      }
      assert uses[..|uses|] == uses;
      if GiveBack !in Effects(storage, uses) {
        HeldGrows(old(put), put, got, old(Bytes()), Bytes());
        LoanStays(kind, capacity, old(meta), Effects(storage, uses));
      }
    }

    /** Record an item that now follows the bytes held before. */
    method Store(m: Mem, grown: Meta, ghost item: seq<bv8>)
      requires Valid() && m.Keys == mem.Keys && MetaOk(kind, capacity, grown) && grown.used == meta.used + |item|
      requires grown.lens == (if kind.ByteBuf? then meta.lens else meta.lens + [|item|])
      requires ReadBytes(m, storage, grown.used) == Bytes() + item
      modifies this
      ensures Valid() && mem == m && meta == grown && put == old(put) + item && sent == old(sent) + [item]
      ensures got == old(got) && taken == old(taken) && Bytes() == old(Bytes()) + item
    {
      LedgerPut(kind, Bytes(), meta.lens, put, got, sent, taken, item);
      mem, meta, put, sent := m, grown, put + item, sent + [item];
    }
  }
}
