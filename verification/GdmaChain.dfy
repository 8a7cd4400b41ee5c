/** Transmit descriptors in guest RAM, and the two ways of reading a chain of them: the
    bounded walk for a known length, and one descriptor at a time. */
module GdmaChain {
  import opened GuestMemory

  // ----- descriptors -----

  function Size(c: bv32): nat { (c & 0x0000_0FFF) as nat }

  function Valid(c: bv32): nat { ((c & 0x00FF_F000) >> 12) as nat }

  predicate Eof(c: bv32) { c & 0x4000_0000 != 0 }

  predicate Owned(c: bv32) { c & 0x8000_0000 != 0 }

  function Released(c: bv32): bv32 { c & 0x7FFF_FFFF }

  function Control(m: Mem, d: nat): bv32 { Read32(m, d) }

  function Buffer(m: Mem, d: nat): nat { Read32(m, d + 4) as nat }

  function NextOf(m: Mem, d: nat): nat { Read32(m, d + 8) as nat }

  function Payload(m: Mem, d: nat): seq<bv8> { ReadBytes(m, Buffer(m, d), Valid(Control(m, d))) }

  /** A non-empty range of mapped addresses that does not wrap. */
  ghost predicate InRam(m: Mem, a: nat, n: nat) { n > 0 && Mapped(m, a, n) }

  /** Memory is mapped by whole pages of 4096 bytes. */
  ghost predicate Paged(m: Mem) { forall a: nat :: a in m <==> PageOf(a) in m }

  function PageOf(a: nat): nat { a - a % 4096 }

  lemma WholePage(m: Mem, page: nat, probe: nat)
    requires Paged(m) && page == PageOf(page) && page <= probe < page + 4096
    ensures probe in m <==> forall i :: page <= i < page + 4096 ==> i in m
  {
    assert PageOf(probe) == page;
    forall i | page <= i < page + 4096
      ensures i in m <==> probe in m
    {
      assert PageOf(i) == page;
    }
  }

  /** The range check of the walkers, one probe per page. */
  method RangeValid(m: Mem, a: nat, n: nat) returns (ok: bool)
    requires Paged(m) && a < ADDR_SPACE
    ensures ok <==> InRam(m, a, n)
  {
    if n == 0 || a + n > ADDR_SPACE { return false; }
    var last := a + n - 1;
    var page := PageOf(a);
    while true
      invariant page == PageOf(page) && page <= PageOf(last) && a < page + 4096
      invariant forall i :: a <= i < page ==> i in m
      decreases PageOf(last) - page
    {
      var probe := if page < a then a else page;
      WholePage(m, page, probe);
      if probe !in m { return false; }
      if page >= PageOf(last) { return true; }
      page := page + 4096;
    }
  }

  // ----- descriptors, by their bytes -----

  lemma NibblesNumber(low: bv8, high: bv8)
    requires low < 16 && high < 16
    ensures (low | (high << 4)) as nat == low as nat + 0x10 * high as nat
  {
  }

  lemma HalvesNumber(b: bv8)
    ensures b as nat == (b % 16) as nat + 0x10 * (b / 16) as nat && b % 16 < 16 && b / 16 < 16
  {
    assert b == (b % 16) | ((b / 16) << 4);
    NibblesNumber(b % 16, b / 16);
  }

  lemma SizeBytes(b0: bv8, b1: bv8, b2: bv8, b3: bv8)
    ensures WordOf(b0, b1, b2, b3) & 0x0000_0FFF == WordOf(b0, b1 % 16, 0, 0)
    ensures (WordOf(b0, b1, b2, b3) & 0x00FF_F000) >> 12 == WordOf((b1 / 16) | ((b2 % 16) << 4), b2 / 16, 0, 0)
  {
  }

  lemma FlagBits(b0: bv8, b1: bv8, b2: bv8, b3: bv8)
    ensures Eof(WordOf(b0, b1, b2, b3)) <==> b3 / 64 % 2 == 1
    ensures Owned(WordOf(b0, b1, b2, b3)) <==> b3 >= 128
  {
  }

  lemma ZeroByte()
    ensures (0 as bv8) as nat == 0
  {
  }

  /** What a descriptor's first four bytes say: the size in the low twelve bits, the length in the
      next twelve, end of frame and owner in the top two. */
  lemma ControlByBytes(b0: bv8, b1: bv8, b2: bv8, b3: bv8)
    ensures Size(WordOf(b0, b1, b2, b3)) == b0 as nat + 0x100 * (b1 % 16) as nat
    ensures Valid(WordOf(b0, b1, b2, b3)) == (b1 / 16) as nat + 0x10 * b2 as nat
    ensures Eof(WordOf(b0, b1, b2, b3)) <==> b3 / 64 % 2 == 1
    ensures Owned(WordOf(b0, b1, b2, b3)) <==> b3 >= 128
  {
    SizeBytes(b0, b1, b2, b3);
    ZeroByte();
    WordIsNumber(b0, b1 % 16, 0, 0);
    HalvesNumber(b1);
    HalvesNumber(b2);
    NibblesNumber(b1 / 16, b2 % 16);
    WordIsNumber((b1 / 16) | ((b2 % 16) << 4), b2 / 16, 0, 0);
    FlagBits(b0, b1, b2, b3);
  }

  // ----- one descriptor -----

  /** The two configuration bits a walk depends on. */
  datatype Env = Env(writeBack: bool, checkOwner: bool)

  datatype Cursor = Cursor(current: nat, previous: nat)

  /** The descriptor address registers. */
  datatype Trail = Trail(desc: nat, prev: nat, prev2: nat)

  /** What a visit to a descriptor changes. */
  datatype Walk = Walk(mem: Mem, cursor: Cursor, trail: Trail)

  /** A descriptor the walkers accept. */
  ghost predicate Good(env: Env, m: Mem, d: nat) {
    d % 4 == 0 && InRam(m, d, 12)
    && (env.checkOwner ==> Owned(Control(m, d)))
    && 0 < Valid(Control(m, d)) <= Size(Control(m, d))
    && InRam(m, Buffer(m, d), Valid(Control(m, d)))
  }

  function WroteBack(env: Env, m: Mem, d: nat): Mem {
    if env.writeBack then Write32(m, d, Released(Control(m, d))) else m
  }

  function Visit(env: Env, w: Walk, d: nat): Walk {
    Walk(WroteBack(env, w.mem, d), Cursor(d, w.cursor.current), Trail(d, w.trail.desc, w.trail.prev))
  }

  /** What a walker learns of a descriptor before it acts on it. */
  datatype Seen = Seen(good: bool, data: seq<bv8>, eof: bool, next: nat)

  ghost function Look(env: Env, m: Mem, d: nat): Seen {
    Seen(Good(env, m, d), Payload(m, d), Eof(Control(m, d)), NextOf(m, d))
  }

  // ----- chains, for any way of looking at and visiting descriptors -----

  /** How descriptors are read and what visiting one does. */
  datatype Reader = Reader(look: (Mem, nat) -> Seen, visit: (Walk, nat) -> Walk)

  ghost function ReaderOf(env: Env): Reader {
    Reader((m: Mem, d: nat) => Look(env, m, d), (w: Walk, d: nat) => Visit(env, w, d))
  }

  /** An accepted descriptor carries at least one byte. */
  ghost predicate NonEmpty(r: Reader) {
    forall m, d :: r.look(m, d).good ==> |r.look(m, d).data| > 0
  }

  lemma ReaderNonEmpty(env: Env)
    ensures NonEmpty(ReaderOf(env))
  {
  }

  /** `n` descriptors from `d` on: each accepted as memory stands when it is reached, the
      last and only the last marked end of frame, none before it null or its own successor. */
  ghost predicate Chain(r: Reader, w: Walk, d: nat, n: nat)
    decreases n
  {
    n > 0 && var s := r.look(w.mem, d);
      s.good && if n == 1 then s.eof else !s.eof && s.next != 0 && s.next != d && Chain(r, r.visit(w, d), s.next, n - 1)
  }

  ghost function ChainData(r: Reader, w: Walk, d: nat, n: nat): seq<bv8>
    decreases n
  {
    if n == 0 then [] else r.look(w.mem, d).data + ChainData(r, r.visit(w, d), r.look(w.mem, d).next, n - 1)
  }

  ghost function ChainWalk(r: Reader, w: Walk, d: nat, n: nat): Walk
    decreases n
  {
    if n == 0 then w else ChainWalk(r, r.visit(w, d), r.look(w.mem, d).next, n - 1)
  }

  /** The link that follows the chain. */
  ghost function ChainNext(r: Reader, w: Walk, d: nat, n: nat): nat
    decreases n
  {
    if n == 0 then d else ChainNext(r, r.visit(w, d), r.look(w.mem, d).next, n - 1)
  }

  // ----- the bounded walk -----

  datatype Outcome = Outcome(ok: bool, data: seq<bv8>, walk: Walk, visited: seq<nat>)

  /** Read `need` bytes from the chain at `d`, looking at no more than `left` descriptors. */
  ghost function Fixed(r: Reader, w: Walk, d: nat, need: nat, left: nat): (o: Outcome)
    decreases left
  {
    if left == 0 || need == 0 then Outcome(need == 0, [], w, [])
    else
      var s := r.look(w.mem, d);
      if !s.good || |s.data| > need then Outcome(false, [], w, [])
      else if |s.data| == need then Outcome(s.eof, s.data, r.visit(w, d), [d])
      else if s.eof || s.next == 0 || s.next == d then Outcome(false, s.data, r.visit(w, d), [d])
      else
        var o := Fixed(r, r.visit(w, d), s.next, need - |s.data|, left - 1);
        Outcome(o.ok, s.data + o.data, o.walk, [d] + o.visited)
  }

  /** Every walk ends within the bound, cyclic lists included, and never overfills. */
  lemma {:induction false} FixedIsBounded(r: Reader, w: Walk, d: nat, need: nat, left: nat)
    ensures var o := Fixed(r, w, d, need, left);
      |o.visited| <= left && |o.data| <= need && (o.ok ==> |o.data| == need)
    decreases left
  {
    if left > 0 && need > 0 {
      var s := r.look(w.mem, d);
      if s.good && |s.data| < need {
        FixedIsBounded(r, r.visit(w, d), s.next, need - |s.data|, left - 1);
      }
    }
  }

  lemma OneLink(r: Reader, w: Walk, d: nat)
    ensures ChainData(r, w, d, 1) == r.look(w.mem, d).data
    ensures ChainWalk(r, w, d, 1) == r.visit(w, d)
    ensures ChainNext(r, w, d, 1) == r.look(w.mem, d).next
  {
    assert ChainData(r, r.visit(w, d), r.look(w.mem, d).next, 0) == [];
    assert ChainWalk(r, r.visit(w, d), r.look(w.mem, d).next, 0) == r.visit(w, d);
  }

  /** A walk that succeeds has read exactly one chain, to its end. */
  lemma {:induction false} FixedReadsChain(r: Reader, w: Walk, d: nat, need: nat, left: nat) returns (n: nat)
    requires need > 0 && Fixed(r, w, d, need, left).ok
    ensures n <= left && Chain(r, w, d, n)
    ensures var o := Fixed(r, w, d, need, left);
      o.data == ChainData(r, w, d, n) && |o.data| == need && o.walk == ChainWalk(r, w, d, n)
    decreases left
  {
    var s := r.look(w.mem, d);
    if |s.data| == need {
      n := 1;
      OneLink(r, w, d);
    } else {
      var k := FixedReadsChain(r, r.visit(w, d), s.next, need - |s.data|, left - 1);
      n := k + 1;
    }
  }

  lemma {:induction false} ChainCarries(r: Reader, w: Walk, d: nat, n: nat)
    requires NonEmpty(r) && Chain(r, w, d, n)
    ensures |ChainData(r, w, d, n)| > 0
  {
    assert |r.look(w.mem, d).data| > 0;
  }

  /** And every chain short enough is read, given its length. */
  lemma {:induction false} ChainIsRead(r: Reader, w: Walk, d: nat, n: nat, left: nat)
    requires NonEmpty(r) && Chain(r, w, d, n) && n <= left
    ensures var o := Fixed(r, w, d, |ChainData(r, w, d, n)|, left);
      o.ok && o.data == ChainData(r, w, d, n) && o.walk == ChainWalk(r, w, d, n)
    decreases n
  {
    var s := r.look(w.mem, d);
    ChainCarries(r, w, d, n);
    if n == 1 {
      OneLink(r, w, d);
    } else {
      ChainCarries(r, r.visit(w, d), s.next, n - 1);
      ChainIsRead(r, r.visit(w, d), s.next, n - 1, left - 1);
    }
  }

  /** The fixed-length read succeeds exactly when some chain of at most `left`
      descriptors holds exactly that many bytes. */
  lemma FixedSucceeds(r: Reader, w: Walk, d: nat, need: nat, left: nat)
    requires NonEmpty(r) && need > 0
    ensures Fixed(r, w, d, need, left).ok
       <==> exists n: nat :: n <= left && Chain(r, w, d, n) && |ChainData(r, w, d, n)| == need
  {
    if Fixed(r, w, d, need, left).ok {
      var n := FixedReadsChain(r, w, d, need, left);
    }
    if n: nat :| n <= left && Chain(r, w, d, n) && |ChainData(r, w, d, n)| == need {
      ChainIsRead(r, w, d, n, left);
    }
  }

  // ----- what a walk does to memory -----

  /** The byte that holds the owner flag of a visited descriptor, with the flag cleared;
      any other byte as it was. */
  function ByteAfter(env: Env, m: Mem, visited: seq<nat>, x: nat): bv8 {
    if env.writeBack && x >= 3 && x - 3 in visited then Cleared(Read8(m, x)) else Read8(m, x)
  }

  function Cleared(b: bv8): bv8 { b & 0x7F }

  lemma ReleasedBytes(b0: bv8, b1: bv8, b2: bv8, b3: bv8, w: bv32)
    requires w == Released(WordOf(b0, b1, b2, b3))
    ensures ByteOf(w, 0) == b0 && ByteOf(w, 1) == b1 && ByteOf(w, 2) == b2 && ByteOf(w, 3) == Cleared(b3)
  {
  }

  lemma WriteBackAt(env: Env, m: Mem, d: nat, x: nat)
    requires InRam(m, d, 12) && x < ADDR_SPACE
    ensures Read8(WroteBack(env, m, d), x) == ByteAfter(env, m, [d], x)
  {
    if env.writeBack {
      var w := Released(Control(m, d));
      var s := [ByteOf(w, 0), ByteOf(w, 1), ByteOf(w, 2), ByteOf(w, 3)];
      ReleasedBytes(Read8(m, d), Read8(m, d + 1), Read8(m, d + 2), Read8(m, d + 3), w);
      WriteBytesAt(m, d, s, x);
    }
  }

  lemma ClearTwice(b: bv8)
    ensures Cleared(Cleared(b)) == Cleared(b)
  {
  }

  lemma AfterBoth(env: Env, m: Mem, m1: Mem, d: nat, rest: seq<nat>, x: nat)
    requires Read8(m1, x) == ByteAfter(env, m, [d], x)
    ensures ByteAfter(env, m1, rest, x) == ByteAfter(env, m, [d] + rest, x)
  {
    ClearTwice(Read8(m, x));
    assert forall k :: k in [d] + rest <==> k == d || k in rest;
  }

  /** A visit clears the owner flag of the descriptor and touches nothing else. */
  ghost predicate VisitsCleanly(env: Env, r: Reader) {
    forall w: Walk, d: nat, x: nat :: r.look(w.mem, d).good && x < ADDR_SPACE
      ==> Read8(r.visit(w, d).mem, x) == ByteAfter(env, w.mem, [d], x)
  }

  lemma ReaderVisitsCleanly(env: Env)
    ensures VisitsCleanly(env, ReaderOf(env))
  {
    var r := ReaderOf(env);
    forall w: Walk, d: nat, x: nat | r.look(w.mem, d).good && x < ADDR_SPACE
      ensures Read8(r.visit(w, d).mem, x) == ByteAfter(env, w.mem, [d], x)
    {
      WriteBackAt(env, w.mem, d, x);
    }
  }

  /** A walk that goes on past `d` ends as the rest of it ends. */
  lemma FixedGoesOn(r: Reader, w: Walk, d: nat, need: nat, left: nat)
    requires left > 0 && need > 0
    ensures var s, o := r.look(w.mem, d), Fixed(r, w, d, need, left);
      if !s.good || |s.data| > need then o.walk == w && o.visited == []
      else if |s.data| == need || s.eof || s.next == 0 || s.next == d then o.walk == r.visit(w, d) && o.visited == [d]
      else
        var n := Fixed(r, r.visit(w, d), s.next, need - |s.data|, left - 1);
        o.walk == n.walk && o.visited == [d] + n.visited
  {
  }

  /** A way of reading memory, `see`, that every visit changes in the way `after` says, is
      changed by a whole walk in the way `after` says of all its visits. */
  lemma {:induction false} WalkEffect(r: Reader, see: Mem -> bv8, after: (Mem, seq<nat>) -> bv8, w: Walk, d: nat,
                                      need: nat, left: nat)
    requires forall m :: after(m, []) == see(m)
    requires forall v: Walk, e: nat :: r.look(v.mem, e).good ==> see(r.visit(v, e).mem) == after(v.mem, [e])
    requires forall m, n, e, rest :: see(n) == after(m, [e]) ==> after(n, rest) == after(m, [e] + rest)
    ensures var o := Fixed(r, w, d, need, left); see(o.walk.mem) == after(w.mem, o.visited)
    decreases left
  {
    if left > 0 && need > 0 {
      FixedGoesOn(r, w, d, need, left);
      var s, v := r.look(w.mem, d), r.visit(w, d);
      if s.good && |s.data| <= need && !(|s.data| == need || s.eof || s.next == 0 || s.next == d) {
        WalkEffect(r, see, after, v, s.next, need - |s.data|, left - 1);
        var rest := Fixed(r, v, s.next, need - |s.data|, left - 1).visited;
        assert after(v.mem, rest) == after(w.mem, [d] + rest);
      }
    }
  }

  /** All a walk writes is the cleared owner flag of the descriptors it visited. */
  lemma OnlyOwnersCleared(env: Env, r: Reader, w: Walk, d: nat, need: nat, left: nat, x: nat)
    requires VisitsCleanly(env, r) && x < ADDR_SPACE
    ensures var o := Fixed(r, w, d, need, left);
      Read8(o.walk.mem, x) == ByteAfter(env, w.mem, o.visited, x)
  {
    var see := (m: Mem) => Read8(m, x);
    var after := (m: Mem, visited: seq<nat>) => ByteAfter(env, m, visited, x);
    forall m, n, e, rest | see(n) == after(m, [e])
      ensures after(n, rest) == after(m, [e] + rest)
    {
      AfterBoth(env, m, n, e, rest, x);
    }
    WalkEffect(r, see, after, w, d, need, left);
  }

  // ----- the transmit half of a channel -----

  /** The raw interrupt bits, eight of them, and the end-of-frame registers. */
  datatype Intr = Intr(raw: bv8, eofDesc: nat, eofPrev: nat)

  /** Link address, next descriptor of a stream, running or parked. */
  datatype Tx = Tx(link: nat, next: nat, active: bool, intr: Intr)

  datatype Side = Side(tx: Tx, walk: Walk)

  /** Done, end of frame, and end of the whole chain. */
  function Raised(raw: bv8, eof: bool, total: bool): bv8 {
    if eof then (if total then raw | 0x0B else raw | 0x03) else if total then raw | 0x09 else raw | 0x01
  }

  function Errored(raw: bv8): bv8 { raw | 4 }

  /** Completion of a fixed-length read. */
  function Finished(tx: Tx, cursor: Cursor, success: bool, eof: bool): Tx {
    tx.(active := false,
        intr := if success then Intr(Raised(tx.intr.raw, eof, true), cursor.current, cursor.previous)
                else tx.intr.(raw := Errored(tx.intr.raw)))
  }

  datatype Got = Got(ok: bool, data: seq<bv8>, side: Side)

  const DESC_LIMIT: nat := 1024

  /** The fixed-length read, from the start of the chain. */
  ghost function ReadFixed(r: Reader, start: nat, s: Side, length: nat): Got {
    var o := Fixed(r, s.walk, start, length, DESC_LIMIT);
    Got(o.ok, o.data, Side(Finished(s.tx, o.walk.cursor, o.ok, length > 0), o.walk))
  }

  /** Where a stream continues. */
  function Position(start: nat, tx: Tx): nat { if tx.next != 0 then tx.next else start }

  /** Completion of one descriptor of a stream. */
  function Completed(tx: Tx, d: nat, previous: nat, eof: bool, next: nat): Tx {
    Tx(tx.link, next, tx.active && next != 0,
       Intr(Raised(tx.intr.raw, eof, next == 0), if eof then d else tx.intr.eofDesc,
            if eof then previous else tx.intr.eofPrev))
  }

  function Refused(tx: Tx): Tx { tx.(active := false, intr := tx.intr.(raw := Errored(tx.intr.raw))) }

  /** One descriptor of a stream. */
  ghost function ReadOne(r: Reader, start: nat, s: Side, capacity: nat): Got {
    var d := Position(start, s.tx);
    var seen := r.look(s.walk.mem, d);
    if !seen.good || |seen.data| > capacity then
      Got(false, [], Side(Refused(s.tx), s.walk.(cursor := s.walk.cursor.(current := d))))
    else
      var w := r.visit(s.walk, d);
      Got(true, seen.data, Side(Completed(s.tx, d, w.cursor.previous, seen.eof, seen.next), w))
  }

  /** `n` descriptors, one call each, stopping at the first that fails. */
  ghost function ReadMany(r: Reader, start: nat, s: Side, capacity: nat, n: nat): Got
    decreases n
  {
    if n == 0 then Got(true, [], s)
    else
      var one := ReadOne(r, start, s, capacity);
      if !one.ok then one
      else
        var rest := ReadMany(r, start, one.side, capacity, n - 1);
        Got(rest.ok, one.data + rest.data, rest.side)
  }

  /** A visit makes the descriptor current and remembers the one before. */
  ghost predicate MovesCursor(r: Reader) {
    forall w: Walk, d: nat :: r.visit(w, d).cursor == Cursor(d, w.cursor.current)
  }

  lemma ReaderMovesCursor(env: Env)
    ensures MovesCursor(ReaderOf(env))
  {
  }

  lemma RaisedAgain(raw: bv8, total: bool)
    ensures Raised(Raised(raw, false, false), true, total) == Raised(raw, true, total)
  {
  }

  /** The transmit half after a whole chain was streamed. */
  ghost function Streamed(tx: Tx, cursor: Cursor, next: nat): Tx {
    Tx(tx.link, next, tx.active && next != 0,
       Intr(Raised(tx.intr.raw, true, next == 0), cursor.current, cursor.previous))
  }

  /** The payload of each descriptor fits the buffer of one call. */
  ghost predicate EachFits(r: Reader, w: Walk, d: nat, n: nat, capacity: nat)
    decreases n
  {
    n > 0 ==>
      var s := r.look(w.mem, d);
      |s.data| <= capacity && EachFits(r, r.visit(w, d), s.next, n - 1, capacity)
  }

  /** Streaming a chain delivers its bytes and raises what its last descriptor raises. */
  lemma {:induction false} StreamsChain(r: Reader, start: nat, s: Side, d: nat, n: nat, capacity: nat)
    requires MovesCursor(r) && d == Position(start, s.tx)
    requires Chain(r, s.walk, d, n) && EachFits(r, s.walk, d, n, capacity)
    ensures var w := ChainWalk(r, s.walk, d, n);
            ReadMany(r, start, s, capacity, n)
            == Got(true, ChainData(r, s.walk, d, n), Side(Streamed(s.tx, w.cursor, ChainNext(r, s.walk, d, n)), w))
    decreases n
  {
    var seen := r.look(s.walk.mem, d);
    var one := ReadOne(r, start, s, capacity);
    var w := r.visit(s.walk, d);
    if n == 1 {
      OneLink(r, s.walk, d);
      assert ReadMany(r, start, one.side, capacity, 0) == Got(true, [], one.side);
      assert one.data + [] == one.data;
    } else {
      StreamsChain(r, start, one.side, seen.next, n - 1, capacity);
      RaisedAgain(s.tx.intr.raw, ChainNext(r, w, seen.next, n - 1) == 0);
    }
  }

  /** And a descriptor that does not fit stops the stream. */
  lemma {:induction false} MisfitStops(r: Reader, start: nat, s: Side, d: nat, n: nat, capacity: nat)
    requires d == Position(start, s.tx) && Chain(r, s.walk, d, n) && !EachFits(r, s.walk, d, n, capacity)
    ensures !ReadMany(r, start, s, capacity, n).ok
    decreases n
  {
    var seen, one := r.look(s.walk.mem, d), ReadOne(r, start, s, capacity);
    if one.ok && n > 1 {
      MisfitStops(r, start, one.side, seen.next, n - 1, capacity);
    }
  }

  /** On a running channel, streaming a chain succeeds if and only if each of its descriptors
      fits the buffer of one call, however long the chain is. Then the two ways of reading
      deliver the same bytes and leave the same memory and descriptor registers; they also
      agree on interrupt bits, on the end-of-frame registers and on parking the channel
      exactly when the chain ends. (Only the stream keeps its own next pointer.) */
  lemma StreamAgreesWithFixed(r: Reader, start: nat, s: Side, n: nat, capacity: nat)
    requires NonEmpty(r) && MovesCursor(r) && start == Position(start, s.tx) && s.tx.active
    requires Chain(r, s.walk, start, n) && n <= DESC_LIMIT
    ensures var fixed := ReadFixed(r, start, s, |ChainData(r, s.walk, start, n)|);
            var stream := ReadMany(r, start, s, capacity, n);
            && fixed.ok && fixed.data == ChainData(r, s.walk, start, n)
            && (stream.ok <==> EachFits(r, s.walk, start, n, capacity))
            && (stream.ok ==>
                  && stream.data == fixed.data && stream.side.walk == fixed.side.walk
                  && (fixed.side.tx == stream.side.tx.(next := s.tx.next) <==> ChainNext(r, s.walk, start, n) == 0))
  {
    ChainIsRead(r, s.walk, start, n, DESC_LIMIT);
    ChainCarries(r, s.walk, start, n);
    if EachFits(r, s.walk, start, n, capacity) {
      StreamsChain(r, start, s, start, n, capacity);
    } else {
      MisfitStops(r, start, s, start, n, capacity);
    }
  }

  /** No descriptor carries more than `most` bytes. */
  ghost predicate AtMost(r: Reader, most: nat) {
    forall m, d :: r.look(m, d).good ==> |r.look(m, d).data| <= most
  }

  /** The largest payload: sizes have twelve bits. */
  const MAX_PAYLOAD: nat := 4095

  lemma SizeBound(c: bv32)
    ensures Size(c) <= MAX_PAYLOAD
  {
  }

  lemma ReaderAtMost(env: Env)
    ensures AtMost(ReaderOf(env), MAX_PAYLOAD)
  {
    var r := ReaderOf(env);
    forall m, d | r.look(m, d).good
      ensures |r.look(m, d).data| <= MAX_PAYLOAD
    {
      SizeBound(Control(m, d));
    }
  }

  /** So a buffer of that size fits every descriptor of every chain. */
  lemma {:induction false} LargeBufferFits(r: Reader, w: Walk, d: nat, n: nat, most: nat, capacity: nat)
    requires AtMost(r, most) && most <= capacity && Chain(r, w, d, n)
    ensures EachFits(r, w, d, n, capacity)
    decreases n
  {
    var s := r.look(w.mem, d);
    if n > 1 {
      LargeBufferFits(r, r.visit(w, d), s.next, n - 1, most, capacity);
    } else {
      assert EachFits(r, r.visit(w, d), s.next, 0, capacity);
    }
  }
}
