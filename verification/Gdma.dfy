/** The transmit side of the DMA controller: channels that peripherals select, and the two
    calls by which a peripheral takes bytes from a descriptor chain. */
module Gdma {
  import opened GuestMemory
  import opened GdmaChain

  // ----- looking at a descriptor -----

  lemma AddressBound(w: bv32)
    ensures w as nat < ADDR_SPACE
  {
  }

  lemma AddressesBound(m: Mem, d: nat)
    ensures Buffer(m, d) < ADDR_SPACE && NextOf(m, d) < ADDR_SPACE
  {
    AddressBound(Read32(m, d + 4));
    AddressBound(Read32(m, d + 8));
  }

  lemma KeepsPages(m: Mem, n: Mem)
    requires Paged(m) && n.Keys == m.Keys
    ensures Paged(n)
  {
    forall a: nat
      ensures a in n <==> PageOf(a) in n
    {
      assert a in m <==> PageOf(a) in m;
      assert a in n <==> a in n.Keys;
      assert PageOf(a) in n <==> PageOf(a) in n.Keys;
    }
  }

  method CopyPayload(m: Mem, buffer: nat, n: nat) returns (data: seq<bv8>)
    ensures data == ReadBytes(m, buffer, n)
  {
    data := [];
    for i := 0 to n
      invariant |data| == i && forall k :: 0 <= k < i ==> data[k] == Read8(m, buffer + k)
    {
      data := data + [Read8(m, buffer + i)];
    }
  }

  /** The checks both readers make before they touch anything, and the bytes to deliver. */
  method Inspect(env: Env, m: Mem, d: nat, room: nat) returns (good: bool, data: seq<bv8>, eof: bool, next: nat)
    requires Paged(m) && d < ADDR_SPACE
    ensures var s := Look(env, m, d);
      good == (s.good && |s.data| <= room) && (good ==> data == s.data && eof == s.eof && next == s.next)
    ensures next < ADDR_SPACE
  {
    data, eof, next := [], false, 0;
    if d % 4 != 0 { return false, data, eof, next; }
    good := RangeValid(m, d, 12);
    if !good { return; }
    var control, valid := Control(m, d), Valid(Control(m, d));
    AddressesBound(m, d);
    eof, next := Eof(control), NextOf(m, d);
    if (env.checkOwner && !Owned(control)) || valid == 0 || valid > Size(control) || valid > room {
      return false, data, eof, next;
    }
    good := RangeValid(m, Buffer(m, d), valid);
    if good {
      data := CopyPayload(m, Buffer(m, d), valid);
    }
  }

  // ----- the bounded walk -----

  /** A walk under way: what is in `data`, then what `rest` will bring. */
  ghost predicate Resumes(whole: Outcome, data: seq<bv8>, rest: Outcome) {
    whole.ok == rest.ok && whole.data == data + rest.data && whole.walk == rest.walk
  }

  lemma ResumesOn(whole: Outcome, data: seq<bv8>, more: seq<bv8>, rest: Outcome, next: Outcome)
    requires Resumes(whole, data, rest) && rest.ok == next.ok && rest.data == more + next.data && rest.walk == next.walk
    ensures Resumes(whole, data + more, next)
  {
    assert data + (more + next.data) == data + more + next.data;
  }

  lemma ResumesAtEnd(whole: Outcome, data: seq<bv8>, rest: Outcome)
    requires Resumes(whole, data, rest) && rest.data == []
    ensures whole.data == data
  {
  }

  /** `r` reads descriptors the way the configuration asks for. */
  ghost predicate Reads(r: Reader, env: Env) {
    (forall m: Mem, d: nat {:trigger Look(env, m, d)} :: r.look(m, d) == Look(env, m, d))
    && (forall w: Walk, d: nat {:trigger Visit(env, w, d)} :: r.visit(w, d) == Visit(env, w, d))
  }

  /** One turn of the walk: it either ends there or goes on at `next`. */
  method Turn(env: Env, w: Walk, d: nat, need: nat, left: nat, ghost r: Reader)
    returns (done: bool, ok: bool, data: seq<bv8>, after: Walk, next: nat)
    requires Reads(r, env) && Paged(w.mem) && d < ADDR_SPACE && need > 0 && left > 0
    ensures after.mem.Keys == w.mem.Keys && next < ADDR_SPACE && |data| <= need
    ensures var o := Fixed(r, w, d, need, left);
      if done then o.ok == ok && o.data == data && o.walk == after
      else |data| < need && var n := Fixed(r, after, next, need - |data|, left - 1);
           o.ok == n.ok && o.data == data + n.data && o.walk == n.walk
  {
    var good, payload, eof, following := Inspect(env, w.mem, d, need);
    FixedStep(r, w, d, need, left);
    done, ok, data, after, next := true, false, [], w, following;
    if !good { return; }
    data, after := payload, Visit(env, w, d);
    if |data| == need {
      ok := eof;
    } else {
      done := eof || next == 0 || next == d;
    }
  }

  /** The walk, over at most `limit` descriptors. */
  method WalkFixed(env: Env, w0: Walk, start: nat, length: nat, limit: nat, ghost r: Reader)
    returns (ok: bool, data: seq<bv8>, w: Walk)
    requires Reads(r, env) && Paged(w0.mem) && start < ADDR_SPACE
    ensures var o := Fixed(r, w0, start, length, limit); ok == o.ok && data == o.data && w == o.walk
    ensures w.mem.Keys == w0.mem.Keys
  {
    ghost var whole := Fixed(r, w0, start, length, limit);
    var d: nat, left: nat, need: nat := start, limit, length;
    data, w := [], w0;
    while left > 0 && need > 0
      invariant need + |data| == length && d < ADDR_SPACE && w.mem.Keys == w0.mem.Keys
      invariant Resumes(whole, data, Fixed(r, w, d, need, left))
      decreases left
    {
      KeepsPages(w0.mem, w.mem);
      ghost var now := Fixed(r, w, d, need, left);
      var done, fine, payload, after, next := Turn(env, w, d, need, left, r);
      if done {
        return fine, data + payload, after;
      }
      need, left := need - |payload|, left - 1;
      ResumesOn(whole, data, payload, now, Fixed(r, after, next, need, left));
      data, w, d := data + payload, after, next;
    }
    ok := need == 0;
    ResumesAtEnd(whole, data, Fixed(r, w, d, need, left));
  }

  lemma FixedStep(r: Reader, w: Walk, d: nat, need: nat, left: nat)
    requires left > 0 && need > 0
    ensures var s, o := r.look(w.mem, d), Fixed(r, w, d, need, left);
      (!s.good || |s.data| > need ==> !o.ok && o.data == [] && o.walk == w)
      && (s.good && |s.data| == need ==> o.ok == s.eof && o.data == s.data && o.walk == r.visit(w, d))
      && (s.good && |s.data| < need && (s.eof || s.next == 0 || s.next == d) ==>
           !o.ok && o.data == s.data && o.walk == r.visit(w, d))
      && (s.good && |s.data| < need && !s.eof && s.next != 0 && s.next != d ==>
            var n := Fixed(r, r.visit(w, d), s.next, need - |s.data|, left - 1);
            o.ok == n.ok && o.data == s.data + n.data && o.walk == n.walk)
  {
  }

  // ----- the controller -----

  /** Configuration words a channel's owner writes. */
  datatype Conf = Conf(conf0: bv32, conf1: bv32, peripheral: nat, enabled: bv8)

  /** The transmit half of a channel; `level` is its interrupt line. */
  datatype Channel = Channel(conf: Conf, tx: Tx, cursor: Cursor, trail: Trail, level: bool)

  function EnvOf(conf: Conf): Env { Env(conf.conf0 & 0x4 != 0, conf.conf1 & 0x1000 != 0) }

  predicate Level(raw: bv8, enabled: bv8) { raw & enabled != 0 }

  /** The interrupt line follows the enabled raw bits. */
  predicate LineOk(c: Channel) { c.level == Level(c.tx.intr.raw, c.conf.enabled) }

  const LINK_MASK: nat := 0x10_0000

  /** The bit of the link register that says a channel is not running. */
  const PARKED: nat := 0x80_0000

  function LinkWord(c: Channel): nat { c.tx.link + if c.tx.active then 0 else PARKED }

  predicate ChannelOk(c: Channel) { LineOk(c) && c.tx.link < LINK_MASK && c.tx.next < ADDR_SPACE }

  function SideOf(m: Mem, c: Channel): Side { Side(c.tx, Walk(m, c.cursor, c.trail)) }

  /** A channel brought up to date with what a read left, its line included. */
  function Updated(c: Channel, s: Side): Channel {
    Channel(c.conf, s.tx, s.walk.cursor, s.walk.trail, Level(s.tx.intr.raw, c.conf.enabled))
  }

  /** A channel after power-on. */
  const RESET: Channel :=
    Channel(Conf(0, 0, 0x3F, 0), Tx(0, 0, false, Intr(0, 0, 0)), Cursor(0, 0), Trail(0, 0, 0), false)

  predicate Selected(c: Channel, id: nat) { c.tx.active && c.conf.peripheral == id }

  class Controller {
    /** High bits of descriptor addresses; the link register supplies the low twenty. */
    const prefix: nat
    var mem: Mem
    var channels: seq<Channel>

    ghost predicate Valid()
      reads this
    {
      prefix % LINK_MASK == 0 && prefix + LINK_MASK <= ADDR_SPACE && Paged(mem)
      && forall i :: 0 <= i < |channels| ==> ChannelOk(channels[i])
    }

    constructor (p: nat, m: Mem, n: nat)
      requires p % LINK_MASK == 0 && p + LINK_MASK <= ADDR_SPACE && Paged(m)
      ensures Valid() && prefix == p && mem == m && |channels| == n
      ensures forall i :: 0 <= i < n ==> channels[i] == RESET
    {
      prefix, mem := p, m;
      channels := seq(n, _ => RESET);
    }

    function StartOf(c: Channel): nat { prefix + c.tx.link }

    /** The first running channel that serves a peripheral. */
    method ActiveTx(id: nat) returns (i: nat)
      ensures i <= |channels|
      ensures i < |channels| ==> Selected(channels[i], id)
      ensures forall k :: 0 <= k < i ==> !Selected(channels[k], id)
    {
      i := 0;
      while i < |channels| && !Selected(channels[i], id)
        invariant i <= |channels| && forall k :: 0 <= k < i ==> !Selected(channels[k], id)
      {
        i := i + 1;
      }
    }

    method Store(i: nat, s: Side)
      requires Valid() && i < |channels| && s.walk.mem.Keys == mem.Keys && s.tx.link < LINK_MASK
      requires s.tx.next < ADDR_SPACE
      modifies this
      ensures Valid() && mem == s.walk.mem && channels == old(channels)[i := Updated(old(channels)[i], s)]
    {
      KeepsPages(mem, s.walk.mem);
      mem := s.walk.mem;
      channels := channels[i := Updated(channels[i], s)];
    }

    /** Take exactly `length` bytes from the chain of the channel serving `id`. */
    method ReadTx(id: nat, length: nat) returns (ok: bool, data: seq<bv8>, ghost i: nat)
      requires Valid()
      modifies this
      ensures Valid() && i <= |old(channels)|
      ensures forall k :: 0 <= k < i ==> !(old(channels)[k].tx.active && old(channels)[k].conf.peripheral == id)
      ensures i == |old(channels)| ==> !ok && mem == old(mem) && channels == old(channels)
      ensures i < |old(channels)| ==>
        var c := old(channels)[i];
        var got := ReadFixed(ReaderOf(EnvOf(c.conf)), StartOf(c), SideOf(old(mem), c), length);
        c.tx.active && c.conf.peripheral == id && ok == got.ok && data == got.data
        && mem == got.side.walk.mem && channels == old(channels)[i := Updated(c, got.side)]
    {
      var k := ActiveTx(id);
      i := k;
      ok, data := false, [];
      if k == |channels| { return; }
      var c := channels[k];
      var w;
      ok, data, w := WalkFixed(EnvOf(c.conf), Walk(mem, c.cursor, c.trail), StartOf(c), length, DESC_LIMIT,
                               ReaderOf(EnvOf(c.conf)));
      Store(k, Side(Finished(c.tx, w.cursor, ok, length > 0), w));
    }

    /** Take the next descriptor of the chain, if it fits in `capacity` bytes. */
    method ReadTxDescriptor(id: nat, capacity: nat) returns (ok: bool, data: seq<bv8>, ghost i: nat)
      requires Valid()
      modifies this
      ensures Valid() && i <= |old(channels)|
      ensures forall k :: 0 <= k < i ==> !(old(channels)[k].tx.active && old(channels)[k].conf.peripheral == id)
      ensures i == |old(channels)| ==> !ok && mem == old(mem) && channels == old(channels)
      ensures i < |old(channels)| ==>
        var c := old(channels)[i];
        var got := ReadOne(ReaderOf(EnvOf(c.conf)), StartOf(c), SideOf(old(mem), c), capacity);
        c.tx.active && c.conf.peripheral == id && ok == got.ok && data == got.data
        && mem == got.side.walk.mem && channels == old(channels)[i := Updated(c, got.side)]
    {
      var k := ActiveTx(id);
      i := k;
      ok, data := false, [];
      if k == |channels| { return; }
      var c := channels[k];
      var env, d, w := EnvOf(c.conf), Position(StartOf(c), c.tx), Walk(mem, c.cursor, c.trail);
      var good, payload, eof, next := Inspect(env, mem, d, capacity);
      if !good {
        Store(k, Side(Refused(c.tx), w.(cursor := w.cursor.(current := d))));
        return;
      }
      ok, data := true, payload;
      w := Visit(env, w, d);
      Store(k, Side(Completed(c.tx, d, w.cursor.previous, eof, next), w));
    }

    /** A write to the link register: new address, stop, then start or restart. */
    method WriteLink(i: nat, address: nat, stop: bool, start: bool)
      requires Valid() && i < |channels| && address < 0x10_0000
      modifies this
      ensures Valid() && mem == old(mem)
      ensures var c := old(channels)[i];
              channels == old(channels)[i := c.(tx := Relinked(c.tx, address, stop, start, prefix))]
      ensures var c := channels[i];
              && (start ==> c.tx.active && Position(StartOf(c), c.tx) == StartOf(c) == prefix + address)
              && (!start ==> c.tx.active == (old(channels)[i].tx.active && !stop))
              && (!start ==> c.tx.next == old(channels)[i].tx.next)
              && LinkWord(c) == address + if c.tx.active then 0 else 0x80_0000
    {
      var c := channels[i];
      channels := channels[i := c.(tx := Relinked(c.tx, address, stop, start, prefix))];
    }

    /** What the guest reads from the link register. */
    method ReadLink(i: nat) returns (value: nat)
      requires Valid() && i < |channels|
      ensures value == channels[i].tx.link + if channels[i].tx.active then 0 else 0x80_0000
      ensures value == LinkWord(channels[i])
    {
      value := channels[i].tx.link;
      if !channels[i].tx.active {
        value := value + PARKED;
      }
    }

    /** Writes to the interrupt enable and clear registers. */
    method WriteEnable(i: nat, value: bv8)
      requires Valid() && i < |channels|
      modifies this
      ensures Valid() && mem == old(mem)
      ensures var c := old(channels)[i];
        channels == old(channels)[i := c.(conf := c.conf.(enabled := value), level := c.tx.intr.raw & value != 0)]
    {
      var c := channels[i];
      channels := channels[i := c.(conf := c.conf.(enabled := value), level := Level(c.tx.intr.raw, value))];
    }

    method WriteClear(i: nat, value: bv8)
      requires Valid() && i < |channels|
      modifies this
      ensures Valid() && mem == old(mem)
      ensures var c := old(channels)[i];
              var tx := c.tx.(intr := c.tx.intr.(raw := Without(c.tx.intr.raw, value)));
              channels == old(channels)[i := Updated(c, Side(tx, Walk(mem, c.cursor, c.trail)))]
      ensures var before, after := old(channels)[i].tx.intr.raw, channels[i].tx.intr.raw;
              after & value == 0 && after | value == before | value
    {
      var c := channels[i];
      WithoutBits(c.tx.intr.raw, value);
      Store(i, Side(c.tx.(intr := c.tx.intr.(raw := Without(c.tx.intr.raw, value))), Walk(mem, c.cursor, c.trail)));
    }
  }

  function Without(raw: bv8, value: bv8): bv8 { raw & (value ^ 0xFF) }

  lemma WithoutBits(raw: bv8, value: bv8)
    ensures Without(raw, value) & value == 0 && Without(raw, value) | value == raw | value
  {
  }

  function Relinked(tx: Tx, address: nat, stop: bool, start: bool, prefix: nat): Tx {
    Tx(address, if start then prefix + address else tx.next, start || (tx.active && !stop), tx.intr)
  }

  /** From a freshly started channel, draining a chain of up to 1024 descriptors one call
      at a time succeeds if and only if each descriptor fits one call, which a buffer of 4095
      bytes makes sure of; then draining it and reading its whole length in one call come to
      the same thing. */
  lemma DrainingAgrees(m: Mem, c: Channel, prefix: nat, n: nat, capacity: nat)
    requires c.tx.active && Position(prefix + c.tx.link, c.tx) == prefix + c.tx.link
    requires Chain(ReaderOf(EnvOf(c.conf)), Walk(m, c.cursor, c.trail), prefix + c.tx.link, n) && n <= DESC_LIMIT
    ensures var r, start, w := ReaderOf(EnvOf(c.conf)), prefix + c.tx.link, Walk(m, c.cursor, c.trail);
            var data := ChainData(r, w, start, n);
            var fixed := ReadFixed(r, start, SideOf(m, c), |data|);
            var stream := ReadMany(r, start, SideOf(m, c), capacity, n);
            && fixed.ok && fixed.data == data
            && (stream.ok <==> EachFits(r, w, start, n, capacity))
            && (capacity >= 4095 ==> stream.ok)
            && (stream.ok ==>
                  && stream.data == data && fixed.side.walk == stream.side.walk
                  && (Updated(c, fixed.side) == Updated(c, stream.side).(tx := stream.side.tx.(next := c.tx.next))
                      <==> ChainNext(r, w, start, n) == 0))
  {
    var env, start, w := EnvOf(c.conf), prefix + c.tx.link, Walk(m, c.cursor, c.trail);
    ReaderNonEmpty(env);
    ReaderMovesCursor(env);
    StreamAgreesWithFixed(ReaderOf(env), start, SideOf(m, c), n, capacity);
    ReaderAtMost(env);
    if capacity >= MAX_PAYLOAD {
      LargeBufferFits(ReaderOf(env), w, start, n, MAX_PAYLOAD, capacity);
    }
  }

  /** Whatever the outcome, a fixed-length read looks at no more than 1024 descriptors, and
      all it writes to memory is the cleared owner flag of the descriptors it visited. */
  lemma FixedReadIsBounded(env: Env, w: Walk, start: nat, length: nat, x: nat)
    requires x < ADDR_SPACE
    ensures var o := Fixed(ReaderOf(env), w, start, length, DESC_LIMIT);
      |o.visited| <= 1024 && |o.data| <= length && Read8(o.walk.mem, x) == ByteAfter(env, w.mem, o.visited, x)
  {
    FixedIsBounded(ReaderOf(env), w, start, length, DESC_LIMIT);
    ReaderVisitsCleanly(env);
    OnlyOwnersCleared(env, ReaderOf(env), w, start, length, DESC_LIMIT, x);
  }

  /** It succeeds, on a positive length, exactly when one chain of at most 1024 descriptors
      holds exactly that many bytes. */
  lemma FixedReadSucceeds(env: Env, w: Walk, start: nat, length: nat)
    requires length > 0
    ensures Fixed(ReaderOf(env), w, start, length, DESC_LIMIT).ok
       <==> exists n: nat ::
              n <= 1024 && Chain(ReaderOf(env), w, start, n) && |ChainData(ReaderOf(env), w, start, n)| == length
  {
    ReaderNonEmpty(env);
    FixedSucceeds(ReaderOf(env), w, start, length, DESC_LIMIT);
  }

  // ----- one descriptor, by its bytes and by the bits of the registers -----

  datatype Fields = Fields(size: nat, length: nat, eof: bool, owned: bool, buffer: nat, next: nat)

  /** The fields of the descriptor at `d`. */
  ghost predicate FieldsAt(m: Mem, d: nat, f: Fields) {
    f == Fields(Size(Control(m, d)), Valid(Control(m, d)), Eof(Control(m, d)), Owned(Control(m, d)), Buffer(m, d),
                NextOf(m, d))
  }

  lemma ControlFields(m: Mem, d: nat, f: Fields)
    requires f.size == Read8(m, d) as nat + 0x100 * (Read8(m, d + 1) % 16) as nat
    requires f.length == (Read8(m, d + 1) / 16) as nat + 0x10 * Read8(m, d + 2) as nat
    ensures Size(Control(m, d)) == f.size && Valid(Control(m, d)) == f.length
    ensures Eof(Control(m, d)) <==> Read8(m, d + 3) / 64 % 2 == 1
    ensures Owned(Control(m, d)) <==> Read8(m, d + 3) >= 128
  {
    ControlByBytes(Read8(m, d), Read8(m, d + 1), Read8(m, d + 2), Read8(m, d + 3));
  }

  lemma AddressField(m: Mem, a: nat, address: nat)
    requires address == Read8(m, a) as nat + 0x100 * Read8(m, a + 1) as nat
                        + 0x1_0000 * Read8(m, a + 2) as nat + 0x100_0000 * Read8(m, a + 3) as nat
    ensures Read32(m, a) as nat == address
  {
    WordIsNumber(Read8(m, a), Read8(m, a + 1), Read8(m, a + 2), Read8(m, a + 3));
  }

  /** Twelve bytes: twelve bits of size, twelve of length, end of frame and owner in the top two
      bits of the fourth byte, then the addresses of the payload and of the next descriptor. */
  lemma FieldsByBytes(m: Mem, d: nat, f: Fields)
    requires f.size == Read8(m, d) as nat + 0x100 * (Read8(m, d + 1) % 16) as nat
    requires f.length == (Read8(m, d + 1) / 16) as nat + 0x10 * Read8(m, d + 2) as nat
    requires f.eof == (Read8(m, d + 3) / 64 % 2 == 1) && f.owned == (Read8(m, d + 3) >= 128)
    requires f.buffer == Read8(m, d + 4) as nat + 0x100 * Read8(m, d + 4 + 1) as nat
                         + 0x1_0000 * Read8(m, d + 4 + 2) as nat + 0x100_0000 * Read8(m, d + 4 + 3) as nat
    requires f.next == Read8(m, d + 8) as nat + 0x100 * Read8(m, d + 8 + 1) as nat
                       + 0x1_0000 * Read8(m, d + 8 + 2) as nat + 0x100_0000 * Read8(m, d + 8 + 3) as nat
    ensures FieldsAt(m, d, f)
  {
    ControlFields(m, d, f);
    AddressField(m, d + 4, f.buffer);
    AddressField(m, d + 8, f.next);
  }

  /** The interrupt bits: done, end of frame, error and end of the chain are 1, 2, 4 and 8. */
  lemma RaisedByBits(raw: bv8, eof: bool, total: bool)
    ensures Raised(raw, eof, total) == raw | 1 | (if eof then 2 else 0) | (if total then 8 else 0)
    ensures Errored(raw) == raw | 4
  {
  }

  lemma ClearedNumber(b: bv8)
    ensures Cleared(b) == b % 128
  {
  }

  lemma SeenByFields(env: Env, m: Mem, d: nat, f: Fields)
    requires FieldsAt(m, d, f)
    ensures var s := Look(env, m, d);
      && (s.good <==>
            && d % 4 == 0 && InRam(m, d, 12) && (env.checkOwner ==> f.owned)
            && 0 < f.length <= f.size && InRam(m, f.buffer, f.length))
      && s.data == ReadBytes(m, f.buffer, f.length) && s.eof == f.eof && s.next == f.next
  {
  }

  lemma OneIsLook(env: Env, start: nat, s: Side, room: nat)
    ensures var d, got := Position(start, s.tx), ReadOne(ReaderOf(env), start, s, room);
            var seen := Look(env, s.walk.mem, d);
            && got.ok == (seen.good && |seen.data| <= room)
            && (got.ok ==>
                  got == Got(true, seen.data,
                             Side(Completed(s.tx, d, s.walk.cursor.current, seen.eof, seen.next),
                                  Visit(env, s.walk, d))))
            && (!got.ok ==>
                  got == Got(false, [], Side(Refused(s.tx), s.walk.(cursor := Cursor(d, s.walk.cursor.previous)))))
  {
  }

  lemma TakenByFields(env: Env, m: Mem, c: Channel, start: nat, room: nat, d: nat, f: Fields)
    requires d == Position(start, c.tx) && FieldsAt(m, d, f)
    ensures var got := ReadOne(ReaderOf(env), start, SideOf(m, c), room);
      && (got.ok <==>
            && d % 4 == 0 && InRam(m, d, 12) && (env.checkOwner ==> f.owned)
            && 0 < f.length <= f.size && f.length <= room && InRam(m, f.buffer, f.length))
      && (got.ok ==>
            got == Got(true, ReadBytes(m, f.buffer, f.length),
                       Side(Completed(c.tx, d, c.cursor.current, f.eof, f.next),
                            Visit(env, Walk(m, c.cursor, c.trail), d))))
      && (!got.ok ==> got == Got(false, [], Side(Refused(c.tx), Walk(m, Cursor(d, c.cursor.previous), c.trail))))
  {
    SeenByFields(env, m, d, f);
    OneIsLook(env, start, SideOf(m, c), room);
  }

  /** What taking a descriptor leaves in memory. */
  lemma WrittenByBytes(conf: Conf, w: Walk, d: nat, x: nat)
    requires InRam(w.mem, d, 12) && x < 0x1_0000_0000
    ensures Read8(Visit(EnvOf(conf), w, d).mem, x)
         == if conf.conf0 & 0x4 != 0 && x == d + 3 then Read8(w.mem, x) % 128 else Read8(w.mem, x)
  {
    WriteBackAt(EnvOf(conf), w.mem, d, x);
    ClearedNumber(Read8(w.mem, x));
  }

  /** Reading the descriptor at `d`, with these fields, from a channel. It is taken exactly when it
      is aligned and mapped, is owned if owners are checked, and carries a mapped payload that fits
      its size and the caller's room. */
  lemma TakenExactly(m: Mem, c: Channel, start: nat, room: nat, d: nat, f: Fields)
    requires d == (if c.tx.next != 0 then c.tx.next else start) && FieldsAt(m, d, f)
    ensures var got := ReadOne(ReaderOf(EnvOf(c.conf)), start, SideOf(m, c), room);
      got.ok <==>
        && d % 4 == 0 && d + 12 <= 0x1_0000_0000 && (forall k :: d <= k < d + 12 ==> k in m)
        && (c.conf.conf1 & 0x1000 != 0 ==> f.owned) && 0 < f.length <= f.size && f.length <= room
        && f.buffer + f.length <= 0x1_0000_0000 && forall k :: f.buffer <= k < f.buffer + f.length ==> k in m
  {
    TakenByFields(EnvOf(c.conf), m, c, start, room, d, f);
  }

  /** And what that leaves in the registers and in memory. */
  lemma TakenLeaves(m: Mem, c: Channel, start: nat, room: nat, d: nat, f: Fields)
    requires d == (if c.tx.next != 0 then c.tx.next else start) && FieldsAt(m, d, f)
    ensures var got := ReadOne(ReaderOf(EnvOf(c.conf)), start, SideOf(m, c), room);
      if got.ok then
        && got.data == ReadBytes(m, f.buffer, f.length)
        && got.side.walk.cursor == Cursor(d, c.cursor.current)
        && got.side.walk.trail == Trail(d, c.trail.desc, c.trail.prev)
        && got.side.tx == Tx(c.tx.link, f.next, c.tx.active && f.next != 0,
                             Intr(c.tx.intr.raw | 1 | (if f.eof then 2 else 0) | (if f.next == 0 then 8 else 0),
                                  if f.eof then d else c.tx.intr.eofDesc,
                                  if f.eof then c.cursor.current else c.tx.intr.eofPrev))
        && forall x: nat :: x < 0x1_0000_0000 ==>
             Read8(got.side.walk.mem, x)
             == if c.conf.conf0 & 0x4 != 0 && x == d + 3 then Read8(m, x) % 128 else Read8(m, x)
      else
        && got.data == [] && got.side.walk == Walk(m, Cursor(d, c.cursor.previous), c.trail)
        && got.side.tx == Tx(c.tx.link, c.tx.next, false,
                             Intr(c.tx.intr.raw | 4, c.tx.intr.eofDesc, c.tx.intr.eofPrev))
  {
    TakenByFields(EnvOf(c.conf), m, c, start, room, d, f);
    RaisedByBits(c.tx.intr.raw, f.eof, f.next == 0);
    var got := ReadOne(ReaderOf(EnvOf(c.conf)), start, SideOf(m, c), room);
    if got.ok {
      forall x: nat | x < 0x1_0000_0000
        ensures Read8(got.side.walk.mem, x)
             == if c.conf.conf0 & 0x4 != 0 && x == d + 3 then Read8(m, x) % 128 else Read8(m, x)
      {
        WrittenByBytes(c.conf, Walk(m, c.cursor, c.trail), d, x);
      }
    }
  }

  /** The registers after a read of a known length, which looks at up to 1024 descriptors. */
  lemma FinishedByBits(m: Mem, c: Channel, start: nat, length: nat)
    ensures var o := Fixed(ReaderOf(EnvOf(c.conf)), Walk(m, c.cursor, c.trail), start, length, 1024);
            var got := ReadFixed(ReaderOf(EnvOf(c.conf)), start, SideOf(m, c), length);
            && got.ok == o.ok && got.data == o.data && got.side.walk == o.walk
            && got.side.tx == Tx(c.tx.link, c.tx.next, false,
                                 if o.ok then Intr(c.tx.intr.raw | 9 | (if length > 0 then 2 else 0),
                                                   o.walk.cursor.current, o.walk.cursor.previous)
                                 else Intr(c.tx.intr.raw | 4, c.tx.intr.eofDesc, c.tx.intr.eofPrev))
  {
    RaisedByBits(c.tx.intr.raw, length > 0, true);
    assert c.tx.intr.raw | 1 | 8 == c.tx.intr.raw | 9;
  }

  // ----- a chain that does not end -----

  /** The page that holds the ring below. */
  const RING: nat := 0x3FC0_0000

  /** One descriptor that is its own successor, as a peripheral that plays a buffer over and over
      is given: one byte at offset 16, owned, end of frame. */
  const RING_BYTES: seq<bv8> := [0x01, 0x10, 0x00, 0xC0, 0x10, 0x00, 0xC0, 0x3F, 0x00, 0x00, 0xC0, 0x3F]

  predicate OnRing(a: nat) { RING <= a < RING + 4096 }

  function RingByte(a: nat): bv8 { if a < RING + |RING_BYTES| && RING <= a then RING_BYTES[a - RING] else 0x5A }

  function RingMemory(): Mem { map a: nat | RING <= a < RING + 4096 && OnRing(a) :: RingByte(a) }

  lemma ReadRing(k: nat)
    requires k < 4096
    ensures Read8(RingMemory(), RING + k) == if k < |RING_BYTES| then RING_BYTES[k] else 0x5A
  {
    assert OnRing(RING + k);
  }

  lemma RingWords()
    ensures WordOf(0x01, 0x10, 0x00, 0xC0) == 0xC000_1001 && WordOf(0x10, 0x00, 0xC0, 0x3F) == 0x3FC0_0010
    ensures WordOf(0x00, 0x00, 0xC0, 0x3F) == 0x3FC0_0000
    ensures Size(0xC000_1001) == 1 && Valid(0xC000_1001) == 1 && Eof(0xC000_1001) && Owned(0xC000_1001)
    ensures 0x3FC0_0010 as bv32 as nat == RING + 16 && 0x3FC0_0000 as bv32 as nat == RING
  {
  }

  lemma RingPaged()
    ensures Paged(RingMemory())
  {
    var m := RingMemory();
    forall a: nat
      ensures a in m <==> PageOf(a) in m
    {
      assert RING % 4096 == 0;
      assert OnRing(a) <==> OnRing(PageOf(a));
    }
  }

  lemma RingFields()
    ensures var m := RingMemory();
            Control(m, RING) == 0xC000_1001 && Buffer(m, RING) == RING + 16 && NextOf(m, RING) == RING
    ensures Payload(RingMemory(), RING) == [0x5A] && InRam(RingMemory(), RING, 12) && InRam(RingMemory(), RING + 16, 1)
  {
    forall k: nat | k < 17
      ensures Read8(RingMemory(), RING + k) == if k < |RING_BYTES| then RING_BYTES[k] else 0x5A
    {
      ReadRing(k);
    }
    RingWords();
    var m := RingMemory();
    assert Read8(m, RING + 0) == 0x01 && Read8(m, RING + 1) == 0x10;
    assert Read8(m, RING + 2) == 0 && Read8(m, RING + 3) == 0xC0;
    assert Read8(m, RING + 4) == 0x10 && Read8(m, RING + 5) == 0;
    assert Read8(m, RING + 6) == 0xC0 && Read8(m, RING + 7) == 0x3F;
    assert Read8(m, RING + 8) == 0 && Read8(m, RING + 9) == 0;
    assert Read8(m, RING + 10) == 0xC0 && Read8(m, RING + 11) == 0x3F;
    assert Read8(m, RING + 16) == 0x5A;
    forall i | RING <= i < RING + 17
      ensures i in m
    {
      assert OnRing(i);
    }
  }

  /** It is a chain of one descriptor, and what follows it is not null. */
  lemma RingIsChain(env: Env, cursor: Cursor, trail: Trail)
    ensures var r, w := ReaderOf(env), Walk(RingMemory(), cursor, trail);
            Chain(r, w, RING, 1) && ChainNext(r, w, RING, 1) == RING && ChainData(r, w, RING, 1) == [0x5A]
  {
    var m := RingMemory();
    RingWords();
    RingFields();
    assert RING % 4 == 0;
    OneLink(ReaderOf(env), Walk(m, cursor, trail), RING);
  }

  /** Both forms deliver the byte. The fixed-length read then parks the channel; the stream keeps
      it running. */
  lemma RingKeepsRunning(c: Channel, capacity: nat)
    requires c.tx.active && c.tx.link == 0 && Position(RING, c.tx) == RING && capacity >= 4095
    ensures var r, s := ReaderOf(EnvOf(c.conf)), SideOf(RingMemory(), c);
            var fixed, one := ReadFixed(r, RING, s, 1), ReadOne(r, RING, s, capacity);
            && fixed.ok && one.ok && fixed.data == one.data == [0x5A]
            && !fixed.side.tx.active && one.side.tx.active
  {
    RingIsChain(EnvOf(c.conf), c.cursor, c.trail);
    DrainingAgrees(RingMemory(), c, RING, 1, capacity);
    var r, s := ReaderOf(EnvOf(c.conf)), SideOf(RingMemory(), c);
    assert ReadMany(r, RING, ReadOne(r, RING, s, capacity).side, capacity, 0).data == [];
  }

  /** From a new controller: the channel is started on the ring and read once, in either form. */
  method PlayRing(whole: bool) returns (k: Controller, ok: bool, data: seq<bv8>)
    ensures fresh(k) && k.Valid() && |k.channels| == 1 && ok && data == [0x5A]
    ensures k.channels[0].tx.active == !whole
  {
    RingPaged();
    k := new Controller(RING, RingMemory(), 1);
    k.WriteLink(0, 0, false, true);
    RingKeepsRunning(k.channels[0], MAX_PAYLOAD);
    ghost var i;
    if whole {
      ok, data, i := k.ReadTx(RESET.conf.peripheral, 1);
    } else {
      ok, data, i := k.ReadTxDescriptor(RESET.conf.peripheral, MAX_PAYLOAD);
    }
  }
}
