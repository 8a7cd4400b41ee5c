/** The H4 byte stream of the Bluetooth controller link (Bluetooth Core, Volume 4 Part A,
    section 2): a receiver that finds packets in whatever pieces the socket delivers, and
    the sender that frames them. */
module H4 {
  import opened Options

  const COMMAND: bv8 := 0x01
  const ACL: bv8 := 0x02
  const EVENT: bv8 := 0x04

  const MAX_PACKET: nat := 2048
  const BUFFER_SIZE: nat := 2056

  /** What the receiver reports: a packet, or that one was too long. */
  datatype Report = Packet(kind: bv8, payload: seq<bv8>) | TooLong

  // ----- one look at the buffered bytes -----

  /** More bytes are needed; or one byte is dropped, with or without an error; or a whole
      frame of `n` bytes is there. */
  datatype Look = More | Drop | Reject | Frame(n: nat)

  function AclLength(b: seq<bv8>): nat
    requires |b| >= 5
  {
    b[3] as nat + 256 * b[4] as nat
  }

  function Sized(b: seq<bv8>, need: nat): Look {
    if need - 1 > MAX_PACKET then Reject else if |b| >= need then Frame(need) else More
  }

  function Next(b: seq<bv8>): Look {
    if b == [] then More
    else if b[0] == EVENT then (if |b| >= 3 then Sized(b, 3 + b[2] as nat) else More)
    else if b[0] == ACL then (if |b| >= 5 then Sized(b, 5 + AclLength(b)) else More)
    else Drop
  }

  /** A decision: wait for more, or consume `k` bytes and report. */
  datatype Cut = Wait | Cut(k: nat, said: seq<Report>)

  function Decide(b: seq<bv8>): Cut {
    match Next(b)
    case More => Wait
    case Drop => Cut(1, [])
    case Reject => Cut(1, [TooLong])
    case Frame(n) => Cut(n, if 0 < n <= |b| then [Packet(b[0], b[1..n])] else [])
  }

  lemma ByteBelow(b: bv8)
    ensures b as nat < 256
  {
  }

  /** By the bytes. An event (4) says its length in the third byte, an ACL packet (2) in the fourth
      and fifth, least significant first; a packet of more than 2048 bytes is an error, and any
      other first byte is skipped. */
  lemma DecidedByBytes(b: seq<bv8>)
    ensures b == [] ==> Decide(b) == Wait
    ensures |b| > 0 && b[0] != 0x04 && b[0] != 0x02 ==> Decide(b) == Cut(1, [])
    ensures |b| > 0 && b[0] == 0x04 ==>
              if |b| < 3 || |b| < 3 + b[2] as nat then Decide(b) == Wait
              else Decide(b) == Cut(3 + b[2] as nat, [Packet(0x04, b[1..3 + b[2] as nat])])
    ensures |b| > 0 && b[0] == 0x02 ==>
              if |b| < 5 then Decide(b) == Wait
              else
                var n := 4 + b[3] as nat + 256 * b[4] as nat;
                Decide(b) == if n > 2048 then Cut(1, [TooLong]) else if |b| < 1 + n then Wait
                             else Cut(1 + n, [Packet(0x02, b[1..1 + n])])
  {
    if |b| >= 3 {
      ByteBelow(b[2]);
    }
  }

  // ----- hearing a byte string, for any way of deciding -----

  /** Everything that is reported of a byte string, and the bytes still held. */
  datatype Heard = Heard(reports: seq<Report>, rest: seq<bv8>)

  function Tell(r: seq<Report>, h: Heard): Heard { Heard(r + h.reports, h.rest) }

  predicate Waits(c: Cut, b: seq<bv8>) { c.Wait? || c.k == 0 || c.k > |b| }

  function HearBy(f: seq<bv8> -> Cut, b: seq<bv8>): Heard
    decreases |b|
  {
    if Waits(f(b), b) then Heard([], b) else Tell(f(b).said, HearBy(f, b[f(b).k..]))
  }

  /** A decision once made stands, whatever arrives later. */
  ghost predicate Stable(f: seq<bv8> -> Cut) {
    forall b, c :: !Waits(f(b), b) ==> f(b + c) == f(b)
  }

  lemma TellTell(r: seq<Report>, s: seq<Report>, h: Heard)
    ensures Tell(r, Tell(s, h)) == Tell(r + s, h)
  {
  }

  /** Hearing a string in two pieces: first the one, then the other with what was left. */
  lemma {:induction false} HearInPieces(f: seq<bv8> -> Cut, b: seq<bv8>, c: seq<bv8>)
    requires Stable(f)
    ensures HearBy(f, b + c) == Tell(HearBy(f, b).reports, HearBy(f, HearBy(f, b).rest + c))
    decreases |b|
  {
    if Waits(f(b), b) {
      assert Tell([], HearBy(f, b + c)) == HearBy(f, b + c);
    } else {
      var k := f(b).k;
      assert f(b + c) == f(b);
      HearInPieces(f, b[k..], c);
      assert (b + c)[k..] == b[k..] + c;
      var h := HearBy(f, b[k..]);
      TellTell(f(b).said, h.reports, HearBy(f, h.rest + c));
    }
  }

  /** What has been heard is what was reported, then what the buffer will still yield. */
  ghost predicate Account(f: seq<bv8> -> Cut, heard: seq<bv8>, said: seq<Report>, pending: seq<bv8>) {
    HearBy(f, heard) == Tell(said, HearBy(f, pending))
  }

  lemma AccountDecision(f: seq<bv8> -> Cut, heard: seq<bv8>, said: seq<Report>, pending: seq<bv8>)
    requires Account(f, heard, said, pending) && !Waits(f(pending), pending)
    ensures Account(f, heard, said + f(pending).said, pending[f(pending).k..])
  {
    TellTell(said, f(pending).said, HearBy(f, pending[f(pending).k..]));
  }

  lemma AccountArrival(f: seq<bv8> -> Cut, heard: seq<bv8>, said: seq<Report>, pending: seq<bv8>, c: seq<bv8>)
    requires Stable(f) && Account(f, heard, said, pending)
    ensures Account(f, heard + c, said, pending + c)
  {
    var h := HearBy(f, pending);
    HearInPieces(f, heard, c);
    HearInPieces(f, pending, c);
    TellTell(said, h.reports, HearBy(f, h.rest + c));
  }

  /** Whatever the pieces: once all bytes are in and the receiver waits, it has reported
      exactly what the whole byte string holds. Before that, a prefix of it. */
  lemma ReportsDependOnBytesOnly(f: seq<bv8> -> Cut, heard: seq<bv8>, said: seq<Report>, pending: seq<bv8>)
    requires Account(f, heard, said, pending)
    ensures said <= HearBy(f, heard).reports
    ensures Waits(f(pending), pending) ==> HearBy(f, heard) == Heard(said, pending)
  {
  }

  // ----- the H4 decisions -----

  /** Everything the receiver reports of a byte string, and the bytes it still holds. */
  function Hear(b: seq<bv8>): Heard { HearBy(Decide, b) }

  lemma DecisionStands(b: seq<bv8>, c: seq<bv8>)
    requires !Next(b).More?
    ensures Next(b + c) == Next(b) && (Next(b).Frame? ==> 0 < Next(b).n <= |b|)
  {
    var s := b + c;
    assert s[0] == b[0];
    assert |b| >= 3 ==> s[2] == b[2];
    assert |b| >= 5 ==> s[3] == b[3] && s[4] == b[4];
  }

  lemma DecideIsStable()
    ensures Stable(Decide)
  {
    forall b, c | !Waits(Decide(b), b)
      ensures Decide(b + c) == Decide(b)
    {
      DecisionStands(b, c);
      if Next(b).Frame? {
        assert (b + c)[1..Next(b).n] == b[1..Next(b).n];
      }
    }
  }

  lemma WaitsForMore(b: seq<bv8>)
    ensures Waits(Decide(b), b) <==> Next(b).More?
  {
    if !Next(b).More? {
      DecisionStands(b, []);
    }
  }

  /** After waiting for more there is always room in the buffer. */
  lemma WaitingLeavesRoom(b: seq<bv8>)
    requires Next(b).More?
    ensures |b| <= MAX_PACKET < BUFFER_SIZE
  {
  }

  lemma Arrival(heard: seq<bv8>, said: seq<Report>, pending: seq<bv8>, c: seq<bv8>)
    requires Account(Decide, heard, said, pending)
    ensures Account(Decide, heard + c, said, pending + c)
  {
    DecideIsStable();
    AccountArrival(Decide, heard, said, pending, c);
  }

  // ----- the receiver -----

  lemma Resplit(h: seq<bv8>, s: seq<bv8>, n: nat)
    requires n <= |s|
    ensures h + s[..n] + s[n..] == h + s
  {
    assert s[..n] + s[n..] == s;
    assert h + s[..n] + s[n..] == h + (s[..n] + s[n..]);
  }

  class Receiver {
    const buffer: array<bv8>
    var len: nat
    /** Bytes that have arrived at the socket and were not read yet. */
    var socket: seq<bv8>
    ghost var heard: seq<bv8>
    ghost var said: seq<Report>

    ghost predicate Valid()
      reads this, buffer
    {
      buffer.Length == BUFFER_SIZE && len <= BUFFER_SIZE && Account(Decide, heard, said, buffer[..len])
    }

    constructor (incoming: seq<bv8>)
      ensures Valid() && socket == incoming && heard == [] && said == [] && fresh(buffer)
    {
      buffer, len, socket, heard, said := new bv8[BUFFER_SIZE], 0, incoming, [], [];
      new;
      assert buffer[..0] == [];
      assert Tell([], HearBy(Decide, [])) == HearBy(Decide, []);
    }

    /** Shift the buffer down over its first `k` bytes. */
    method Discard(k: nat)
      requires buffer.Length == BUFFER_SIZE && k <= len <= BUFFER_SIZE
      modifies this`len, buffer
      ensures len == old(len) - k && buffer[..len] == old(buffer[..len])[k..]
    {
      for i := 0 to len - k
        invariant forall j :: 0 <= j < i ==> buffer[j] == old(buffer[j + k])
        invariant forall j :: i <= j < len ==> buffer[j] == old(buffer[j])
        modifies buffer
      {
        buffer[i] := buffer[i + k];
      }
      len := len - k;
    }

    /** Take what one read of the socket delivers: at most `size` bytes and at most the room left. */
    method Read(size: nat)
      requires Valid()
      modifies this`len, this`socket, this`heard, buffer
      ensures Valid() && heard + socket == old(heard + socket)
      ensures var room, there := 2056 - old(len), |old(socket)|;
        |heard| - |old(heard)| == if size <= room && size <= there then size else if room <= there then room else there
      ensures len - old(len) == |heard| - |old(heard)|
    {
      var n := if size <= BUFFER_SIZE - len then size else BUFFER_SIZE - len;
      n := if n <= |socket| then n else |socket|;
      Resplit(heard, socket, n);
      Accept(n);
    }

    method Accept(n: nat)
      requires Valid() && n <= |socket| && len + n <= BUFFER_SIZE
      modifies this`len, this`socket, this`heard, buffer
      ensures Valid() && len == old(len) + n && heard == old(heard) + old(socket)[..n] && socket == old(socket)[n..]
    {
      var chunk := socket[..n];
      Arrival(heard, said, buffer[..len], chunk);
      Fill(chunk);
      len, heard, socket := len + n, heard + chunk, socket[n..];
    }

    /** Copy a chunk in behind the buffered bytes. */
    method Fill(chunk: seq<bv8>)
      requires buffer.Length == BUFFER_SIZE && len + |chunk| <= BUFFER_SIZE
      modifies buffer
      ensures buffer[..len + |chunk|] == old(buffer[..len]) + chunk
    {
      for i := 0 to |chunk|
        invariant buffer[..len] == old(buffer[..len])
        invariant forall j :: 0 <= j < i ==> buffer[len + j] == chunk[j]
      {
        buffer[len + i] := chunk[i];
      }
    }

    /** One pass over the buffered bytes: unknown indicators are skipped until there is
        something to report or more bytes are needed. */
    method Deliver() returns (r: Option<Report>)
      requires Valid()
      modifies this`len, this`said, buffer
      ensures Valid() && len <= old(len)
      ensures r.None? ==> said == old(said) && Next(buffer[..len]).More?
      ensures r.Some? ==> said == old(said) + [r.value]
    {
      while !Next(buffer[..len]).More?
        invariant Valid() && said == old(said) && len <= old(len)
        decreases len
      {
        ghost var b := buffer[..len];
        var look, kind := Next(buffer[..len]), buffer[0];
        WaitsForMore(b);
        AccountDecision(Decide, heard, said, b);
        if look.Frame? {
          r := Some(Packet(kind, buffer[1..look.n]));
          assert buffer[1..look.n] == b[1..look.n];
          Discard(look.n);
          said := said + [r.value];
          return;
        }
        Discard(1);
        if look.Reject? {
          r := Some(TooLong);
          said := said + [TooLong];
          return;
        }
        assert said + [] == said;
      }
      r := None;
    }

    /** Receive: alternate between the buffer and the socket until there is a report or the
        waiting is over. `sizes` is what each wait would let the socket deliver; 0 is a wait
        in vain. */
    method Receive(sizes: seq<nat>) returns (r: Option<Report>)
      requires Valid()
      modifies this, buffer
      ensures Valid() && heard + socket == old(heard + socket)
      ensures r.None? ==> said == old(said) && Next(buffer[..len]).More?
      ensures r.Some? ==> said == old(said) + [r.value]
      ensures r.None? && (forall i :: 0 <= i < |sizes| ==> sizes[i] > 0) ==>
                socket == [] || |heard| >= |old(heard)| + |sizes|
    {
      r := Deliver();
      for i := 0 to |sizes|
        invariant Valid() && heard + socket == old(heard + socket)
        invariant r.None? ==> said == old(said) && Next(buffer[..len]).More?
        invariant r.Some? ==> said == old(said) + [r.value]
        invariant r.None? && (forall k :: 0 <= k < i ==> sizes[k] > 0) ==>
                    socket == [] || |heard| >= |old(heard)| + i
      {
        if r.Some? { return; }
        WaitingLeavesRoom(buffer[..len]);
        if len == BUFFER_SIZE {
          assert false;
        }
        Read(sizes[i]);
        r := Deliver();
      }
    }
  }

  // ----- the sender -----

  /** Type byte, then payload. */
  function Framed(kind: bv8, payload: seq<bv8>): seq<bv8> { [kind] + payload }

  predicate Sendable(kind: bv8, payload: seq<bv8>) {
    |payload| <= MAX_PACKET && (kind == ACL || kind == EVENT || kind == COMMAND)
  }

  /** What the attempts would accept in all. */
  function Total(takes: seq<nat>): nat {
    if takes == [] then 0 else Total(takes[..|takes| - 1]) + takes[|takes| - 1]
  }

  /** Send a frame in as many pieces as the socket takes; `takes` is what each of at most
      1000 attempts accepts. */
  method SendRaw(kind: bv8, payload: seq<bv8>, takes: seq<nat>) returns (ok: bool, sent: seq<bv8>)
    requires |takes| <= 1000
    ensures sent <= [kind] + payload && (ok <==> sent == [kind] + payload)
    ensures var good := |payload| <= 2048 && (kind == 0x01 || kind == 0x02 || kind == 0x04);
      |sent| == if !good then 0 else if Total(takes) <= 1 + |payload| then Total(takes) else 1 + |payload|
  {
    if !Sendable(kind, payload) { return false, []; }
    var frame := Framed(kind, payload);
    var done: nat := 0;
    for i := 0 to |takes|
      invariant done == if Total(takes[..i]) <= |frame| then Total(takes[..i]) else |frame|
    {
      var n := if takes[i] <= |frame| - done then takes[i] else |frame| - done;
      done := done + n;
      assert takes[..i + 1][..i] == takes[..i];
    }
    assert takes[..|takes|] == takes;
    ok, sent := done == |frame|, frame[..done];
  }

  /** Events and ACL packets whose header gives the length that follows. */
  predicate WellFormed(p: Report) {
    p.Packet? && |p.payload| <= MAX_PACKET
    && ((p.kind == EVENT && |p.payload| >= 2 && |p.payload| == 2 + p.payload[1] as nat)
        || (p.kind == ACL && |p.payload| >= 4 && |p.payload| == 4 + p.payload[2] as nat + 256 * p.payload[3] as nat))
  }

  function FrameOf(p: Report): seq<bv8> { if p.Packet? then Framed(p.kind, p.payload) else [] }

  function FramedAll(packets: seq<Report>): seq<bv8> {
    if packets == [] then [] else FrameOf(packets[0]) + FramedAll(packets[1..])
  }

  lemma HeaderRead(b: seq<bv8>, p: Report)
    requires WellFormed(p) && |b| > |p.payload| && b[0] == p.kind
    requires forall i :: 0 <= i < |p.payload| ==> b[i + 1] == p.payload[i]
    ensures Next(b) == Frame(1 + |p.payload|)
  {
    assert b[2] == b[1 + 1] == p.payload[1];
    if p.kind == ACL {
      assert b[3] == b[2 + 1] == p.payload[2] && b[4] == b[3 + 1] == p.payload[3];
    }
  }

  lemma FrameFound(p: Report, c: seq<bv8>)
    requires WellFormed(p)
    ensures var b := FrameOf(p) + c;
      !Waits(Decide(b), b) && Decide(b).said == [p] && b[Decide(b).k..] == c
  {
    var b := FrameOf(p) + c;
    HeaderRead(b, p);
    assert b[1..1 + |p.payload|] == p.payload;
  }

  /** Well-formed packets framed one after the other are recovered exactly. */
  lemma {:induction false} SentIsHeard(packets: seq<Report>)
    requires forall p :: p in packets ==> WellFormed(p)
    ensures Hear(FramedAll(packets)) == Heard(packets, [])
  {
    if packets != [] {
      var p, rest := packets[0], packets[1..];
      SentIsHeard(rest);
      FrameFound(p, FramedAll(rest));
      assert [p] + rest == packets;
    }
  }

  /** Put together: whatever the pieces, a receiver that has read all of a stream of
      well-formed packets has reported exactly those packets and holds nothing back. */
  lemma StreamRecovered(packets: seq<Report>, said: seq<Report>, pending: seq<bv8>)
    requires forall p :: p in packets ==> WellFormed(p)
    requires Account(Decide, FramedAll(packets), said, pending) && Next(pending).More?
    ensures said == packets && pending == []
  {
    SentIsHeard(packets);
    WaitsForMore(pending);
    ReportsDependOnBytesOnly(Decide, FramedAll(packets), said, pending);
  }
}
