/** The processor running the bytes in the code buffer, with a byte program counter and
    relative jumps, follows the forwarded requests. */
module Execution {
  import opened X64
  import opened Forwarding
  import opened Emitter

  // ----- the processor -----

  datatype Host = Host(ip: int, regs: Regs, mem: HostMem, flags: nat)

  /** A jump distance: the word as a two's complement number. */
  function SignedValue(rel: bv32): int {
    if Value(rel) < 0x8000_0000 then Value(rel) else Value(rel) - 0x1_0000_0000
  }

  /** The instruction at an address of the buffer. */
  function Fetch(bytes: seq<bv8>, ip: int): Decoded { if 0 <= ip <= |bytes| then Decode(bytes[ip..]) else Bad }

  function Fetcher(bytes: seq<bv8>): int -> Decoded { (ip: int) => Fetch(bytes, ip) }

  /** One instruction. The processor is not followed beyond the buffer. */
  function HostStep(cpu: Cpu, fetch: int -> Decoded, h: Host): Host {
    match fetch(h.ip)
    case Bad => h
    case Good(Jump(rel), n) => h.(ip := h.ip + n + SignedValue(rel))
    case Good(Branch(cc, rel), n) => h.(ip := h.ip + n + if cpu.taken(cc, h.flags) then SignedValue(rel) else 0)
    case Good(i, n) =>
      var (g, m, f) := Exec(cpu, i, h.regs, h.mem, h.flags);
      Host(h.ip + n, g, m, f)
  }

  function HostRun(cpu: Cpu, fetch: int -> Decoded, h: Host, m: nat): Host
    decreases m
  {
    if m == 0 then h else HostStep(cpu, fetch, HostRun(cpu, fetch, h, m - 1))
  }

  // ----- where requests are -----

  /** Request `k` is found where it starts, ends where the next one starts, and jumps to where
      its target starts. */
  ghost predicate LaidAt(ops: seq<Op>, rels: seq<bv32>, fetch: int -> Decoded, start: seq<nat>, k: nat)
    requires k < |ops| == |rels| && |start| == |ops| + 1
  {
    var code := Piece(ops, rels, k);
    && (code == [] ==> start[k + 1] == start[k])
    && (code != [] ==>
         |code| == 1 && start[k] <= start[k + 1] && fetch(start[k]) == Good(code[0], start[k + 1] - start[k]))
    && (Jumps(ops[k]) ==> ops[k].target <= |ops| && start[k + 1] + SignedValue(rels[k]) == start[ops[k].target])
  }

  ghost predicate Laid(ops: seq<Op>, rels: seq<bv32>, fetch: int -> Decoded, start: seq<nat>) {
    |ops| == |rels| && |start| == |ops| + 1 && forall k :: 0 <= k < |ops| ==> LaidAt(ops, rels, fetch, start, k)
  }

  /** The processor is where the requests are, in the same state. */
  ghost predicate Follows(h: Host, s: State, start: seq<nat>) {
    s.pc < |start| && h.ip == start[s.pc] && h.regs == s.regs && h.mem == s.mem && h.flags == s.flags
  }

  /** One request is at most one instruction. */
  lemma RequestFollowed(cpu: Cpu, ops: seq<Op>, rels: seq<bv32>, fetch: int -> Decoded, start: seq<nat>, h: Host,
                        s: State)
    requires WellFormed(ops) && Laid(ops, rels, fetch, start) && s.pc < |ops| && Follows(h, s, start)
    ensures Follows(if Piece(ops, rels, s.pc) == [] then h else HostStep(cpu, fetch, h), Step(cpu, ops, true, s), start)
  {
    assert OpOk(ops, ops[s.pc]) && LaidAt(ops, rels, fetch, start, s.pc);
  }

  /** Any number of requests. */
  lemma {:induction false} RequestsFollowed(cpu: Cpu, ops: seq<Op>, rels: seq<bv32>, fetch: int -> Decoded,
                                            start: seq<nat>, h: Host, s: State, n: nat)
    returns (m: nat)
    requires WellFormed(ops) && Laid(ops, rels, fetch, start) && Follows(h, s, start)
    ensures m <= n && Follows(HostRun(cpu, fetch, h, m), Run(cpu, ops, true, s, n), start)
    decreases n
  {
    m := 0;
    if n > 0 {
      m := RequestsFollowed(cpu, ops, rels, fetch, start, h, s, n - 1);
      var t := Run(cpu, ops, true, s, n - 1);
      StepFollowed(cpu, ops, rels, fetch, start, HostRun(cpu, fetch, h, m), t);
      if t.pc < |ops| && Piece(ops, rels, t.pc) != [] {
        m := m + 1;
      }
    }
  }

  /** The same at the end, where nothing happens any more. */
  lemma StepFollowed(cpu: Cpu, ops: seq<Op>, rels: seq<bv32>, fetch: int -> Decoded, start: seq<nat>, h: Host, s: State)
    requires WellFormed(ops) && Laid(ops, rels, fetch, start) && Follows(h, s, start)
    ensures var busy := s.pc < |ops| && Piece(ops, rels, s.pc) != [];
            Follows(if busy then HostStep(cpu, fetch, h) else h, Step(cpu, ops, true, s), start)
  {
    if s.pc < |ops| {
      RequestFollowed(cpu, ops, rels, fetch, start, h, s);
    }
  }

  /** Requests for which nothing was emitted are passed over. */
  lemma {:induction false} PassOver(cpu: Cpu, ops: seq<Op>, rels: seq<bv32>, fetch: int -> Decoded, start: seq<nat>,
                                    h: Host, s: State, n: nat)
    returns (k: nat)
    requires WellFormed(ops) && Laid(ops, rels, fetch, start) && Follows(h, Run(cpu, ops, true, s, n), start)
    ensures Follows(h, Run(cpu, ops, true, s, k), start)
    ensures var t := Run(cpu, ops, true, s, k); t.pc == |ops| || Piece(ops, rels, t.pc) != []
    decreases |ops| - Run(cpu, ops, true, s, n).pc
  {
    var t := Run(cpu, ops, true, s, n);
    k := n;
    if t.pc < |ops| && Piece(ops, rels, t.pc) == [] {
      RequestFollowed(cpu, ops, rels, fetch, start, h, t);
      assert Run(cpu, ops, true, s, n + 1) == Step(cpu, ops, true, t);
      k := PassOver(cpu, ops, rels, fetch, start, h, s, n + 1);
    }
  }

  /** Conversely, after any number of instructions the processor is at some request. */
  lemma {:induction false} InstructionsFollowed(cpu: Cpu, ops: seq<Op>, rels: seq<bv32>, fetch: int -> Decoded,
                                                start: seq<nat>, h: Host, s: State, m: nat)
    returns (n: nat)
    requires WellFormed(ops) && Laid(ops, rels, fetch, start) && Follows(h, s, start) && fetch(start[|ops|]) == Bad
    ensures Follows(HostRun(cpu, fetch, h, m), Run(cpu, ops, true, s, n), start)
    decreases m
  {
    n := 0;
    if m > 0 {
      n := InstructionsFollowed(cpu, ops, rels, fetch, start, h, s, m - 1);
      n := InstructionFollowed(cpu, ops, rels, fetch, start, HostRun(cpu, fetch, h, m - 1), s, n);
    }
  }

  lemma InstructionFollowed(cpu: Cpu, ops: seq<Op>, rels: seq<bv32>, fetch: int -> Decoded, start: seq<nat>, h: Host,
                            s: State, k: nat)
    returns (n: nat)
    requires WellFormed(ops) && Laid(ops, rels, fetch, start) && fetch(start[|ops|]) == Bad
    requires Follows(h, Run(cpu, ops, true, s, k), start)
    ensures Follows(HostStep(cpu, fetch, h), Run(cpu, ops, true, s, n), start)
  {
    n := PassOver(cpu, ops, rels, fetch, start, h, s, k);
    var t := Run(cpu, ops, true, s, n);
    if t.pc < |ops| {
      RequestFollowed(cpu, ops, rels, fetch, start, h, t);
      n := n + 1;
      assert Run(cpu, ops, true, s, n) == Step(cpu, ops, true, t);
    }
  }

  // ----- the buffer is laid out so -----

  lemma {:induction false} FlatFrom(parts: seq<seq<bv8>>, k: nat)
    requires k < |parts|
    ensures Start(parts, k + 1) == Start(parts, k) + |parts[k]| <= |Flat(parts)|
    ensures Flat(parts)[Start(parts, k)..Start(parts, k + 1)] == parts[k]
    decreases |parts|
  {
    var n := |parts| - 1;
    StartNext(parts, k);
    if k < n {
      var front := parts[..n];
      FlatFrom(front, k);
      assert front[..k] == parts[..k] && front[..k + 1] == parts[..k + 1];
    }
  }

  function Starts(parts: seq<seq<bv8>>): (start: seq<nat>)
    ensures |start| == |parts| + 1 && forall k :: 0 <= k <= |parts| ==> start[k] == Start(parts, k)
  {
    seq(|parts| + 1, k requires 0 <= k <= |parts| => Start(parts, k))
  }

  /** All jumps have been patched. */
  ghost predicate AllLand(ops: seq<Op>, rels: seq<bv32>) {
    |ops| == |rels| && forall k :: 0 <= k < |ops| && Jumps(ops[k]) ==> Lands(ops, rels, k)
  }

  lemma {:induction false} StartsWithin(parts: seq<seq<bv8>>, k: nat)
    requires k <= |parts|
    ensures Start(parts, k) <= |Flat(parts)|
  {
    if k < |parts| {
      FlatFrom(parts, k);
    } else {
      assert parts[..k] == parts;
    }
  }

  lemma PieceIsShort(ops: seq<Op>, rels: seq<bv32>, k: nat)
    requires k < |ops| == |rels|
    ensures |Piece(ops, rels, k)| <= 1
  {
  }

  lemma FetchPiece(bytes: seq<bv8>, from: nat, to: nat, i: Instr)
    requires from <= to <= |bytes| && bytes[from..to] == Encode(i)
    ensures Fetch(bytes, from) == Good(i, to - from)
  {
    DecodesBack(i, bytes[to..]);
    assert bytes[from..] == bytes[from..to] + bytes[to..];
  }

  lemma BufferLaidAt(ops: seq<Op>, rels: seq<bv32>, start: seq<nat>, k: nat)
    requires AllLand(ops, rels) && k < |ops| && |Asked(ops, rels)| < 0x8000_0000 && start == Starts(Parts(ops, rels))
    ensures LaidAt(ops, rels, Fetcher(Asked(ops, rels)), start, k)
  {
    var parts, code := Parts(ops, rels), Piece(ops, rels, k);
    FlatFrom(parts, k);
    PieceIsShort(ops, rels, k);
    if code != [] {
      EncodeOne(code[0]);
      assert code == [code[0]];
      FetchPiece(Asked(ops, rels), start[k], start[k + 1], code[0]);
    }
    if Jumps(ops[k]) {
      assert Lands(ops, rels, k);
      StartsWithin(parts, ops[k].target);
    }
  }

  lemma BufferLaid(ops: seq<Op>, rels: seq<bv32>, start: seq<nat>)
    requires AllLand(ops, rels) && |Asked(ops, rels)| < 0x8000_0000 && start == Starts(Parts(ops, rels))
    ensures Laid(ops, rels, Fetcher(Asked(ops, rels)), start) && start[0] == 0
    ensures Fetcher(Asked(ops, rels))(start[|ops|]) == Bad
  {
    forall k | 0 <= k < |ops|
      ensures LaidAt(ops, rels, Fetcher(Asked(ops, rels)), start, k)
    {
      BufferLaidAt(ops, rels, start, k);
    }
    assert Parts(ops, rels)[..|ops|] == Parts(ops, rels);
    assert Asked(ops, rels)[|Asked(ops, rels)|..] == [];
  }

  /** Running the bytes of a buffer in which everything fitted and every jump was patched: for
      any starting state and any number of requests, after at most as many instructions the
      processor is where the forwarded requests are, with the same registers, memory and
      flags. */
  lemma BufferRuns(cpu: Cpu, ops: seq<Op>, rels: seq<bv32>, bytes: seq<bv8>, s: State, n: nat) returns (m: nat)
    requires WellFormed(ops) && AllLand(ops, rels) && bytes == Asked(ops, rels) && |bytes| < 0x8000_0000 && s.pc == 0
    ensures m <= n
    ensures Follows(HostRun(cpu, Fetcher(bytes), Host(0, s.regs, s.mem, s.flags), m), Run(cpu, ops, true, s, n),
                    Starts(Parts(ops, rels)))
  {
    var start := Starts(Parts(ops, rels));
    BufferLaid(ops, rels, start);
    m := RequestsFollowed(cpu, ops, rels, Fetcher(bytes), start, Host(0, s.regs, s.mem, s.flags), s, n);
  }

  /** And the processor never does anything else: after any number of instructions it is where
      some number of forwarded requests would be. */
  lemma BufferRunsOnly(cpu: Cpu, ops: seq<Op>, rels: seq<bv32>, bytes: seq<bv8>, s: State, m: nat) returns (n: nat)
    requires WellFormed(ops) && AllLand(ops, rels) && bytes == Asked(ops, rels) && |bytes| < 0x8000_0000 && s.pc == 0
    ensures Follows(HostRun(cpu, Fetcher(bytes), Host(0, s.regs, s.mem, s.flags), m), Run(cpu, ops, true, s, n),
                    Starts(Parts(ops, rels)))
  {
    var start := Starts(Parts(ops, rels));
    BufferLaid(ops, rels, start);
    n := InstructionsFollowed(cpu, ops, rels, Fetcher(bytes), start, Host(0, s.regs, s.mem, s.flags), s, m);
  }

  /** So on a run without a stale access the bytes do what the requests say without forwarding. */
  lemma BufferMeans(cpu: Cpu, ops: seq<Op>, rels: seq<bv32>, bytes: seq<bv8>, s: State, n: nat) returns (m: nat)
    requires WellFormed(ops) && AllLand(ops, rels) && bytes == Asked(ops, rels) && |bytes| < 0x8000_0000 && s.pc == 0
    requires forall j: nat :: j < n ==> !StaleOn(cpu, ops, s, j)
    ensures m <= n
    ensures var h, p := HostRun(cpu, Fetcher(bytes), Host(0, s.regs, s.mem, s.flags), m), Run(cpu, ops, false, s, n);
            && p.pc <= |ops| && h.ip == Start(Parts(ops, rels), p.pc)
            && h.mem == p.mem && h.flags == p.flags && SameLo(h.regs, p.regs)
  {
    m := BufferRuns(cpu, ops, rels, bytes, s, n);
    RunsAgreeExactly(cpu, ops, s, n);
  }
}
