/** Store-to-load forwarding in the code generator: a load of the slot that the instruction
    just before it stored is replaced by a register move, or by nothing. The code with
    forwarding and the code without it are compared on every run. */
module Forwarding {
  import opened GuestMemory
  import opened X64

  // ----- programs -----

  /** What the generator is asked for: an instruction, a place a jump may land on, or a
      jump to such a place. */
  datatype Op = Do(instr: Instr) | Label | Goto(target: nat) | When(cc: Cond, target: nat)

  /** Jumps land on labels, and only jumps jump. */
  predicate WellFormed(ops: seq<Op>) {
    forall i :: 0 <= i < |ops| ==> OpOk(ops, ops[i])
  }

  predicate OpOk(ops: seq<Op>, op: Op) {
    match op
    case Do(i) => !i.Jump? && !i.Branch?
    case Label => true
    case Goto(t) => t < |ops| && ops[t].Label?
    case When(_, t) => t < |ops| && ops[t].Label?
  }

  /** Adding zero is never emitted. */
  predicate AddsZero(op: Op) { op.Do? && op.instr.ArithImm? && op.instr.opi.AddI? && op.instr.imm == 0 }

  /** The generator's memory of the store it emitted last. */
  datatype Pending = Nothing | Stored(src: Reg, base: Reg, disp: bv32)

  /** The record after the first `i` requests. It survives only an empty emission. */
  function PendingAt(ops: seq<Op>, i: nat): Pending
    requires i <= |ops|
  {
    if i == 0 then Nothing
    else if ops[i - 1].Do? && ops[i - 1].instr.Store? then
      Stored(ops[i - 1].instr.src, ops[i - 1].instr.base, ops[i - 1].instr.disp)
    else if AddsZero(ops[i - 1]) then PendingAt(ops, i - 1)
    else Nothing
  }

  /** What is emitted for an instruction without forwarding, and with it. */
  function Plain(op: Op): seq<Instr>
    requires op.Do?
  {
    if AddsZero(op) then [] else [op.instr]
  }

  predicate Hits(i: Instr, p: Pending) { i.Load? && p.Stored? && p.base == i.base && p.disp == i.disp }

  function Forwarded(op: Op, p: Pending): seq<Instr>
    requires op.Do?
  {
    if AddsZero(op) then []
    else if Hits(op.instr, p) then (if op.instr.dst == p.src then [] else [Move(op.instr.dst, p.src)])
    else [op.instr]
  }

  // ----- the machine -----

  type HostMem = map<nat, bv8>

  function Peek8(m: HostMem, a: nat): bv8 { if a in m then m[a] else 0 }

  function Peek(m: HostMem, a: nat): bv32 { WordOf(Peek8(m, a), Peek8(m, a + 1), Peek8(m, a + 2), Peek8(m, a + 3)) }

  function Poke(m: HostMem, a: nat, w: bv32): HostMem {
    m[a := ByteOf(w, 0)][a + 1 := ByteOf(w, 1)][a + 2 := ByteOf(w, 2)][a + 3 := ByteOf(w, 3)]
  }

  lemma PeekPoke(m: HostMem, a: nat, w: bv32)
    ensures Peek(Poke(m, a, w), a) == w
  {
    var n := Poke(m, a, w);
    assert Peek8(n, a) == ByteOf(w, 0) && Peek8(n, a + 1) == ByteOf(w, 1) && Peek8(n, a + 2) == ByteOf(w, 2)
           && Peek8(n, a + 3) == ByteOf(w, 3);
    WordOfBytes(w);
  }

  datatype Name = Name(reg: Reg)

  /** Low and high halves of the sixteen registers. */
  datatype Regs = Regs(lo: map<Name, bv32>, hi: map<Name, bv32>)

  function Half(m: map<Name, bv32>, r: Reg): bv32 { if Name(r) in m then m[Name(r)] else 0 }

  /** A 32-bit result clears the high half. */
  function Set(g: Regs, r: Reg, v: bv32): Regs { Regs(g.lo[Name(r) := v], g.hi[Name(r) := 0]) }

  /** A 32-bit displacement with its sign. */
  function Signed(disp: bv32): int { if disp as int < 0x8000_0000 then disp as int else disp as int - 0x1_0000_0000 }

  /** `x` above the base that high half `h` stands for, in 64 bits. */
  function Above(h: int, x: int): nat { (h * 0x1_0000_0000 + x) % 0x1_0000_0000_0000_0000 }

  /** 64-bit base plus sign-extended displacement. */
  function Address(hi: bv32, lo: bv32, disp: bv32): nat { Above(hi as int, lo as int + Signed(disp)) }

  function Target(g: Regs, base: Reg, disp: bv32): nat { Address(Half(g.hi, base), Half(g.lo, base), disp) }

  /** The arithmetic of the machine; forwarding does not depend on what it is. */
  datatype Cpu = Cpu(result: (Alu, bv32, bv32) -> bv32, flags: (Alu, bv32, bv32) -> nat,
                     resultImm: (AluImm, bv32, bv32) -> bv32, flagsImm: (AluImm, bv32, bv32) -> nat,
                     taken: (Cond, nat) -> bool)

  datatype State = State(pc: nat, regs: Regs, mem: HostMem, flags: nat)

  predicate Compares(op: Alu) { op.Cmp? || op.Test? }

  function Exec(cpu: Cpu, i: Instr, g: Regs, m: HostMem, f: nat): (Regs, HostMem, nat) {
    match i
    case Load(dst, base, disp) => (Set(g, dst, Peek(m, Target(g, base, disp))), m, f)
    case Store(src, base, disp) => (g, Poke(m, Target(g, base, disp), Half(g.lo, src)), f)
    case Move(dst, src) => (Set(g, dst, Half(g.lo, src)), m, f)
    case MoveImm(dst, imm) => (Set(g, dst, imm), m, f)
    case Arith(op, dst, src) =>
      var a, b := Half(g.lo, dst), Half(g.lo, src);
      (if Compares(op) then g else Set(g, dst, cpu.result(op, a, b)), m, cpu.flags(op, a, b))
    case ArithImm(op, dst, imm) =>
      var a := Half(g.lo, dst);
      (if op.CmpI? then g else Set(g, dst, cpu.resultImm(op, a, imm)), m, cpu.flagsImm(op, a, imm))
    case Jump(_) => (g, m, f)
    case Branch(_, _) => (g, m, f)
  }

  /** Run the at most one instruction that was emitted for a request. */
  function Execs(cpu: Cpu, code: seq<Instr>, s: State): State {
    if code == [] then s.(pc := s.pc + 1)
    else
      var (g, m, f) := Exec(cpu, code[0], s.regs, s.mem, s.flags);
      State(s.pc + 1, g, m, f)
  }

  /** One request's worth of execution, of the plain or of the forwarded code. */
  function Step(cpu: Cpu, ops: seq<Op>, forward: bool, s: State): State {
    if s.pc >= |ops| then s
    else
      match ops[s.pc]
      case Do(_) => Execs(cpu, if forward then Forwarded(ops[s.pc], PendingAt(ops, s.pc)) else Plain(ops[s.pc]), s)
      case Label => s.(pc := s.pc + 1)
      case Goto(t) => s.(pc := t)
      case When(cc, t) => s.(pc := if cpu.taken(cc, s.flags) then t else s.pc + 1)
  }

  /** `n` steps of anything that steps. */
  function RunBy(f: State -> State, s: State, n: nat): State
    decreases n
  {
    if n == 0 then s else f(RunBy(f, s, n - 1))
  }

  function Stepper(cpu: Cpu, ops: seq<Op>, forward: bool): State -> State { (s: State) => Step(cpu, ops, forward, s) }

  function Run(cpu: Cpu, ops: seq<Op>, forward: bool, s: State, n: nat): State {
    RunBy(Stepper(cpu, ops, forward), s, n)
  }

  // ----- when the two codes agree -----

  /** A load that disappears: it would read back what its own register just stored. */
  predicate Elided(ops: seq<Op>, i: nat)
    requires i < |ops|
  {
    ops[i].Do? && Hits(ops[i].instr, PendingAt(ops, i)) && ops[i].instr.dst == PendingAt(ops, i).src
  }

  predicate UsesBase(op: Op, r: Reg) {
    op.Do? && ((op.instr.Load? && op.instr.base == r) || (op.instr.Store? && op.instr.base == r))
  }

  /** No register whose load was dropped serves as a 64-bit base. The dropped load would
      have cleared the register's high half. */
  predicate CleanBases(ops: seq<Op>) {
    forall i, j :: 0 <= i < |ops| && 0 <= j < |ops| && Elided(ops, i) ==> !UsesBase(ops[j], ops[i].instr.dst)
  }

  /** The low halves are the same in every register. */
  ghost predicate SameLo(g: Regs, h: Regs) { forall r: Reg :: Half(g.lo, r) == Half(h.lo, r) }

  /** Same place, memory and flags, and the same low halves. */
  ghost predicate Agree(s: State, t: State) {
    s.pc == t.pc && s.mem == t.mem && s.flags == t.flags && SameLo(s.regs, t.regs)
  }

  /** At a load that may be forwarded, memory still holds what the pending store put there.
      Labels are excepted: the record is dropped there. */
  ghost predicate SlotHolds(ops: seq<Op>, s: State) {
    s.pc < |ops| && !ops[s.pc].Label? && PendingAt(ops, s.pc).Stored? ==>
      var p := PendingAt(ops, s.pc);
      Peek(s.mem, Target(s.regs, p.base, p.disp)) == Half(s.regs.lo, p.src)
  }

  // ----- one instruction -----

  lemma HalfAfter(m: map<Name, bv32>, r: Reg, v: bv32, q: Reg)
    ensures Half(m[Name(r) := v], q) == if q == r then v else Half(m, q)
  {
  }

  lemma SetBoth(g: Regs, h: Regs, r: Reg, v: bv32)
    requires SameLo(g, h)
    ensures SameLo(Set(g, r, v), Set(h, r, v))
  {
    forall q: Reg
      ensures Half(Set(g, r, v).lo, q) == Half(Set(h, r, v).lo, q)
    {
      HalfAfter(g.lo, r, v, q);
      HalfAfter(h.lo, r, v, q);
    }
  }

  /** Dropping a load of what the register already holds leaves the low halves alone. */
  lemma SetOne(g: Regs, h: Regs, r: Reg, v: bv32)
    requires SameLo(g, h) && v == Half(h.lo, r)
    ensures SameLo(g, Set(h, r, v))
  {
    forall q: Reg
      ensures Half(g.lo, q) == Half(Set(h, r, v).lo, q)
    {
      HalfAfter(h.lo, r, v, q);
    }
  }

  predicate HasBase(i: Instr) { i.Load? || i.Store? }

  /** The base of a memory access has the same high half in both. */
  predicate SameBase(i: Instr, g: Regs, h: Regs) { HasBase(i) ==> Half(g.hi, i.base) == Half(h.hi, i.base) }

  /** One and the same instruction keeps the agreement if it accesses the same address. */
  lemma ExecAgrees(cpu: Cpu, i: Instr, g: Regs, h: Regs, m: HostMem, f: nat)
    requires SameLo(g, h) && SameBase(i, g, h)
    ensures var (g', m', f') := Exec(cpu, i, g, m, f);
      var (h', n', e') := Exec(cpu, i, h, m, f);
      SameLo(g', h') && m' == n' && f' == e'
  {
    match i
    case Load(dst, base, disp) => SetBoth(g, h, dst, Peek(m, Target(h, base, disp)));
    case Store(src, base, disp) =>
    case Move(dst, src) => SetBoth(g, h, dst, Half(h.lo, src));
    case MoveImm(dst, imm) => SetBoth(g, h, dst, imm);
    case Arith(op, dst, src) => SetBoth(g, h, dst, cpu.result(op, Half(h.lo, dst), Half(h.lo, src)));
    case ArithImm(op, dst, imm) => SetBoth(g, h, dst, cpu.resultImm(op, Half(h.lo, dst), imm));
    case Jump(_) =>
    case Branch(_, _) =>
  }

  /** The register an instruction writes, with 32 bits, if any. */
  predicate Writes(i: Instr, r: Reg) {
    match i
    case Load(dst, _, _) => r == dst
    case Store(_, _, _) => false
    case Move(dst, _) => r == dst
    case MoveImm(dst, _) => r == dst
    case Arith(op, dst, _) => r == dst && !Compares(op)
    case ArithImm(op, dst, _) => r == dst && !op.CmpI?
    case Jump(_) => false
    case Branch(_, _) => false
  }

  lemma ExecHigh(cpu: Cpu, i: Instr, g: Regs, m: HostMem, f: nat, r: Reg)
    ensures Half(Exec(cpu, i, g, m, f).0.hi, r) == if Writes(i, r) then 0 else Half(g.hi, r)
  {
    if i.Load? || i.Move? || i.MoveImm? || i.Arith? || i.ArithImm? {
      HalfAfter(g.hi, i.dst, 0, r);
    }
  }

  // ----- one step -----

  /** A forwarded load: a move, or nothing, in place of the load. */
  lemma ForwardAgrees(cpu: Cpu, ops: seq<Op>, s: State, t: State)
    requires Agree(s, t) && SlotHolds(ops, t)
    requires s.pc < |ops| && ops[s.pc].Do? && Hits(ops[s.pc].instr, PendingAt(ops, s.pc))
    ensures Agree(Step(cpu, ops, true, s), Step(cpu, ops, false, t))
  {
    var i, p := ops[s.pc].instr, PendingAt(ops, s.pc);
    var v := Half(t.regs.lo, p.src);
    assert Peek(t.mem, Target(t.regs, i.base, i.disp)) == v;
    if i.dst == p.src {
      SetOne(s.regs, t.regs, i.dst, v);
    } else {
      SetBoth(s.regs, t.regs, i.dst, v);
    }
  }

  /** If the access at hand has the same base in both, a step keeps the agreement. */
  lemma StepAgrees(cpu: Cpu, ops: seq<Op>, s: State, t: State)
    requires Agree(s, t) && SlotHolds(ops, t)
    requires s.pc < |ops| && ops[s.pc].Do? ==> SameBase(ops[s.pc].instr, s.regs, t.regs)
    ensures Agree(Step(cpu, ops, true, s), Step(cpu, ops, false, t))
  {
    if s.pc < |ops| && ops[s.pc].Do? {
      var i := ops[s.pc].instr;
      if Hits(i, PendingAt(ops, s.pc)) {
        ForwardAgrees(cpu, ops, s, t);
      } else {
        ExecAgrees(cpu, i, s.regs, t.regs, s.mem, s.flags);
      }
    }
  }

  /** The plain code keeps the slot of a pending store intact up to the next load. */
  lemma StepHolds(cpu: Cpu, ops: seq<Op>, t: State)
    requires WellFormed(ops) && SlotHolds(ops, t)
    ensures SlotHolds(ops, Step(cpu, ops, false, t))
  {
    if t.pc < |ops| {
      assert OpOk(ops, ops[t.pc]);
      if ops[t.pc].Do? && ops[t.pc].instr.Store? {
        var i := ops[t.pc].instr;
        PeekPoke(t.mem, Target(t.regs, i.base, i.disp), Half(t.regs.lo, i.src));
      }
    }
  }

  /** What a step does to a high half, in either code. */
  predicate Clears(code: seq<Instr>, r: Reg) { code != [] && Writes(code[0], r) }

  function Emitted(ops: seq<Op>, forward: bool, k: nat): seq<Instr>
    requires k < |ops|
  {
    if !ops[k].Do? then [] else if forward then Forwarded(ops[k], PendingAt(ops, k)) else Plain(ops[k])
  }

  lemma StepHigh(cpu: Cpu, ops: seq<Op>, forward: bool, s: State, r: Reg)
    requires s.pc < |ops|
    ensures Half(Step(cpu, ops, forward, s).regs.hi, r)
            == if Clears(Emitted(ops, forward, s.pc), r) then 0 else Half(s.regs.hi, r)
  {
    var code := Emitted(ops, forward, s.pc);
    if code != [] {
      ExecHigh(cpu, code[0], s.regs, s.mem, s.flags, r);
    }
  }

  /** The two codes clear the same high halves, but for a dropped load. */
  lemma SameClears(ops: seq<Op>, k: nat, r: Reg)
    requires k < |ops|
    ensures Clears(Emitted(ops, false, k), r)
            <==> Clears(Emitted(ops, true, k), r) || (Elided(ops, k) && ops[k].instr.dst == r)
  {
  }

  // ----- exactly when, run by run -----

  /** The first `n` steps of the plain code from `s` pass a place where this code clears the
      high half of `r`. */
  predicate ClearedOn(cpu: Cpu, ops: seq<Op>, forward: bool, s: State, n: nat, r: Reg) {
    n > 0 && (ClearedOn(cpu, ops, forward, s, n - 1, r) || ClearsAt(ops, forward, Run(cpu, ops, false, s, n - 1).pc, r))
  }

  predicate ClearsAt(ops: seq<Op>, forward: bool, k: nat, r: Reg) { k < |ops| && Clears(Emitted(ops, forward, k), r) }

  predicate Accesses(ops: seq<Op>, k: nat) { k < |ops| && ops[k].Do? && HasBase(ops[k].instr) }

  /** Step `n` accesses memory through a register whose high half was not zero and would only
      have been cleared by a load that was dropped on the way. */
  predicate StaleOn(cpu: Cpu, ops: seq<Op>, s: State, n: nat) {
    var k := Run(cpu, ops, false, s, n).pc;
    Accesses(ops, k)
    && var b := ops[k].instr.base;
       Half(s.regs.hi, b) != 0 && ClearedOn(cpu, ops, false, s, n, b) && !ClearedOn(cpu, ops, true, s, n, b)
  }

  /** Step `n` of the plain code accesses the address that the forwarded code has there. */
  predicate SameAccessOn(cpu: Cpu, ops: seq<Op>, s: State, n: nat) {
    var f, p := Run(cpu, ops, true, s, n), Run(cpu, ops, false, s, n);
    Accesses(ops, p.pc) ==>
      Target(f.regs, ops[p.pc].instr.base, ops[p.pc].instr.disp)
        == Target(p.regs, ops[p.pc].instr.base, ops[p.pc].instr.disp)
  }

  /** A high half is what it was at the start unless it has been cleared. */
  ghost predicate HighIs(g: Regs, h: Regs, r: Reg, cleared: bool) {
    Half(g.hi, r) == if cleared then 0 else Half(h.hi, r)
  }

  ghost predicate HighsAre(cpu: Cpu, ops: seq<Op>, s: State, n: nat) {
    forall r: Reg ::
      && HighIs(Run(cpu, ops, true, s, n).regs, s.regs, r, ClearedOn(cpu, ops, true, s, n, r))
      && HighIs(Run(cpu, ops, false, s, n).regs, s.regs, r, ClearedOn(cpu, ops, false, s, n, r))
  }

  /** Whatever the forwarded code clears, the plain code clears. */
  lemma {:induction false} PlainClearsMoreOn(cpu: Cpu, ops: seq<Op>, s: State, n: nat, r: Reg)
    requires ClearedOn(cpu, ops, true, s, n, r)
    ensures ClearedOn(cpu, ops, false, s, n, r)
  {
    var k := Run(cpu, ops, false, s, n - 1).pc;
    if ClearsAt(ops, true, k, r) {
      SameClears(ops, k, r);
    } else {
      PlainClearsMoreOn(cpu, ops, s, n - 1, r);
    }
  }

  lemma FreshOn(cpu: Cpu, ops: seq<Op>, s: State, n: nat)
    requires HighsAre(cpu, ops, s, n) && !StaleOn(cpu, ops, s, n)
    ensures var f, p := Run(cpu, ops, true, s, n), Run(cpu, ops, false, s, n);
            Accesses(ops, p.pc) ==> SameBase(ops[p.pc].instr, f.regs, p.regs)
  {
    var k := Run(cpu, ops, false, s, n).pc;
    if Accesses(ops, k) {
      var b := ops[k].instr.base;
      assert HighIs(Run(cpu, ops, true, s, n).regs, s.regs, b, ClearedOn(cpu, ops, true, s, n, b));
      assert HighIs(Run(cpu, ops, false, s, n).regs, s.regs, b, ClearedOn(cpu, ops, false, s, n, b));
      if ClearedOn(cpu, ops, true, s, n, b) {
        PlainClearsMoreOn(cpu, ops, s, n, b);
      }
    }
  }

  lemma HighNext(cpu: Cpu, ops: seq<Op>, forward: bool, s: State, n: nat, t: State, r: Reg)
    requires t.pc == Run(cpu, ops, false, s, n).pc && HighIs(t.regs, s.regs, r, ClearedOn(cpu, ops, forward, s, n, r))
    ensures HighIs(Step(cpu, ops, forward, t).regs, s.regs, r, ClearedOn(cpu, ops, forward, s, n + 1, r))
  {
    if t.pc < |ops| {
      StepHigh(cpu, ops, forward, t, r);
    }
  }

  lemma RunNext(cpu: Cpu, ops: seq<Op>, forward: bool, s: State, n: nat)
    ensures Run(cpu, ops, forward, s, n + 1) == Step(cpu, ops, forward, Run(cpu, ops, forward, s, n))
  {
  }

  lemma HighsNext(cpu: Cpu, ops: seq<Op>, s: State, n: nat, m: nat)
    requires m == n + 1 && HighsAre(cpu, ops, s, n) && Run(cpu, ops, true, s, n).pc == Run(cpu, ops, false, s, n).pc
    ensures HighsAre(cpu, ops, s, m)
  {
    var f, p := Run(cpu, ops, true, s, n), Run(cpu, ops, false, s, n);
    RunNext(cpu, ops, true, s, n);
    RunNext(cpu, ops, false, s, n);
    forall r: Reg
      ensures HighIs(Run(cpu, ops, true, s, m).regs, s.regs, r, ClearedOn(cpu, ops, true, s, m, r))
      ensures HighIs(Run(cpu, ops, false, s, m).regs, s.regs, r, ClearedOn(cpu, ops, false, s, m, r))
    {
      HighNext(cpu, ops, true, s, n, f, r);
      HighNext(cpu, ops, false, s, n, p, r);
    }
  }

  /** After `n` steps the codes agree, high halves are as recorded, and the pending store holds. */
  ghost predicate InStep(cpu: Cpu, ops: seq<Op>, s: State, n: nat) {
    && Agree(Run(cpu, ops, true, s, n), Run(cpu, ops, false, s, n)) && HighsAre(cpu, ops, s, n)
    && SlotHolds(ops, Run(cpu, ops, false, s, n))
  }

  lemma InStepNext(cpu: Cpu, ops: seq<Op>, s: State, n: nat, m: nat)
    requires m == n + 1 && WellFormed(ops) && InStep(cpu, ops, s, n) && !StaleOn(cpu, ops, s, n)
    ensures InStep(cpu, ops, s, m)
  {
    FreshOn(cpu, ops, s, n);
    StepAgrees(cpu, ops, Run(cpu, ops, true, s, n), Run(cpu, ops, false, s, n));
    StepHolds(cpu, ops, Run(cpu, ops, false, s, n));
    RunNext(cpu, ops, true, s, n);
    RunNext(cpu, ops, false, s, n);
    HighsNext(cpu, ops, s, n, m);
  }

  lemma InStepAtFirst(cpu: Cpu, ops: seq<Op>, s: State)
    requires s.pc == 0
    ensures InStep(cpu, ops, s, 0)
  {
  }

  /** As long as no access is stale the two codes are in step. */
  lemma {:induction false} InStepOn(cpu: Cpu, ops: seq<Op>, s: State, n: nat)
    requires WellFormed(ops) && s.pc == 0 && forall j: nat :: j < n ==> !StaleOn(cpu, ops, s, j)
    ensures InStep(cpu, ops, s, n)
    decreases n
  {
    if n == 0 {
      InStepAtFirst(cpu, ops, s);
    } else {
      InStepOn(cpu, ops, s, n - 1);
      InStepNext(cpu, ops, s, n - 1, n);
    }
  }

  lemma Apart(h: int, x: int)
    requires 0 < h < 0x1_0000_0000
    ensures Above(h, x) != Above(0, x)
  {
  }

  lemma HighHalfNumber(h: bv32)
    requires h != 0
    ensures 0 < h as int < 0x1_0000_0000 && (0 as bv32) as int == 0
  {
  }

  lemma AddressDiffers(h: bv32, lo: bv32, disp: bv32)
    requires h != 0
    ensures Address(h, lo, disp) != Address(0, lo, disp)
  {
    HighHalfNumber(h);
    Apart(h as int, lo as int + Signed(disp));
  }

  // ----- the machine, by number -----

  lemma TargetByNumber(g: Regs, base: Reg, disp: bv32, d: int, a: nat)
    requires d == if disp as int < 0x8000_0000 then disp as int else disp as int - 0x1_0000_0000
    requires a == (0x1_0000_0000 * Half(g.hi, base) as int + Half(g.lo, base) as int + d) % 0x1_0000_0000_0000_0000
    ensures Target(g, base, disp) == a
  {
    AboveByNumber(Half(g.hi, base) as int, Half(g.lo, base) as int, d);
  }

  lemma AboveByNumber(h: int, l: int, d: int)
    ensures Above(h, l + d) == (0x1_0000_0000 * h + l + d) % 0x1_0000_0000_0000_0000
  {
  }

  /** A load or a store goes to the 64-bit base plus the signed displacement. A load replaces both
      halves of its register, the high one by zero; a store writes the low half, lowest byte
      first. */
  lemma AccessByNumber(cpu: Cpu, reg: Reg, base: Reg, disp: bv32, g: Regs, m: HostMem, f: nat, d: int, a: nat)
    requires d == if disp as int < 0x8000_0000 then disp as int else disp as int - 0x1_0000_0000
    requires a == (0x1_0000_0000 * Half(g.hi, base) as int + Half(g.lo, base) as int + d) % 0x1_0000_0000_0000_0000
    ensures Exec(cpu, Load(reg, base, disp), g, m, f) ==
            (Regs(g.lo[Name(reg) := WordOf(Peek8(m, a), Peek8(m, a + 1), Peek8(m, a + 2), Peek8(m, a + 3))],
                  g.hi[Name(reg) := 0]), m, f)
    ensures var w := Half(g.lo, reg);
      Exec(cpu, Store(reg, base, disp), g, m, f) ==
      (g, m[a := ByteOf(w, 0)][a + 1 := ByteOf(w, 1)][a + 2 := ByteOf(w, 2)][a + 3 := ByteOf(w, 3)], f)
  {
    TargetByNumber(g, base, disp, d, a);
  }

  /** An operation takes its first operand from the register it writes; comparing and testing
      write none, and every operation sets the flags. Moves do not. */
  lemma OperationByNumber(cpu: Cpu, op: Alu, opi: AluImm, dst: Reg, src: Reg, imm: bv32, g: Regs, m: HostMem, f: nat)
    ensures Exec(cpu, Arith(op, dst, src), g, m, f) ==
            (if op == Cmp || op == Test then g
             else Regs(g.lo[Name(dst) := cpu.result(op, Half(g.lo, dst), Half(g.lo, src))], g.hi[Name(dst) := 0]),
             m, cpu.flags(op, Half(g.lo, dst), Half(g.lo, src)))
    ensures Exec(cpu, ArithImm(opi, dst, imm), g, m, f) ==
            (if opi == CmpI then g
             else Regs(g.lo[Name(dst) := cpu.resultImm(opi, Half(g.lo, dst), imm)], g.hi[Name(dst) := 0]),
             m, cpu.flagsImm(opi, Half(g.lo, dst), imm))
    ensures Exec(cpu, Move(dst, src), g, m, f) ==
            (Regs(g.lo[Name(dst) := Half(g.lo, src)], g.hi[Name(dst) := 0]), m, f)
    ensures Exec(cpu, MoveImm(dst, imm), g, m, f) == (Regs(g.lo[Name(dst) := imm], g.hi[Name(dst) := 0]), m, f)
  {
  }

  lemma {:induction false} FirstStaleOn(cpu: Cpu, ops: seq<Op>, s: State, n: nat) returns (first: nat)
    requires StaleOn(cpu, ops, s, n)
    ensures first <= n && StaleOn(cpu, ops, s, first) && forall j: nat :: j < first ==> !StaleOn(cpu, ops, s, j)
    decreases n
  {
    if j: nat :| j < n && StaleOn(cpu, ops, s, j) {
      first := FirstStaleOn(cpu, ops, s, j);
    } else {
      first := n;
    }
  }

  /** The first stale access of a run goes astray. */
  lemma StaleGoesAstrayOn(cpu: Cpu, ops: seq<Op>, s: State, n: nat)
    requires WellFormed(ops) && s.pc == 0 && StaleOn(cpu, ops, s, n)
    requires forall j: nat :: j < n ==> !StaleOn(cpu, ops, s, j)
    ensures !SameAccessOn(cpu, ops, s, n)
  {
    InStepOn(cpu, ops, s, n);
    var f, p := Run(cpu, ops, true, s, n), Run(cpu, ops, false, s, n);
    var b, disp := ops[p.pc].instr.base, ops[p.pc].instr.disp;
    assert HighIs(f.regs, s.regs, b, false) && HighIs(p.regs, s.regs, b, true);
    AddressDiffers(Half(s.regs.hi, b), Half(p.regs.lo, b), disp);
  }

  /** For any program whose jumps land on labels, any starting state and any number of steps:
      every access goes to the address the plain code uses if and only if none is stale, and
      then the forwarded code is at the same place as the plain code, with the same memory,
      flags and low half of every register. */
  lemma RunsAgreeExactly(cpu: Cpu, ops: seq<Op>, s: State, n: nat)
    requires WellFormed(ops) && s.pc == 0
    ensures (forall j: nat :: j < n ==> SameAccessOn(cpu, ops, s, j))
            <==> (forall j: nat :: j < n ==> !StaleOn(cpu, ops, s, j))
    ensures (forall j: nat :: j < n ==> !StaleOn(cpu, ops, s, j)) ==>
              Agree(Run(cpu, ops, true, s, n), Run(cpu, ops, false, s, n))
  {
    if forall j: nat :: j < n ==> !StaleOn(cpu, ops, s, j) {
      InStepOn(cpu, ops, s, n);
      forall j: nat | j < n
        ensures SameAccessOn(cpu, ops, s, j)
      {
        InStepOn(cpu, ops, s, j);
        FreshOn(cpu, ops, s, j);
      }
    } else {
      var j: nat :| j < n && StaleOn(cpu, ops, s, j);
      var first := FirstStaleOn(cpu, ops, s, j);
      StaleGoesAstrayOn(cpu, ops, s, first);
    }
  }

  /** Where the plain code alone clears a high half, a load of that register was dropped. */
  lemma {:induction false} DroppedOn(cpu: Cpu, ops: seq<Op>, s: State, n: nat, r: Reg) returns (k: nat)
    requires ClearedOn(cpu, ops, false, s, n, r) && !ClearedOn(cpu, ops, true, s, n, r)
    ensures k < |ops| && Elided(ops, k) && ops[k].instr.dst == r
    decreases n
  {
    k := Run(cpu, ops, false, s, n - 1).pc;
    if ClearsAt(ops, false, k, r) {
      SameClears(ops, k, r);
    } else {
      k := DroppedOn(cpu, ops, s, n - 1, r);
    }
  }

  /** So no access is stale if no register whose load was dropped serves as a base anywhere. */
  lemma CleanIsNeverStale(cpu: Cpu, ops: seq<Op>, s: State, n: nat)
    requires CleanBases(ops)
    ensures !StaleOn(cpu, ops, s, n)
  {
    if StaleOn(cpu, ops, s, n) {
      var at := Run(cpu, ops, false, s, n).pc;
      var k := DroppedOn(cpu, ops, s, n, ops[at].instr.base);
      assert UsesBase(ops[at], ops[k].instr.dst);
      assert false;
    }
  }

  /** Then every run of the forwarded code agrees with the plain code. */
  lemma ForwardingPreservesMeaning(cpu: Cpu, ops: seq<Op>, s: State, n: nat)
    requires WellFormed(ops) && CleanBases(ops) && s.pc == 0
    ensures Agree(Run(cpu, ops, true, s, n), Run(cpu, ops, false, s, n))
  {
    forall j: nat | j < n
      ensures !StaleOn(cpu, ops, s, j)
    {
      CleanIsNeverStale(cpu, ops, s, j);
    }
    RunsAgreeExactly(cpu, ops, s, n);
  }

  // ----- exactly when, for straight-line code -----

  /** No labels and no jumps. */
  predicate Straight(ops: seq<Op>) { forall i :: 0 <= i < |ops| ==> ops[i].Do? && OpOk(ops, ops[i]) }

  /** One of the first `k` requests clears the high half of `r`. */
  predicate ClearedBy(ops: seq<Op>, forward: bool, k: nat, r: Reg)
    requires k <= |ops|
  {
    exists j :: 0 <= j < k && Clears(Emitted(ops, forward, j), r)
  }

  /** Request `k` accesses memory through a register whose high half only a dropped load
      would have cleared. */
  predicate StaleBase(ops: seq<Op>, k: nat)
    requires k < |ops|
  {
    ops[k].Do? && HasBase(ops[k].instr) && ClearedBy(ops, false, k, ops[k].instr.base)
      && !ClearedBy(ops, true, k, ops[k].instr.base)
  }

  lemma StraightIsWellFormed(ops: seq<Op>)
    requires Straight(ops)
    ensures WellFormed(ops)
  {
  }

  lemma {:induction false} StraightPath(cpu: Cpu, ops: seq<Op>, s: State, k: nat)
    requires Straight(ops) && s.pc == 0 && k <= |ops|
    ensures Run(cpu, ops, false, s, k).pc == k
    decreases k
  {
    if k > 0 {
      StraightPath(cpu, ops, s, k - 1);
    }
  }

  lemma {:induction false} ClearedStraight(cpu: Cpu, ops: seq<Op>, forward: bool, s: State, k: nat, r: Reg)
    requires Straight(ops) && s.pc == 0 && k <= |ops|
    ensures ClearedOn(cpu, ops, forward, s, k, r) <==> ClearedBy(ops, forward, k, r)
    decreases k
  {
    if k > 0 {
      ClearedStraight(cpu, ops, forward, s, k - 1, r);
      StraightPath(cpu, ops, s, k - 1);
      ClearedNext(ops, forward, k - 1, r);
    }
  }

  lemma ClearedNext(ops: seq<Op>, forward: bool, k: nat, r: Reg)
    requires k < |ops|
    ensures ClearedBy(ops, forward, k + 1, r) <==> ClearedBy(ops, forward, k, r) || ClearsAt(ops, forward, k, r)
  {
  }

  lemma StaleStraight(cpu: Cpu, ops: seq<Op>, s: State, k: nat)
    requires Straight(ops) && s.pc == 0 && k < |ops|
    ensures StaleOn(cpu, ops, s, k) <==> StaleBase(ops, k) && Half(s.regs.hi, ops[k].instr.base) != 0
  {
    StraightPath(cpu, ops, s, k);
    if HasBase(ops[k].instr) {
      ClearedStraight(cpu, ops, true, s, k, ops[k].instr.base);
      ClearedStraight(cpu, ops, false, s, k, ops[k].instr.base);
    }
  }

  /** Straight-line code: from every starting state every access goes to the address the
      plain code would use, if and only if no access has a stale base. */
  lemma AccessesAgreeExactly(cpu: Cpu, ops: seq<Op>)
    requires Straight(ops)
    ensures (forall s: State, k: nat :: s.pc == 0 && k < |ops| ==> SameAccessOn(cpu, ops, s, k))
            <==> (forall k: nat :: k < |ops| ==> !StaleBase(ops, k))
  {
    StraightIsWellFormed(ops);
    if forall k: nat :: k < |ops| ==> !StaleBase(ops, k) {
      forall s: State, k: nat | s.pc == 0 && k < |ops|
        ensures SameAccessOn(cpu, ops, s, k)
      {
        NoneStale(cpu, ops, s, k + 1);
        RunsAgreeExactly(cpu, ops, s, k + 1);
      }
    } else {
      var k: nat :| k < |ops| && StaleBase(ops, k);
      var s, j := StraightAstray(cpu, ops, k);
      assert !SameAccessOn(cpu, ops, s, j);
    }
  }

  /** A start from which straight-line code with a stale base goes astray. */
  lemma StraightAstray(cpu: Cpu, ops: seq<Op>, k: nat) returns (s: State, j: nat)
    requires Straight(ops) && WellFormed(ops) && k < |ops| && StaleBase(ops, k)
    ensures s.pc == 0 && j < |ops| && !SameAccessOn(cpu, ops, s, j)
  {
    s := State(0, Regs(map[], map[Name(ops[k].instr.base) := 1]), map[], 0);
    StaleStraight(cpu, ops, s, k);
    RunsAgreeExactly(cpu, ops, s, k + 1);
    j :| j < k + 1 && !SameAccessOn(cpu, ops, s, j);
  }

  lemma NoneStale(cpu: Cpu, ops: seq<Op>, s: State, n: nat)
    requires Straight(ops) && s.pc == 0 && n <= |ops| && forall k: nat :: k < |ops| ==> !StaleBase(ops, k)
    ensures forall j: nat :: j < n ==> !StaleOn(cpu, ops, s, j)
  {
    forall j: nat | j < n
      ensures !StaleOn(cpu, ops, s, j)
    {
      StaleStraight(cpu, ops, s, j);
    }
  }

  /** The stale case is real: store RAX through R15, read it back into RAX, then use RAX
      as a base. The read-back is dropped and RAX keeps its high half. */
  lemma StaleExample()
    ensures var ops := [Do(Store(0, 15, 0)), Do(Load(0, 15, 0)), Do(Load(1, 0, 0))];
      Straight(ops) && StaleBase(ops, 2)
  {
    var ops := [Do(Store(0, 15, 0)), Do(Load(0, 15, 0)), Do(Load(1, 0, 0))];
    assert PendingAt(ops, 1) == Stored(0, 15, 0);
    assert Clears(Emitted(ops, false, 1), 0);
    assert Emitted(ops, true, 1) == [];
    assert !Clears(Emitted(ops, true, 0), 0);
  }
}
