/** The x86-64 instruction forms the code generator emits for 32-bit guest work, as bytes,
    and a decoder for them. */
module X64 {
  import opened GuestMemory

  /** Register numbers, RAX = 0 to R15 = 15. */
  type Reg = r: bv8 | r < 16

  /** Condition codes of conditional jumps. */
  type Cond = c: bv8 | c < 16

  const RSP: Reg := 4

  datatype Alu = Add | Sub | And | Or | Xor | Cmp | Test

  /** Group 1 operations with an immediate. */
  datatype AluImm = AddI | SubI | AndI | CmpI

  datatype Instr =
    | Load(dst: Reg, base: Reg, disp: bv32)
    | Store(src: Reg, base: Reg, disp: bv32)
    | Move(dst: Reg, src: Reg)
    | MoveImm(dst: Reg, imm: bv32)
    | Arith(op: Alu, dst: Reg, src: Reg)
    | ArithImm(opi: AluImm, dst: Reg, imm: bv32)
    | Jump(rel: bv32)
    | Branch(cc: Cond, rel: bv32)

  // ----- encoding -----

  function Rex(reg: Reg, rm: Reg): bv8 { 0x40 | (((reg >> 3) & 1) << 2) | ((rm >> 3) & 1) }

  /** The prefix is left out when it would say nothing. */
  function Prefix(reg: Reg, rm: Reg): seq<bv8> { if Rex(reg, rm) != 0x40 then [Rex(reg, rm)] else [] }

  function ModRm(mod: bv8, reg: bv8, rm: bv8): bv8 { (mod << 6) | ((reg & 7) << 3) | (rm & 7) }

  /** A base whose low bits are 4 needs the index byte that says "no index". */
  function Memory(reg: Reg, base: Reg): seq<bv8> {
    if base & 7 == RSP then [ModRm(2, reg, RSP), 0x24] else [ModRm(2, reg, base)]
  }

  function Word(w: bv32): seq<bv8> { [ByteOf(w, 0), ByteOf(w, 1), ByteOf(w, 2), ByteOf(w, 3)] }

  function Opcode(op: Alu): bv8 {
    match op
    case Add => 0x01
    case Sub => 0x29
    case And => 0x21
    case Or => 0x09
    case Xor => 0x31
    case Cmp => 0x39
    case Test => 0x85
  }

  function Extension(op: AluImm): bv8 {
    match op
    case AddI => 0
    case SubI => 5
    case AndI => 4
    case CmpI => 7
  }

  function Encode(i: Instr): (bytes: seq<bv8>)
    ensures |bytes| > 0
  {
    match i
    case Load(dst, base, disp) => Prefix(dst, base) + [0x8B] + Memory(dst, base) + Word(disp)
    case Store(src, base, disp) => Prefix(src, base) + [0x89] + Memory(src, base) + Word(disp)
    case Move(dst, src) => Prefix(src, dst) + [0x89, ModRm(3, src, dst)]
    case MoveImm(dst, imm) => Prefix(0, dst) + [0xB8 | (dst & 7)] + Word(imm)
    case Arith(op, dst, src) => Prefix(src, dst) + [Opcode(op), ModRm(3, src, dst)]
    case ArithImm(op, dst, imm) => Prefix(0, dst) + [0x81, ModRm(3, Extension(op), dst)] + Word(imm)
    case Jump(rel) => [0xE9] + Word(rel)
    case Branch(cc, rel) => [0x0F, 0x80 | cc] + Word(rel)
  }

  // ----- the bytes, by number -----

  lemma SameByte(a: bv8, b: bv8)
    requires a as nat == b as nat
    ensures a == b
  {
  }

  /** A word is emitted as its digits to base 256, the lowest first. */
  lemma WordBytes(w: bv32, b0: bv8, b1: bv8, b2: bv8, b3: bv8)
    requires w as nat == b0 as nat + 0x100 * b1 as nat + 0x1_0000 * b2 as nat + 0x100_0000 * b3 as nat
    ensures Word(w) == [b0, b1, b2, b3]
  {
    ByteIsSmall(b0);
    ByteIsSmall(b1);
    ByteIsSmall(b2);
    ByteIsSmall(b3);
    BytesAreDigits(w);
    DigitsOf(w as nat, b0 as nat, b1 as nat, b2 as nat, b3 as nat);
    SameByte(ByteOf(w, 0), b0);
    SameByte(ByteOf(w, 1), b1);
    SameByte(ByteOf(w, 2), b2);
    SameByte(ByteOf(w, 3), b3);
  }

  lemma RexNumber(reg: Reg, rm: Reg)
    ensures Rex(reg, rm) == 0x40 + 4 * (reg / 8) + rm / 8
    ensures Prefix(reg, rm) == if reg < 8 && rm < 8 then [] else [0x40 + 4 * (reg / 8) + rm / 8]
  {
    assert Rex(reg, rm) == 0x40 + 4 * (reg / 8) + rm / 8;
    assert Rex(reg, rm) == 0x40 <==> reg < 8 && rm < 8;
  }

  lemma OperandNumber(mod: bv8, reg: bv8, rm: bv8)
    requires mod < 4
    ensures ModRm(mod, reg, rm) == 0x40 * mod + 8 * (reg % 8) + rm % 8
  {
  }

  /** The bytes of an operation on two registers. The numbers of the registers are split between
      the prefix, there only when one of them is 8 or more, and the operand byte. */
  lemma ArithBytes(op: Alu, dst: Reg, src: Reg)
    ensures Encode(Arith(op, dst, src)) ==
            (if src < 8 && dst < 8 then [] else [0x40 + 4 * (src / 8) + dst / 8])
            + [match op case Add => 0x01 case Or => 0x09 case And => 0x21 case Sub => 0x29
                        case Xor => 0x31 case Cmp => 0x39 case Test => 0x85,
               0xC0 + 8 * (src % 8) + dst % 8]
    ensures Encode(Move(dst, src)) ==
            (if src < 8 && dst < 8 then [] else [0x40 + 4 * (src / 8) + dst / 8])
            + [0x89, 0xC0 + 8 * (src % 8) + dst % 8]
  {
    RexNumber(src, dst);
    OperandNumber(3, src, dst);
  }

  /** Of an operation with a constant, and of loading one: the constant's digits to base 256 come
      last, the lowest first. */
  lemma ConstantBytes(op: AluImm, dst: Reg, imm: bv32, b0: bv8, b1: bv8, b2: bv8, b3: bv8)
    requires imm as nat == b0 as nat + 0x100 * b1 as nat + 0x1_0000 * b2 as nat + 0x100_0000 * b3 as nat
    ensures Encode(ArithImm(op, dst, imm)) ==
            (if dst < 8 then [] else [0x41])
            + [0x81, 0xC0 + dst % 8 + match op case AddI => 0x00 case AndI => 0x20 case SubI => 0x28 case CmpI => 0x38]
            + [b0, b1, b2, b3]
    ensures Encode(MoveImm(dst, imm)) == (if dst < 8 then [] else [0x41]) + [0xB8 + dst % 8] + [b0, b1, b2, b3]
  {
    RexNumber(0, dst);
    OperandNumber(3, Extension(op), dst);
    WordBytes(imm, b0, b1, b2, b3);
  }

  lemma IndexNumber(base: Reg)
    ensures base & 7 == 4 <==> base == 4 || base == 12
    ensures base == 4 || base == 12 ==> base % 8 == 4
  {
  }

  lemma MemoryNumber(reg: Reg, base: Reg)
    ensures Memory(reg, base) ==
            [0x80 + 8 * (reg % 8) + base % 8] + (if base == 4 || base == 12 then [0x24] else [])
  {
    IndexNumber(base);
    OperandNumber(2, reg, base);
    OperandNumber(2, reg, RSP);
  }

  /** Of a load or a store: a base register whose number is 4 or 12 needs one byte more. */
  lemma AccessBytes(reg: Reg, base: Reg, disp: bv32, b0: bv8, b1: bv8, b2: bv8, b3: bv8)
    requires disp as nat == b0 as nat + 0x100 * b1 as nat + 0x1_0000 * b2 as nat + 0x100_0000 * b3 as nat
    ensures var prefix := if reg < 8 && base < 8 then [] else [0x40 + 4 * (reg / 8) + base / 8];
            var place := [0x80 + 8 * (reg % 8) + base % 8] + (if base == 4 || base == 12 then [0x24] else []);
            && Encode(Load(reg, base, disp)) == prefix + [0x8B] + place + [b0, b1, b2, b3]
            && Encode(Store(reg, base, disp)) == prefix + [0x89] + place + [b0, b1, b2, b3]
  {
    RexNumber(reg, base);
    MemoryNumber(reg, base);
    WordBytes(disp, b0, b1, b2, b3);
  }

  lemma ConditionNumber(cc: Cond)
    ensures 0x80 | cc == 0x80 + cc
  {
  }

  /** Of a jump, and of a jump on a condition. */
  lemma JumpNumbers(cc: Cond, rel: bv32, b0: bv8, b1: bv8, b2: bv8, b3: bv8)
    requires rel as nat == b0 as nat + 0x100 * b1 as nat + 0x1_0000 * b2 as nat + 0x100_0000 * b3 as nat
    ensures Encode(Jump(rel)) == [0xE9] + [b0, b1, b2, b3]
    ensures Encode(Branch(cc, rel)) == [0x0F, 0x80 + cc] + [b0, b1, b2, b3]
  {
    ConditionNumber(cc);
    WordBytes(rel, b0, b1, b2, b3);
  }

  // ----- decoding -----

  datatype Decoded = Bad | Good(instr: Instr, length: nat)

  /** A register number from its high bit in a prefix and its three low bits. */
  function Join(high: bv8, low: bv8): Reg { ((high & 1) << 3) | (low & 7) }

  function WordAt(s: seq<bv8>, k: nat): bv32
    requires k + 4 <= |s|
  {
    WordOf(s[k], s[k + 1], s[k + 2], s[k + 3])
  }

  predicate IsRex(b: bv8) { b & 0xF0 == 0x40 }

  /** Decode what follows a prefix `p` (0x40 stands for none). */
  function DecodeAfter(p: bv8, s: seq<bv8>): Decoded {
    if |s| < 2 then Bad
    else if s[0] == 0x8B || s[0] == 0x89 then DecodeMove(p, s)
    else if s[0] & 0xF8 == 0xB8 then
      if |s| < 5 then Bad else Good(MoveImm(Join(p, s[0]), WordAt(s, 1)), 5)
    else if s[0] == 0x81 then DecodeImm(p, s)
    else DecodeArith(p, s)
  }

  function DecodeMove(p: bv8, s: seq<bv8>): Decoded
    requires |s| >= 2
  {
    var reg, rm := Join(p >> 2, s[1] >> 3), Join(p, s[1]);
    if s[1] >> 6 == 3 then (if s[0] == 0x89 then Good(Move(rm, reg), 2) else Bad)
    else if s[1] >> 6 != 2 then Bad
    else if s[1] & 7 != 4 then
      if |s| < 6 then Bad
      else Good(if s[0] == 0x8B then Load(reg, rm, WordAt(s, 2)) else Store(reg, rm, WordAt(s, 2)), 6)
    else
      if |s| < 7 || s[2] != 0x24 then Bad
      else Good(if s[0] == 0x8B then Load(reg, rm, WordAt(s, 3)) else Store(reg, rm, WordAt(s, 3)), 7)
  }

  function DecodeImm(p: bv8, s: seq<bv8>): Decoded
    requires |s| >= 2
  {
    var ext, rm := (s[1] >> 3) & 7, Join(p, s[1]);
    if |s| < 6 || s[1] >> 6 != 3 then Bad
    else if ext == 0 then Good(ArithImm(AddI, rm, WordAt(s, 2)), 6)
    else if ext == 5 then Good(ArithImm(SubI, rm, WordAt(s, 2)), 6)
    else if ext == 4 then Good(ArithImm(AndI, rm, WordAt(s, 2)), 6)
    else if ext == 7 then Good(ArithImm(CmpI, rm, WordAt(s, 2)), 6)
    else Bad
  }

  function DecodeArith(p: bv8, s: seq<bv8>): Decoded
    requires |s| >= 2
  {
    var reg, rm := Join(p >> 2, s[1] >> 3), Join(p, s[1]);
    if s[1] >> 6 != 3 then Bad
    else if s[0] == 0x01 then Good(Arith(Add, rm, reg), 2)
    else if s[0] == 0x29 then Good(Arith(Sub, rm, reg), 2)
    else if s[0] == 0x21 then Good(Arith(And, rm, reg), 2)
    else if s[0] == 0x09 then Good(Arith(Or, rm, reg), 2)
    else if s[0] == 0x31 then Good(Arith(Xor, rm, reg), 2)
    else if s[0] == 0x39 then Good(Arith(Cmp, rm, reg), 2)
    else if s[0] == 0x85 then Good(Arith(Test, rm, reg), 2)
    else Bad
  }

  function Decode(s: seq<bv8>): Decoded {
    if s == [] then Bad
    else if s[0] == 0xE9 then (if |s| < 5 then Bad else Good(Jump(WordAt(s, 1)), 5))
    else if s[0] == 0x0F then
      if |s| < 6 || s[1] & 0xF0 != 0x80 then Bad else Good(Branch(s[1] & 0x0F, WordAt(s, 2)), 6)
    else if IsRex(s[0]) then
      match DecodeAfter(s[0], s[1..])
      case Bad => Bad
      case Good(i, n) => Good(i, n + 1)
    else DecodeAfter(0x40, s)
  }

  // ----- the decoder undoes the encoder -----

  /** Prefix and operand byte together name both registers. */
  lemma RegistersBack(mod: bv8, reg: Reg, rm: Reg, p: bv8, b: bv8)
    requires mod < 4 && p == Rex(reg, rm) && b == ModRm(mod, reg, rm)
    ensures b >> 6 == mod && Join(p >> 2, b >> 3) == reg && Join(p, b) == rm
    ensures b & 7 == rm & 7 && IsRex(p)
  {
  }

  lemma ExtensionBack(ext: bv8, rm: Reg, p: bv8, b: bv8)
    requires ext < 8 && p == Rex(0, rm) && b == ModRm(3, ext, rm)
    ensures b >> 6 == 3 && (b >> 3) & 7 == ext && Join(p, b) == rm
  {
  }

  lemma ImmediateBack(dst: Reg, p: bv8, b: bv8)
    requires p == Rex(0, dst) && b == 0xB8 | (dst & 7)
    ensures b & 0xF8 == 0xB8 && Join(p, b) == dst && b != 0x8B && b != 0x89 && !IsRex(b) && b != 0xE9 && b != 0x0F
  {
  }

  lemma ConditionBack(cc: Cond, b: bv8)
    requires b == 0x80 | cc
    ensures b & 0xF0 == 0x80 && b & 0x0F == cc
  {
  }

  /** The base register of the index form: the low bits say RSP, the prefix the rest. */
  lemma IndexedBase(reg: Reg, base: Reg, p: bv8, b: bv8)
    requires base & 7 == RSP && p == Rex(reg, base) && b == ModRm(2, reg, RSP)
    ensures b >> 6 == 2 && b & 7 == 4 && Join(p >> 2, b >> 3) == reg && Join(p, b) == base
  {
  }

  lemma WordBack(w: bv32, s: seq<bv8>, k: nat)
    requires k + 4 <= |s| && s[k] == ByteOf(w, 0) && s[k + 1] == ByteOf(w, 1) && s[k + 2] == ByteOf(w, 2)
    requires s[k + 3] == ByteOf(w, 3)
    ensures WordAt(s, k) == w
  {
    WordOfBytes(w);
  }

  /** A body whose first byte is neither a prefix nor a jump is decoded with the prefix
      that precedes it, present or implied. */
  lemma Prefixed(reg: Reg, rm: Reg, body: seq<bv8>, rest: seq<bv8>, i: Instr)
    requires body != [] && !IsRex(body[0]) && body[0] != 0xE9 && body[0] != 0x0F
    requires DecodeAfter(Rex(reg, rm), body + rest) == Good(i, |body|)
    ensures Decode(Prefix(reg, rm) + body + rest) == Good(i, |Prefix(reg, rm) + body|)
  {
    var p := Rex(reg, rm);
    RegistersBack(3, reg, rm, p, ModRm(3, reg, rm));
    var s := Prefix(reg, rm) + body + rest;
    if p != 0x40 {
      assert s[0] == p && s[1..] == body + rest;
      RexIsNoJump(p);
    } else {
      assert s == body + rest;
    }
  }

  lemma RexIsNoJump(p: bv8)
    requires IsRex(p)
    ensures p != 0xE9 && p != 0x0F
  {
  }

  lemma MemoryBack(load: bool, reg: Reg, base: Reg, disp: bv32, rest: seq<bv8>)
    ensures var body := [if load then 0x8B else 0x89 as bv8] + Memory(reg, base) + Word(disp);
      DecodeAfter(Rex(reg, base), body + rest)
        == Good(if load then Load(reg, base, disp) else Store(reg, base, disp), |body|)
  {
    var op: bv8 := if load then 0x8B else 0x89;
    var p, s := Rex(reg, base), [op] + Memory(reg, base) + Word(disp) + rest;
    if base & 7 == RSP {
      var b := ModRm(2, reg, RSP);
      IndexedBase(reg, base, p, b);
      assert s == [op, b, 0x24] + Word(disp) + rest;
      WordBack(disp, s, 3);
    } else {
      var b := ModRm(2, reg, base);
      RegistersBack(2, reg, base, p, b);
      assert s == [op, b] + Word(disp) + rest;
      WordBack(disp, s, 2);
    }
  }

  lemma PlainOpcode(op: Alu)
    ensures var b := Opcode(op);
            !IsRex(b) && b != 0xE9 && b != 0x0F && b != 0x8B && b != 0x89 && b & 0xF8 != 0xB8 && b != 0x81
  {
  }

  lemma ArithBack(op: Alu, dst: Reg, src: Reg, rest: seq<bv8>)
    ensures var body := [Opcode(op), ModRm(3, src, dst)];
      DecodeAfter(Rex(src, dst), body + rest) == Good(Arith(op, dst, src), |body|)
  {
    var p, b := Rex(src, dst), ModRm(3, src, dst);
    RegistersBack(3, src, dst, p, b);
    PlainOpcode(op);
    var s := [Opcode(op), b] + rest;
    assert s[0] == Opcode(op) && s[1] == b;
  }

  lemma ArithImmBack(op: AluImm, dst: Reg, imm: bv32, rest: seq<bv8>)
    ensures var body := [0x81, ModRm(3, Extension(op), dst)] + Word(imm);
      DecodeAfter(Rex(0, dst), body + rest) == Good(ArithImm(op, dst, imm), |body|)
  {
    var p, b := Rex(0, dst), ModRm(3, Extension(op), dst);
    ExtensionBack(Extension(op), dst, p, b);
    var s := [0x81, b] + Word(imm) + rest;
    WordBack(imm, s, 2);
  }

  lemma LoadDecodes(dst: Reg, base: Reg, disp: bv32, rest: seq<bv8>)
    ensures Decode(Encode(Load(dst, base, disp)) + rest) == Good(Load(dst, base, disp), |Encode(Load(dst, base, disp))|)
  {
    var body := [0x8B] + Memory(dst, base) + Word(disp);
    MemoryBack(true, dst, base, disp, rest);
    Prefixed(dst, base, body, rest, Load(dst, base, disp));
    assert Encode(Load(dst, base, disp)) == Prefix(dst, base) + body;
  }

  lemma StoreDecodes(src: Reg, base: Reg, disp: bv32, rest: seq<bv8>)
    ensures Decode(Encode(Store(src, base, disp)) + rest)
            == Good(Store(src, base, disp), |Encode(Store(src, base, disp))|)
  {
    var body := [0x89] + Memory(src, base) + Word(disp);
    MemoryBack(false, src, base, disp, rest);
    Prefixed(src, base, body, rest, Store(src, base, disp));
    assert Encode(Store(src, base, disp)) == Prefix(src, base) + body;
  }

  lemma MoveDecodes(dst: Reg, src: Reg, rest: seq<bv8>)
    ensures Decode(Encode(Move(dst, src)) + rest) == Good(Move(dst, src), |Encode(Move(dst, src))|)
  {
    RegistersBack(3, src, dst, Rex(src, dst), ModRm(3, src, dst));
    Prefixed(src, dst, [0x89, ModRm(3, src, dst)], rest, Move(dst, src));
  }

  lemma MoveImmDecodes(dst: Reg, imm: bv32, rest: seq<bv8>)
    ensures Decode(Encode(MoveImm(dst, imm)) + rest) == Good(MoveImm(dst, imm), |Encode(MoveImm(dst, imm))|)
  {
    var b := 0xB8 | (dst & 7);
    ImmediateBack(dst, Rex(0, dst), b);
    WordBack(imm, [b] + Word(imm) + rest, 1);
    Prefixed(0, dst, [b] + Word(imm), rest, MoveImm(dst, imm));
    assert Encode(MoveImm(dst, imm)) == Prefix(0, dst) + ([b] + Word(imm));
  }

  lemma ArithDecodes(op: Alu, dst: Reg, src: Reg, rest: seq<bv8>)
    ensures Decode(Encode(Arith(op, dst, src)) + rest) == Good(Arith(op, dst, src), |Encode(Arith(op, dst, src))|)
  {
    PlainOpcode(op);
    ArithBack(op, dst, src, rest);
    Prefixed(src, dst, [Opcode(op), ModRm(3, src, dst)], rest, Arith(op, dst, src));
  }

  lemma ArithImmDecodes(op: AluImm, dst: Reg, imm: bv32, rest: seq<bv8>)
    ensures Decode(Encode(ArithImm(op, dst, imm)) + rest)
            == Good(ArithImm(op, dst, imm), |Encode(ArithImm(op, dst, imm))|)
  {
    var body := [0x81, ModRm(3, Extension(op), dst)] + Word(imm);
    ArithImmBack(op, dst, imm, rest);
    Prefixed(0, dst, body, rest, ArithImm(op, dst, imm));
    assert Encode(ArithImm(op, dst, imm)) == Prefix(0, dst) + body;
  }

  lemma JumpDecodes(rel: bv32, rest: seq<bv8>)
    ensures Decode(Encode(Jump(rel)) + rest) == Good(Jump(rel), |Encode(Jump(rel))|)
  {
    WordBack(rel, [0xE9] + Word(rel) + rest, 1);
  }

  lemma BranchDecodes(cc: Cond, rel: bv32, rest: seq<bv8>)
    ensures Decode(Encode(Branch(cc, rel)) + rest) == Good(Branch(cc, rel), |Encode(Branch(cc, rel))|)
  {
    ConditionBack(cc, 0x80 | cc);
    WordBack(rel, [0x0F, 0x80 | cc] + Word(rel) + rest, 2);
  }

  /** Every emitted instruction decodes to itself, whatever follows: all sixteen
      registers, all displacements and immediates. */
  lemma DecodesBack(i: Instr, rest: seq<bv8>)
    ensures Decode(Encode(i) + rest) == Good(i, |Encode(i)|)
  {
    match i
    case Load(dst, base, disp) => LoadDecodes(dst, base, disp, rest);
    case Store(src, base, disp) => StoreDecodes(src, base, disp, rest);
    case Move(dst, src) => MoveDecodes(dst, src, rest);
    case MoveImm(dst, imm) => MoveImmDecodes(dst, imm, rest);
    case Arith(op, dst, src) => ArithDecodes(op, dst, src, rest);
    case ArithImm(op, dst, imm) => ArithImmDecodes(op, dst, imm, rest);
    case Jump(rel) => JumpDecodes(rel, rest);
    case Branch(cc, rel) => BranchDecodes(cc, rel, rest);
  }

  // ----- streams of instructions -----

  /** The pieces `f` makes of instructions, in order. */
  function Joined(f: Instr -> seq<bv8>, code: seq<Instr>): seq<bv8> {
    if code == [] then [] else f(code[0]) + Joined(f, code[1..])
  }

  function EncodeAll(code: seq<Instr>): seq<bv8> { Joined(Encode, code) }

  /** Instructions decoded from the front; what is left over when decoding stops. */
  function DecodeAll(s: seq<bv8>): (r: (seq<Instr>, seq<bv8>))
    decreases |s|
  {
    match Decode(s)
    case Bad => ([], s)
    case Good(i, n) =>
      if n == 0 || n > |s| then ([], s)
      else var (more, left) := DecodeAll(s[n..]); ([i] + more, left)
  }

  lemma {:induction false} JoinedAppend(f: Instr -> seq<bv8>, code: seq<Instr>, more: seq<Instr>)
    ensures Joined(f, code + more) == Joined(f, code) + Joined(f, more)
  {
    if code == [] {
      assert code + more == more;
    } else {
      JoinedAppend(f, code[1..], more);
      assert (code + more)[1..] == code[1..] + more;
    }
  }

  lemma EncodeAppend(code: seq<Instr>, i: Instr)
    ensures EncodeAll(code + [i]) == EncodeAll(code) + Encode(i)
  {
    JoinedAppend(Encode, code, [i]);
    assert [i][1..] == [];
    assert Joined(Encode, [i]) == Encode(i) + [];
  }

  /** A whole stream decodes to the instructions it was made from. */
  lemma {:induction false} StreamDecodesBack(code: seq<Instr>)
    ensures DecodeAll(EncodeAll(code)) == (code, [])
  {
    if code != [] {
      var first, rest := Encode(code[0]), EncodeAll(code[1..]);
      DecodesBack(code[0], rest);
      StreamDecodesBack(code[1..]);
      assert (first + rest)[|first|..] == rest;
      assert [code[0]] + code[1..] == code;
    }
  }
}
