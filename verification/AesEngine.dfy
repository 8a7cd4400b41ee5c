/** The AES peripheral's DMA operation: registers in, a message through the selected mode,
    the vector registers carried over to the next operation. */
module AesEngine {
  import opened Options
  import opened GuestMemory
  import opened AesCipher
  import opened AesBlocks
  import opened AesKey
  import opened AesCounter
  import opened AesModes
  import AesStandard

  // ----- registers and bytes -----

  type Words = w: seq<bv32> | |w| == 4 witness [0, 0, 0, 0]

  function Unpacked(w: Words): Block {
    [ByteOf(w[0], 0), ByteOf(w[0], 1), ByteOf(w[0], 2), ByteOf(w[0], 3),
     ByteOf(w[1], 0), ByteOf(w[1], 1), ByteOf(w[1], 2), ByteOf(w[1], 3),
     ByteOf(w[2], 0), ByteOf(w[2], 1), ByteOf(w[2], 2), ByteOf(w[2], 3),
     ByteOf(w[3], 0), ByteOf(w[3], 1), ByteOf(w[3], 2), ByteOf(w[3], 3)]
  }

  function Packed(b: Block): Words {
    [WordOf(b[0], b[1], b[2], b[3]), WordOf(b[4], b[5], b[6], b[7]),
     WordOf(b[8], b[9], b[10], b[11]), WordOf(b[12], b[13], b[14], b[15])]
  }

  /** A block survives the trip through the registers. */
  lemma UnpackPacked(b: Block)
    ensures Unpacked(Packed(b)) == b
  {
    var w := Packed(b);
    BytesOfWord(b[0], b[1], b[2], b[3], w[0]);
    BytesOfWord(b[4], b[5], b[6], b[7], w[1]);
    BytesOfWord(b[8], b[9], b[10], b[11], w[2]);
    BytesOfWord(b[12], b[13], b[14], b[15], w[3]);
  }

  /** The registers hold the block from its first byte on, the first byte of each lowest. */
  lemma UnpackedBytes(w: Words, i: nat, k: nat)
    requires i < 4 && k < 4
    ensures Unpacked(w)[4 * i + k] == ByteOf(w[i], k)
  {
    assert i == 0 || i == 1 || i == 2 || i == 3;
    assert k == 0 || k == 1 || k == 2 || k == 3;
  }

  /** The bytes of the first `n` key registers. */
  function KeyBytes(w: seq<bv32>, n: nat): (key: seq<bv8>)
    requires n <= |w|
    ensures |key| == 4 * n
    ensures forall i :: 0 <= i < n ==>
              key[4 * i] == ByteOf(w[i], 0) && key[4 * i + 1] == ByteOf(w[i], 1) && key[4 * i + 2] == ByteOf(w[i], 2)
              && key[4 * i + 3] == ByteOf(w[i], 3)
  {
    if n == 0 then []
    else KeyBytes(w, n - 1) + [ByteOf(w[n - 1], 0), ByteOf(w[n - 1], 1), ByteOf(w[n - 1], 2), ByteOf(w[n - 1], 3)]
  }

  // ----- one block -----

  /** The setup `p` is the cipher with schedule `rk`. */
  ghost predicate Implements(p: Setup, rk: seq<bv32>, nr: nat) {
    ScheduleFor(rk, nr)
    && (forall b: Block {:trigger Cipher(b, rk, nr)} :: p.enc(b) == Cipher(b, rk, nr))
    && (forall b: Block {:trigger InvCipher(b, rk, nr)} :: p.dec(b) == InvCipher(b, rk, nr))
  }

  method Encrypt(input: Block, rk: seq<bv32>, nr: nat, ghost p: Setup) returns (output: Block)
    requires Implements(p, rk, nr)
    ensures output == p.enc(input)
  {
    ghost var states;
    output, states := EncryptBlock(input, rk, nr);
  }

  method Decrypt(input: Block, rk: seq<bv32>, nr: nat, ghost p: Setup) returns (output: Block)
    requires Implements(p, rk, nr)
    ensures output == p.dec(input)
  {
    ghost var states, keyed;
    output, states, keyed := DecryptBlock(input, rk, nr);
  }

  method XorBlock(left: Block, right: Block) returns (out: Block)
    ensures out == Xor(left, right)
  {
    var acc: seq<bv8> := [];
    for i := 0 to 16
      invariant |acc| == i && forall k :: 0 <= k < i ==> acc[k] == Xor(left, right)[k]
    {
      acc := acc + [left[i] ^ right[i]];
    }
    out := acc;
  }

  /** Sixteen bytes of CFB8: one cipher call a byte, the vector shifted in between. */
  method TransformBytes(iv0: Block, input: Block, rk: seq<bv32>, nr: nat, decrypt: bool, ghost p: Setup)
    returns (out: seq<bv8>, iv: Block)
    requires Implements(p, rk, nr)
    ensures Output(out, iv) == Bytewise(p, decrypt, iv0, input, |input|)
  {
    out, iv := [], iv0;
    for n := 0 to 16
      invariant Output(out, iv) == Bytewise(p, decrypt, iv0, input, n)
    {
      var stream := Encrypt(iv, rk, nr, p);
      var c := XorByte(input[n], stream[0]);
      out := out + [c];
      iv := Shifted(iv, if decrypt then input[n] else c);
    }
  }

  method BumpCounter(iv0: Block, wide: bool) returns (iv: Block)
    ensures iv == Incremented(iv0, wide)
  {
    var counter := CopyBlock(iv0);
    CounterIncrement(counter, wide);
    iv := counter[..];
  }

  /** One turn of the operation's loop. */
  method TransformBlock(iv0: Block, input: Block, rk: seq<bv32>, nr: nat, decrypt: bool, mode: Mode, wide: bool,
                        ghost p: Setup)
    returns (out: Block, iv: Block)
    requires Implements(p, rk, nr) && p.mode == mode && p.wide == wide
    ensures BlockOut(out, iv) == BlockStep(p, decrypt, iv0, input)
  {
    iv := iv0;
    match mode
    case ECB =>
      if decrypt {
        out := Decrypt(input, rk, nr, p);
      } else {
        out := Encrypt(input, rk, nr, p);
      }
    case CBC =>
      if decrypt {
        var tmp := Decrypt(input, rk, nr, p);
        out := XorBlock(tmp, iv);
        iv := input;
      } else {
        var tmp := XorBlock(input, iv);
        out := Encrypt(tmp, rk, nr, p);
        iv := out;
      }
    case OFB =>
      var stream := Encrypt(iv, rk, nr, p);
      out := XorBlock(input, stream);
      iv := stream;
    case CTR =>
      var stream := Encrypt(iv, rk, nr, p);
      out := XorBlock(input, stream);
      iv := BumpCounter(iv, wide);
    case CFB8 =>
      out, iv := TransformBytes(iv, input, rk, nr, decrypt, p);
    case CFB128 =>
      var stream := Encrypt(iv, rk, nr, p);
      out := XorBlock(input, stream);
      iv := if decrypt then input else out;
  }

  /** The loop over the blocks of a message. */
  method TransformMessage(iv0: Block, input: seq<bv8>, n: nat, rk: seq<bv32>, nr: nat, decrypt: bool, mode: Mode,
                          wide: bool, ghost p: Setup)
    returns (output: seq<bv8>, iv: Block)
    requires Implements(p, rk, nr) && p.mode == mode && p.wide == wide && |input| == 16 * n
    ensures Output(output, iv) == Run(p, decrypt, iv0, input, n)
  {
    output, iv := [], iv0;
    for k := 0 to n
      invariant Output(output, iv) == Run(p, decrypt, iv0, input, k)
    {
      var out, next := TransformBlock(iv, BlockAt(input, k), rk, nr, decrypt, mode, wide, p);
      RunNext(p, decrypt, iv0, input, k, Output(output, iv), BlockOut(out, next));
      output := output + out;
      iv := next;
    }
  }

  // ----- the peripheral -----

  /** The registers an operation reads. */
  datatype Regs = Regs(mode: bv32, key: seq<bv32>, iv: Words, blockMode: nat, blockNum: nat, incSel: nat)

  /** What the chip has: the key sizes it supports, and a DMA channel for the engine. */
  datatype Target = Target(keySizeMask: bv32, hasDma: bool)

  function KeySize(mode: bv32): nat { (mode & 3) as nat }

  predicate KeySizeOk(mode: bv32, t: Target) {
    KeySize(mode) <= 2 && t.keySizeMask & (1 << KeySize(mode)) != 0
  }

  predicate Decrypting(mode: bv32) { mode & 4 != 0 }

  const MAX_BYTES: nat := 1024 * 4095

  /** The checks before anything is moved. */
  predicate Accepts(r: Regs, t: Target) {
    KeySizeOk(r.mode, t) && t.hasDma && 0 < r.blockNum <= MAX_BYTES / 16 && r.blockMode <= 5
  }

  function ModeOf(n: nat): Mode
    requires n <= 5
  {
    if n == 0 then ECB else if n == 1 then CBC else if n == 2 then OFB
    else if n == 3 then CTR else if n == 4 then CFB8 else CFB128
  }

  predicate RegsOk(r: Regs) { |r.key| == 8 }

  function WordsOfKey(mode: bv32): nat { 4 + 2 * KeySize(mode) }

  ghost function SetupFor(r: Regs): Setup
    requires RegsOk(r) && KeySize(r.mode) <= 2 && r.blockMode <= 5
  {
    var nk := WordsOfKey(r.mode);
    AesSetup(ScheduleOf(KeyBytes(r.key, nk), nk), Rounds(nk), ModeOf(r.blockMode), r.incSel != 0)
  }

  /** What an accepted operation makes of `input`. */
  ghost function Transformed(r: Regs, input: seq<bv8>): Output
    requires RegsOk(r) && KeySize(r.mode) <= 2 && r.blockMode <= 5 && |input| == 16 * r.blockNum
  {
    Run(SetupFor(r), Decrypting(r.mode), Unpacked(r.iv), input, r.blockNum)
  }

  /** ECB never writes the vector registers; every other mode leaves the next vector there. */
  ghost function IvAfter(r: Regs, o: Output): Words { if r.blockMode == 0 then r.iv else Packed(o.iv) }

  /** The key registers as a schedule. */
  method ModeKey(key: seq<bv32>, mode: bv32, t: Target) returns (ok: bool, rk: seq<bv32>, nr: nat)
    requires |key| == 8
    ensures ok == KeySizeOk(mode, t)
    ensures ok ==> var nk := WordsOfKey(mode);
      rk == ScheduleOf(KeyBytes(key, nk), nk) && nr == Rounds(nk) && ScheduleFor(rk, nr)
  {
    rk, nr := [], 0;
    ok := KeySizeOk(mode, t);
    if ok {
      var nk := WordsOfKey(mode);
      var bytes := KeyBytes(key, nk);
      var words := new bv32[60];
      nr := KeyExpand(bytes, 16 + 8 * KeySize(mode), words);
      rk := words[..4 * (nr + 1)];
      OneSchedule(rk, bytes, nk);
    }
  }

  lemma SetupImplements(r: Regs, rk: seq<bv32>, nr: nat)
    requires RegsOk(r) && KeySize(r.mode) <= 2 && r.blockMode <= 5
    requires var nk := WordsOfKey(r.mode);
             rk == ScheduleOf(KeyBytes(r.key, nk), nk) && nr == Rounds(nk) && ScheduleFor(rk, nr)
    ensures Implements(SetupFor(r), rk, nr)
    ensures SetupFor(r).mode == ModeOf(r.blockMode) && SetupFor(r).wide == (r.incSel != 0)
  {
  }

  /** What the registers ask for, by the standard: bits 0 and 1 of the mode register are the key size,
      bit 2 is the direction, and the number in the block-mode register is the mode. */
  ghost predicate AsAsked(r: Regs, input: seq<bv8>, output: seq<bv8>, next: Block)
    requires |r.key| == 8
  {
    var nk := if r.mode & 3 == 0 then 4 else if r.mode & 3 == 1 then 6 else 8;
    var rk := ScheduleOf(KeyBytes(r.key, nk), nk);
    var enc, dec := (b: Block) => Cipher(b, rk, nk + 6), (b: Block) => InvCipher(b, rk, nk + 6);
    var wide, decrypt, iv := r.incSel != 0, r.mode & 4 == 4, Unpacked(r.iv);
    && AesStandard.ByTheStandard(enc, dec, r.blockMode, wide, decrypt, iv, input, output, r.blockNum)
    && AesStandard.LeavesVector(enc, r.blockMode, wide, decrypt, iv, input, output, r.blockNum, next)
  }

  /** A key size that exists and that the chip has, a DMA channel, 1 to 262,080 blocks, and one of six modes. */
  ghost predicate Permitted(r: Regs, t: Target) {
    && ((r.mode & 3 == 0 && t.keySizeMask & 1 == 1) || (r.mode & 3 == 1 && t.keySizeMask & 2 == 2)
        || (r.mode & 3 == 2 && t.keySizeMask & 4 == 4))
    && t.hasDma && 0 < r.blockNum <= 262_080 && r.blockMode <= 5
  }

  lemma KeySizeBits(mode: bv32, t: Target)
    ensures KeySizeOk(mode, t) <==>
              || (mode & 3 == 0 && t.keySizeMask & 1 == 1) || (mode & 3 == 1 && t.keySizeMask & 2 == 2)
              || (mode & 3 == 2 && t.keySizeMask & 4 == 4)
  {
    if mode & 3 == 0 {
      assert (1 as bv32) << 0 == 1;
    } else if mode & 3 == 1 {
      assert (1 as bv32) << 1 == 2;
    } else if mode & 3 == 2 {
      assert (1 as bv32) << 2 == 4;
    }
  }

  lemma AcceptsWhatIsPermitted(r: Regs, t: Target)
    ensures Accepts(r, t) <==> Permitted(r, t)
  {
    KeySizeBits(r.mode, t);
  }

  lemma ModeBits(mode: bv32)
    requires KeySize(mode) <= 2
    ensures WordsOfKey(mode) == if mode & 3 == 0 then 4 else if mode & 3 == 1 then 6 else 8
    ensures Decrypting(mode) == (mode & 4 == 4)
  {
  }

  /** What an operation makes of a message is what its registers ask for. */
  lemma TransformedAsAsked(r: Regs, input: seq<bv8>)
    requires RegsOk(r) && KeySize(r.mode) <= 2 && r.blockMode <= 5 && |input| == 16 * r.blockNum
    ensures AsAsked(r, input, Transformed(r, input).text, Transformed(r, input).iv)
  {
    ModeBits(r.mode);
    var p := SetupFor(r);
    AesStandard.RunIsStandard(p, r.blockMode, Decrypting(r.mode), Unpacked(r.iv), input, r.blockNum);
    AesStandard.RunLeavesVector(p, r.blockMode, Decrypting(r.mode), Unpacked(r.iv), input, r.blockNum);
  }

  class Engine {
    const target: Target
    var regs: Regs

    constructor (t: Target, r: Regs)
      ensures target == t && regs == r
    {
      target, regs := t, r;
    }

    /** One DMA operation. `input` is what the transmit channel delivered, if it could
        deliver the whole message; `written` is whether the receive channel took the output. */
    method TransformDma(input: Option<seq<bv8>>, written: bool) returns (success: bool, output: seq<bv8>)
      requires RegsOk(regs) && (input.Some? ==> |input.value| == 16 * regs.blockNum)
      modifies this
      ensures success == (Accepts(old(regs), target) && input.Some? && written)
      ensures success <==> Permitted(old(regs), target) && input.Some? && written
      ensures success ==> AsAsked(old(regs), input.value, output, Unpacked(regs.iv))
      ensures success ==> output == Transformed(old(regs), input.value).text
      ensures success ==> regs == old(regs).(iv := IvAfter(old(regs), Transformed(old(regs), input.value)))
      ensures !success ==> regs == old(regs)
    {
      success, output := false, [];
      AcceptsWhatIsPermitted(regs, target);
      var ok, rk, nr := ModeKey(regs.key, regs.mode, target);
      if !ok || !target.hasDma || regs.blockNum == 0 || regs.blockNum > MAX_BYTES / 16 { return; }
      if regs.blockMode > 5 || input.None? { return; }
      SetupImplements(regs, rk, nr);
      ghost var p := SetupFor(regs);
      TransformedAsAsked(regs, input.value);
      UnpackPacked(Transformed(regs, input.value).iv);
      var iv;
      output, iv := TransformMessage(Unpacked(regs.iv), input.value, regs.blockNum, rk, nr, Decrypting(regs.mode),
                                     ModeOf(regs.blockMode), regs.incSel != 0, p);
      success := written;
      if success && regs.blockMode != 0 {
        regs := regs.(iv := Packed(iv));
      }
    }
  }

  // ----- operations in sequence -----

  lemma SetupReady(r: Regs)
    requires RegsOk(r) && KeySize(r.mode) <= 2 && r.blockMode <= 5
    ensures Ready(SetupFor(r))
  {
    var nk := WordsOfKey(r.mode);
    AesReady(ScheduleOf(KeyBytes(r.key, nk), nk), Rounds(nk), ModeOf(r.blockMode), r.incSel != 0);
  }

  /** Two register files for the same operation, one encrypting and one decrypting. */
  ghost predicate Opposite(r: Regs, s: Regs) {
    !Decrypting(r.mode) && Decrypting(s.mode) && KeySize(s.mode) == KeySize(r.mode) && s == r.(mode := s.mode)
  }

  /** Decrypting from the vector that encryption started with returns the message, and
      both operations leave the same vector registers. */
  lemma DmaRoundTrip(r: Regs, s: Regs, message: seq<bv8>)
    requires RegsOk(r) && KeySize(r.mode) <= 2 && r.blockMode <= 5 && |message| == 16 * r.blockNum && Opposite(r, s)
    ensures var sent := Transformed(r, message);
      var got := Transformed(s, sent.text);
      got.text == message && IvAfter(s, got) == IvAfter(r, sent)
  {
    SetupReady(r);
    assert SetupFor(s) == SetupFor(r);
    RoundTrip(SetupFor(r), Unpacked(r.iv), message, r.blockNum);
  }

  /** A step that hands its vector on unchanged, as ECB does, leaves it so. */
  lemma {:induction false} KeepsIv(f: Step, iv: Block, text: seq<bv8>, n: nat)
    requires 16 * n <= |text| && forall v: Block, b: Block :: f(v, b).iv == v
    ensures Chain(f, iv, text, n).iv == iv
    decreases n
  {
    if n > 0 {
      KeepsIv(f, iv, text, n - 1);
    }
  }

  /** The registers after an operation hold the vector the message left. */
  lemma IvCarried(r: Regs, input: seq<bv8>, o: Output)
    requires RegsOk(r) && KeySize(r.mode) <= 2 && r.blockMode <= 5 && |input| == 16 * r.blockNum
    requires o == Transformed(r, input)
    ensures Unpacked(IvAfter(r, o)) == o.iv
  {
    if r.blockMode == 0 {
      var p := SetupFor(r);
      KeepsIv(StepOf(p, Decrypting(r.mode)), Unpacked(r.iv), input, r.blockNum);
    } else {
      UnpackPacked(o.iv);
    }
  }

  lemma RunSplits(p: Setup, decrypt: bool, iv: Block, message: seq<bv8>, front: seq<bv8>, rest: seq<bv8>,
                  m: nat, n: nat, k: nat, first: Output, second: Output)
    requires |message| == 16 * k && k == m + n && front == message[..16 * m] && rest == message[16 * m..]
    requires first == Run(p, decrypt, iv, front, m) && second == Run(p, decrypt, first.iv, rest, n)
    ensures Run(p, decrypt, iv, message, k) == Output(first.text + second.text, second.iv)
  {
    SamePrefix(StepOf(p, decrypt), iv, message, front, m);
    Splits(p, decrypt, iv, message, m, n);
  }

  lemma AsRun(r: Regs, p: Setup, decrypt: bool, iv: Block, input: seq<bv8>, n: nat)
    requires RegsOk(r) && KeySize(r.mode) <= 2 && r.blockMode <= 5 && |input| == 16 * n && n == r.blockNum
    requires p == SetupFor(r) && decrypt == Decrypting(r.mode) && iv == Unpacked(r.iv)
    ensures Transformed(r, input) == Run(p, decrypt, iv, input, n)
  {
  }

  /** The setup does not depend on the length or the vector. */
  lemma SameSetup(r: Regs, s: Regs)
    requires RegsOk(r) && KeySize(r.mode) <= 2 && r.blockMode <= 5 && s == r.(blockNum := s.blockNum, iv := s.iv)
    ensures SetupFor(s) == SetupFor(r)
  {
  }

  /** Two operations, cut at any block boundary, with the vector carried by the registers
      alone, produce what one operation on the whole message produces. */
  lemma DmaSplits(r: Regs, message: seq<bv8>, r1: Regs, front: seq<bv8>, first: Output, r2: Regs, rest: seq<bv8>,
                  second: Output)
    requires RegsOk(r) && KeySize(r.mode) <= 2 && r.blockMode <= 5 && |message| == 16 * r.blockNum
    requires r1 == r.(blockNum := r1.blockNum) && r1.blockNum + r2.blockNum == r.blockNum
    requires front == message[..16 * r1.blockNum] && rest == message[16 * r1.blockNum..]
    requires first == Transformed(r1, front)
    requires r2 == r.(blockNum := r2.blockNum, iv := IvAfter(r1, first)) && second == Transformed(r2, rest)
    ensures Transformed(r, message) == Output(first.text + second.text, second.iv)
    ensures IvAfter(r, Transformed(r, message)) == IvAfter(r2, second)
  {
    SameSetup(r, r1);
    SameSetup(r, r2);
    IvCarried(r1, front, first);
    var p, decrypt, iv := SetupFor(r), Decrypting(r.mode), Unpacked(r.iv);
    AsRun(r1, p, decrypt, iv, front, r1.blockNum);
    AsRun(r2, p, decrypt, first.iv, rest, r2.blockNum);
    AsRun(r, p, decrypt, iv, message, r.blockNum);
    RunSplits(p, decrypt, iv, message, front, rest, r1.blockNum, r2.blockNum, r.blockNum, first, second);
  }

  /** A chain looks only at the blocks it consumes. */
  lemma {:induction false} SamePrefix(f: Step, iv: Block, text: seq<bv8>, front: seq<bv8>, n: nat)
    requires 16 * n <= |front| <= |text| && front == text[..|front|]
    ensures Chain(f, iv, text, n) == Chain(f, iv, front, n)
    decreases n
  {
    if n > 0 {
      SamePrefix(f, iv, text, front, n - 1);
      assert BlockAt(text, n - 1) == BlockAt(front, n - 1);
    }
  }
}
