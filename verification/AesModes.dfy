/** The six block modes of the DMA engine, sections 6.1 to 6.5 of NIST SP 800-38A, over
    messages of any number of blocks. */
module AesModes {
  import opened AesCipher
  import opened AesCounter

  datatype Mode = ECB | CBC | OFB | CTR | CFB8 | CFB128

  /** What the registers fix for one operation: a block cipher, a mode and the width of
      the counter. The modes need of the cipher only that `dec` undoes `enc`. */
  datatype Setup = Setup(enc: Block -> Block, dec: Block -> Block, mode: Mode, wide: bool)

  ghost predicate Ready(p: Setup) { forall b: Block :: p.dec(p.enc(b)) == b }

  function Xor(a: Block, b: Block): (r: Block)
    ensures forall i :: 0 <= i < 16 ==> r[i] == a[i] ^ b[i]
  {
    seq(16, i requires 0 <= i < 16 => a[i] ^ b[i])
  }

  function XorByte(a: bv8, k: bv8): bv8 { a ^ k }

  /** Text out, and the initialisation vector for what follows. */
  datatype Output = Output(text: seq<bv8>, iv: Block)

  /** The same for one block. */
  datatype BlockOut = BlockOut(text: Block, iv: Block)

  function Then(o: Output, text: seq<bv8>, iv: Block): Output { Output(o.text + text, iv) }

  // ----- one block -----

  /** One byte of CFB8: masked with the first byte of the stream. */
  function MaskedByte(p: Setup, iv: Block, x: bv8): bv8 { XorByte(x, p.enc(iv)[0]) }

  function Shifted(iv: Block, x: bv8): Block { iv[1..] + [x] }

  /** CFB8 on the first `n` bytes of `text`: one cipher call per byte, and every
      ciphertext byte shifted into the vector. */
  function Bytewise(p: Setup, decrypt: bool, iv: Block, text: seq<bv8>, n: nat): (o: Output)
    requires n <= |text|
    ensures |o.text| == n
  {
    if n == 0 then Output([], iv) else
      var before := Bytewise(p, decrypt, iv, text, n - 1);
      var c := MaskedByte(p, before.iv, text[n - 1]);
      Then(before, [c], Shifted(before.iv, if decrypt then text[n - 1] else c))
  }

  /** One block through the engine. */
  function BlockStep(p: Setup, decrypt: bool, iv: Block, b: Block): BlockOut {
    match p.mode
    case ECB => BlockOut(if decrypt then p.dec(b) else p.enc(b), iv)
    case CBC =>
      if decrypt then BlockOut(Xor(p.dec(b), iv), b)
      else var c := p.enc(Xor(b, iv)); BlockOut(c, c)
    case OFB => var stream := p.enc(iv); BlockOut(Xor(b, stream), stream)
    case CTR => BlockOut(Xor(b, p.enc(iv)), Incremented(iv, p.wide))
    case CFB8 => var o := Bytewise(p, decrypt, iv, b, |b|); BlockOut(o.text, o.iv)
    case CFB128 => var c := Xor(b, p.enc(iv)); BlockOut(c, if decrypt then b else c)
  }

  lemma XorBack(a: Block, k: Block)
    ensures Xor(Xor(a, k), k) == a
  {
    forall i | 0 <= i < 16
      ensures Xor(Xor(a, k), k)[i] == a[i]
    {
      XorTwice(a[i], k[i]);
    }
  }

  lemma XorByteBack(a: bv8, k: bv8)
    ensures XorByte(XorByte(a, k), k) == a
  {
  }

  lemma LastByte(text: seq<bv8>, front: seq<bv8>, last: bv8, n: nat)
    requires 0 < n <= |text| && |front| == n - 1 && text[..n] == front + [last]
    ensures text[..n - 1] == front && text[n - 1] == last
  {
    var t := text[..n];
    assert t[..n - 1] == text[..n - 1] && t[n - 1] == text[n - 1];
  }

  /** CFB8 undone byte by byte, with the same vector after every byte. */
  lemma {:induction false} BytewiseBack(p: Setup, iv: Block, text: seq<bv8>, cipher: seq<bv8>, n: nat)
    requires n <= |text| && n <= |cipher| && cipher[..n] == Bytewise(p, false, iv, text, n).text
    ensures Bytewise(p, true, iv, cipher, n) == Output(text[..n], Bytewise(p, false, iv, text, n).iv)
    decreases n
  {
    if n > 0 {
      var before := Bytewise(p, false, iv, text, n - 1);
      var c := MaskedByte(p, before.iv, text[n - 1]);
      LastByte(cipher, before.text, c, n);
      BytewiseBack(p, iv, text, cipher, n - 1);
      XorByteBack(text[n - 1], p.enc(before.iv)[0]);
      assert text[..n] == text[..n - 1] + [text[n - 1]];
    }
  }

  /** One block: decrypting the ciphertext gives the block and leaves the same vector. */
  lemma StepBack(p: Setup, iv: Block, b: Block)
    requires Ready(p)
    ensures BlockStep(p, true, iv, BlockStep(p, false, iv, b).text) == BlockOut(b, BlockStep(p, false, iv, b).iv)
  {
    var c := BlockStep(p, false, iv, b).text;
    match p.mode
    case ECB =>
    case CBC =>
      assert p.dec(p.enc(Xor(b, iv))) == Xor(b, iv);
      XorBack(b, iv);
    case OFB => XorBack(b, p.enc(iv));
    case CTR => XorBack(b, p.enc(iv));
    case CFB8 =>
      assert c[..16] == c && b[..16] == b;
      BytewiseBack(p, iv, b, c, |b|);
    case CFB128 => XorBack(b, p.enc(iv));
  }

  // ----- chains of blocks, for any step -----

  /** What turns a vector and a block into a block and the next vector. */
  type Step = (Block, Block) -> BlockOut

  /** Block `k` of a text. */
  function BlockAt(text: seq<bv8>, k: nat): Block
    requires 16 * k + 16 <= |text|
  {
    text[16 * k..16 * k + 16]
  }

  /** The first `n` blocks of `text`, the vector handed from block to block. */
  function Chain(f: Step, iv: Block, text: seq<bv8>, n: nat): (o: Output)
    requires 16 * n <= |text|
    ensures |o.text| == 16 * n
  {
    if n == 0 then Output([], iv) else
      var before := Chain(f, iv, text, n - 1);
      var out := f(before.iv, BlockAt(text, n - 1));
      Then(before, out.text, out.iv)
  }

  /** `g` undoes `f` one block at a time. */
  ghost predicate Undoes(g: Step, f: Step) {
    forall iv: Block, b: Block :: g(iv, f(iv, b).text) == BlockOut(b, f(iv, b).iv)
  }

  lemma LastBlock(text: seq<bv8>, front: seq<bv8>, last: seq<bv8>, n: nat)
    requires n > 0 && 16 * n <= |text| && |front| == 16 * (n - 1) && |last| == 16 && text[..16 * n] == front + last
    ensures text[..16 * (n - 1)] == front && BlockAt(text, n - 1) == last
  {
    var t := text[..16 * n];
    assert t[..16 * (n - 1)] == text[..16 * (n - 1)];
    assert t[16 * (n - 1)..] == BlockAt(text, n - 1);
  }

  /** Then it undoes whole chains. */
  lemma {:induction false} ChainBack(g: Step, f: Step, iv: Block, text: seq<bv8>, cipher: seq<bv8>, n: nat)
    requires Undoes(g, f) && 16 * n <= |text| && 16 * n <= |cipher| && cipher[..16 * n] == Chain(f, iv, text, n).text
    ensures Chain(g, iv, cipher, n) == Output(text[..16 * n], Chain(f, iv, text, n).iv)
    decreases n
  {
    if n > 0 {
      var before := Chain(f, iv, text, n - 1);
      var b := BlockAt(text, n - 1);
      LastBlock(cipher, before.text, f(before.iv, b).text, n);
      ChainBack(g, f, iv, text, cipher, n - 1);
      assert g(before.iv, f(before.iv, b).text) == BlockOut(b, f(before.iv, b).iv);
      assert text[..16 * n] == text[..16 * (n - 1)] + b;
    }
  }

  /** A chain of `m` blocks and then one of `n` blocks from the vector it left. */
  lemma {:induction false} ChainSplits(f: Step, iv: Block, text: seq<bv8>, m: nat, n: nat)
    requires 16 * (m + n) <= |text|
    ensures var first := Chain(f, iv, text, m);
      var second := Chain(f, first.iv, text[16 * m..], n);
      Chain(f, iv, text, m + n) == Then(first, second.text, second.iv)
    decreases n
  {
    var first := Chain(f, iv, text, m);
    var rest := text[16 * m..];
    if n == 0 {
      assert first.text + [] == first.text;
    } else {
      ChainSplits(f, iv, text, m, n - 1);
      var mid := Chain(f, first.iv, rest, n - 1);
      assert BlockAt(text, m + n - 1) == BlockAt(rest, n - 1);
      var out := f(mid.iv, BlockAt(rest, n - 1));
      assert first.text + (mid.text + out.text) == first.text + mid.text + out.text;
    }
  }

  // ----- whole messages -----

  function StepOf(p: Setup, decrypt: bool): Step { (iv: Block, b: Block) => BlockStep(p, decrypt, iv, b) }

  /** The first `n` blocks of `text` through the engine. */
  function Run(p: Setup, decrypt: bool, iv: Block, text: seq<bv8>, n: nat): (o: Output)
    requires 16 * n <= |text|
    ensures |o.text| == 16 * n
  {
    Chain(StepOf(p, decrypt), iv, text, n)
  }

  lemma RunNext(p: Setup, decrypt: bool, iv: Block, text: seq<bv8>, k: nat, o: Output, out: BlockOut)
    requires 16 * k + 16 <= |text| && o == Run(p, decrypt, iv, text, k)
    requires out == BlockStep(p, decrypt, o.iv, BlockAt(text, k))
    ensures Run(p, decrypt, iv, text, k + 1) == Output(o.text + out.text, out.iv)
  {
    assert StepOf(p, decrypt)(o.iv, BlockAt(text, k)) == out;
  }

  lemma StepsUndo(p: Setup)
    requires Ready(p)
    ensures Undoes(StepOf(p, true), StepOf(p, false))
  {
    forall iv: Block, b: Block
      ensures StepOf(p, true)(iv, StepOf(p, false)(iv, b).text) == BlockOut(b, StepOf(p, false)(iv, b).iv)
    {
      StepBack(p, iv, b);
    }
  }

  /** In every mode, from any vector and for any number of blocks, decrypting the
      encrypted message gives the message and the same final vector. */
  lemma RoundTrip(p: Setup, iv: Block, text: seq<bv8>, n: nat)
    requires Ready(p) && 16 * n == |text|
    ensures var sent := Run(p, false, iv, text, n);
      Run(p, true, iv, sent.text, n) == Output(text, sent.iv)
  {
    var cipher := Run(p, false, iv, text, n).text;
    StepsUndo(p);
    assert cipher[..16 * n] == cipher && text[..16 * n] == text;
    ChainBack(StepOf(p, true), StepOf(p, false), iv, text, cipher, n);
  }

  /** A message cut at any block boundary, the vector carried over, gives what one
      operation gives: in either direction and in every mode. */
  lemma Splits(p: Setup, decrypt: bool, iv: Block, text: seq<bv8>, m: nat, n: nat)
    requires 16 * (m + n) <= |text|
    ensures var first := Run(p, decrypt, iv, text, m);
      var second := Run(p, decrypt, first.iv, text[16 * m..], n);
      Run(p, decrypt, iv, text, m + n) == Output(first.text + second.text, second.iv)
  {
    ChainSplits(StepOf(p, decrypt), iv, text, m, n);
  }

  // ----- counter mode -----

  /** In CTR the vector before block `n` is the counter bumped `n` times. */
  lemma {:induction false} CounterOf(p: Setup, f: Step, iv: Block, text: seq<bv8>, n: nat)
    requires forall v: Block, b: Block :: f(v, b).iv == Incremented(v, p.wide)
    requires 16 * n <= |text|
    ensures Chain(f, iv, text, n).iv == After(iv, p.wide, n)
    decreases n
  {
    if n > 0 {
      CounterOf(p, f, iv, text, n - 1);
    }
  }

  /** No two blocks of one operation within the length limit are masked with the same
      counter block. */
  lemma NoCounterTwice(p: Setup, decrypt: bool, iv: Block, text: seq<bv8>, i: nat, j: nat)
    requires p.mode == CTR && i < j && 16 * j + 16 <= |text| <= 1024 * 4095
    ensures Run(p, decrypt, iv, text, i).iv != Run(p, decrypt, iv, text, j).iv
  {
    PeriodIs();
    CounterOf(p, StepOf(p, decrypt), iv, text, i);
    CounterOf(p, StepOf(p, decrypt), iv, text, j);
    NoRepeat(iv, p.wide, i, j);
  }

  // ----- the engine's cipher -----

  /** The modes over the block cipher with schedule `rk`. */
  function AesSetup(rk: seq<bv32>, nr: nat, mode: Mode, wide: bool): (p: Setup)
    requires ScheduleFor(rk, nr)
  {
    Setup((b: Block) => Cipher(b, rk, nr), (b: Block) => InvCipher(b, rk, nr), mode, wide)
  }

  lemma AesReady(rk: seq<bv32>, nr: nat, mode: Mode, wide: bool)
    requires ScheduleFor(rk, nr)
    ensures Ready(AesSetup(rk, nr, mode, wide))
  {
    var p := AesSetup(rk, nr, mode, wide);
    forall b: Block
      ensures p.dec(p.enc(b)) == b
    {
      DecryptsWhatItEncrypts(b, rk, nr);
    }
  }
}
