/** The modes of the engine by the equations of sections 6.1 to 6.5 of NIST SP 800-38A: what every
    block of a message becomes, given the number the mode register holds, and not how it is reached. */
module AesStandard {
  import opened AesCipher
  import opened AesCounter
  import opened AesModes

  /** The block before block `k`, the vector before the first. */
  ghost function Before(iv: Block, text: seq<bv8>, k: nat): Block
    requires 16 * k <= |text|
  {
    if k == 0 then iv else BlockAt(text, k - 1)
  }

  /** Output feedback: the cipher over and over. */
  ghost function Feedback(enc: Block -> Block, iv: Block, k: nat): Block {
    if k == 0 then iv else enc(Feedback(enc, iv, k - 1))
  }

  /** The last sixteen bytes of the vector and the first `m` bytes of the ciphertext. */
  ghost function Window(iv: Block, cipher: seq<bv8>, m: nat): Block
    requires m <= |cipher|
  {
    (iv + cipher[..m])[m..]
  }

  /** The `k`-th counter block: `k` more than the vector, as big-endian numbers, in all sixteen bytes
      or in the last four. */
  ghost predicate Counts(iv: Block, wide: bool, k: nat, t: Block) {
    if wide then Number(t) == (Number(iv) + k) % 0x1_0000_0000_0000_0000_0000_0000_0000_0000
    else t[..12] == iv[..12] && Number(t[12..]) == (Number(iv[12..]) + k) % 0x1_0000_0000
  }

  /** Which side of an operation is the ciphertext. */
  ghost function Ciphertext(decrypt: bool, text: seq<bv8>, out: seq<bv8>): seq<bv8> { if decrypt then text else out }

  // ----- the equations -----

  ghost predicate Ecb(f: Block -> Block, input: seq<bv8>, output: seq<bv8>, k: nat)
    requires 16 * k + 16 <= |input| == |output|
  {
    BlockAt(output, k) == f(BlockAt(input, k))
  }

  ghost predicate CbcEncrypt(enc: Block -> Block, iv: Block, input: seq<bv8>, output: seq<bv8>, k: nat)
    requires 16 * k + 16 <= |input| == |output|
  {
    BlockAt(output, k) == enc(Xor(BlockAt(input, k), Before(iv, output, k)))
  }

  ghost predicate CbcDecrypt(dec: Block -> Block, iv: Block, input: seq<bv8>, output: seq<bv8>, k: nat)
    requires 16 * k + 16 <= |input| == |output|
  {
    BlockAt(output, k) == Xor(dec(BlockAt(input, k)), Before(iv, input, k))
  }

  ghost predicate Ofb(enc: Block -> Block, iv: Block, input: seq<bv8>, output: seq<bv8>, k: nat)
    requires 16 * k + 16 <= |input| == |output|
  {
    BlockAt(output, k) == Xor(BlockAt(input, k), Feedback(enc, iv, k + 1))
  }

  ghost predicate Ctr(enc: Block -> Block, wide: bool, iv: Block, input: seq<bv8>, output: seq<bv8>, k: nat)
    requires 16 * k + 16 <= |input| == |output|
  {
    exists t: Block :: Counts(iv, wide, k, t) && BlockAt(output, k) == Xor(BlockAt(input, k), enc(t))
  }

  ghost predicate Cfb8(enc: Block -> Block, iv: Block, input: seq<bv8>, output: seq<bv8>, cipher: seq<bv8>, m: nat)
    requires m < |input| == |output| && m <= |cipher|
  {
    output[m] == input[m] ^ enc(Window(iv, cipher, m))[0]
  }

  ghost predicate Cfb128(enc: Block -> Block, iv: Block, input: seq<bv8>, output: seq<bv8>, cipher: seq<bv8>, k: nat)
    requires 16 * k + 16 <= |input| == |output| == |cipher|
  {
    BlockAt(output, k) == Xor(BlockAt(input, k), enc(Before(iv, cipher, k)))
  }

  /** What an operation of `n` blocks must do for the number in the mode register. */
  ghost predicate ByTheStandard(enc: Block -> Block, dec: Block -> Block, mode: nat, wide: bool, decrypt: bool,
                                iv: Block, input: seq<bv8>, output: seq<bv8>, n: nat)
  {
    && |input| == |output| == 16 * n
    && var cipher := Ciphertext(decrypt, input, output);
       && (mode == 0 && !decrypt ==> forall k: nat :: k < n ==> Ecb(enc, input, output, k))
       && (mode == 0 && decrypt ==> forall k: nat :: k < n ==> Ecb(dec, input, output, k))
       && (mode == 1 && !decrypt ==> forall k: nat :: k < n ==> CbcEncrypt(enc, iv, input, output, k))
       && (mode == 1 && decrypt ==> forall k: nat :: k < n ==> CbcDecrypt(dec, iv, input, output, k))
       && (mode == 2 ==> forall k: nat :: k < n ==> Ofb(enc, iv, input, output, k))
       && (mode == 3 ==> forall k: nat :: k < n ==> Ctr(enc, wide, iv, input, output, k))
       && (mode == 4 ==> forall m: nat :: m < 16 * n ==> Cfb8(enc, iv, input, output, cipher, m))
       && (mode == 5 ==> forall k: nat :: k < n ==> Cfb128(enc, iv, input, output, cipher, k))
  }

  /** The vector it must leave behind for the next operation. */
  ghost predicate LeavesVector(enc: Block -> Block, mode: nat, wide: bool, decrypt: bool, iv: Block, input: seq<bv8>,
                               output: seq<bv8>, n: nat, next: Block)
    requires |input| == |output| == 16 * n
  {
    var cipher := Ciphertext(decrypt, input, output);
    && (mode == 0 ==> next == iv)
    && (mode == 1 || mode == 5 ==> next == Before(iv, cipher, n))
    && (mode == 2 ==> next == Feedback(enc, iv, n))
    && (mode == 3 ==> Counts(iv, wide, n, next))
    && (mode == 4 ==> next == Window(iv, cipher, 16 * n))
  }

  // ----- chains meet them -----

  /** Block `k` of a chain, and the vector after it. */
  lemma {:induction false} ChainAt(f: Step, iv: Block, text: seq<bv8>, n: nat, k: nat)
    requires 16 * n <= |text| && k < n
    ensures BlockAt(Chain(f, iv, text, n).text, k) == f(Chain(f, iv, text, k).iv, BlockAt(text, k)).text
    ensures Chain(f, iv, text, k + 1).iv == f(Chain(f, iv, text, k).iv, BlockAt(text, k)).iv
    decreases n
  {
    var front := Chain(f, iv, text, n - 1);
    var out := f(front.iv, BlockAt(text, n - 1));
    assert Chain(f, iv, text, n).text == front.text + out.text;
    if k < n - 1 {
      ChainAt(f, iv, text, n - 1, k);
      assert BlockAt(front.text + out.text, k) == BlockAt(front.text, k);
    } else {
      LastBlock(front.text + out.text, front.text, out.text, k + 1);
    }
  }

  /** A step that leaves the vector as it is. */
  lemma {:induction false} VectorStays(f: Step, iv: Block, text: seq<bv8>, k: nat)
    requires 16 * k <= |text| && forall v: Block, b: Block :: f(v, b).iv == v
    ensures Chain(f, iv, text, k).iv == iv
    decreases k
  {
    if k > 0 { VectorStays(f, iv, text, k - 1); }
  }

  /** One that leaves its output, or its input. */
  lemma VectorIsOutput(f: Step, iv: Block, text: seq<bv8>, n: nat, k: nat)
    requires 16 * n <= |text| && k <= n && forall v: Block, b: Block :: f(v, b).iv == f(v, b).text
    ensures Chain(f, iv, text, k).iv == Before(iv, Chain(f, iv, text, n).text, k)
  {
    if k > 0 { ChainAt(f, iv, text, n, k - 1); }
  }

  lemma VectorIsInput(f: Step, iv: Block, text: seq<bv8>, k: nat)
    requires 16 * k <= |text| && forall v: Block, b: Block :: f(v, b).iv == b
    ensures Chain(f, iv, text, k).iv == Before(iv, text, k)
  {
  }

  lemma {:induction false} VectorFeedsBack(f: Step, enc: Block -> Block, iv: Block, text: seq<bv8>, k: nat)
    requires 16 * k <= |text| && forall v: Block, b: Block :: f(v, b).iv == enc(v)
    ensures Chain(f, iv, text, k).iv == Feedback(enc, iv, k)
    decreases k
  {
    if k > 0 { VectorFeedsBack(f, enc, iv, text, k - 1); }
  }

  // ----- the counter -----

  lemma NextNarrow(a: nat)
    ensures var p := 0x1_0000_0000; (a + 1) % p == if a % p + 1 == p then 0 else a % p + 1
  {
  }

  lemma NextWide(a: nat)
    ensures var p := 0x1_0000_0000_0000_0000_0000_0000_0000_0000;
            (a + 1) % p == if a % p + 1 == p then 0 else a % p + 1
  {
  }

  lemma OneMoreCounts(iv: Block, wide: bool, k: nat, t: Block)
    requires Counts(iv, wide, k, t)
    ensures Counts(iv, wide, k + 1, Incremented(t, wide))
  {
    PeriodIs();
    IncrementAddsOne(t, wide);
    if wide {
      NextWide(Number(iv) + k);
    } else {
      NextNarrow(Number(iv[12..]) + k);
    }
  }

  lemma NoneCounts(iv: Block, wide: bool)
    ensures Counts(iv, wide, 0, iv)
  {
    PeriodIs();
    NumberBound(Counting(iv, wide));
  }

  lemma {:induction false} CounterCounts(iv: Block, wide: bool, k: nat)
    ensures Counts(iv, wide, k, After(iv, wide, k))
    decreases k
  {
    if k == 0 {
      NoneCounts(iv, wide);
    } else {
      CounterCounts(iv, wide, k - 1);
      OneMoreCounts(iv, wide, k - 1, After(iv, wide, k - 1));
    }
  }

  // ----- bytes -----

  /** Sliding the window on by one byte. */
  lemma Slides(iv: Block, c: seq<bv8>, x: bv8)
    ensures Shifted((iv + c)[|c|..], x) == (iv + (c + [x]))[|c| + 1..]
  {
  }

  lemma WindowOf(iv: Block, c: seq<bv8>, d: seq<bv8>, m: nat)
    requires m <= |c| && m <= |d| && c[..m] == d[..m]
    ensures Window(iv, c, m) == Window(iv, d, m)
  {
  }

  /** The first `n` bytes are masked with the first byte of the cipher of the window before them. */
  ghost predicate Slid(enc: Block -> Block, iv: Block, text: seq<bv8>, out: seq<bv8>, cipher: seq<bv8>, n: nat)
    requires n <= |text| && n <= |out| && n <= |cipher|
  {
    forall m: nat :: m < n ==> SlidByte(enc, iv, text[m], out[m], cipher, m)
  }

  ghost predicate SlidByte(enc: Block -> Block, iv: Block, x: bv8, y: bv8, cipher: seq<bv8>, m: nat)
    requires m <= |cipher|
  {
    y == XorByte(x, enc(Window(iv, cipher, m))[0])
  }

  lemma SlidFurther(enc: Block -> Block, iv: Block, text: seq<bv8>, out: seq<bv8>, cipher: seq<bv8>, n: nat,
                    out': seq<bv8>, cipher': seq<bv8>)
    requires n <= |text| && n == |out| == |cipher| && Slid(enc, iv, text, out, cipher, n)
    requires out <= out' && cipher <= cipher'
    ensures Slid(enc, iv, text, out', cipher', n)
  {
    forall m: nat | m < n
      ensures SlidByte(enc, iv, text[m], out'[m], cipher', m)
    {
      assert SlidByte(enc, iv, text[m], out[m], cipher, m);
      assert cipher[..m] == cipher'[..m];
      WindowOf(iv, cipher, cipher', m);
    }
  }

  /** One byte further. */
  lemma SlideOn(enc: Block -> Block, iv: Block, text: seq<bv8>, n: nat, out: seq<bv8>, was: seq<bv8>, v: Block, c: bv8,
                x: bv8)
    requires n < |text| && n == |out| == |was| && Slid(enc, iv, text, out, was, n) && v == Window(iv, was, n)
    requires c == XorByte(text[n], enc(v)[0])
    ensures Slid(enc, iv, text, out + [c], was + [x], n + 1) && Shifted(v, x) == Window(iv, was + [x], n + 1)
  {
    var out', cipher := out + [c], was + [x];
    assert was[..n] == was && cipher[..n + 1] == cipher && cipher[..n] == was;
    SlidFurther(enc, iv, text, out, was, n, out', cipher);
    WindowOf(iv, was, cipher, n);
    assert SlidByte(enc, iv, text[n], out'[n], cipher, n);
    Slides(iv, was, x);
  }

  /** CFB8 on the first `n` bytes, with the window for the vector. */
  lemma {:induction false} BytesSlide(p: Setup, decrypt: bool, iv: Block, text: seq<bv8>, n: nat)
    requires n <= |text|
    ensures var o := Bytewise(p, decrypt, iv, text, n);
            var cipher := Ciphertext(decrypt, text[..n], o.text);
            o.iv == Window(iv, cipher, n) && Slid(p.enc, iv, text, o.text, cipher, n)
    decreases n
  {
    if n > 0 {
      var m := n - 1;
      BytesSlide(p, decrypt, iv, text, m);
      var b := Bytewise(p, decrypt, iv, text, m);
      var was := Ciphertext(decrypt, text[..m], b.text);
      var c := MaskedByte(p, b.iv, text[m]);
      var x := if decrypt then text[m] else c;
      assert text[..n] == text[..m] + [text[m]];
      SlideOn(p.enc, iv, text, m, b.text, was, b.iv, c, x);
    }
  }

  /** The window at byte `j` of block `k` is the window of that block. */
  lemma WindowInBlock(iv: Block, cipher: seq<bv8>, k: nat, j: nat)
    requires 16 * k + 16 <= |cipher| && j <= 16
    ensures Window(Before(iv, cipher, k), BlockAt(cipher, k), j) == Window(iv, cipher, 16 * k + j)
  {
    var b, c := Before(iv, cipher, k), BlockAt(cipher, k);
    assert c[..j] == cipher[16 * k..16 * k + j];
    if k == 0 {
      assert c[..j] == cipher[..j];
    } else {
      var at := 16 * (k - 1);
      assert b + c[..j] == cipher[at..at + 16 + j];
      assert cipher[at..at + 16 + j][j..] == cipher[at + j..at + j + 16];
      TailOf(iv, cipher, at + 16 + j);
    }
  }

  /** With sixteen bytes or more behind it, the vector is out of the window. */
  lemma TailOf(iv: Block, cipher: seq<bv8>, m: nat)
    requires 16 <= m <= |cipher|
    ensures Window(iv, cipher, m) == cipher[m - 16..m]
  {
  }

  lemma WindowIsBlock(iv: Block, cipher: seq<bv8>, k: nat)
    requires 16 * k <= |cipher|
    ensures Window(iv, cipher, 16 * k) == Before(iv, cipher, k)
  {
    if k > 0 {
      WindowInBlock(iv, cipher, k - 1, 16);
      assert (Before(iv, cipher, k - 1) + BlockAt(cipher, k - 1)[..16])[16..] == BlockAt(cipher, k - 1);
    }
  }

  // ----- whole messages -----

  lemma EcbIs(p: Setup, decrypt: bool, iv: Block, text: seq<bv8>, n: nat, k: nat)
    requires p.mode == ECB && 16 * n == |text| && k < n
    ensures Ecb(if decrypt then p.dec else p.enc, text, Run(p, decrypt, iv, text, n).text, k)
  {
    ChainAt(StepOf(p, decrypt), iv, text, n, k);
  }

  lemma CbcIs(p: Setup, iv: Block, text: seq<bv8>, n: nat, k: nat)
    requires p.mode == CBC && 16 * n == |text| && k < n
    ensures CbcEncrypt(p.enc, iv, text, Run(p, false, iv, text, n).text, k)
    ensures CbcDecrypt(p.dec, iv, text, Run(p, true, iv, text, n).text, k)
  {
    ChainAt(StepOf(p, false), iv, text, n, k);
    ChainAt(StepOf(p, true), iv, text, n, k);
    VectorIsOutput(StepOf(p, false), iv, text, n, k);
    VectorIsInput(StepOf(p, true), iv, text, k);
  }

  lemma OfbIs(p: Setup, decrypt: bool, iv: Block, text: seq<bv8>, n: nat, k: nat)
    requires p.mode == OFB && 16 * n == |text| && k < n
    ensures Ofb(p.enc, iv, text, Run(p, decrypt, iv, text, n).text, k)
  {
    ChainAt(StepOf(p, decrypt), iv, text, n, k);
    VectorFeedsBack(StepOf(p, decrypt), p.enc, iv, text, k);
  }

  lemma CtrIs(p: Setup, decrypt: bool, iv: Block, text: seq<bv8>, n: nat, k: nat)
    requires p.mode == CTR && 16 * n == |text| && k < n
    ensures Ctr(p.enc, p.wide, iv, text, Run(p, decrypt, iv, text, n).text, k)
  {
    ChainAt(StepOf(p, decrypt), iv, text, n, k);
    CounterOf(p, StepOf(p, decrypt), iv, text, k);
    CounterCounts(iv, p.wide, k);
  }

  /** The vector before block `k` in the two feedback modes that feed ciphertext back. */
  lemma CipherVector(p: Setup, decrypt: bool, iv: Block, text: seq<bv8>, n: nat, k: nat)
    requires (p.mode == CFB128 || p.mode == CFB8) && 16 * n == |text| && k <= n
    ensures Chain(StepOf(p, decrypt), iv, text, k).iv
         == Before(iv, Ciphertext(decrypt, text, Run(p, decrypt, iv, text, n).text), k)
  {
    var f := StepOf(p, decrypt);
    if p.mode == CFB8 {
      forall v: Block, b: Block
        ensures f(v, b).iv == if decrypt then b else f(v, b).text
      {
        BytesSlide(p, decrypt, v, b, 16);
        var o := Bytewise(p, decrypt, v, b, 16);
        var c := Ciphertext(decrypt, b[..16], o.text);
        assert b[..16] == b && c[..16] == c && (v + c)[16..] == c;
      }
    }
    if decrypt {
      VectorIsInput(f, iv, text, k);
    } else {
      VectorIsOutput(f, iv, text, n, k);
    }
  }

  lemma Cfb128Is(p: Setup, decrypt: bool, iv: Block, text: seq<bv8>, n: nat, k: nat)
    requires p.mode == CFB128 && 16 * n == |text| && k < n
    ensures var output := Run(p, decrypt, iv, text, n).text;
            Cfb128(p.enc, iv, text, output, Ciphertext(decrypt, text, output), k)
  {
    ChainAt(StepOf(p, decrypt), iv, text, n, k);
    CipherVector(p, decrypt, iv, text, n, k);
  }

  lemma Cfb8Is(p: Setup, decrypt: bool, iv: Block, text: seq<bv8>, n: nat, k: nat, j: nat)
    requires p.mode == CFB8 && 16 * n == |text| && k < n && j < 16
    ensures var output := Run(p, decrypt, iv, text, n).text;
            Cfb8(p.enc, iv, text, output, Ciphertext(decrypt, text, output), 16 * k + j)
  {
    var output := Run(p, decrypt, iv, text, n).text;
    var cipher := Ciphertext(decrypt, text, output);
    var v, b := Chain(StepOf(p, decrypt), iv, text, k).iv, BlockAt(text, k);
    ChainAt(StepOf(p, decrypt), iv, text, n, k);
    CipherVector(p, decrypt, iv, text, n, k);
    BytesSlide(p, decrypt, v, b, 16);
    var o := Bytewise(p, decrypt, v, b, 16);
    assert b[..16] == b && o.text == BlockAt(output, k);
    assert Ciphertext(decrypt, b, o.text) == BlockAt(cipher, k);
    assert SlidByte(p.enc, v, b[j], o.text[j], BlockAt(cipher, k), j);
    WindowInBlock(iv, cipher, k, j);
  }

  /** The mode a number stands for. */
  ghost predicate Numbered(mode: nat, m: Mode) {
    match m
    case ECB => mode == 0
    case CBC => mode == 1
    case OFB => mode == 2
    case CTR => mode == 3
    case CFB8 => mode == 4
    case CFB128 => mode == 5
  }

  lemma RunIsStandard(p: Setup, mode: nat, decrypt: bool, iv: Block, text: seq<bv8>, n: nat)
    requires Numbered(mode, p.mode) && 16 * n == |text|
    ensures ByTheStandard(p.enc, p.dec, mode, p.wide, decrypt, iv, text, Run(p, decrypt, iv, text, n).text, n)
  {
    var output := Run(p, decrypt, iv, text, n).text;
    match p.mode
    case ECB =>
      var f := if decrypt then p.dec else p.enc;
      forall k: nat | k < n
        ensures Ecb(f, text, output, k)
      {
        EcbIs(p, decrypt, iv, text, n, k);
      }
    case CBC =>
      forall k: nat | k < n
        ensures CbcEncrypt(p.enc, iv, text, Run(p, false, iv, text, n).text, k)
        ensures CbcDecrypt(p.dec, iv, text, Run(p, true, iv, text, n).text, k)
      {
        CbcIs(p, iv, text, n, k);
      }
    case OFB =>
      forall k: nat | k < n
        ensures Ofb(p.enc, iv, text, output, k)
      {
        OfbIs(p, decrypt, iv, text, n, k);
      }
    case CTR =>
      forall k: nat | k < n
        ensures Ctr(p.enc, p.wide, iv, text, output, k)
      {
        CtrIs(p, decrypt, iv, text, n, k);
      }
    case CFB8 =>
      forall m: nat | m < 16 * n
        ensures Cfb8(p.enc, iv, text, output, Ciphertext(decrypt, text, output), m)
      {
        Cfb8Is(p, decrypt, iv, text, n, m / 16, m % 16);
      }
    case CFB128 =>
      forall k: nat | k < n
        ensures Cfb128(p.enc, iv, text, output, Ciphertext(decrypt, text, output), k)
      {
        Cfb128Is(p, decrypt, iv, text, n, k);
      }
  }

  lemma RunLeavesVector(p: Setup, mode: nat, decrypt: bool, iv: Block, text: seq<bv8>, n: nat)
    requires Numbered(mode, p.mode) && 16 * n == |text|
    ensures var o := Run(p, decrypt, iv, text, n);
            LeavesVector(p.enc, mode, p.wide, decrypt, iv, text, o.text, n, o.iv)
  {
    var f, output := StepOf(p, decrypt), Run(p, decrypt, iv, text, n).text;
    match p.mode
    case ECB => VectorStays(f, iv, text, n);
    case CBC =>
      if decrypt {
        VectorIsInput(f, iv, text, n);
      } else {
        VectorIsOutput(f, iv, text, n, n);
      }
    case OFB => VectorFeedsBack(f, p.enc, iv, text, n);
    case CTR =>
      CounterOf(p, f, iv, text, n);
      CounterCounts(iv, p.wide, n);
    case CFB8 =>
      CipherVector(p, decrypt, iv, text, n, n);
      WindowIsBlock(iv, Ciphertext(decrypt, text, output), n);
    case CFB128 => CipherVector(p, decrypt, iv, text, n, n);
  }
}
