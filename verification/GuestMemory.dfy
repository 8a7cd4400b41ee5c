/** Guest RAM as the host-side stubs see it: a byte per mapped address. An
    unmapped byte reads as zero and swallows writes; addresses are 32 bits wide
    and wrap. MMIO side effects of unmapped accesses are not modelled. */
module GuestMemory {
  type Mem = map<nat, bv8>

  const ADDR_SPACE: nat := 0x1_0000_0000

  function Wrap(a: nat): (w: nat)
    ensures w < ADDR_SPACE && (a < ADDR_SPACE ==> w == a)
  {
    if a < ADDR_SPACE then a else a % ADDR_SPACE
  }

  function Read8(m: Mem, a: nat): bv8 {
    if Wrap(a) in m then m[Wrap(a)] else 0
  }

  function Write8(m: Mem, a: nat, b: bv8): (r: Mem)
    ensures r.Keys == m.Keys
  {
    if Wrap(a) in m then m[Wrap(a) := b] else m
  }

  /** The `n` bytes starting at `a`, lowest address first. */
  function ReadBytes(m: Mem, a: nat, n: nat): (s: seq<bv8>)
    ensures |s| == n
  {
    seq(n, i requires 0 <= i < n => Read8(m, a + i))
  }

  /** Writing the bytes of `s` at `a`, `a + 1`, ... in that order. */
  function WriteBytes(m: Mem, a: nat, s: seq<bv8>): (r: Mem)
    ensures r.Keys == m.Keys
    decreases |s|
  {
    if s == [] then m
    else Write8(WriteBytes(m, a, s[..|s| - 1]), a + |s| - 1, s[|s| - 1])
  }

  /** `n` mapped addresses from `a` on, none of which wraps. */
  predicate Mapped(m: Mem, a: nat, n: nat) {
    a + n <= ADDR_SPACE && forall i :: a <= i < a + n ==> i in m
  }

  lemma {:induction false} WriteBytesAt(m: Mem, a: nat, s: seq<bv8>, x: nat)
    requires Mapped(m, a, |s|) && x < ADDR_SPACE
    ensures Read8(WriteBytes(m, a, s), x) == if a <= x < a + |s| then s[x - a] else Read8(m, x)
    decreases |s|
  {
    if s != [] {
      WriteBytesAt(m, a, s[..|s| - 1], x);
    }
  }

  /** A block write leaves disjoint mapped ranges alone. */
  lemma WriteElsewhere(m: Mem, a: nat, s: seq<bv8>, b: nat, n: nat)
    requires Mapped(m, a, |s|) && b + n <= ADDR_SPACE
    requires b + n <= a || a + |s| <= b
    ensures ReadBytes(WriteBytes(m, a, s), b, n) == ReadBytes(m, b, n)
  {
    var r, q := ReadBytes(WriteBytes(m, a, s), b, n), ReadBytes(m, b, n);
    forall i | 0 <= i < n ensures r[i] == q[i] {
      WriteBytesAt(m, a, s, b + i);
    }
  }

  // ----- words -----

  /** Byte `k` of a word, least significant first. */
  function ByteOf(w: bv32, k: nat): bv8
    requires k < 4
  {
    if k == 0 then (w & 0xFF) as bv8
    else if k == 1 then ((w >> 8) & 0xFF) as bv8
    else if k == 2 then ((w >> 16) & 0xFF) as bv8
    else ((w >> 24) & 0xFF) as bv8
  }

  function WordOf(b0: bv8, b1: bv8, b2: bv8, b3: bv8): bv32 {
    (b0 as bv32) | ((b1 as bv32) << 8) | ((b2 as bv32) << 16) | ((b3 as bv32) << 24)
  }

  lemma BytesOfWord(b0: bv8, b1: bv8, b2: bv8, b3: bv8, w: bv32)
    requires w == WordOf(b0, b1, b2, b3)
    ensures ByteOf(w, 0) == b0 && ByteOf(w, 1) == b1 && ByteOf(w, 2) == b2 && ByteOf(w, 3) == b3
  {
  }

  lemma WordOfBytes(w: bv32)
    ensures WordOf(ByteOf(w, 0), ByteOf(w, 1), ByteOf(w, 2), ByteOf(w, 3)) == w
  {
  }

  lemma ByteIsSmall(b: bv8)
    ensures b as nat < 256
  {
  }

  lemma WordFromTop(b3: bv8, b2: bv8, b1: bv8, b0: bv8)
    ensures (((b3 as bv32) << 24) | ((b2 as bv32) << 16) | ((b1 as bv32) << 8) | (b0 as bv32)) as nat
         == 0x100_0000 * b3 as nat + 0x1_0000 * b2 as nat + 0x100 * b1 as nat + b0 as nat
  {
  }

  lemma SameWord(b0: bv8, b1: bv8, b2: bv8, b3: bv8)
    ensures WordOf(b0, b1, b2, b3)
         == (((b3 as bv32) << 24) | ((b2 as bv32) << 16) | ((b1 as bv32) << 8) | (b0 as bv32))
  {
  }

  lemma DigitsOf(n: nat, a: nat, b: nat, c: nat, d: nat)
    requires n == 0x100_0000 * d + 0x1_0000 * c + 0x100 * b + a && a < 256 && b < 256 && c < 256 && d < 256
    ensures n % 256 == a && (n / 0x100) % 256 == b && (n / 0x1_0000) % 256 == c && n / 0x100_0000 == d
  {
    assert n / 0x100_0000 == d;
    assert n / 0x1_0000 == 0x100 * d + c;
    assert n / 0x100 == 0x1_0000 * d + 0x100 * c + b;
    assert (0x100 * d + c) % 0x100 == c;
    assert (0x1_0000 * d + 0x100 * c + b) % 0x100 == b;
  }

  /** A word of four bytes is the number they spell to base 256, the first one counting least. */
  lemma WordIsNumber(b0: bv8, b1: bv8, b2: bv8, b3: bv8)
    ensures WordOf(b0, b1, b2, b3) as nat
         == b0 as nat + 0x100 * b1 as nat + 0x1_0000 * b2 as nat + 0x100_0000 * b3 as nat
  {
    SameWord(b0, b1, b2, b3);
    WordFromTop(b3, b2, b1, b0);
  }

  /** The bytes of a word are its digits to base 256. */
  lemma BytesAreDigits(w: bv32)
    ensures ByteOf(w, 0) as nat == w as nat % 256 && ByteOf(w, 1) as nat == (w as nat / 0x100) % 256
    ensures ByteOf(w, 2) as nat == (w as nat / 0x1_0000) % 256 && ByteOf(w, 3) as nat == w as nat / 0x100_0000
    ensures w as nat / 0x100_0000 < 256
  {
    var a, b, c, d := ByteOf(w, 0), ByteOf(w, 1), ByteOf(w, 2), ByteOf(w, 3);
    WordOfBytes(w);
    WordIsNumber(a, b, c, d);
    ByteIsSmall(a);
    ByteIsSmall(b);
    ByteIsSmall(c);
    ByteIsSmall(d);
    DigitsOf(w as nat, a as nat, b as nat, c as nat, d as nat);
  }

  /** The little-endian word at `a`. */
  function Read32(m: Mem, a: nat): bv32 {
    WordOf(Read8(m, a), Read8(m, a + 1), Read8(m, a + 2), Read8(m, a + 3))
  }

  function Write32(m: Mem, a: nat, w: bv32): (r: Mem)
    ensures r.Keys == m.Keys
  {
    WriteBytes(m, a, [ByteOf(w, 0), ByteOf(w, 1), ByteOf(w, 2), ByteOf(w, 3)])
  }
}
