/** Arithmetic in GF(2^8) modulo x^8 + x^4 + x^3 + x + 1, and why the inverse column
    mix undoes the column mix. Sums are exclusive ors. Facts about `XTime` are stated
    over named values (`xa` for `XTime(a)`), so that each step is one linear equation. */
module AesField {
  /** Multiplication by x: the bit shifted out comes back at 1, x, x^3 and x^4. */
  function XTime(x: bv8): bv8 {
    var h := x >> 7;
    (x << 1) ^ h ^ (h << 1) ^ (h << 3) ^ (h << 4)
  }

  /** The same as shifting and adding the reduced carry 0x1b. */
  lemma XTimeReduces(x: bv8)
    ensures XTime(x) == (x << 1) ^ (((x >> 7) & 1) * 0x1b)
    ensures XTime(x) == Doubled(x)
  {
  }

  /** Doubling as the multiplication loop does it. */
  function Doubled(a: bv8): bv8 { if a & 0x80 != 0 then (a << 1) ^ 0x1b else a << 1 }

  lemma Linear(a: bv8, b: bv8, s: bv8, xa: bv8, xb: bv8, xs: bv8)
    requires s == a ^ b && xa == XTime(a) && xb == XTime(b) && xs == XTime(s)
    ensures xs == xa ^ xb
  {
  }

  /** Multiplication by x, x^2 and x^3 goes through a sum. */
  lemma LinearPowers(m: bv8, n: bv8, s: bv8, mx: bv8, nx: bv8, sx: bv8, my: bv8, ny: bv8, sy: bv8, mz: bv8, nz: bv8,
                     sz: bv8)
    requires s == m ^ n && mx == XTime(m) && nx == XTime(n) && sx == XTime(s)
    requires my == XTime(mx) && ny == XTime(nx) && sy == XTime(sx)
    requires mz == XTime(my) && nz == XTime(ny) && sz == XTime(sy)
    ensures sx == mx ^ nx && sy == my ^ ny && sz == mz ^ nz
  {
    Linear(m, n, s, mx, nx, sx);
    Linear(mx, nx, sx, my, ny, sy);
    Linear(my, ny, sy, mz, nz, sz);
  }

  // ----- the mix of one byte -----

  lemma SumForm(a0: bv8, a1: bv8, a2: bv8, a3: bv8, x0: bv8, x1: bv8, xd: bv8, t: bv8, m: bv8)
    requires xd == x0 ^ x1 && t == a0 ^ a1 ^ a2 ^ a3 && m == MixByte(x0, x1, a1, a2, a3)
    ensures m == a0 ^ t ^ xd
  {
  }

  /** A mixed byte is the byte, plus the sum of the column, plus x times the sum of
      the byte and its neighbour. */
  lemma MixedByte(a0: bv8, a1: bv8, a2: bv8, a3: bv8, x0: bv8, x1: bv8, d: bv8, xd: bv8, t: bv8, m: bv8)
    requires d == a0 ^ a1 && t == a0 ^ a1 ^ a2 ^ a3 && m == MixByte(x0, x1, a1, a2, a3)
    requires xd == XTime(d) && x0 == XTime(a0) && x1 == XTime(a1)
    ensures m == a0 ^ t ^ xd
  {
    Linear(a0, a1, d, x0, x1, xd);
    SumForm(a0, a1, a2, a3, x0, x1, xd, t, m);
  }

  lemma PairSum(a: bv8, b: bv8, t: bv8, p: bv8, q: bv8, m: bv8, n: bv8, s: bv8, e: bv8, pq: bv8)
    requires m == a ^ t ^ p && n == b ^ t ^ q && s == m ^ n && e == a ^ b && pq == p ^ q
    ensures s == e ^ pq
  {
  }

  lemma CancelShared(e0: bv8, e1: bv8, k: bv8, s0: bv8, s1: bv8, t: bv8)
    requires s0 == e0 ^ k && s1 == e1 ^ k && t == e0 ^ e1
    ensures t == s0 ^ s1
  {
  }

  lemma SumOfEdges(a0: bv8, a1: bv8, a2: bv8, a3: bv8, p: bv8, q: bv8, t: bv8)
    requires p == a0 ^ a1 && q == a2 ^ a3 && t == a0 ^ a1 ^ a2 ^ a3
    ensures t == p ^ q
  {
  }

  lemma SumOfOtherEdges(a0: bv8, a1: bv8, a2: bv8, a3: bv8, p: bv8, q: bv8, t: bv8)
    requires p == a1 ^ a2 && q == a3 ^ a0 && t == a0 ^ a1 ^ a2 ^ a3
    ensures t == p ^ q
  {
  }

  lemma SumOfDiagonals(a0: bv8, a1: bv8, a2: bv8, a3: bv8, p: bv8, q: bv8, t: bv8)
    requires p == a0 ^ a2 && q == a1 ^ a3 && t == a0 ^ a1 ^ a2 ^ a3
    ensures t == p ^ q
  {
  }

  lemma DiagonalOfEdges(a0: bv8, a1: bv8, a2: bv8, p: bv8, q: bv8, e: bv8)
    requires p == a0 ^ a1 && q == a1 ^ a2 && e == a0 ^ a2
    ensures e == p ^ q
  {
  }

  /** The sums a mixed column has along its diagonals and its first edge. */
  lemma MixedSums(a0: bv8, a1: bv8, a2: bv8, a3: bv8, m0: bv8, m1: bv8, m2: bv8, m3: bv8,
                  t: bv8, xt: bv8, e0: bv8, e1: bv8, xe0: bv8, d0: bv8, xd0: bv8, s0: bv8, s1: bv8, s: bv8,
                  d1: bv8, d2: bv8, d3: bv8, xd1: bv8, xd2: bv8, xd3: bv8)
    requires d0 == a0 ^ a1 && d1 == a1 ^ a2 && d2 == a2 ^ a3 && d3 == a3 ^ a0
    requires t == a0 ^ a1 ^ a2 ^ a3 && e0 == a0 ^ a2 && e1 == a1 ^ a3
    requires xd0 == XTime(d0) && xd1 == XTime(d1) && xd2 == XTime(d2) && xd3 == XTime(d3)
    requires xt == XTime(t) && xe0 == XTime(e0)
    requires m0 == a0 ^ t ^ xd0 && m1 == a1 ^ t ^ xd1 && m2 == a2 ^ t ^ xd2 && m3 == a3 ^ t ^ xd3
    requires s0 == m0 ^ m2 && s1 == m1 ^ m3 && s == m0 ^ m1
    ensures s0 == e0 ^ xt && t == s0 ^ s1 && s == d0 ^ xe0
  {
    SumOfEdges(a0, a1, a2, a3, d0, d2, t);
    SumOfOtherEdges(a0, a1, a2, a3, d1, d3, t);
    SumOfDiagonals(a0, a1, a2, a3, e0, e1, t);
    DiagonalOfEdges(a0, a1, a2, d0, d1, e0);
    Linear(d0, d2, t, xd0, xd2, xt);
    Linear(d1, d3, t, xd1, xd3, xt);
    Linear(d0, d1, e0, xd0, xd1, xe0);
    PairSum(a0, a2, t, xd0, xd2, m0, m2, s0, e0, xt);
    PairSum(a1, a3, t, xd1, xd3, m1, m3, s1, e1, xt);
    PairSum(a0, a1, t, xd0, xd1, m0, m1, s, d0, xe0);
    CancelShared(e0, e1, xt, s0, s1, t);
  }

  lemma LastSum(a0: bv8, t: bv8, xd0: bv8, m0: bv8, m1: bv8, m2: bv8, m3: bv8, s0: bv8, s1: bv8, k: bv8)
    requires m0 == a0 ^ t ^ xd0 && s0 == m0 ^ m2 && s1 == m1 ^ m3 && t == s0 ^ s1 && k == m1 ^ m2 ^ m3
    ensures k == a0 ^ xd0
  {
  }

  lemma FinalSum(a0: bv8, k: bv8, xd0: bv8, zt: bv8, ye0: bv8, sy0: bv8, sx: bv8, sz0: bv8, sz1: bv8)
    requires k == a0 ^ xd0 && sy0 == ye0 ^ zt && sx == xd0 ^ ye0 && zt == sz0 ^ sz1
    ensures sz0 ^ sz1 ^ sy0 ^ sx ^ k == a0
  {
  }

  lemma FirstHalf(mx0: bv8, my0: bv8, mz0: bv8, m2: bv8, my2: bv8, mz2: bv8, sy0: bv8, sz0: bv8, e: bv8, d: bv8, p: bv8)
    requires e == mx0 ^ my0 ^ mz0 && d == m2 ^ my2 ^ mz2 && sy0 == my0 ^ my2 && sz0 == mz0 ^ mz2 && p == e ^ d
    ensures p == sz0 ^ sy0 ^ mx0 ^ m2
  {
  }

  lemma SecondHalf(m1: bv8, mx1: bv8, mz1: bv8, m3: bv8, mz3: bv8, sz1: bv8, b: bv8, n: bv8, q: bv8)
    requires b == m1 ^ mx1 ^ mz1 && n == m3 ^ mz3 && sz1 == mz1 ^ mz3 && q == b ^ n
    ensures q == sz1 ^ mx1 ^ m1 ^ m3
  {
  }

  lemma BothHalves(p: bv8, q: bv8, sz0: bv8, sy0: bv8, sz1: bv8, mx0: bv8, mx1: bv8, m1: bv8, m2: bv8, m3: bv8,
                   sx: bv8, k: bv8)
    requires p == sz0 ^ sy0 ^ mx0 ^ m2 && q == sz1 ^ mx1 ^ m1 ^ m3 && sx == mx0 ^ mx1 && k == m1 ^ m2 ^ m3
    ensures p ^ q == sz0 ^ sz1 ^ sy0 ^ sx ^ k
  {
  }

  lemma Regroup(e: bv8, b: bv8, d: bv8, n: bv8, p: bv8, q: bv8)
    requires p == e ^ d && q == b ^ n
    ensures InvMixByte(e, b, d, n) == p ^ q
  {
  }

  lemma RotateSum(a0: bv8, a1: bv8, a2: bv8, a3: bv8, t: bv8)
    requires t == a0 ^ a1 ^ a2 ^ a3
    ensures t == a1 ^ a2 ^ a3 ^ a0 && t == a2 ^ a3 ^ a0 ^ a1 && t == a3 ^ a0 ^ a1 ^ a2
  {
  }

  /** What is known of the column `m` once `a` has been mixed into it. */
  lemma MixedColumn(a0: bv8, a1: bv8, a2: bv8, a3: bv8, x0: bv8, x1: bv8, x2: bv8, x3: bv8,
                    m0: bv8, m1: bv8, m2: bv8, m3: bv8, t: bv8, e0: bv8, d0: bv8, s0: bv8, s1: bv8, s: bv8,
                    xt: bv8, xe0: bv8, xd0: bv8)
    requires x0 == XTime(a0) && x1 == XTime(a1) && x2 == XTime(a2) && x3 == XTime(a3)
    requires m0 == MixByte(x0, x1, a1, a2, a3) && m1 == MixByte(x1, x2, a2, a3, a0)
    requires m2 == MixByte(x2, x3, a3, a0, a1) && m3 == MixByte(x3, x0, a0, a1, a2)
    requires t == a0 ^ a1 ^ a2 ^ a3 && e0 == a0 ^ a2 && d0 == a0 ^ a1
    requires s0 == m0 ^ m2 && s1 == m1 ^ m3 && s == m0 ^ m1
    requires xt == XTime(t) && xe0 == XTime(e0) && xd0 == XTime(d0)
    ensures m0 == a0 ^ t ^ xd0 && s0 == e0 ^ xt && t == s0 ^ s1 && s == d0 ^ xe0
  {
    var d1, d2, d3, e1 := a1 ^ a2, a2 ^ a3, a3 ^ a0, a1 ^ a3;
    var xd1, xd2, xd3 := XTime(d1), XTime(d2), XTime(d3);
    RotateSum(a0, a1, a2, a3, t);
    MixedByte(a0, a1, a2, a3, x0, x1, d0, xd0, t, m0);
    MixedByte(a1, a2, a3, a0, x1, x2, d1, xd1, t, m1);
    MixedByte(a2, a3, a0, a1, x2, x3, d2, xd2, t, m2);
    MixedByte(a3, a0, a1, a2, x3, x0, d3, xd3, t, m3);
    MixedSums(a0, a1, a2, a3, m0, m1, m2, m3, t, xt, e0, e1, xe0, d0, xd0, s0, s1, s, d1, d2, d3, xd1, xd2, xd3);
  }

  /** The heart of InvMixColumns: with `mx`, `my` and `mz` for x, x^2 and x^3 times a
      mixed byte, 14, 11, 13 and 9 times the bytes of the mixed column add up to the
      first byte of the column that was mixed. */
  lemma UnmixedByte(a0: bv8, a1: bv8, a2: bv8, a3: bv8, x0: bv8, x1: bv8, x2: bv8, x3: bv8,
                    m0: bv8, m1: bv8, m2: bv8, m3: bv8, mx0: bv8, mx1: bv8, mx2: bv8, mx3: bv8,
                    my0: bv8, my1: bv8, my2: bv8, my3: bv8, mz0: bv8, mz1: bv8, mz2: bv8, mz3: bv8,
                    e: bv8, b: bv8, d: bv8, n: bv8)
    requires x0 == XTime(a0) && x1 == XTime(a1) && x2 == XTime(a2) && x3 == XTime(a3)
    requires m0 == MixByte(x0, x1, a1, a2, a3) && m1 == MixByte(x1, x2, a2, a3, a0)
    requires m2 == MixByte(x2, x3, a3, a0, a1) && m3 == MixByte(x3, x0, a0, a1, a2)
    requires mx0 == XTime(m0) && mx1 == XTime(m1) && mx2 == XTime(m2) && mx3 == XTime(m3)
    requires my0 == XTime(mx0) && my1 == XTime(mx1) && my2 == XTime(mx2) && my3 == XTime(mx3)
    requires mz0 == XTime(my0) && mz1 == XTime(my1) && mz2 == XTime(my2) && mz3 == XTime(my3)
    requires e == mx0 ^ my0 ^ mz0 && b == m1 ^ mx1 ^ mz1 && d == m2 ^ my2 ^ mz2 && n == m3 ^ mz3
    ensures InvMixByte(e, b, d, n) == a0
  {
    var t, e0, d0, s0, s1, s, k := a0 ^ a1 ^ a2 ^ a3, a0 ^ a2, a0 ^ a1, m0 ^ m2, m1 ^ m3, m0 ^ m1, m1 ^ m2 ^ m3;
    var xt, xe0, xd0 := XTime(t), XTime(e0), XTime(d0);
    MixedColumn(a0, a1, a2, a3, x0, x1, x2, x3, m0, m1, m2, m3, t, e0, d0, s0, s1, s, xt, xe0, xd0);
    var yt, ye0 := XTime(xt), XTime(xe0);
    var zt := XTime(yt);
    var sx0, sx1, sx := XTime(s0), XTime(s1), XTime(s);
    var sy0, sy1 := XTime(sx0), XTime(sx1);
    var sz0, sz1 := XTime(sy0), XTime(sy1);
    LinearPowers(m0, m2, s0, mx0, mx2, sx0, my0, my2, sy0, mz0, mz2, sz0);
    LinearPowers(m1, m3, s1, mx1, mx3, sx1, my1, my3, sy1, mz1, mz3, sz1);
    LinearPowers(s0, s1, t, sx0, sx1, xt, sy0, sy1, yt, sz0, sz1, zt);
    Linear(m0, m1, s, mx0, mx1, sx);
    Linear(e0, xt, s0, xe0, yt, sx0);
    Linear(xe0, yt, sx0, ye0, zt, sy0);
    Linear(d0, xe0, s, xd0, ye0, sx);
    LastSum(a0, t, xd0, m0, m1, m2, m3, s0, s1, k);
    var p, q := e ^ d, b ^ n;
    FirstHalf(mx0, my0, mz0, m2, my2, mz2, sy0, sz0, e, d, p);
    SecondHalf(m1, mx1, mz1, m3, mz3, sz1, b, n, q);
    BothHalves(p, q, sz0, sy0, sz1, mx0, mx1, m1, m2, m3, sx, k);
    FinalSum(a0, k, xd0, zt, ye0, sy0, sx, sz0, sz1);
    Regroup(e, b, d, n, p, q);
  }

  // ----- multiplication -----

  /** `r` plus the product of `a` and the low `n` bits of `b`, by shift and add. */
  function MulAdd(r: bv8, a: bv8, b: bv8, n: nat): bv8
    decreases n
  {
    if n == 0 then r else MulAdd(Added(r, a, b), XTime(a), b >> 1, n - 1)
  }

  function Added(r: bv8, a: bv8, b: bv8): bv8 { if b & 1 != 0 then r ^ a else r }

  function GfMul(a: bv8, b: bv8): bv8 { MulAdd(0, a, b, 8) }

  /** The eight-step multiplication loop. */
  method Mul(a0: bv8, b0: bv8) returns (r: bv8)
    ensures r == GfMul(a0, b0)
  {
    var a, b := a0, b0;
    r := 0;
    for i := 0 to 8
      invariant MulAdd(r, a, b, 8 - i) == GfMul(a0, b0)
    {
      XTimeReduces(a);
      r, a, b := Added(r, a, b), Doubled(a), b >> 1;
    }
  }

  lemma {:induction false} NothingLeft(r: bv8, a: bv8, n: nat)
    ensures MulAdd(r, a, 0, n) == r
    decreases n
  {
    if n > 0 {
      NothingLeft(r, XTime(a), n - 1);
      assert (0 as bv8) >> 1 == 0;
    }
  }

  // ----- the product is the field's -----

  lemma AddedSum(r: bv8, s: bv8, t: bv8, a: bv8, c: bv8, d: bv8, b: bv8, ra: bv8, sc: bv8, td: bv8)
    requires t == r ^ s && d == a ^ c && ra == Added(r, a, b) && sc == Added(s, c, b) && td == Added(t, d, b)
    ensures td == ra ^ sc
  {
  }

  /** The product is additive in its first factor. */
  lemma {:induction false} SumTimes(r: bv8, s: bv8, t: bv8, a: bv8, c: bv8, d: bv8, b: bv8, n: nat, p: bv8, q: bv8,
                                    o: bv8)
    requires t == r ^ s && d == a ^ c
    requires p == MulAdd(r, a, b, n) && q == MulAdd(s, c, b, n) && o == MulAdd(t, d, b, n)
    ensures o == p ^ q
    decreases n
  {
    if n > 0 {
      var ra, sc, td, xa, xc, xd := Added(r, a, b), Added(s, c, b), Added(t, d, b), XTime(a), XTime(c), XTime(d);
      AddedSum(r, s, t, a, c, d, b, ra, sc, td);
      Linear(a, c, d, xa, xc, xd);
      SumTimes(ra, sc, td, xa, xc, xd, b >> 1, n - 1, p, q, o);
    }
  }

  lemma OddSum(b: bv8, c: bv8, d: bv8)
    requires d == b ^ c
    ensures d & 1 != 0 <==> (b & 1 != 0 <==> c & 1 == 0)
    ensures d >> 1 == (b >> 1) ^ (c >> 1)
  {
  }

  lemma AddedFirst(r: bv8, s: bv8, t: bv8, a: bv8, p: bv8, o: bv8)
    requires t == r ^ s && p == r ^ a && o == t ^ a
    ensures o == p ^ s
  {
  }

  lemma AddedSecond(r: bv8, s: bv8, t: bv8, a: bv8, q: bv8, o: bv8)
    requires t == r ^ s && q == s ^ a && o == t ^ a
    ensures o == r ^ q
  {
  }

  lemma AddedBits(r: bv8, s: bv8, t: bv8, a: bv8, b: bool, c: bool, rb: bv8, sc: bv8, td: bv8)
    requires t == r ^ s && (b ==> rb == r ^ a) && (!b ==> rb == r) && (c ==> sc == s ^ a) && (!c ==> sc == s)
    requires (b != c ==> td == t ^ a) && (b == c ==> td == t)
    ensures td == rb ^ sc
  {
    if b && c {
      CancelShared(r, s, a, rb, sc, t);
    } else if b {
      AddedFirst(r, s, t, a, rb, td);
    } else if c {
      AddedSecond(r, s, t, a, sc, td);
    }
  }

  lemma TimesSumStep(r: bv8, s: bv8, t: bv8, a: bv8, b: bv8, c: bv8, d: bv8, rb: bv8, sc: bv8, td: bv8)
    requires t == r ^ s && d == b ^ c && rb == Added(r, a, b) && sc == Added(s, a, c) && td == Added(t, a, d)
    ensures td == rb ^ sc && d >> 1 == (b >> 1) ^ (c >> 1)
  {
    OddSum(b, c, d);
    AddedBits(r, s, t, a, b & 1 != 0, c & 1 != 0, rb, sc, td);
  }

  /** And in its second. */
  lemma {:induction false} TimesSum(r: bv8, s: bv8, t: bv8, a: bv8, b: bv8, c: bv8, d: bv8, n: nat, p: bv8, q: bv8,
                                    o: bv8)
    requires t == r ^ s && d == b ^ c
    requires p == MulAdd(r, a, b, n) && q == MulAdd(s, a, c, n) && o == MulAdd(t, a, d, n)
    ensures o == p ^ q
    decreases n
  {
    if n > 0 {
      var rb, sc, td := Added(r, a, b), Added(s, a, c), Added(t, a, d);
      TimesSumStep(r, s, t, a, b, c, d, rb, sc, td);
      TimesSum(rb, sc, td, XTime(a), b >> 1, c >> 1, d >> 1, n - 1, p, q, o);
    }
  }

  /** The product distributes over sums on either side. */
  lemma MulDistributes(a: bv8, b: bv8, c: bv8, s: bv8, ac: bv8, bc: bv8, sc: bv8, ca: bv8, cb: bv8, cs: bv8)
    requires s == a ^ b && ac == GfMul(a, c) && bc == GfMul(b, c) && sc == GfMul(s, c)
    requires ca == GfMul(c, a) && cb == GfMul(c, b) && cs == GfMul(c, s)
    ensures sc == ac ^ bc && cs == ca ^ cb
  {
    SumTimes(0, 0, 0, a, b, s, c, 8, ac, bc, sc);
    TimesSum(0, 0, 0, c, a, b, s, 8, ca, cb, cs);
  }

  /** x to the power `k`, for the powers a byte holds without reduction. */
  function Unit(k: nat): (u: bv8)
    requires k < 8
    ensures u & 1 == (if k == 0 then 1 else 0) && (k == 0 ==> u == 1)
    ensures k > 0 ==> u >> 1 == Unit(k - 1) && u == XTime(Unit(k - 1))
  {
    match k
    case 0 => 1 case 1 => 2 case 2 => 4 case 3 => 8 case 4 => 16 case 5 => 32 case 6 => 64 case _ => 128
  }

  /** `a` times x to the power `k`. */
  function Shifted(a: bv8, k: nat): bv8
    decreases k
  {
    if k == 0 then a else Shifted(XTime(a), k - 1)
  }

  lemma {:induction false} AddUnit(r: bv8, a: bv8, k: nat, n: nat)
    requires k < 8 && k < n
    ensures MulAdd(r, a, Unit(k), n) == r ^ Shifted(a, k)
    decreases k
  {
    if k == 0 {
      NothingLeft(r ^ a, XTime(a), n - 1);
      assert (1 as bv8) >> 1 == 0;
    } else {
      AddUnit(r, XTime(a), k - 1, n - 1);
    }
  }

  /** Multiplying by a power of x is that many multiplications by x. */
  lemma TimesUnit(a: bv8, k: nat)
    requires k < 8
    ensures GfMul(a, Unit(k)) == Shifted(a, k)
  {
    AddUnit(0, a, k, 8);
    assert 0 ^ Shifted(a, k) == Shifted(a, k);
  }

  lemma {:induction false} UnitShifted(i: nat, k: nat)
    requires i < 8
    ensures Shifted(Unit(i), k) == Shifted(1, i + k)
    decreases i
  {
    if i > 0 {
      assert Shifted(Unit(i - 1), k + 1) == Shifted(XTime(Unit(i - 1)), k);
      UnitShifted(i - 1, k + 1);
    }
  }

  /** The powers of x below the power `k`. */
  function Below(k: nat): bv8
    requires k <= 8
  {
    match k
    case 0 => 0 case 1 => 1 case 2 => 3 case 3 => 7 case 4 => 15 case 5 => 31 case 6 => 63 case 7 => 127 case _ => 255
  }

  lemma UnitAbove(k: nat)
    requires k < 8
    ensures Unit(k) & Below(k) == 0 && Below(k + 1) == Unit(k) | Below(k) && Unit(k) & (Unit(k) - 1) == 0
  {
  }

  lemma NextBit(s: bv8, t: bv8, b: bv8, k: nat)
    requires k < 8 && s == b & Below(k) && t == b & Below(k + 1)
    ensures t == s ^ Unit(k) || t == s
  {
    UnitAbove(k);
    BitAbove(b, Unit(k), Below(k), Below(k + 1));
  }

  lemma BitAbove(b: bv8, u: bv8, low: bv8, more: bv8)
    requires u & low == 0 && more == u | low && u & (u - 1) == 0
    ensures b & more == if b & u != 0 then (b & low) ^ u else b & low
  {
  }

  predicate Commutes(a: bv8, b: bv8, n: nat) { MulAdd(0, a, b, n) == MulAdd(0, b, a, n) }

  lemma CommuteSum(a: bv8, b: bv8, c: bv8, d: bv8, n: nat)
    requires Commutes(a, b, n) && Commutes(a, c, n) && d == b ^ c
    ensures Commutes(a, d, n)
  {
    TimesSum(0, 0, 0, a, b, c, d, n, MulAdd(0, a, b, n), MulAdd(0, a, c, n), MulAdd(0, a, d, n));
    SumTimes(0, 0, 0, b, c, d, a, n, MulAdd(0, b, a, n), MulAdd(0, c, a, n), MulAdd(0, d, a, n));
  }

  lemma CommuteUnits(i: nat, j: nat, n: nat)
    requires i < 8 && j < 8 && n >= 8
    ensures Commutes(Unit(i), Unit(j), n)
  {
    AddUnit(0, Unit(i), j, n);
    AddUnit(0, Unit(j), i, n);
    UnitShifted(i, j);
    UnitShifted(j, i);
  }

  lemma CommuteZero(a: bv8, n: nat)
    ensures Commutes(a, 0, n)
  {
    NothingLeft(0, a, n);
    ZeroTimes(a, n);
  }

  lemma {:induction false} ZeroTimes(b: bv8, n: nat)
    ensures MulAdd(0, 0, b, n) == 0
    decreases n
  {
    if n > 0 {
      assert XTime(0) == 0 && Added(0, 0, b) == 0;
      ZeroTimes(b >> 1, n - 1);
    }
  }

  lemma CommuteNext(a: bv8, b: bv8, was: bv8, s: bv8, k: nat, n: nat)
    requires k < 8 && was == b & Below(k) && s == b & Below(k + 1) && Commutes(a, was, n) && Commutes(a, Unit(k), n)
    ensures Commutes(a, s, n)
  {
    NextBit(was, s, b, k);
    CommuteStep(a, was, Unit(k), s, n);
  }

  lemma CommuteStep(a: bv8, was: bv8, u: bv8, s: bv8, n: nat)
    requires Commutes(a, was, n) && Commutes(a, u, n) && (s == was ^ u || s == was)
    ensures Commutes(a, s, n)
  {
    if s != was {
      CommuteSum(a, was, u, s, n);
    }
  }

  /** The part of `b` below the power `k`. */
  function Part(b: bv8, k: nat): bv8
    requires k <= 8
  {
    b & Below(k)
  }

  lemma NoBits(b: bv8, n: nat, a: bv8)
    ensures Commutes(a, Part(b, 0), n)
  {
    assert b & Below(0) == 0;
    CommuteZero(a, n);
  }

  lemma AllBits(b: bv8)
    ensures b == Part(b, 8)
  {
  }

  lemma UnitNext(i: nat, b: bv8, k: nat, n: nat)
    requires i < 8 && k < 8 && n >= 8 && Commutes(Unit(i), Part(b, k), n)
    ensures Commutes(Unit(i), Part(b, k + 1), n)
  {
    CommuteUnits(i, k, n);
    CommuteNext(Unit(i), b, Part(b, k), Part(b, k + 1), k, n);
  }

  /** A power of x commutes with the sum of the powers of x that a byte is. */
  lemma UnitCommutes(i: nat, b: bv8, n: nat)
    requires i < 8 && n >= 8
    ensures Commutes(Unit(i), b, n)
  {
    NoBits(b, n, Unit(i));
    for k := 0 to 8
      invariant Commutes(Unit(i), Part(b, k), n)
    {
      UnitNext(i, b, k, n);
    }
    AllBits(b);
  }

  lemma ByteNext(a: bv8, b: bv8, k: nat, n: nat)
    requires k < 8 && n >= 8 && Commutes(a, Part(b, k), n)
    ensures Commutes(a, Part(b, k + 1), n)
  {
    UnitCommutes(k, a, n);
    CommuteNext(a, b, Part(b, k), Part(b, k + 1), k, n);
  }

  /** So does any byte. */
  lemma ByteCommutes(a: bv8, b: bv8, n: nat)
    requires n >= 8
    ensures Commutes(a, b, n)
  {
    NoBits(b, n, a);
    for k := 0 to 8
      invariant Commutes(a, Part(b, k), n)
    {
      ByteNext(a, b, k, n);
    }
    AllBits(b);
  }

  /** The product commutes. */
  lemma MulCommutes(a: bv8, b: bv8)
    ensures GfMul(a, b) == GfMul(b, a)
  {
    ByteCommutes(a, b, 8);
  }

  /** Four steps are enough for a four-bit factor. */
  lemma FourSteps(a: bv8, x: bv8, y: bv8, z: bv8, b: bv8, r1: bv8, r2: bv8, r3: bv8, r4: bv8)
    requires x == XTime(a) && y == XTime(x) && z == XTime(y) && b < 16
    requires r1 == Added(0, a, b) && r2 == Added(r1, x, b >> 1) && r3 == Added(r2, y, b >> 1 >> 1)
    requires r4 == Added(r3, z, b >> 1 >> 1 >> 1)
    ensures GfMul(a, b) == r4
  {
    var b1 := b >> 1;
    var b2 := b1 >> 1;
    var b3 := b2 >> 1;
    assert b3 >> 1 == 0;
    assert MulAdd(0, a, b, 8) == MulAdd(r1, x, b1, 7);
    assert MulAdd(r1, x, b1, 7) == MulAdd(r2, y, b2, 6);
    assert MulAdd(r2, y, b2, 6) == MulAdd(r3, z, b3, 5);
    assert MulAdd(r3, z, b3, 5) == MulAdd(r4, XTime(z), 0, 4);
    NothingLeft(r4, XTime(z), 4);
  }

  /** The four products of the inverse column mix, with `x`, `y` and `z` for x, x^2
      and x^3 times `a`. */
  lemma Times9(a: bv8, x: bv8, y: bv8, z: bv8, p: bv8)
    requires x == XTime(a) && y == XTime(x) && z == XTime(y) && p == GfMul(a, 0x09)
    ensures p == a ^ z
  {
    FourSteps(a, x, y, z, 0x09, a, a, a, a ^ z);
  }

  lemma Times11(a: bv8, x: bv8, y: bv8, z: bv8, p: bv8)
    requires x == XTime(a) && y == XTime(x) && z == XTime(y) && p == GfMul(a, 0x0b)
    ensures p == a ^ x ^ z
  {
    FourSteps(a, x, y, z, 0x0b, a, a ^ x, a ^ x, a ^ x ^ z);
  }

  lemma Times13(a: bv8, x: bv8, y: bv8, z: bv8, p: bv8)
    requires x == XTime(a) && y == XTime(x) && z == XTime(y) && p == GfMul(a, 0x0d)
    ensures p == a ^ y ^ z
  {
    FourSteps(a, x, y, z, 0x0d, a, a, a ^ y, a ^ y ^ z);
  }

  lemma Times14(a: bv8, x: bv8, y: bv8, z: bv8, p: bv8)
    requires x == XTime(a) && y == XTime(x) && z == XTime(y) && p == GfMul(a, 0x0e)
    ensures p == x ^ y ^ z
  {
    FourSteps(a, x, y, z, 0x0e, 0, x, x ^ y, x ^ y ^ z);
  }

  /** The two products of the column mix. */
  lemma TimesTwo(a: bv8)
    ensures GfMul(a, 2) == XTime(a)
  {
    FourSteps(a, XTime(a), XTime(XTime(a)), XTime(XTime(XTime(a))), 2, 0, XTime(a), XTime(a), XTime(a));
  }

  lemma TimesThree(a: bv8)
    ensures GfMul(a, 3) == a ^ XTime(a)
  {
    var x := XTime(a);
    FourSteps(a, x, XTime(x), XTime(XTime(x)), 3, a, a ^ x, a ^ x, a ^ x);
  }

  // ----- columns -----

  function MixByte(x0: bv8, x1: bv8, a1: bv8, a2: bv8, a3: bv8): bv8 { x0 ^ x1 ^ a1 ^ a2 ^ a3 }

  lemma SameSum(x0: bv8, x1: bv8, a1: bv8, a2: bv8, a3: bv8, p: bv8, q: bv8)
    requires p == x0 && q == a1 ^ x1
    ensures MixByte(x0, x1, a1, a2, a3) == p ^ q ^ a2 ^ a3
  {
  }

  /** A mixed byte as section 5.1.3 of FIPS 197 defines it. */
  lemma MixByteIs(a0: bv8, a1: bv8, a2: bv8, a3: bv8, x0: bv8, x1: bv8, p: bv8, q: bv8)
    requires x0 == XTime(a0) && x1 == XTime(a1) && p == GfMul(a0, 2) && q == GfMul(a1, 3)
    ensures MixByte(x0, x1, a1, a2, a3) == p ^ q ^ a2 ^ a3
  {
    TimesTwo(a0);
    TimesThree(a1);
    SameSum(x0, x1, a1, a2, a3, p, q);
  }

  function InvMixByte(e: bv8, b: bv8, d: bv8, n: bv8): bv8 { e ^ b ^ d ^ n }

  datatype Col = Col(a0: bv8, a1: bv8, a2: bv8, a3: bv8)

  function MixColumn(c: Col): Col {
    var x0, x1, x2, x3 := XTime(c.a0), XTime(c.a1), XTime(c.a2), XTime(c.a3);
    Col(MixByte(x0, x1, c.a1, c.a2, c.a3), MixByte(x1, x2, c.a2, c.a3, c.a0),
        MixByte(x2, x3, c.a3, c.a0, c.a1), MixByte(x3, x0, c.a0, c.a1, c.a2))
  }

  function InvMixColumn(c: Col): Col {
    Col(InvMixByte(GfMul(c.a0, 0x0e), GfMul(c.a1, 0x0b), GfMul(c.a2, 0x0d), GfMul(c.a3, 0x09)),
        InvMixByte(GfMul(c.a1, 0x0e), GfMul(c.a2, 0x0b), GfMul(c.a3, 0x0d), GfMul(c.a0, 0x09)),
        InvMixByte(GfMul(c.a2, 0x0e), GfMul(c.a3, 0x0b), GfMul(c.a0, 0x0d), GfMul(c.a1, 0x09)),
        InvMixByte(GfMul(c.a3, 0x0e), GfMul(c.a0, 0x0b), GfMul(c.a1, 0x0d), GfMul(c.a2, 0x09)))
  }

  /** One byte of the inverse mix of a mixed column. */
  lemma UnmixedProduct(a0: bv8, a1: bv8, a2: bv8, a3: bv8, x0: bv8, x1: bv8, x2: bv8, x3: bv8,
                       m0: bv8, m1: bv8, m2: bv8, m3: bv8, e: bv8, b: bv8, d: bv8, n: bv8)
    requires x0 == XTime(a0) && x1 == XTime(a1) && x2 == XTime(a2) && x3 == XTime(a3)
    requires m0 == MixByte(x0, x1, a1, a2, a3) && m1 == MixByte(x1, x2, a2, a3, a0)
    requires m2 == MixByte(x2, x3, a3, a0, a1) && m3 == MixByte(x3, x0, a0, a1, a2)
    requires e == GfMul(m0, 0x0e) && b == GfMul(m1, 0x0b) && d == GfMul(m2, 0x0d) && n == GfMul(m3, 0x09)
    ensures InvMixByte(e, b, d, n) == a0
  {
    var mx0, mx1, mx2, mx3 := XTime(m0), XTime(m1), XTime(m2), XTime(m3);
    var my0, my1, my2, my3 := XTime(mx0), XTime(mx1), XTime(mx2), XTime(mx3);
    var mz0, mz1, mz2, mz3 := XTime(my0), XTime(my1), XTime(my2), XTime(my3);
    Times14(m0, mx0, my0, mz0, e);
    Times11(m1, mx1, my1, mz1, b);
    Times13(m2, mx2, my2, mz2, d);
    Times9(m3, mx3, my3, mz3, n);
    UnmixedByte(a0, a1, a2, a3, x0, x1, x2, x3, m0, m1, m2, m3, mx0, mx1, mx2, mx3,
                my0, my1, my2, my3, mz0, mz1, mz2, mz3, e, b, d, n);
  }

  /** InvMixColumns undoes MixColumns on every column. */
  lemma UnmixColumn(c: Col)
    ensures InvMixColumn(MixColumn(c)) == c
  {
    var m := MixColumn(c);
    var x0, x1, x2, x3 := XTime(c.a0), XTime(c.a1), XTime(c.a2), XTime(c.a3);
    UnmixedProduct(c.a0, c.a1, c.a2, c.a3, x0, x1, x2, x3, m.a0, m.a1, m.a2, m.a3,
                   GfMul(m.a0, 0x0e), GfMul(m.a1, 0x0b), GfMul(m.a2, 0x0d), GfMul(m.a3, 0x09));
    UnmixedProduct(c.a1, c.a2, c.a3, c.a0, x1, x2, x3, x0, m.a1, m.a2, m.a3, m.a0,
                   GfMul(m.a1, 0x0e), GfMul(m.a2, 0x0b), GfMul(m.a3, 0x0d), GfMul(m.a0, 0x09));
    UnmixedProduct(c.a2, c.a3, c.a0, c.a1, x2, x3, x0, x1, m.a2, m.a3, m.a0, m.a1,
                   GfMul(m.a2, 0x0e), GfMul(m.a3, 0x0b), GfMul(m.a0, 0x0d), GfMul(m.a1, 0x09));
    UnmixedProduct(c.a3, c.a0, c.a1, c.a2, x3, x0, x1, x2, m.a3, m.a0, m.a1, m.a2,
                   GfMul(m.a3, 0x0e), GfMul(m.a0, 0x0b), GfMul(m.a1, 0x0d), GfMul(m.a2, 0x09));
  }
}
