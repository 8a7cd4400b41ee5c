/** The block routines as they run: one sixteen-byte state, rewritten in place. Each is
    proved against the transformation of AesCipher that it performs. */
module AesBlocks {
  import opened AesField
  import opened AesTables
  import opened AesCipher
  import AesRounds

  method AddRoundKey(s: array<bv8>, rk: seq<bv32>, r: nat)
    requires s.Length == 16 && 4 * r + 4 <= |rk|
    modifies s
    ensures s[..] == AddKey(old(s[..]), rk, r)
  {
    ghost var was := s[..];
    for i := 0 to 16
      invariant forall k :: 0 <= k < i ==> s[k] == AddKey(was, rk, r)[k]
      invariant forall k :: i <= k < 16 ==> s[k] == was[k]
    {
      s[i] := s[i] ^ KeyByte(rk[4 * r + i / 4], i % 4);
    }
  }

  method SubstituteBytes(s: array<bv8>)
    requires s.Length == 16
    modifies s
    ensures s[..] == SubBytes(old(s[..]))
  {
    ghost var was := s[..];
    for i := 0 to 16
      invariant forall k :: 0 <= k < i ==> s[k] == SubBytes(was)[k]
      invariant forall k :: i <= k < 16 ==> s[k] == was[k]
    {
      s[i] := Sub(s[i]);
    }
  }

  method InvSubstituteBytes(s: array<bv8>)
    requires s.Length == 16
    modifies s
    ensures s[..] == InvSubBytes(old(s[..]))
  {
    ghost var was := s[..];
    for i := 0 to 16
      invariant forall k :: 0 <= k < i ==> s[k] == InvSubBytes(was)[k]
      invariant forall k :: i <= k < 16 ==> s[k] == was[k]
    {
      s[i] := InvSub(s[i]);
    }
  }

  /** Row 1, and then rows 2 and 3, of the row shift, with one temporary. */
  method ShiftRow1(s: array<bv8>)
    requires s.Length == 16
    modifies s
    ensures Moved4(old(s[..]), s[..], 1, 5, 9, 13)
  {
    var t := s[1];
    s[1] := s[5]; s[5] := s[9]; s[9] := s[13]; s[13] := t;
  }

  method ShiftRow2(s: array<bv8>)
    requires s.Length == 16
    modifies s
    ensures Swapped(old(s[..]), s[..])
  {
    var t := s[2]; s[2] := s[10]; s[10] := t;
    t := s[6]; s[6] := s[14]; s[14] := t;
  }

  method ShiftRow3(s: array<bv8>)
    requires s.Length == 16
    modifies s
    ensures Moved4(old(s[..]), s[..], 15, 11, 7, 3)
  {
    var t := s[15]; s[15] := s[11]; s[11] := s[7]; s[7] := s[3]; s[3] := t;
  }

  /** Place `a` takes what was at `b`, and so on around; nothing else moves. */
  ghost predicate Moved4(s: seq<bv8>, t: seq<bv8>, a: nat, b: nat, c: nat, d: nat)
    requires |s| == |t| == 16 && a < 16 && b < 16 && c < 16 && d < 16
  {
    t[a] == s[b] && t[b] == s[c] && t[c] == s[d] && t[d] == s[a]
    && forall k :: 0 <= k < 16 && k != a && k != b && k != c && k != d ==> t[k] == s[k]
  }

  ghost predicate Swapped(s: seq<bv8>, t: seq<bv8>)
    requires |s| == |t| == 16
  {
    t[2] == s[10] && t[10] == s[2] && t[6] == s[14] && t[14] == s[6]
    && forall k :: 0 <= k < 16 && k % 4 != 2 ==> t[k] == s[k]
  }

  lemma RowsShifted(s: Block, s1: Block, s2: Block, t: Block)
    requires Moved4(s, s1, 1, 5, 9, 13) && Swapped(s1, s2) && Moved4(s2, t, 15, 11, 7, 3)
    ensures t == ShiftRows(s)
  {
    FourColumns(t, Col(s[0], s[5], s[10], s[15]), Col(s[4], s[9], s[14], s[3]),
                Col(s[8], s[13], s[2], s[7]), Col(s[12], s[1], s[6], s[11]));
  }

  lemma RowsUnshifted(s: Block, s1: Block, s2: Block, t: Block)
    requires Moved4(s, s1, 13, 9, 5, 1) && Swapped(s1, s2) && Moved4(s2, t, 3, 7, 11, 15)
    ensures t == InvShiftRows(s)
  {
    FourColumns(t, Col(s[0], s[13], s[10], s[7]), Col(s[4], s[1], s[14], s[11]),
                Col(s[8], s[5], s[2], s[15]), Col(s[12], s[9], s[6], s[3]));
  }

  method ShiftInPlace(s: array<bv8>)
    requires s.Length == 16
    modifies s
    ensures s[..] == ShiftRows(old(s[..]))
  {
    ghost var was := s[..];
    ShiftRow1(s);
    ghost var s1 := s[..];
    ShiftRow2(s);
    ghost var s2 := s[..];
    ShiftRow3(s);
    RowsShifted(was, s1, s2, s[..]);
  }

  method UnshiftRow1(s: array<bv8>)
    requires s.Length == 16
    modifies s
    ensures Moved4(old(s[..]), s[..], 13, 9, 5, 1)
  {
    var t := s[13]; s[13] := s[9]; s[9] := s[5]; s[5] := s[1]; s[1] := t;
  }

  method UnshiftRow3(s: array<bv8>)
    requires s.Length == 16
    modifies s
    ensures Moved4(old(s[..]), s[..], 3, 7, 11, 15)
  {
    var t := s[3]; s[3] := s[7]; s[7] := s[11]; s[11] := s[15]; s[15] := t;
  }

  method InvShiftInPlace(s: array<bv8>)
    requires s.Length == 16
    modifies s
    ensures s[..] == InvShiftRows(old(s[..]))
  {
    ghost var was := s[..];
    UnshiftRow1(s);
    ghost var s1 := s[..];
    ShiftRow2(s);
    ghost var s2 := s[..];
    UnshiftRow3(s);
    RowsUnshifted(was, s1, s2, s[..]);
  }

  // ----- columns -----

  /** The sums for bytes 1, 2 and 3 of a column, in the order they are written. */
  function MixSum1(a0: bv8, x1: bv8, x2: bv8, a2: bv8, a3: bv8): (r: bv8)
    ensures r == MixByte(x1, x2, a2, a3, a0)
  {
    a0 ^ x1 ^ x2 ^ a2 ^ a3
  }

  function MixSum2(a0: bv8, a1: bv8, x2: bv8, x3: bv8, a3: bv8): (r: bv8)
    ensures r == MixByte(x2, x3, a3, a0, a1)
  {
    a0 ^ a1 ^ x2 ^ x3 ^ a3
  }

  function MixSum3(x0: bv8, a0: bv8, a1: bv8, a2: bv8, x3: bv8): (r: bv8)
    ensures r == MixByte(x3, x0, a0, a1, a2)
  {
    x0 ^ a0 ^ a1 ^ a2 ^ x3
  }

  function InvMixSum1(n: bv8, e: bv8, b: bv8, d: bv8): (r: bv8)
    ensures r == InvMixByte(e, b, d, n)
  {
    n ^ e ^ b ^ d
  }

  function InvMixSum2(d: bv8, n: bv8, e: bv8, b: bv8): (r: bv8)
    ensures r == InvMixByte(e, b, d, n)
  {
    d ^ n ^ e ^ b
  }

  function InvMixSum3(b: bv8, d: bv8, n: bv8, e: bv8): (r: bv8)
    ensures r == InvMixByte(e, b, d, n)
  {
    b ^ d ^ n ^ e
  }

  method MixOne(a0: bv8, a1: bv8, a2: bv8, a3: bv8) returns (c: Col)
    ensures c == MixColumn(Col(a0, a1, a2, a3))
  {
    var x0, x1, x2, x3 := XTime(a0), XTime(a1), XTime(a2), XTime(a3);
    c := Col(MixByte(x0, x1, a1, a2, a3), MixSum1(a0, x1, x2, a2, a3), MixSum2(a0, a1, x2, x3, a3),
             MixSum3(x0, a0, a1, a2, x3));
  }

  method InvMixOne(a0: bv8, a1: bv8, a2: bv8, a3: bv8) returns (c: Col)
    ensures c == InvMixColumn(Col(a0, a1, a2, a3))
  {
    var e0 := Mul(a0, 0x0e); var b0 := Mul(a1, 0x0b); var d0 := Mul(a2, 0x0d); var n0 := Mul(a3, 0x09);
    var n1 := Mul(a0, 0x09); var e1 := Mul(a1, 0x0e); var b1 := Mul(a2, 0x0b); var d1 := Mul(a3, 0x0d);
    var d2 := Mul(a0, 0x0d); var n2 := Mul(a1, 0x09); var e2 := Mul(a2, 0x0e); var b2 := Mul(a3, 0x0b);
    var b3 := Mul(a0, 0x0b); var d3 := Mul(a1, 0x0d); var n3 := Mul(a2, 0x09); var e3 := Mul(a3, 0x0e);
    c := Col(InvMixByte(e0, b0, d0, n0), InvMixSum1(n1, e1, b1, d1), InvMixSum2(d2, n2, e2, b2),
             InvMixSum3(b3, d3, n3, e3));
  }

  /** Bytes 4k to 4k + 3 hold column `c`. */
  ghost predicate Holds(s: seq<bv8>, k: nat, c: Col)
    requires |s| == 16 && k < 4
  {
    s[4 * k] == c.a0 && s[4 * k + 1] == c.a1 && s[4 * k + 2] == c.a2 && s[4 * k + 3] == c.a3
  }

  lemma FourColumns(s: Block, c0: Col, c1: Col, c2: Col, c3: Col)
    requires Holds(s, 0, c0) && Holds(s, 1, c1) && Holds(s, 2, c2) && Holds(s, 3, c3)
    ensures s == Flat(c0, c1, c2, c3)
  {
  }

  /** Column `k` is what `f` makes of the column that was there. */
  ghost predicate Applied(f: Col -> Col, was: Block, s: Block, k: nat)
    requires k < 4
  {
    Holds(s, k, f(ColumnAt(was, 4 * k)))
  }

  lemma AllApplied(f: Col -> Col, was: Block, s: Block)
    requires forall k: nat :: k < 4 ==> Applied(f, was, s, k)
    ensures s == Flat(f(ColumnAt(was, 0)), f(ColumnAt(was, 4)), f(ColumnAt(was, 8)), f(ColumnAt(was, 12)))
  {
    assert Applied(f, was, s, 0) && Applied(f, was, s, 1) && Applied(f, was, s, 2) && Applied(f, was, s, 3);
    FourColumns(s, f(ColumnAt(was, 0)), f(ColumnAt(was, 4)), f(ColumnAt(was, 8)), f(ColumnAt(was, 12)));
  }

  lemma KeepApplied(f: Col -> Col, was: Block, s: Block, t: Block, c: nat)
    requires c < 4 && forall k: nat :: k < c ==> Applied(f, was, s, k)
    requires forall i :: 0 <= i < 4 * c ==> t[i] == s[i]
    ensures forall k: nat :: k < c ==> Applied(f, was, t, k)
  {
    forall k: nat | k < c
      ensures Applied(f, was, t, k)
    {
      assert Applied(f, was, s, k);
    }
  }

  method StoreColumn(s: array<bv8>, k: nat, c: Col)
    requires s.Length == 16 && k < 4
    modifies s
    ensures Holds(s[..], k, c)
    ensures forall i :: 0 <= i < 16 && !(4 * k <= i < 4 * k + 4) ==> s[i] == old(s[i])
  {
    var j := k * 4;
    s[j] := c.a0; s[j + 1] := c.a1; s[j + 2] := c.a2; s[j + 3] := c.a3;
  }

  ghost predicate IsMix(f: Col -> Col) { forall c {:trigger MixColumn(c)} :: f(c) == MixColumn(c) }

  ghost predicate IsInvMix(f: Col -> Col) { forall c {:trigger InvMixColumn(c)} :: f(c) == InvMixColumn(c) }

  /** Mix column `k`, which nothing has touched yet. */
  method MixAt(s: array<bv8>, k: nat, ghost was: Block, ghost f: Col -> Col)
    requires s.Length == 16 && k < 4 && IsMix(f) && forall i :: 4 * k <= i < 16 ==> s[i] == was[i]
    modifies s
    ensures Applied(f, was, s[..], k)
    ensures forall i :: 0 <= i < 16 && !(4 * k <= i < 4 * k + 4) ==> s[i] == old(s[i])
  {
    var j := k * 4;
    var mixed := MixOne(s[j], s[j + 1], s[j + 2], s[j + 3]);
    StoreColumn(s, k, mixed);
  }

  method InvMixAt(s: array<bv8>, k: nat, ghost was: Block, ghost f: Col -> Col)
    requires s.Length == 16 && k < 4 && IsInvMix(f) && forall i :: 4 * k <= i < 16 ==> s[i] == was[i]
    modifies s
    ensures Applied(f, was, s[..], k)
    ensures forall i :: 0 <= i < 16 && !(4 * k <= i < 4 * k + 4) ==> s[i] == old(s[i])
  {
    var j := k * 4;
    var mixed := InvMixOne(s[j], s[j + 1], s[j + 2], s[j + 3]);
    StoreColumn(s, k, mixed);
  }

  /** The loop over the four columns, mixing or unmixing. */
  method EachColumn(s: array<bv8>, inverse: bool, ghost f: Col -> Col)
    requires s.Length == 16 && if inverse then IsInvMix(f) else IsMix(f)
    modifies s
    ensures var was: Block := old(s[..]);
      s[..] == Flat(f(ColumnAt(was, 0)), f(ColumnAt(was, 4)), f(ColumnAt(was, 8)), f(ColumnAt(was, 12)))
  {
    ghost var was := s[..];
    for c := 0 to 4
      invariant forall k: nat :: k < c ==> Applied(f, was, s[..], k)
      invariant forall i :: 4 * c <= i < 16 ==> s[i] == was[i]
    {
      ghost var before := s[..];
      if inverse {
        InvMixAt(s, c, was, f);
      } else {
        MixAt(s, c, was, f);
      }
      KeepApplied(f, was, before, s[..], c);
    }
    AllApplied(f, was, s[..]);
  }

  method MixInPlace(s: array<bv8>)
    requires s.Length == 16
    modifies s
    ensures s[..] == MixColumns(old(s[..]))
  {
    EachColumn(s, false, MixColumn);
  }

  method InvMixInPlace(s: array<bv8>)
    requires s.Length == 16
    modifies s
    ensures s[..] == InvMixColumns(old(s[..]))
  {
    EachColumn(s, true, InvMixColumn);
  }

  // ----- whole blocks -----

  method CopyBlock(input: Block) returns (s: array<bv8>)
    ensures fresh(s) && s.Length == 16 && s[..] == input
  {
    s := new bv8[16](i requires 0 <= i < 16 => input[i]);
  }

  method EncryptState(s: array<bv8>, rk: seq<bv32>, nr: nat)
    requires s.Length == 16 && ScheduleFor(rk, nr)
    modifies s
    ensures s[..] == Cipher(old(s[..]), rk, nr)
  {
    ghost var input := s[..];
    AddRoundKey(s, rk, 0);
    for done := 0 to nr
      invariant s[..] == AfterRound(input, rk, nr, done)
    {
      var round := done + 1;
      SubstituteBytes(s);
      ShiftInPlace(s);
      if round < nr { MixInPlace(s); }
      AddRoundKey(s, rk, round);
    }
  }

  method DecryptState(s: array<bv8>, rk: seq<bv32>, nr: nat)
    requires s.Length == 16 && ScheduleFor(rk, nr)
    modifies s
    ensures s[..] == InvCipher(old(s[..]), rk, nr)
  {
    ghost var input := s[..];
    AddRoundKey(s, rk, nr);
    for round := nr downto 0
      invariant s[..] == BackTo(input, rk, nr, round)
    {
      InvShiftInPlace(s);
      InvSubstituteBytes(s);
      AddRoundKey(s, rk, round);
      if round > 0 { InvMixInPlace(s); }
    }
  }

  /** The cipher of a block. Its states are those that the rounds, byte by byte, lead through. */
  method EncryptBlock(input: Block, rk: seq<bv32>, nr: nat) returns (output: Block, ghost states: seq<Block>)
    requires ScheduleFor(rk, nr)
    ensures output == Cipher(input, rk, nr)
    ensures InvCipher(output, rk, nr) == input
    ensures AesRounds.Encrypts(states, input, rk, nr) && output == states[nr]
  {
    var s := CopyBlock(input);
    EncryptState(s, rk, nr);
    output := s[..];
    DecryptsWhatItEncrypts(input, rk, nr);
    states := AesRounds.CipherByBytes(input, rk, nr);
  }

  method DecryptBlock(input: Block, rk: seq<bv32>, nr: nat)
    returns (output: Block, ghost states: seq<Block>, ghost keyed: seq<Block>)
    requires ScheduleFor(rk, nr)
    ensures output == InvCipher(input, rk, nr)
    ensures AesRounds.Decrypts(states, keyed, input, rk, nr) && output == states[0]
    ensures forall plain: Block :: input == Cipher(plain, rk, nr) ==> output == plain
  {
    var s := CopyBlock(input);
    DecryptState(s, rk, nr);
    output := s[..];
    states, keyed := AesRounds.InvCipherByBytes(input, rk, nr);
    forall plain: Block | input == Cipher(plain, rk, nr)
      ensures output == plain
    {
      DecryptsWhatItEncrypts(plain, rk, nr);
    }
  }
}
