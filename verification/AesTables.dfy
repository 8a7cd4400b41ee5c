/** The two substitution tables of the block cipher. Each is held as sixteen rows of
    sixteen bytes; the first is the affine image of the inverse in GF(2^8), as section
    5.1.1 of FIPS 197 defines it, and the second undoes the first. */
module AesTables {
  import opened AesField

  /** Row `h` of the substitution table, column 0 in the top byte. */
  function SubRow(h: bv8): bv128 {
    if h < 8 then (
      if h < 4 then (
        if h < 2 then (
          if h < 1 then 0x637c777b_f26b6fc5_3001672b_fed7ab76 else 0xca82c97d_fa5947f0_add4a2af_9ca472c0
        ) else (
          if h < 3 then 0xb7fd9326_363ff7cc_34a5e5f1_71d83115 else 0x04c723c3_1896059a_071280e2_eb27b275
        )
      ) else (
        if h < 6 then (
          if h < 5 then 0x09832c1a_1b6e5aa0_523bd6b3_29e32f84 else 0x53d100ed_20fcb15b_6acbbe39_4a4c58cf
        ) else (
          if h < 7 then 0xd0efaafb_434d3385_45f9027f_503c9fa8 else 0x51a3408f_929d38f5_bcb6da21_10fff3d2
        )
      )
    ) else (
      if h < 12 then (
        if h < 10 then (
          if h < 9 then 0xcd0c13ec_5f974417_c4a77e3d_645d1973 else 0x60814fdc_222a9088_46eeb814_de5e0bdb
        ) else (
          if h < 11 then 0xe0323a0a_4906245c_c2d3ac62_9195e479 else 0xe7c8376d_8dd54ea9_6c56f4ea_657aae08
        )
      ) else (
        if h < 14 then (
          if h < 13 then 0xba78252e_1ca6b4c6_e8dd741f_4bbd8b8a else 0x703eb566_4803f60e_613557b9_86c11d9e
        ) else (
          if h < 15 then 0xe1f89811_69d98e94_9b1e87e9_ce5528df else 0x8ca1890d_bfe64268_41992d0f_b054bb16
        )
      )
    )
  }

  /** Row `h` of the inverse substitution table. */
  function InvSubRow(h: bv8): bv128 {
    if h < 8 then (
      if h < 4 then (
        if h < 2 then (
          if h < 1 then 0x52096ad5_3036a538_bf40a39e_81f3d7fb else 0x7ce33982_9b2fff87_348e4344_c4dee9cb
        ) else (
          if h < 3 then 0x547b9432_a6c2233d_ee4c950b_42fac34e else 0x082ea166_28d924b2_765ba249_6d8bd125
        )
      ) else (
        if h < 6 then (
          if h < 5 then 0x72f8f664_86689816_d4a45ccc_5d65b692 else 0x6c704850_fdedb9da_5e154657_a78d9d84
        ) else (
          if h < 7 then 0x90d8ab00_8cbcd30a_f7e45805_b8b34506 else 0xd02c1e8f_ca3f0f02_c1afbd03_01138a6b
        )
      )
    ) else (
      if h < 12 then (
        if h < 10 then (
          if h < 9 then 0x3a911141_4f67dcea_97f2cfce_f0b4e673 else 0x96ac7422_e7ad3585_e2f937e8_1c75df6e
        ) else (
          if h < 11 then 0x47f11a71_1d29c589_6fb7620e_aa18be1b else 0xfc563e4b_c6d27920_9adbc0fe_78cd5af4
        )
      ) else (
        if h < 14 then (
          if h < 13 then 0x1fdda833_8807c731_b1121059_2780ec5f else 0x60517fa9_19b54a0d_2de57a9f_93c99cef
        ) else (
          if h < 15 then 0xa0e03b4d_ae2af5b0_c8ebbb3c_83539961 else 0x172b047e_ba77d626_e1691463_55210c7d
        )
      )
    )
  }

  /** Byte `lo` of a row, counting from the top. */
  function Column(row: bv128, lo: bv8): bv8 {
    var r8 := if lo & 8 == 0 then row >> 64 else row;
    var r4 := if lo & 4 == 0 then r8 >> 32 else r8;
    var r2 := if lo & 2 == 0 then r4 >> 16 else r4;
    var r1 := if lo & 1 == 0 then r2 >> 8 else r2;
    (r1 & 0xFF) as bv8
  }

  function Sub(x: bv8): bv8 { Column(SubRow(x >> 4), x & 0x0F) }

  function InvSub(x: bv8): bv8 { Column(InvSubRow(x >> 4), x & 0x0F) }

  /** The two tables are inverse permutations. */
  lemma InvSubSub(x: bv8)
    ensures InvSub(Sub(x)) == x
  {
  }

  // ----- what the substitution is -----

  /** The affine map over GF(2), and the map that undoes it. */
  function Affine(y: bv8): bv8 {
    y ^ ((y << 1) | (y >> 7)) ^ ((y << 2) | (y >> 6)) ^ ((y << 3) | (y >> 5)) ^ ((y << 4) | (y >> 4)) ^ 0x63
  }

  function Unaffine(s: bv8): bv8 { ((s << 1) | (s >> 7)) ^ ((s << 3) | (s >> 5)) ^ ((s << 6) | (s >> 2)) ^ 0x05 }

  /** `a` times x to the fourth. */
  function TimesX4(a: bv8): bv8 { XTime(XTime(XTime(XTime(a)))) }

  /** Four steps of the multiplication at once. */
  function FourAdded(r: bv8, a: bv8, b: bv8): bv8 {
    var x := XTime(a);
    var y := XTime(x);
    Added(Added(Added(Added(r, a, b), x, b >> 1), y, b >> 1 >> 1), XTime(y), b >> 1 >> 1 >> 1)
  }

  lemma FourMore(r: bv8, a: bv8, b: bv8, n: nat)
    requires n >= 4
    ensures MulAdd(r, a, b, n) == MulAdd(FourAdded(r, a, b), TimesX4(a), b >> 1 >> 1 >> 1 >> 1, n - 4)
  {
    var x := XTime(a);
    var y := XTime(x);
    var r1 := Added(r, a, b);
    var r2 := Added(r1, x, b >> 1);
    var r3 := Added(r2, y, b >> 1 >> 1);
    assert MulAdd(r, a, b, n) == MulAdd(r1, x, b >> 1, n - 1);
    assert MulAdd(r1, x, b >> 1, n - 1) == MulAdd(r2, y, b >> 1 >> 1, n - 2);
    assert MulAdd(r2, y, b >> 1 >> 1, n - 2) == MulAdd(r3, XTime(y), b >> 1 >> 1 >> 1, n - 3);
  }

  function Product(a: bv8, b: bv8): bv8 {
    FourAdded(FourAdded(0, a, b), TimesX4(a), b >> 1 >> 1 >> 1 >> 1)
  }

  lemma ProductIsMul(a: bv8, b: bv8)
    ensures GfMul(a, b) == Product(a, b)
  {
    FourMore(0, a, b, 8);
    FourMore(FourAdded(0, a, b), TimesX4(a), b >> 1 >> 1 >> 1 >> 1, 4);
  }

  lemma UnitProduct(x: bv8)
    ensures Product(x, Unaffine(Sub(x))) == if x == 0 then 0 else 1
  {
  }

  lemma AffineBack(x: bv8)
    ensures Affine(Unaffine(Sub(x))) == Sub(x)
  {
  }

  /** Every substituted byte is the affine image of the multiplicative inverse of the
      byte, 0 counting as its own inverse. */
  lemma SubIsFieldInverse(x: bv8)
    ensures exists y :: Sub(x) == Affine(y) && (if x == 0 then y == 0 else GfMul(x, y) == 1)
  {
    var y := Unaffine(Sub(x));
    AffineBack(x);
    UnitProduct(x);
    ProductIsMul(x, y);
    if x == 0 {
      ZeroMaps();
    }
  }

  lemma ZeroMaps()
    ensures Unaffine(Sub(0)) == 0
  {
  }

  lemma SubInvSub(x: bv8)
    ensures Sub(InvSub(x)) == x
  {
  }
}
