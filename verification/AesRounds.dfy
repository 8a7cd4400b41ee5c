/** The cipher and its inverse byte by byte, as the figures of FIPS 197 draw them: which four bytes
    of the state go into a byte of the next one, with which factors, and which byte of the key. */
module AesRounds {
  import opened GuestMemory
  import opened AesField
  import opened AesTables
  import opened AesCipher

  /** Byte `i` of a word of the key schedule, the top one first, as a number. */
  ghost function KeyNumber(w: bv32, i: nat): nat
    requires i < 4
  {
    if i == 0 then w as nat / 0x100_0000
    else if i == 1 then (w as nat / 0x1_0000) % 256
    else if i == 2 then (w as nat / 0x100) % 256
    else w as nat % 256
  }

  /** `t` and `b` differ by byte `i` of the key word. */
  ghost predicate Keyed(t: bv8, b: bv8, w: bv32, i: nat)
    requires i < 4
  {
    (t ^ b) as nat == KeyNumber(w, i)
  }

  /** Column `c` of `t` is this column with the key word added. */
  ghost predicate KeyedColumn(t: Block, c: nat, b0: bv8, b1: bv8, b2: bv8, b3: bv8, w: bv32)
    requires c < 4
  {
    Keyed(t[4 * c], b0, w, 0) && Keyed(t[4 * c + 1], b1, w, 1) && Keyed(t[4 * c + 2], b2, w, 2)
    && Keyed(t[4 * c + 3], b3, w, 3)
  }

  /** The start: only the key is added. */
  ghost predicate FirstColumn(s: Block, t: Block, rk: seq<bv32>, r: nat, c: nat)
    requires 4 * r + 4 <= |rk| && c < 4
  {
    KeyedColumn(t, c, s[4 * c], s[4 * c + 1], s[4 * c + 2], s[4 * c + 3], rk[4 * r + c])
  }

  /** The byte that comes to row `i` of column `c` when row `i` moves `i` places to the left, substituted. */
  ghost function Moved(s: Block, c: nat, i: nat): bv8 { Sub(s[(4 * c + 5 * i) % 16]) }

  /** The same for `i` places to the right and the inverse table. */
  ghost function MovedBack(s: Block, c: nat, i: nat): bv8 { InvSub(s[(4 * c + 13 * i) % 16]) }

  /** A byte of a mixed column, section 5.1.3 of FIPS 197. */
  ghost function Mixture(a: bv8, b: bv8, c: bv8, d: bv8): bv8 { Sum(GfMul(a, 2), GfMul(b, 3), c, d) }

  ghost function Sum(p: bv8, q: bv8, r: bv8, s: bv8): bv8 { p ^ q ^ r ^ s }

  ghost predicate Sums(a0: bv8, a1: bv8, a2: bv8, a3: bv8, b0: bv8, b1: bv8, b2: bv8, b3: bv8) {
    b0 == Mixture(a0, a1, a2, a3) && b1 == Mixture(a1, a2, a3, a0) && b2 == Mixture(a2, a3, a0, a1)
    && b3 == Mixture(a3, a0, a1, a2)
  }

  /** A round: moved and substituted, mixed with the factors 2, 3, 1 and 1, and keyed. */
  ghost predicate MixedColumn(s: Block, t: Block, rk: seq<bv32>, r: nat, c: nat)
    requires 4 * r + 4 <= |rk| && c < 4
  {
    var a0, a1, a2, a3 := Moved(s, c, 0), Moved(s, c, 1), Moved(s, c, 2), Moved(s, c, 3);
    KeyedColumn(t, c, Mixture(a0, a1, a2, a3), Mixture(a1, a2, a3, a0), Mixture(a2, a3, a0, a1),
                Mixture(a3, a0, a1, a2), rk[4 * r + c])
  }

  /** The last round does not mix. */
  ghost predicate LastColumn(s: Block, t: Block, rk: seq<bv32>, r: nat, c: nat)
    requires 4 * r + 4 <= |rk| && c < 4
  {
    KeyedColumn(t, c, Moved(s, c, 0), Moved(s, c, 1), Moved(s, c, 2), Moved(s, c, 3), rk[4 * r + c])
  }

  /** A round of the inverse cipher as far as the key. */
  ghost predicate BackColumn(s: Block, v: Block, rk: seq<bv32>, r: nat, c: nat)
    requires 4 * r + 4 <= |rk| && c < 4
  {
    KeyedColumn(v, c, MovedBack(s, c, 0), MovedBack(s, c, 1), MovedBack(s, c, 2), MovedBack(s, c, 3), rk[4 * r + c])
  }

  /** Its mix, with the factors 14, 11, 13 and 9. */
  ghost predicate UnmixedColumn(v: Block, t: Block, c: nat)
    requires c < 4
  {
    var a0, a1, a2, a3 := v[4 * c], v[4 * c + 1], v[4 * c + 2], v[4 * c + 3];
    && t[4 * c] == GfMul(a0, 14) ^ GfMul(a1, 11) ^ GfMul(a2, 13) ^ GfMul(a3, 9)
    && t[4 * c + 1] == GfMul(a1, 14) ^ GfMul(a2, 11) ^ GfMul(a3, 13) ^ GfMul(a0, 9)
    && t[4 * c + 2] == GfMul(a2, 14) ^ GfMul(a3, 11) ^ GfMul(a0, 13) ^ GfMul(a1, 9)
    && t[4 * c + 3] == GfMul(a3, 14) ^ GfMul(a0, 11) ^ GfMul(a1, 13) ^ GfMul(a2, 9)
  }

  ghost predicate FirstRound(s: Block, t: Block, rk: seq<bv32>, r: nat)
    requires 4 * r + 4 <= |rk|
  {
    forall c: nat :: c < 4 ==> FirstColumn(s, t, rk, r, c)
  }

  ghost predicate Round(s: Block, t: Block, rk: seq<bv32>, r: nat, last: bool)
    requires 4 * r + 4 <= |rk|
  {
    forall c: nat :: c < 4 ==> if last then LastColumn(s, t, rk, r, c) else MixedColumn(s, t, rk, r, c)
  }

  ghost predicate RoundBack(s: Block, v: Block, t: Block, rk: seq<bv32>, r: nat)
    requires 4 * r + 4 <= |rk|
  {
    && (forall c: nat :: c < 4 ==> BackColumn(s, v, rk, r, c))
    && (if r > 0 then forall c: nat :: c < 4 ==> UnmixedColumn(v, t, c) else t == v)
  }

  /** The states an encryption goes through, from the block with the first key to the result. */
  ghost predicate Encrypts(states: seq<Block>, input: Block, rk: seq<bv32>, nr: nat) {
    && ScheduleFor(rk, nr) && |states| == nr + 1
    && FirstRound(input, states[0], rk, 0)
    && forall r: nat :: r < nr ==> Round(states[r], states[r + 1], rk, r + 1, r + 1 == nr)
  }

  /** The states a decryption goes through, from the result back to the block with the last key, and
      those between key and mix. */
  ghost predicate Decrypts(states: seq<Block>, keyed: seq<Block>, input: Block, rk: seq<bv32>, nr: nat) {
    && ScheduleFor(rk, nr) && |states| == nr + 1 && |keyed| == nr
    && FirstRound(input, states[nr], rk, nr)
    && forall r: nat :: r < nr ==> RoundBack(states[r + 1], keyed[r], states[r], rk, r)
  }

  // ----- keys -----

  lemma FromTop(w: bv32, i: nat)
    requires i < 4
    ensures KeyByte(w, i) == ByteOf(w, 3 - i)
  {
    if i == 0 {
    } else if i == 1 {
    } else if i == 2 {
    } else {
    }
  }

  lemma KeyByteIs(w: bv32, i: nat)
    requires i < 4
    ensures KeyByte(w, i) as nat == KeyNumber(w, i)
  {
    BytesAreDigits(w);
    FromTop(w, i);
  }

  lemma XorDiffers(b: bv8, k: bv8)
    ensures (b ^ k) ^ b == k
  {
  }

  lemma KeyedByte(s: Block, t: Block, rk: seq<bv32>, r: nat, c: nat, i: nat)
    requires 4 * r + 4 <= |rk| && t == AddKey(s, rk, r) && c < 4 && i < 4
    ensures Keyed(t[4 * c + i], s[4 * c + i], rk[4 * r + c], i)
  {
    var j, k := 4 * c + i, KeyByte(rk[4 * r + c], i);
    assert j / 4 == c && j % 4 == i;
    KeyByteIs(rk[4 * r + c], i);
    XorDiffers(s[j], k);
  }

  /** The key is added to every column. */
  lemma AddsKey(s: Block, t: Block, rk: seq<bv32>, r: nat, c: nat)
    requires 4 * r + 4 <= |rk| && t == AddKey(s, rk, r) && c < 4
    ensures FirstColumn(s, t, rk, r, c)
  {
    KeyedByte(s, t, rk, r, c, 0);
    KeyedByte(s, t, rk, r, c, 1);
    KeyedByte(s, t, rk, r, c, 2);
    KeyedByte(s, t, rk, r, c, 3);
  }

  // ----- rows and columns -----

  lemma RowsMove(x: Block, c: nat, i: nat)
    requires c < 4 && i < 4
    ensures ShiftRows(x)[4 * c + i] == x[(4 * c + 5 * i) % 16] && InvShiftRows(x)[4 * c + i] == x[(4 * c + 13 * i) % 16]
  {
    assert c == 0 || c == 1 || c == 2 || c == 3;
    assert i == 0 || i == 1 || i == 2 || i == 3;
  }

  lemma SubAt(s: Block, k: nat, x: Block, y: Block)
    requires k < 16 && x == SubBytes(s) && y == InvSubBytes(s)
    ensures x[k] == Sub(s[k]) && y[k] == InvSub(s[k])
  {
  }

  lemma ShiftedByte(s: Block, c: nat, i: nat, u: Block)
    requires c < 4 && i < 4 && u == ShiftRows(SubBytes(s))
    ensures u[4 * c + i] == Moved(s, c, i)
  {
    RowsMove(SubBytes(s), c, i);
    SubAt(s, (4 * c + 5 * i) % 16, SubBytes(s), InvSubBytes(s));
  }

  lemma UnshiftedByte(s: Block, c: nat, i: nat, u: Block)
    requires c < 4 && i < 4 && u == InvSubBytes(InvShiftRows(s))
    ensures u[4 * c + i] == MovedBack(s, c, i)
  {
    RowsMove(s, c, i);
    var x := InvShiftRows(s);
    SubAt(x, 4 * c + i, SubBytes(x), InvSubBytes(x));
  }

  /** A state put together from four columns. */
  lemma FlatAt(f: Col -> Col, s: Block, t: Block, c: nat)
    requires t == Flat(f(ColumnAt(s, 0)), f(ColumnAt(s, 4)), f(ColumnAt(s, 8)), f(ColumnAt(s, 12))) && c < 4
    ensures ColumnAt(t, 4 * c) == f(ColumnAt(s, 4 * c))
  {
    assert c == 0 || c == 1 || c == 2 || c == 3;
  }

  lemma MixtureOf(a: bv8, b: bv8, c: bv8, d: bv8, p: bv8, q: bv8)
    requires p == GfMul(a, 2) && q == GfMul(b, 3)
    ensures Sum(p, q, c, d) == Mixture(a, b, c, d)
  {
  }

  lemma MixtureIs(a: bv8, b: bv8, c: bv8, d: bv8, x: bv8, y: bv8)
    requires x == XTime(a) && y == XTime(b)
    ensures MixByte(x, y, b, c, d) == Mixture(a, b, c, d)
  {
    var p, q := GfMul(a, 2), GfMul(b, 3);
    MixByteIs(a, b, c, d, x, y, p, q);
    MixtureOf(a, b, c, d, p, q);
  }

  lemma UnmixedBytes(a0: bv8, a1: bv8, a2: bv8, a3: bv8, m: Col)
    requires m == InvMixColumn(Col(a0, a1, a2, a3))
    ensures m.a0 == GfMul(a0, 14) ^ GfMul(a1, 11) ^ GfMul(a2, 13) ^ GfMul(a3, 9)
    ensures m.a1 == GfMul(a1, 14) ^ GfMul(a2, 11) ^ GfMul(a3, 13) ^ GfMul(a0, 9)
    ensures m.a2 == GfMul(a2, 14) ^ GfMul(a3, 11) ^ GfMul(a0, 13) ^ GfMul(a1, 9)
    ensures m.a3 == GfMul(a3, 14) ^ GfMul(a0, 11) ^ GfMul(a1, 13) ^ GfMul(a2, 9)
  {
  }

  // ----- rounds -----

  lemma ColumnMixed(u: Block, m: Block, c: nat)
    requires c < 4 && m == MixColumns(u)
    ensures ColumnAt(m, 4 * c) == MixColumn(ColumnAt(u, 4 * c))
  {
    FlatAt(MixColumn, u, m, c);
  }

  lemma ColumnSums(a0: bv8, a1: bv8, a2: bv8, a3: bv8, m: Col)
    requires m == MixColumn(Col(a0, a1, a2, a3))
    ensures Sums(a0, a1, a2, a3, m.a0, m.a1, m.a2, m.a3)
  {
    var x0, x1, x2, x3 := XTime(a0), XTime(a1), XTime(a2), XTime(a3);
    MixtureIs(a0, a1, a2, a3, x0, x1);
    MixtureIs(a1, a2, a3, a0, x1, x2);
    MixtureIs(a2, a3, a0, a1, x2, x3);
    MixtureIs(a3, a0, a1, a2, x3, x0);
  }

  lemma MixedBlock(u: Block, m: Block, c: nat)
    requires c < 4 && m == MixColumns(u)
    ensures Sums(u[4 * c], u[4 * c + 1], u[4 * c + 2], u[4 * c + 3], m[4 * c], m[4 * c + 1], m[4 * c + 2], m[4 * c + 3])
  {
    ColumnMixed(u, m, c);
    ColumnSums(u[4 * c], u[4 * c + 1], u[4 * c + 2], u[4 * c + 3], ColumnAt(m, 4 * c));
  }

  lemma UnmixedBlock(v: Block, t: Block, c: nat)
    requires c < 4 && t == InvMixColumns(v)
    ensures UnmixedColumn(v, t, c)
  {
    FlatAt(InvMixColumn, v, t, c);
    UnmixedBytes(v[4 * c], v[4 * c + 1], v[4 * c + 2], v[4 * c + 3], ColumnAt(t, 4 * c));
  }

  lemma AllMoved(s: Block, u: Block, c: nat)
    requires c < 4 && u == ShiftRows(SubBytes(s))
    ensures u[4 * c] == Moved(s, c, 0) && u[4 * c + 1] == Moved(s, c, 1) && u[4 * c + 2] == Moved(s, c, 2)
    ensures u[4 * c + 3] == Moved(s, c, 3)
  {
    ShiftedByte(s, c, 0, u);
    ShiftedByte(s, c, 1, u);
    ShiftedByte(s, c, 2, u);
    ShiftedByte(s, c, 3, u);
  }

  lemma AllMovedBack(s: Block, u: Block, c: nat)
    requires c < 4 && u == InvSubBytes(InvShiftRows(s))
    ensures u[4 * c] == MovedBack(s, c, 0) && u[4 * c + 1] == MovedBack(s, c, 1) && u[4 * c + 2] == MovedBack(s, c, 2)
    ensures u[4 * c + 3] == MovedBack(s, c, 3)
  {
    UnshiftedByte(s, c, 0, u);
    UnshiftedByte(s, c, 1, u);
    UnshiftedByte(s, c, 2, u);
    UnshiftedByte(s, c, 3, u);
  }

  /** Keyed with bytes that are known by another name. */
  lemma Renamed(m: Block, t: Block, rk: seq<bv32>, r: nat, c: nat, b0: bv8, b1: bv8, b2: bv8, b3: bv8)
    requires 4 * r + 4 <= |rk| && t == AddKey(m, rk, r) && c < 4
    requires m[4 * c] == b0 && m[4 * c + 1] == b1 && m[4 * c + 2] == b2 && m[4 * c + 3] == b3
    ensures KeyedColumn(t, c, b0, b1, b2, b3, rk[4 * r + c])
  {
    AddsKey(m, t, rk, r, c);
  }

  lemma MixedSums(s: Block, u: Block, m: Block, c: nat)
    requires c < 4 && u == ShiftRows(SubBytes(s)) && m == MixColumns(u)
    ensures Sums(Moved(s, c, 0), Moved(s, c, 1), Moved(s, c, 2), Moved(s, c, 3), m[4 * c], m[4 * c + 1], m[4 * c + 2],
                 m[4 * c + 3])
  {
    AllMoved(s, u, c);
    MixedBlock(u, m, c);
  }

  lemma OneRound(s: Block, t: Block, rk: seq<bv32>, nr: nat, r: nat, c: nat)
    requires 0 < r <= nr && ScheduleFor(rk, nr) && t == RoundOf(s, rk, nr, r) && c < 4
    ensures if r == nr then LastColumn(s, t, rk, r, c) else MixedColumn(s, t, rk, r, c)
  {
    var u := ShiftRows(SubBytes(s));
    var a0, a1, a2, a3 := Moved(s, c, 0), Moved(s, c, 1), Moved(s, c, 2), Moved(s, c, 3);
    if r == nr {
      AllMoved(s, u, c);
      Renamed(u, t, rk, r, c, a0, a1, a2, a3);
    } else {
      MixedSums(s, u, MixColumns(u), c);
      AddsKey(MixColumns(u), t, rk, r, c);
    }
  }

  lemma OneBack(s: Block, v: Block, t: Block, rk: seq<bv32>, nr: nat, r: nat, c: nat)
    requires r < nr && ScheduleFor(rk, nr) && c < 4
    requires v == AddKey(InvSubBytes(InvShiftRows(s)), rk, r) && t == InvRoundOf(s, rk, nr, r)
    ensures BackColumn(s, v, rk, r, c) && (r > 0 ==> UnmixedColumn(v, t, c)) && (r == 0 ==> t == v)
  {
    var u := InvSubBytes(InvShiftRows(s));
    AllMovedBack(s, u, c);
    Renamed(u, v, rk, r, c, MovedBack(s, c, 0), MovedBack(s, c, 1), MovedBack(s, c, 2), MovedBack(s, c, 3));
    if r > 0 {
      UnmixedBlock(v, t, c);
    }
  }

  lemma RoundByBytes(s: Block, t: Block, rk: seq<bv32>, nr: nat, r: nat)
    requires 0 < r <= nr && ScheduleFor(rk, nr) && t == RoundOf(s, rk, nr, r)
    ensures Round(s, t, rk, r, r == nr)
  {
    forall c: nat | c < 4
      ensures if r == nr then LastColumn(s, t, rk, r, c) else MixedColumn(s, t, rk, r, c)
    {
      OneRound(s, t, rk, nr, r, c);
    }
  }

  lemma BackByBytes(s: Block, v: Block, t: Block, rk: seq<bv32>, nr: nat, r: nat)
    requires r < nr && ScheduleFor(rk, nr)
    requires v == AddKey(InvSubBytes(InvShiftRows(s)), rk, r) && t == InvRoundOf(s, rk, nr, r)
    ensures RoundBack(s, v, t, rk, r)
  {
    forall c: nat | c < 4
      ensures BackColumn(s, v, rk, r, c) && (r > 0 ==> UnmixedColumn(v, t, c)) && (r == 0 ==> t == v)
    {
      OneBack(s, v, t, rk, nr, r, c);
    }
    OneBack(s, v, t, rk, nr, r, 0);
  }

  lemma StartByBytes(s: Block, t: Block, rk: seq<bv32>, r: nat)
    requires 4 * r + 4 <= |rk| && t == AddKey(s, rk, r)
    ensures FirstRound(s, t, rk, r)
  {
    forall c: nat | c < 4
      ensures FirstColumn(s, t, rk, r, c)
    {
      AddsKey(s, t, rk, r, c);
    }
  }

  // ----- the whole way -----

  ghost function StatesOf(input: Block, rk: seq<bv32>, nr: nat): (states: seq<Block>)
    requires ScheduleFor(rk, nr)
    ensures |states| == nr + 1 && forall r :: 0 <= r <= nr ==> states[r] == AfterRound(input, rk, nr, r)
  {
    seq(nr + 1, r requires 0 <= r <= nr => AfterRound(input, rk, nr, r))
  }

  lemma NextState(states: seq<Block>, input: Block, rk: seq<bv32>, nr: nat, r: nat)
    requires ScheduleFor(rk, nr) && states == StatesOf(input, rk, nr) && r < nr
    ensures Round(states[r], states[r + 1], rk, r + 1, r + 1 == nr)
  {
    RoundByBytes(states[r], states[r + 1], rk, nr, r + 1);
  }

  /** The states of the cipher are those that the rounds, byte by byte, lead through. */
  lemma CipherByBytes(input: Block, rk: seq<bv32>, nr: nat) returns (states: seq<Block>)
    requires ScheduleFor(rk, nr)
    ensures Encrypts(states, input, rk, nr) && states[nr] == Cipher(input, rk, nr)
  {
    states := StatesOf(input, rk, nr);
    StartByBytes(input, states[0], rk, 0);
    forall r: nat | r < nr
      ensures Round(states[r], states[r + 1], rk, r + 1, r + 1 == nr)
    {
      NextState(states, input, rk, nr, r);
    }
  }

  ghost function StatesBack(input: Block, rk: seq<bv32>, nr: nat): (states: seq<Block>)
    requires ScheduleFor(rk, nr)
    ensures |states| == nr + 1 && forall r :: 0 <= r <= nr ==> states[r] == BackTo(input, rk, nr, r)
  {
    seq(nr + 1, r requires 0 <= r <= nr => BackTo(input, rk, nr, r))
  }

  /** A state of the way back, moved, substituted and keyed. */
  ghost function KeyedState(s: Block, rk: seq<bv32>, r: nat): Block
    requires 4 * r + 4 <= |rk|
  {
    AddKey(InvSubBytes(InvShiftRows(s)), rk, r)
  }

  ghost function KeyedStates(states: seq<Block>, rk: seq<bv32>, nr: nat): (keyed: seq<Block>)
    requires ScheduleFor(rk, nr) && |states| == nr + 1
    ensures |keyed| == nr && forall r :: 0 <= r < nr ==> keyed[r] == KeyedState(states[r + 1], rk, r)
  {
    seq(nr, r requires 0 <= r < nr => KeyedState(states[r + 1], rk, r))
  }

  lemma PreviousState(states: seq<Block>, keyed: seq<Block>, input: Block, rk: seq<bv32>, nr: nat, r: nat)
    requires ScheduleFor(rk, nr) && states == StatesBack(input, rk, nr) && r < nr
    requires keyed == KeyedStates(states, rk, nr)
    ensures RoundBack(states[r + 1], keyed[r], states[r], rk, r)
  {
    BackByBytes(states[r + 1], keyed[r], states[r], rk, nr, r);
  }

  lemma InvCipherByBytes(input: Block, rk: seq<bv32>, nr: nat) returns (states: seq<Block>, keyed: seq<Block>)
    requires ScheduleFor(rk, nr)
    ensures Decrypts(states, keyed, input, rk, nr) && states[0] == InvCipher(input, rk, nr)
  {
    states := StatesBack(input, rk, nr);
    keyed := KeyedStates(states, rk, nr);
    StartByBytes(input, states[nr], rk, nr);
    forall r: nat | r < nr
      ensures RoundBack(states[r + 1], keyed[r], states[r], rk, r)
    {
      PreviousState(states, keyed, input, rk, nr, r);
    }
  }
}
