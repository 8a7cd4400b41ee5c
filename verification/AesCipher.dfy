/** The AES block cipher and its inverse, as sections 5.1 to 5.3 of FIPS 197 define
    them. A round key is four words of the schedule `rk`; nothing here depends on how
    the schedule was made. */
module AesCipher {
  import opened AesField
  import opened AesTables

  type Block = s: seq<bv8> | |s| == 16 witness seq(16, _ => 0)

  /** A schedule long enough for `nr` rounds. */
  predicate ScheduleFor(rk: seq<bv32>, nr: nat) { 4 * nr + 4 <= |rk| }

  // ----- the four transformations -----

  function KeyByte(w: bv32, k: nat): bv8
    requires k < 4
  {
    ((w >> (24 - 8 * k)) & 0xFF) as bv8
  }

  function KeyByteAt(rk: seq<bv32>, r: nat, i: nat): bv8
    requires 4 * r + 4 <= |rk| && i < 16
  {
    KeyByte(rk[4 * r + i / 4], i % 4)
  }

  function AddKey(s: Block, rk: seq<bv32>, r: nat): Block
    requires 4 * r + 4 <= |rk|
  {
    seq(16, i requires 0 <= i < 16 => s[i] ^ KeyByteAt(rk, r, i))
  }

  function SubBytes(s: Block): Block { seq(16, i requires 0 <= i < 16 => Sub(s[i])) }

  function InvSubBytes(s: Block): Block { seq(16, i requires 0 <= i < 16 => InvSub(s[i])) }

  /** Row r of the state, bytes r, r + 4, r + 8 and r + 12, moves r places to the left. */
  function ShiftRows(s: Block): Block {
    [s[0], s[5], s[10], s[15], s[4], s[9], s[14], s[3],
     s[8], s[13], s[2], s[7], s[12], s[1], s[6], s[11]]
  }

  function InvShiftRows(s: Block): Block {
    [s[0], s[13], s[10], s[7], s[4], s[1], s[14], s[11],
     s[8], s[5], s[2], s[15], s[12], s[9], s[6], s[3]]
  }

  function ColumnAt(s: Block, j: nat): Col
    requires j <= 12
  {
    Col(s[j], s[j + 1], s[j + 2], s[j + 3])
  }

  function Flat(c0: Col, c1: Col, c2: Col, c3: Col): Block {
    [c0.a0, c0.a1, c0.a2, c0.a3, c1.a0, c1.a1, c1.a2, c1.a3,
     c2.a0, c2.a1, c2.a2, c2.a3, c3.a0, c3.a1, c3.a2, c3.a3]
  }

  function MixColumns(s: Block): Block {
    Flat(MixColumn(ColumnAt(s, 0)), MixColumn(ColumnAt(s, 4)), MixColumn(ColumnAt(s, 8)), MixColumn(ColumnAt(s, 12)))
  }

  function InvMixColumns(s: Block): Block {
    Flat(InvMixColumn(ColumnAt(s, 0)), InvMixColumn(ColumnAt(s, 4)), InvMixColumn(ColumnAt(s, 8)),
         InvMixColumn(ColumnAt(s, 12)))
  }

  // ----- each transformation is undone -----

  lemma XorTwice(a: bv8, k: bv8)
    ensures (a ^ k) ^ k == a
  {
  }

  lemma AddKeyTwice(s: Block, rk: seq<bv32>, r: nat)
    requires 4 * r + 4 <= |rk|
    ensures AddKey(AddKey(s, rk, r), rk, r) == s
  {
    var t := AddKey(AddKey(s, rk, r), rk, r);
    forall i | 0 <= i < 16
      ensures t[i] == s[i]
    {
      XorTwice(s[i], KeyByteAt(rk, r, i));
    }
  }

  lemma UnsubBytes(s: Block)
    ensures InvSubBytes(SubBytes(s)) == s
  {
    var t := InvSubBytes(SubBytes(s));
    forall i | 0 <= i < 16
      ensures t[i] == s[i]
    {
      InvSubSub(s[i]);
    }
  }

  lemma UnshiftRows(s: Block)
    ensures InvShiftRows(ShiftRows(s)) == s
  {
  }

  lemma ColumnsOf(c0: Col, c1: Col, c2: Col, c3: Col, s: Block)
    requires s == Flat(c0, c1, c2, c3)
    ensures ColumnAt(s, 0) == c0 && ColumnAt(s, 4) == c1 && ColumnAt(s, 8) == c2 && ColumnAt(s, 12) == c3
  {
  }

  lemma FlatColumns(s: Block)
    ensures Flat(ColumnAt(s, 0), ColumnAt(s, 4), ColumnAt(s, 8), ColumnAt(s, 12)) == s
  {
  }

  lemma UnmixColumns(s: Block)
    ensures InvMixColumns(MixColumns(s)) == s
  {
    var c0, c1, c2, c3 := ColumnAt(s, 0), ColumnAt(s, 4), ColumnAt(s, 8), ColumnAt(s, 12);
    ColumnsOf(MixColumn(c0), MixColumn(c1), MixColumn(c2), MixColumn(c3), MixColumns(s));
    UnmixColumn(c0);
    UnmixColumn(c1);
    UnmixColumn(c2);
    UnmixColumn(c3);
    FlatColumns(s);
  }

  // ----- the cipher and its inverse -----

  /** The state after round `r` of `nr`; round 0 only adds a key, the last one does not mix. */
  function AfterRound(s: Block, rk: seq<bv32>, nr: nat, r: nat): Block
    requires r <= nr && ScheduleFor(rk, nr)
  {
    if r == 0 then AddKey(s, rk, 0)
    else RoundOf(AfterRound(s, rk, nr, r - 1), rk, nr, r)
  }

  function RoundOf(s: Block, rk: seq<bv32>, nr: nat, r: nat): Block
    requires 0 < r <= nr && ScheduleFor(rk, nr)
  {
    var t := ShiftRows(SubBytes(s));
    AddKey(if r < nr then MixColumns(t) else t, rk, r)
  }

  function Cipher(s: Block, rk: seq<bv32>, nr: nat): Block
    requires ScheduleFor(rk, nr)
  {
    AfterRound(s, rk, nr, nr)
  }

  /** The state of the inverse cipher once it has undone the rounds above `r`. */
  function BackTo(s: Block, rk: seq<bv32>, nr: nat, r: nat): Block
    requires r <= nr && ScheduleFor(rk, nr)
    decreases nr - r
  {
    if r == nr then AddKey(s, rk, nr)
    else InvRoundOf(BackTo(s, rk, nr, r + 1), rk, nr, r)
  }

  function InvRoundOf(s: Block, rk: seq<bv32>, nr: nat, r: nat): Block
    requires r < nr && ScheduleFor(rk, nr)
  {
    var t := AddKey(InvSubBytes(InvShiftRows(s)), rk, r);
    if r > 0 then InvMixColumns(t) else t
  }

  function InvCipher(s: Block, rk: seq<bv32>, nr: nat): Block
    requires ScheduleFor(rk, nr)
  {
    BackTo(s, rk, nr, 0)
  }

  /** Undoing round `r` of a state that was shifted and substituted from it. */
  lemma UndoRound(s: Block, t: Block, rk: seq<bv32>, nr: nat, r: nat)
    requires 0 < r < nr && ScheduleFor(rk, nr) && t == RoundOf(s, rk, nr, r)
    ensures InvRoundOf(ShiftRows(SubBytes(t)), rk, nr, r) == ShiftRows(SubBytes(s))
  {
    var u := ShiftRows(SubBytes(s));
    UnshiftRows(SubBytes(t));
    UnsubBytes(t);
    AddKeyTwice(MixColumns(u), rk, r);
    UnmixColumns(u);
  }

  /** On its way back the inverse cipher passes, in reverse, through the states the
      cipher had after its substitution and row shift. */
  lemma {:induction false} WayBack(s: Block, rk: seq<bv32>, nr: nat, r: nat)
    requires 0 < r <= nr && ScheduleFor(rk, nr)
    ensures BackTo(Cipher(s, rk, nr), rk, nr, r) == ShiftRows(SubBytes(AfterRound(s, rk, nr, r - 1)))
    decreases nr - r
  {
    if r == nr {
      AddKeyTwice(ShiftRows(SubBytes(AfterRound(s, rk, nr, nr - 1))), rk, nr);
    } else {
      WayBack(s, rk, nr, r + 1);
      UndoRound(AfterRound(s, rk, nr, r - 1), AfterRound(s, rk, nr, r), rk, nr, r);
    }
  }

  /** The inverse cipher undoes the cipher: every block, every schedule, any number of rounds. */
  lemma DecryptsWhatItEncrypts(s: Block, rk: seq<bv32>, nr: nat)
    requires ScheduleFor(rk, nr)
    ensures InvCipher(Cipher(s, rk, nr), rk, nr) == s
  {
    if nr > 0 {
      WayBack(s, rk, nr, 1);
      var t := AfterRound(s, rk, nr, 0);
      UnshiftRows(SubBytes(t));
      UnsubBytes(t);
    }
    AddKeyTwice(s, rk, 0);
  }
}
