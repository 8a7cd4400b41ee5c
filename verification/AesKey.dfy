/** The key expansion, section 5.2 of FIPS 197. */
module AesKey {
  import opened AesField
  import opened AesTables
  import opened AesCipher
  import opened GuestMemory

  function SubWord(w: bv32): bv32 {
    WordOf(Sub(ByteOf(w, 0)), Sub(ByteOf(w, 1)), Sub(ByteOf(w, 2)), Sub(ByteOf(w, 3)))
  }

  function RotWord(w: bv32): bv32 { (w << 8) | (w >> 24) }

  const RCON: seq<bv8> := [0x00, 0x01, 0x02, 0x04, 0x08, 0x10, 0x20, 0x40, 0x80, 0x1b, 0x36]

  /** The round constants of section 5.2: the powers of x, starting at 1. */
  function RoundConstant(k: nat): bv8 { if k == 0 then 0 else Shifted(1, k - 1) }

  /** The table holds them. */
  lemma RconArePowers(k: nat)
    requires k < |RCON|
    ensures RCON[k] == RoundConstant(k)
  {
    if k > 0 {
      PowersFrom(1, k - 1, 1);
    }
  }

  /** Following the table from place `at` on. */
  lemma {:induction false} PowersFrom(at: nat, k: nat, a: bv8)
    requires 1 <= at && at + k < |RCON| && a == RCON[at]
    ensures Shifted(a, k) == RCON[at + k]
    decreases k
  {
    if k > 0 {
      RconStep(at);
      PowersFrom(at + 1, k - 1, XTime(a));
    }
  }

  lemma RconStep(i: nat)
    requires 1 <= i < 10
    ensures RCON[i + 1] == XTime(RCON[i])
  {
    assert i == 1 || i == 2 || i == 3 || i == 4 || i == 5 || i == 6 || i == 7 || i == 8 || i == 9;
  }

  /** Key words; an unexpected length is taken for 128 bits. */
  function KeyWords(keyBytes: nat): nat {
    var nk := keyBytes / 4;
    if nk == 6 || nk == 8 then nk else 4
  }

  function Rounds(nk: nat): nat { if nk == 8 then 14 else if nk == 6 then 12 else 10 }

  predicate KeyLength(nk: nat) { nk == 4 || nk == 6 || nk == 8 }

  function ScheduleWords(nk: nat): nat { 4 * (Rounds(nk) + 1) }

  function KeyWord(key: seq<bv8>, i: nat): bv32
    requires 4 * i + 4 <= |key|
  {
    WordOf(key[4 * i + 3], key[4 * i + 2], key[4 * i + 1], key[4 * i])
  }

  lemma RconInRange(nk: nat, i: nat)
    requires KeyLength(nk) && i < ScheduleWords(nk)
    ensures i / nk < |RCON|
  {
    if nk == 4 {
      assert i / 4 < 11;
    } else if nk == 6 {
      assert i / 6 < 11;
    } else {
      assert i / 8 < 11;
    }
  }

  /** What is added to the word `nk` places back to get word `i`. */
  function Temp(nk: nat, i: nat, last: bv32): bv32
    requires KeyLength(nk) && i < ScheduleWords(nk)
  {
    if i % nk == 0 then SubWord(RotWord(last)) ^ ((RoundConstant(i / nk) as bv32) << 24)
    else if nk > 6 && i % nk == 4 then SubWord(last)
    else last
  }

  function Plus(a: bv32, b: bv32): bv32 { a ^ b }

  function Next(nk: nat, i: nat, back: bv32, last: bv32): bv32
    requires KeyLength(nk) && i < ScheduleWords(nk)
  {
    Plus(back, Temp(nk, i, last))
  }

  /** Word `i` continues the recurrence of section 5.2. */
  ghost predicate Linked(w: seq<bv32>, nk: nat, i: nat)
    requires KeyLength(nk) && nk <= i < ScheduleWords(nk) && i < |w|
  {
    w[i] == Next(nk, i, w[i - nk], w[i - 1])
  }

  ghost predicate Follows(w: seq<bv32>, nk: nat, n: nat)
    requires KeyLength(nk) && n <= ScheduleWords(nk) && n <= |w|
  {
    forall i :: nk <= i < n ==> Linked(w, nk, i)
  }

  /** Being linked depends on three words. */
  lemma SameLink(w: seq<bv32>, v: seq<bv32>, nk: nat, i: nat)
    requires KeyLength(nk) && nk <= i < ScheduleWords(nk) && i < |w| && i < |v| && Linked(w, nk, i)
    requires w[i] == v[i] && w[i - nk] == v[i - nk] && w[i - 1] == v[i - 1]
    ensures Linked(v, nk, i)
  {
  }

  ghost predicate StartsWith(w: seq<bv32>, key: seq<bv8>, n: nat)
    requires n <= |w| && 4 * n <= |key|
  {
    forall i :: 0 <= i < n ==> w[i] == KeyWord(key, i)
  }

  ghost predicate IsSchedule(w: seq<bv32>, key: seq<bv8>, nk: nat)
    requires KeyLength(nk) && 4 * nk <= |key|
  {
    |w| == ScheduleWords(nk) && StartsWith(w, key, nk) && Follows(w, nk, |w|)
  }

  // ----- byte by byte -----

  /** Byte `b` of a word, counting from the top. */
  ghost function TopByte(w: bv32, b: nat): bv8
    requires b < 4
  {
    ByteOf(w, 3 - b)
  }

  lemma JoinedByte(s0: bv8, s1: bv8, s2: bv8, s3: bv8, w: bv32, b: nat)
    requires b < 4 && w == WordOf(s3, s2, s1, s0)
    ensures TopByte(w, b) == if b == 0 then s0 else if b == 1 then s1 else if b == 2 then s2 else s3
  {
    BytesOfWord(s3, s2, s1, s0, w);
  }

  lemma XorByte0(x: bv32, y: bv32)
    ensures ByteOf(x ^ y, 0) == ByteOf(x, 0) ^ ByteOf(y, 0)
  {
  }

  lemma XorByte1(x: bv32, y: bv32)
    ensures ByteOf(x ^ y, 1) == ByteOf(x, 1) ^ ByteOf(y, 1)
  {
  }

  lemma XorByte2(x: bv32, y: bv32)
    ensures ByteOf(x ^ y, 2) == ByteOf(x, 2) ^ ByteOf(y, 2)
  {
  }

  lemma XorByte3(x: bv32, y: bv32)
    ensures ByteOf(x ^ y, 3) == ByteOf(x, 3) ^ ByteOf(y, 3)
  {
  }

  lemma XorByteOf(x: bv32, y: bv32, z: bv32, b: nat)
    requires b < 4 && z == x ^ y
    ensures TopByte(z, b) == TopByte(x, b) ^ TopByte(y, b)
  {
    if b == 0 {
      XorByte3(x, y);
    } else if b == 1 {
      XorByte2(x, y);
    } else if b == 2 {
      XorByte1(x, y);
    } else {
      XorByte0(x, y);
    }
  }

  lemma RotatedBytes(w: bv32, z: bv32)
    requires z == RotWord(w)
    ensures ByteOf(z, 3) == ByteOf(w, 2) && ByteOf(z, 2) == ByteOf(w, 1) && ByteOf(z, 1) == ByteOf(w, 0)
    ensures ByteOf(z, 0) == ByteOf(w, 3)
  {
  }

  lemma RotatedByte(w: bv32, z: bv32, b: nat)
    requires b < 4 && z == RotWord(w)
    ensures TopByte(z, b) == TopByte(w, (b + 1) % 4)
  {
    RotatedBytes(w, z);
  }

  lemma ConstantWord(k: bv8)
    ensures (k as bv32) << 24 == WordOf(0, 0, 0, k)
  {
  }

  lemma ConstantByte(k: bv8, w: bv32, b: nat)
    requires b < 4 && w == (k as bv32) << 24
    ensures TopByte(w, b) == if b == 0 then k else 0
  {
    ConstantWord(k);
    JoinedByte(k, 0, 0, 0, w, b);
  }

  lemma SubbedByte(w: bv32, z: bv32, b: nat)
    requires b < 4 && z == SubWord(w)
    ensures TopByte(z, b) == Sub(TopByte(w, b))
  {
    var s0, s1, s2, s3 := Sub(ByteOf(w, 3)), Sub(ByteOf(w, 2)), Sub(ByteOf(w, 1)), Sub(ByteOf(w, 0));
    JoinedByte(s0, s1, s2, s3, z, b);
  }

  /** What goes from the word before into byte `b` of a word: that byte; every `nk` words the next one
      round, substituted, with the next power of x at the top; for a long key also, half way, the byte
      substituted. */
  ghost function Addend(nk: nat, i: nat, last: bv32, b: nat): bv8
    requires KeyLength(nk) && nk <= i && b < 4
  {
    if i % nk == 0 then Sub(TopByte(last, (b + 1) % 4)) ^ if b == 0 then Shifted(1, i / nk - 1) else 0
    else if nk == 8 && i % 8 == 4 then Sub(TopByte(last, b))
    else TopByte(last, b)
  }

  /** Byte `b` of word `i`, from the top: the key's own at first, then that of the word `nk` places back
      plus what goes in from the word before. */
  ghost predicate ScheduledByte(w: seq<bv32>, key: seq<bv8>, nk: nat, i: nat, b: nat)
    requires KeyLength(nk) && 4 * nk <= |key| && i < |w| && b < 4
  {
    if i < nk then TopByte(w[i], b) == key[4 * i + b]
    else TopByte(w[i], b) == TopByte(w[i - nk], b) ^ Addend(nk, i, w[i - 1], b)
  }

  lemma TurnedByte(last: bv32, k: bv8, z: bv32, b: nat)
    requires b < 4 && z == SubWord(RotWord(last)) ^ ((k as bv32) << 24)
    ensures TopByte(z, b) == Sub(TopByte(last, (b + 1) % 4)) ^ if b == 0 then k else 0
  {
    var turned := RotWord(last);
    RotatedByte(last, turned, b);
    SubbedByte(turned, SubWord(turned), b);
    ConstantByte(k, (k as bv32) << 24, b);
    XorByteOf(SubWord(turned), (k as bv32) << 24, z, b);
  }

  lemma TurnByte(nk: nat, i: nat, q: nat, last: bv32, temp: bv32, b: nat)
    requires KeyLength(nk) && nk <= i < ScheduleWords(nk) && i % nk == 0 && q == i / nk >= 1
    requires temp == Temp(nk, i, last) && b < 4
    ensures TopByte(temp, b) == Addend(nk, i, last, b)
  {
    TurnedByte(last, RoundConstant(q), temp, b);
  }

  lemma TempByte(nk: nat, i: nat, last: bv32, temp: bv32, b: nat)
    requires KeyLength(nk) && nk <= i < ScheduleWords(nk) && temp == Temp(nk, i, last) && b < 4
    ensures TopByte(temp, b) == Addend(nk, i, last, b)
  {
    if i % nk == 0 {
      assert i / nk >= 1;
      TurnByte(nk, i, i / nk, last, temp, b);
    } else if nk == 8 && i % 8 == 4 {
      SubbedByte(last, temp, b);
    }
  }

  lemma SumByte(back: bv32, temp: bv32, z: bv32, b: nat, k: bv8)
    requires b < 4 && z == Plus(back, temp) && k == TopByte(temp, b)
    ensures TopByte(z, b) == TopByte(back, b) ^ k
  {
    XorByteOf(back, temp, z, b);
  }

  lemma LinkedByte(w: seq<bv32>, key: seq<bv8>, nk: nat, i: nat, b: nat)
    requires KeyLength(nk) && 4 * nk <= |key| && nk <= i < |w| <= ScheduleWords(nk) && Linked(w, nk, i) && b < 4
    ensures ScheduledByte(w, key, nk, i, b)
  {
    var temp := Temp(nk, i, w[i - 1]);
    TempByte(nk, i, w[i - 1], temp, b);
    SumByte(w[i - nk], temp, w[i], b, Addend(nk, i, w[i - 1], b));
  }

  ghost predicate Scheduled(w: seq<bv32>, key: seq<bv8>, nk: nat)
    requires KeyLength(nk) && 4 * nk <= |key|
  {
    |w| == 4 * nk + 28 && forall i: nat, b: nat :: i < |w| && b < 4 ==> ScheduledByte(w, key, nk, i, b)
  }

  /** A schedule, byte by byte. */
  lemma ScheduleByBytes(w: seq<bv32>, key: seq<bv8>, nk: nat)
    requires KeyLength(nk) && 4 * nk <= |key| && IsSchedule(w, key, nk)
    ensures Scheduled(w, key, nk)
  {
    forall i: nat, b: nat | i < |w| && b < 4
      ensures ScheduledByte(w, key, nk, i, b)
    {
      if i < nk {
        JoinedByte(key[4 * i], key[4 * i + 1], key[4 * i + 2], key[4 * i + 3], w[i], b);
      } else {
        LinkedByte(w, key, nk, i, b);
      }
    }
  }

  /** The body of the expansion loop. */
  method NextWord(nk: nat, i: nat, back: bv32, last: bv32) returns (word: bv32)
    requires KeyLength(nk) && i < ScheduleWords(nk)
    ensures word == Next(nk, i, back, last)
  {
    RconInRange(nk, i);
    var temp := last;
    if i % nk == 0 {
      RconArePowers(i / nk);
      temp := SubWord(RotWord(temp)) ^ ((RCON[i / nk] as bv32) << 24);
    } else if nk > 6 && i % nk == 4 {
      temp := SubWord(temp);
    }
    word := Plus(back, temp);
  }

  /** Expand a key into the front of `rk`. */
  method KeyExpand(key: seq<bv8>, keyBytes: nat, rk: array<bv32>) returns (nr: nat)
    requires 4 * KeyWords(keyBytes) <= |key| && rk.Length == 60
    modifies rk
    ensures nr == Rounds(KeyWords(keyBytes)) && ScheduleFor(rk[..], nr)
    ensures IsSchedule(rk[..4 * (nr + 1)], key, KeyWords(keyBytes))
    ensures nr == if keyBytes / 4 == 8 then 14 else if keyBytes / 4 == 6 then 12 else 10
    ensures Scheduled(rk[..4 * (nr + 1)], key, nr - 6)
  {
    var nk := keyBytes / 4;
    if nk == 4 {
      nr := 10;
    } else if nk == 6 {
      nr := 12;
    } else if nk == 8 {
      nr := 14;
    } else {
      nr, nk := 10, 4;
    }
    var total := 4 * (nr + 1);
    for i := 0 to nk
      invariant StartsWith(rk[..], key, i)
    {
      rk[i] := KeyWord(key, i);
    }
    for i := nk to total
      invariant StartsWith(rk[..], key, nk) && Follows(rk[..], nk, i)
    {
      var word := NextWord(nk, i, rk[i - nk], rk[i - 1]);
      ghost var before := rk[..];
      rk[i] := word;
      OneMore(before, rk[..], key, nk, i);
    }
    Front(rk[..], key, nk);
    ScheduleByBytes(rk[..4 * (nr + 1)], key, nk);
  }

  lemma Front(w: seq<bv32>, key: seq<bv8>, nk: nat)
    requires KeyLength(nk) && 4 * nk <= |key| && ScheduleWords(nk) <= |w|
    requires StartsWith(w, key, nk) && Follows(w, nk, ScheduleWords(nk))
    ensures IsSchedule(w[..ScheduleWords(nk)], key, nk)
  {
    var v := w[..ScheduleWords(nk)];
    forall i | nk <= i < |v|
      ensures Linked(v, nk, i)
    {
      SameLink(w, v, nk, i);
    }
  }

  lemma OneMore(w: seq<bv32>, v: seq<bv32>, key: seq<bv8>, nk: nat, i: nat)
    requires KeyLength(nk) && 4 * nk <= |key| && nk <= i < ScheduleWords(nk) && |v| == |w| && i < |w|
    requires StartsWith(w, key, nk) && Follows(w, nk, i) && v == w[i := Next(nk, i, w[i - nk], w[i - 1])]
    ensures StartsWith(v, key, nk) && Follows(v, nk, i + 1)
  {
    forall j | nk <= j < i + 1
      ensures Linked(v, nk, j)
    {
      if j < i {
        SameLink(w, v, nk, j);
      }
    }
  }

  /** A key has one schedule. */
  lemma {:induction false} ScheduleUnique(u: seq<bv32>, v: seq<bv32>, key: seq<bv8>, nk: nat, n: nat)
    requires KeyLength(nk) && 4 * nk <= |key| && IsSchedule(u, key, nk) && IsSchedule(v, key, nk) && n <= |u|
    ensures forall j :: 0 <= j < n ==> u[j] == v[j]
    decreases n
  {
    if n > 0 {
      ScheduleUnique(u, v, key, nk, n - 1);
      var i := n - 1;
      if i >= nk {
        assert Linked(u, nk, i) && Linked(v, nk, i);
        assert u[i - nk] == v[i - nk] && u[i - 1] == v[i - 1];
      }
    }
  }

  lemma PlusCancels(a: bv32, b: bv32, t: bv32)
    requires Plus(a, t) == Plus(b, t)
    ensures a == b
  {
  }

  lemma NextInjective(nk: nat, i: nat, a: bv32, b: bv32, last: bv32)
    requires KeyLength(nk) && i < ScheduleWords(nk) && Next(nk, i, a, last) == Next(nk, i, b, last)
    ensures a == b
  {
    PlusCancels(a, b, Temp(nk, i, last));
  }

  /** Two schedules that agree at `i` and just before it agree `nk` places back. */
  lemma OneBack(u: seq<bv32>, v: seq<bv32>, nk: nat, i: nat)
    requires KeyLength(nk) && nk <= i < ScheduleWords(nk) && i < |u| && i < |v|
    requires Linked(u, nk, i) && Linked(v, nk, i) && u[i] == v[i] && u[i - 1] == v[i - 1]
    ensures u[i - nk] == v[i - nk]
  {
    NextInjective(nk, i, u[i - nk], v[i - nk], u[i - 1]);
  }

  /** The recurrence runs backwards too: `nk` neighbouring words that agree force every
      earlier word to agree, so the last words of a schedule determine the key. */
  lemma {:induction false} RunsBackwards(u: seq<bv32>, v: seq<bv32>, nk: nat, lo: nat, hi: nat)
    requires KeyLength(nk) && |u| == |v| == ScheduleWords(nk) && Follows(u, nk, |u|) && Follows(v, nk, |v|)
    requires lo + nk <= hi <= |u| && forall j :: lo <= j < hi ==> u[j] == v[j]
    ensures forall j :: 0 <= j < hi ==> u[j] == v[j]
    decreases lo
  {
    if lo > 0 {
      var i := lo - 1 + nk;
      OneBack(u, v, nk, i);
      RunsBackwards(u, v, nk, lo - 1, hi);
    }
  }

  /** The first `n` words of the schedule of a key, and the whole of it. */
  function Expanded(key: seq<bv8>, nk: nat, n: nat): (w: seq<bv32>)
    requires KeyLength(nk) && 4 * nk <= |key| && n <= ScheduleWords(nk)
    ensures |w| == n
  {
    if n == 0 then [] else
      var w := Expanded(key, nk, n - 1);
      var i := n - 1;
      w + [if i < nk then KeyWord(key, i) else Next(nk, i, w[i - nk], w[i - 1])]
  }

  function ScheduleOf(key: seq<bv8>, nk: nat): seq<bv32>
    requires KeyLength(nk) && 4 * nk <= |key|
  {
    Expanded(key, nk, ScheduleWords(nk))
  }

  /** One more word, computed from what is there, keeps the recurrence. */
  lemma Grows(v: seq<bv32>, w: seq<bv32>, key: seq<bv8>, nk: nat, i: nat)
    requires KeyLength(nk) && 4 * nk <= |key| && i < ScheduleWords(nk) && |v| == i && |w| == i + 1 && w[..i] == v
    requires StartsWith(v, key, if i < nk then i else nk) && Follows(v, nk, i)
    requires if i < nk then w[i] == KeyWord(key, i) else w[i] == Next(nk, i, v[i - nk], v[i - 1])
    ensures StartsWith(w, key, if i + 1 < nk then i + 1 else nk) && Follows(w, nk, i + 1)
  {
    assert forall j :: 0 <= j < i ==> w[j] == v[j];
    forall j | nk <= j < i + 1
      ensures Linked(w, nk, j)
    {
      if j < i {
        SameLink(v, w, nk, j);
      }
    }
  }

  lemma {:induction false} ExpandedFollows(key: seq<bv8>, nk: nat, n: nat)
    requires KeyLength(nk) && 4 * nk <= |key| && n <= ScheduleWords(nk)
    ensures StartsWith(Expanded(key, nk, n), key, if n < nk then n else nk) && Follows(Expanded(key, nk, n), nk, n)
    decreases n
  {
    if n > 0 {
      ExpandedFollows(key, nk, n - 1);
      Grows(Expanded(key, nk, n - 1), Expanded(key, nk, n), key, nk, n - 1);
    }
  }

  /** Whatever follows the recurrence from the key is the schedule of the key. */
  lemma OneSchedule(w: seq<bv32>, key: seq<bv8>, nk: nat)
    requires KeyLength(nk) && 4 * nk <= |key|
    ensures IsSchedule(w, key, nk) <==> w == ScheduleOf(key, nk)
  {
    ExpandedFollows(key, nk, ScheduleWords(nk));
    if IsSchedule(w, key, nk) {
      ScheduleUnique(w, ScheduleOf(key, nk), key, nk, |w|);
    }
  }
}
