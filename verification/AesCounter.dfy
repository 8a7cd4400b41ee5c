/** The counter of CTR mode: a byte-wise increment with carry, and what it does to the
    number the bytes spell. */
module AesCounter {
  /** Bytes as a big-endian number. */
  function Number(s: seq<bv8>): nat {
    if s == [] then 0 else 256 * Number(s[..|s| - 1]) + s[|s| - 1] as nat
  }

  /** How many numbers `n` bytes can spell. */
  function Span(n: nat): nat { if n == 0 then 1 else 256 * Span(n - 1) }

  /** The increment: the last byte, and on a wrap to zero the bytes before it. */
  function Bumped(s: seq<bv8>): (r: seq<bv8>)
    ensures |r| == |s|
  {
    if s == [] then []
    else
      var front, next := s[..|s| - 1], s[|s| - 1] + 1;
      (if next != 0 then front else Bumped(front)) + [next]
  }

  lemma ByteBound(b: bv8)
    ensures b as nat < 256
  {
  }

  lemma NextByte(b: bv8, next: bv8)
    requires next == b + 1
    ensures next != 0 ==> next as nat == b as nat + 1
    ensures next == 0 ==> b as nat == 255
  {
  }

  lemma ZeroByte(b: bv8)
    ensures b == 0 <==> b as nat == 0
  {
  }

  lemma {:induction false} NumberBound(s: seq<bv8>)
    ensures Number(s) < Span(|s|)
  {
    if s != [] {
      NumberBound(s[..|s| - 1]);
      ByteBound(s[|s| - 1]);
    }
  }

  lemma NumberOf(front: seq<bv8>, last: bv8)
    ensures Number(front + [last]) == 256 * Number(front) + last as nat
  {
    var s := front + [last];
    assert s[..|s| - 1] == front;
  }

  /** The increment adds one, modulo what the bytes can spell. */
  lemma {:induction false} BumpedAddsOne(s: seq<bv8>)
    ensures Number(Bumped(s)) == if Number(s) + 1 == Span(|s|) then 0 else Number(s) + 1
  {
    if s != [] {
      var front, last := s[..|s| - 1], s[|s| - 1];
      var next := last + 1;
      BumpedAddsOne(front);
      BumpLast(front, last, next);
      BumpStep(front, last, next);
      assert s == front + [last];
    }
  }

  lemma BumpLast(front: seq<bv8>, last: bv8, next: bv8)
    requires next == last + 1
    ensures Bumped(front + [last]) == (if next != 0 then front else Bumped(front)) + [next]
  {
    var s := front + [last];
    assert s[..|s| - 1] == front && s[|s| - 1] == last;
  }

  lemma BumpStep(front: seq<bv8>, last: bv8, next: bv8)
    requires next == last + 1
    requires Number(Bumped(front)) == if Number(front) + 1 == Span(|front|) then 0 else Number(front) + 1
    ensures var r := (if next != 0 then front else Bumped(front)) + [next];
      var v := Number(front + [last]) + 1;
      Number(r) == if v == Span(|front| + 1) then 0 else v
  {
    NumberOf(front, last);
    NextByte(last, next);
    NumberBound(front);
    if next != 0 {
      NumberOf(front, next);
      ByteBound(next);
    } else {
      NumberOf(Bumped(front), next);
      ZeroByte(next);
    }
  }

  /** Counter increment over all sixteen bytes or over the last four. */
  function Incremented(c: seq<bv8>, wide: bool): (r: seq<bv8>)
    requires |c| == 16
    ensures |r| == 16
  {
    if wide then Bumped(c) else c[..12] + Bumped(c[12..])
  }

  /** The increment has carried into byte `i - 1`: what is left is to bump the bytes before `i`. */
  ghost predicate Pending(was: seq<bv8>, now: seq<bv8>, first: nat, i: nat)
    requires |was| == |now| == 16
  {
    first <= i <= 16 && now[..i] == was[..i] && Bumped(was[first..]) == Bumped(was[first..i]) + now[i..]
  }

  lemma CarryStarts(was: seq<bv8>, first: nat)
    requires |was| == 16 && first <= 16
    ensures Pending(was, was, first, 16)
  {
    assert was[first..16] == was[first..];
    assert was[16..] == [];
  }

  lemma BumpFront(was: seq<bv8>, first: nat, i: nat)
    requires first <= i < |was|
    ensures var next := was[i] + 1;
      Bumped(was[first..i + 1]) == (if next != 0 then was[first..i] else Bumped(was[first..i])) + [next]
  {
    var s := was[first..i + 1];
    assert s[..|s| - 1] == was[first..i] && s[|s| - 1] == was[i];
  }

  lemma Carries(was: seq<bv8>, now: seq<bv8>, first: nat, i: nat, next: bv8)
    requires |was| == |now| == 16 && first <= i < 16 && Pending(was, now, first, i + 1) && next == was[i] + 1
    ensures next == 0 ==> Pending(was, now[i := next], first, i)
    ensures next != 0 ==> now[i := next] == was[..first] + Bumped(was[first..])
  {
    BumpFront(was, first, i);
    var carried := now[i := next];
    assert carried[i..] == [next] + now[i + 1..];
    assert carried[..i] == was[..i];
    if next != 0 {
      assert carried == carried[..first] + (carried[first..i] + [next] + now[i + 1..]);
      assert carried[first..i] == was[first..i];
    }
  }

  /** The carry loop: from the last byte down, until a byte does not wrap. */
  method CounterIncrement(counter: array<bv8>, wide: bool)
    requires counter.Length == 16
    modifies counter
    ensures counter[..] == Incremented(old(counter[..]), wide)
  {
    var first := if wide then 0 else 12;
    var i := 16;
    ghost var was := counter[..];
    CarryStarts(was, first);
    assert wide ==> was[first..] == was;
    while i > first
      invariant Pending(was, counter[..], first, i)
    {
      i := i - 1;
      ghost var before := counter[..];
      assert counter[i] == was[..i + 1][i];
      counter[i] := counter[i] + 1;
      Carries(was, before, first, i, counter[i]);
      if counter[i] != 0 { return; }
    }
    assert counter[..] == counter[..first] + counter[first..];
  }

  /** The counter after `n` increments. */
  function After(c: seq<bv8>, wide: bool, n: nat): (r: seq<bv8>)
    requires |c| == 16
    ensures |r| == 16
  {
    if n == 0 then c else Incremented(After(c, wide, n - 1), wide)
  }

  /** The part that counts, and the number of blocks before it wraps. */
  function Counting(c: seq<bv8>, wide: bool): seq<bv8>
    requires |c| == 16
  {
    if wide then c else c[12..]
  }

  function Period(wide: bool): nat { Span(if wide then 16 else 4) }

  lemma PeriodIs()
    ensures Period(true) == 0x1_0000_0000_0000_0000_0000_0000_0000_0000
    ensures Period(false) == 0x1_0000_0000
  {
    assert Span(4) == 0x1_0000_0000;
    assert Span(8) == 0x1_0000_0000_0000_0000;
    assert Span(12) == 0x1_0000_0000_0000_0000_0000_0000;
    assert Span(14) == 0x1_0000_0000_0000_0000_0000_0000_0000;
    assert Span(16) == 0x1_0000_0000_0000_0000_0000_0000_0000_0000;
  }

  /** One increment is +1 modulo the period, on the counting bytes; the others stay. */
  lemma IncrementAddsOne(c: seq<bv8>, wide: bool)
    requires |c| == 16
    ensures Number(Counting(Incremented(c, wide), wide))
         == if Number(Counting(c, wide)) + 1 == Period(wide) then 0 else Number(Counting(c, wide)) + 1
    ensures !wide ==> Incremented(c, wide)[..12] == c[..12]
  {
    BumpedAddsOne(Counting(c, wide));
    assert Counting(Incremented(c, wide), wide) == Bumped(Counting(c, wide));
  }

  /** `n` increments add `n`, as long as `n` does not exceed the period. */
  lemma {:induction false} AfterAdds(c: seq<bv8>, wide: bool, n: nat)
    requires |c| == 16 && n < Period(wide)
    ensures var v, p := Number(Counting(c, wide)), Period(wide);
      Number(Counting(After(c, wide, n), wide)) == if v + n < p then v + n else v + n - p
    ensures !wide ==> After(c, wide, n)[..12] == c[..12]
    decreases n
  {
    NumberBound(Counting(c, wide));
    if n > 0 {
      AfterAdds(c, wide, n - 1);
      IncrementAddsOne(After(c, wide, n - 1), wide);
    }
  }

  /** No counter block comes twice within one period. */
  lemma NoRepeat(c: seq<bv8>, wide: bool, i: nat, j: nat)
    requires |c| == 16 && i < j < Period(wide)
    ensures After(c, wide, i) != After(c, wide, j)
  {
    NumberBound(Counting(c, wide));
    AfterAdds(c, wide, i);
    AfterAdds(c, wide, j);
  }
}
