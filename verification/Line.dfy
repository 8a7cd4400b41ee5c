/** Line drawing into a sprite: an error-driven loop with no explicit bound. */
module Line {
  function Abs(a: int): nat { if a < 0 then -a else a }

  /** `p` steps from `a` towards `b`. */
  function Along(a: int, b: int, p: int): int { if a < b then a + p else a - p }

  /** How far `q` minor steps are off the ideal after `p` major ones, scaled: with `w` and
      `h` the extents of the line, the point is on the line when this is zero. */
  function Off(p: int, q: int, w: int, h: int): int { q * w - p * h }

  lemma OffSteps(p: int, q: int, w: int, h: int)
    ensures Off(p + 1, q, w, h) == Off(p, q, w, h) - h
    ensures Off(p, q + 1, w, h) == Off(p, q, w, h) + w
    ensures Off(p + 1, q + 1, w, h) == Off(p, q, w, h) - h + w
  {
  }

  /** Within half a pixel of the ideal line along the minor axis; half-way, the far side. */
  predicate Near(p: int, q: int, w: nat, h: nat) {
    if w >= h then 2 * Off(p, q, w, h) <= w && (w > 0 ==> 0 - w < 2 * Off(p, q, w, h))
    else 0 - h <= 2 * Off(p, q, w, h) < h
  }

  lemma NotAbove(a: int, b: int, n: int)
    requires n > 0 && a * n < b * n + n
    ensures a <= b
  {
    if a > b {
      Times(a - b, n);
      Difference(a, b, n);
    }
  }

  lemma QuotientIs(x: int, n: nat, q: int)
    requires n > 0 && q * n <= x < q * n + n
    ensures x / n == q
  {
    NotAbove(q, x / n, n);
    NotAbove(x / n, q, n);
  }

  /** Which is the ideal place, rounded to the nearest pixel and half-way upwards. */
  lemma NearIsRounded(p: int, q: int, w: nat, h: nat)
    requires Near(p, q, w, h) && w + h > 0
    ensures if w >= h then q == (2 * p * h + w) / (2 * w) else p == (2 * q * w + h) / (2 * h)
  {
    if w >= h {
      assert q * (2 * w) == 2 * (q * w) && 2 * p * h == 2 * (p * h);
      QuotientIs(2 * p * h + w, 2 * w, q);
    } else {
      assert p * (2 * h) == 2 * (p * h) && 2 * q * w == 2 * (q * w);
      QuotientIs(2 * q * w + h, 2 * h, p);
    }
  }

  /** The longer extent is stepped every time. */
  function Steps(w: nat, h: nat): nat { if w >= h then w else h }

  function Major(p: int, q: int, w: nat, h: nat): int { if w >= h then p else q }

  /** The two tests of the loop: whether to step in x and in y. */
  predicate StepX(err: int, h: int) { 2 * err >= -h }

  predicate StepY(err: int, w: int) { 2 * err <= w }

  /** One turn keeps the point near the line and advances the major axis by one. */
  lemma TurnStaysNear(p: int, q: int, w: nat, h: nat, err: int)
    requires Near(p, q, w, h) && err == Off(p, q, w, h) + w - h
    ensures var p', q' := if StepX(err, h) then p + 1 else p, if StepY(err, w) then q + 1 else q;
      Near(p', q', w, h) && Major(p', q', w, h) == Major(p, q, w, h) + 1
  {
    OffSteps(p, q, w, h);
  }

  lemma Times(d: int, n: nat)
    requires d >= 1
    ensures d * n >= n
  {
  }

  lemma Difference(a: int, b: int, n: int)
    ensures a * n - b * n == (a - b) * n
  {
  }

  /** A value off by less than a whole `n` between bounds lies between the bounds. */
  lemma Between(a: int, lo: int, hi: int, x: int, n: nat)
    requires n > 0 && lo * n <= x <= hi * n && Abs(2 * (a * n - x)) <= n
    ensures lo <= a <= hi
  {
    if a > hi {
      Times(a - hi, n);
      Difference(a, hi, n);
    }
    if a < lo {
      Times(lo - a, n);
      Difference(lo, a, n);
    }
  }

  lemma Bounded(p: int, w: nat, h: nat)
    requires 0 <= p <= w
    ensures 0 <= p * h <= w * h
  {
    assert (w - p) * h >= 0;
    Difference(w, p, h);
  }

  /** While the major axis is between its ends, so is the minor one. */
  lemma StaysInBox(p: int, q: int, w: nat, h: nat)
    requires Near(p, q, w, h) && 0 <= Major(p, q, w, h) <= Steps(w, h) && w + h > 0
    ensures 0 <= p <= w && 0 <= q <= h
  {
    if w >= h {
      Bounded(p, w, h);
      Between(q, 0, h, p * h, w);
    } else {
      Bounded(q, h, w);
      Between(p, 0, w, q * w, h);
    }
  }

  /** After the last step the minor axis has arrived too. */
  lemma Arrives(p: int, q: int, w: nat, h: nat)
    requires Near(p, q, w, h) && Major(p, q, w, h) == Steps(w, h) && w + h > 0
    ensures p == w && q == h
  {
    if w >= h {
      Between(q, h, h, p * h, w);
    } else {
      Between(p, w, w, q * w, h);
    }
  }

  /** The loop's error stays small: no overflow for lines of less than 2^29 pixels either way. */
  lemma ErrorBound(p: int, q: int, w: nat, h: nat, err: int)
    requires Near(p, q, w, h) && err == Off(p, q, w, h) + w - h && w < 0x2000_0000 && h < 0x2000_0000
    ensures -0x8000_0000 < 2 * err < 0x8000_0000
  {
  }

  // ----- pixels -----

  /** Steps taken in x and in y. */
  datatype Pos = Pos(p: int, q: int)

  datatype Point = Point(x: int, y: int)

  function PointOf(a: Point, b: Point, s: Pos): Point { Point(Along(a.x, b.x, s.p), Along(a.y, b.y, s.q)) }

  predicate Inside(t: Point, sw: int, sh: int) { 0 <= t.x < sw && 0 <= t.y < sh }

  function Index(t: Point, sw: int): int { t.y * sw + t.x }

  lemma IndexInRange(t: Point, sw: int, sh: int, n: int)
    requires Inside(t, sw, sh) && sh * sw <= n
    ensures 0 <= Index(t, sw) < n
  {
    Times(sh - t.y, sw);
    Difference(sh, t.y, sw);
    assert t.y * sw >= 0;
  }

  lemma IndexInjective(t: Point, u: Point, sw: int, sh: int)
    requires Inside(t, sw, sh) && Inside(u, sw, sh) && Index(t, sw) == Index(u, sw)
    ensures t == u
  {
    Difference(t.y, u.y, sw);
    if t.y > u.y {
      Times(t.y - u.y, sw);
    }
    if t.y < u.y {
      Times(u.y - t.y, sw);
      Difference(u.y, t.y, sw);
    }
  }

  /** Set one pixel, if it is inside. */
  method Plot(buf: array<bv16>, sw: int, sh: int, t: Point, color: bv16)
    requires sw > 0 && sh > 0 ==> sh * sw <= buf.Length
    modifies buf
    ensures forall u :: Inside(u, sw, sh) ==> 0 <= u.y * sw + u.x < buf.Length
    ensures forall u :: Inside(u, sw, sh) ==> buf[Index(u, sw)] == if u == t then color else old(buf[Index(u, sw)])
    ensures !Inside(t, sw, sh) ==> buf[..] == old(buf[..])
  {
    forall u | Inside(u, sw, sh)
      ensures 0 <= Index(u, sw) < buf.Length
      ensures Inside(t, sw, sh) && Index(u, sw) == Index(t, sw) ==> u == t
    {
      IndexInRange(u, sw, sh, buf.Length);
      if Inside(t, sw, sh) && Index(u, sw) == Index(t, sw) {
        IndexInjective(u, t, sw, sh);
      }
    }
    if Inside(t, sw, sh) {
      buf[Index(t, sw)] := color;
    }
  }

  predicate Passes(a: Point, b: Point, trace: seq<Pos>, u: Point) {
    exists i :: 0 <= i < |trace| && PointOf(a, b, trace[i]) == u
  }

  lemma PassesMore(a: Point, b: Point, trace: seq<Pos>, s: Pos)
    ensures forall u :: Passes(a, b, trace + [s], u) <==> Passes(a, b, trace, u) || u == PointOf(a, b, s)
  {
    forall u | Passes(a, b, trace, u) || u == PointOf(a, b, s)
      ensures Passes(a, b, trace + [s], u)
    {
      if u == PointOf(a, b, s) {
        assert PointOf(a, b, (trace + [s])[|trace|]) == u;
      } else {
        var i :| 0 <= i < |trace| && PointOf(a, b, trace[i]) == u;
        assert PointOf(a, b, (trace + [s])[i]) == u;
      }
    }
  }

  /** A trace along a line: one major step per entry, every entry in the box of the line
      and within half a pixel of it. */
  ghost predicate TraceOk(w: nat, h: nat, trace: seq<Pos>) {
    forall i :: 0 <= i < |trace| ==> Entry(w, h, trace[i], i)
  }

  predicate Entry(w: nat, h: nat, s: Pos, i: nat) {
    Major(s.p, s.q, w, h) == i && Near(s.p, s.q, w, h) && 0 <= s.p <= w && 0 <= s.q <= h
  }

  /** Where the loop stands after `i` turns. */
  ghost predicate Standing(a: Point, b: Point, t: Point, err: int, s: Pos, i: nat) {
    var w, h := Abs(b.x - a.x), Abs(b.y - a.y);
    Entry(w, h, s, i) && t == PointOf(a, b, s) && err == Off(s.p, s.q, w, h) + w - h
  }

  lemma NotYet(a: Point, b: Point, t: Point, err: int, s: Pos, i: nat)
    requires Standing(a, b, t, err, s, i) && t != b
    ensures i < Steps(Abs(b.x - a.x), Abs(b.y - a.y))
  {
    var w, h := Abs(b.x - a.x), Abs(b.y - a.y);
    if i >= Steps(w, h) {
      Arrives(s.p, s.q, w, h);
    }
  }

  lemma TurnKeeps(w: nat, h: nat, s: Pos, s': Pos, err: int, err': int, i: nat)
    requires Entry(w, h, s, i) && err == Off(s.p, s.q, w, h) + w - h && i < Steps(w, h)
    requires s' == Pos(if StepX(err, h) then s.p + 1 else s.p, if StepY(err, w) then s.q + 1 else s.q)
    requires err' == err - (if StepX(err, h) then h else 0) + (if StepY(err, w) then w else 0)
    ensures Entry(w, h, s', i + 1) && err' == Off(s'.p, s'.q, w, h) + w - h
  {
    TurnStaysNear(s.p, s.q, w, h, err);
    OffSteps(s.p, s.q, w, h);
    StaysInBox(s'.p, s'.q, w, h);
  }

  lemma TurnStands(a: Point, b: Point, t: Point, err: int, s: Pos, i: nat, w: nat, h: nat, t': Point,
                   err': int, s': Pos)
    requires Standing(a, b, t, err, s, i) && t != b && w == Abs(b.x - a.x) && h == Abs(b.y - a.y)
    requires s' == Pos(if StepX(err, h) then s.p + 1 else s.p, if StepY(err, w) then s.q + 1 else s.q)
    requires err' == err - (if StepX(err, h) then h else 0) + (if StepY(err, w) then w else 0)
    requires t' == PointOf(a, b, s')
    ensures Standing(a, b, t', err', s', i + 1)
  {
    NotYet(a, b, t, err, s, i);
    TurnKeeps(w, h, s, s', err, err', i);
  }

  /** One turn of the loop. */
  method Turn(a: Point, b: Point, t: Point, err: int, ghost s: Pos, ghost i: nat)
    returns (t': Point, err': int, ghost s': Pos)
    requires Standing(a, b, t, err, s, i) && t != b
    ensures Standing(a, b, t', err', s', i + 1)
  {
    var dx: int, sx: int := Abs(b.x - a.x), if a.x < b.x then 1 else -1;
    var dy: int, sy: int := 0 - Abs(b.y - a.y), if a.y < b.y then 1 else -1;
    t', err', s' := t, err, s;
    var e2 := 2 * err;
    if e2 >= dy {
      err', t', s' := err' + dy, t'.(x := t'.x + sx), s'.(p := s'.p + 1);
    }
    if e2 <= dx {
      err', t', s' := err' + dx, t'.(y := t'.y + sy), s'.(q := s'.q + 1);
    }
    TurnStands(a, b, t, err, s, i, dx, 0 - dy, t', err', s');
  }

  /** The pixel of step `i`: one along the longer extent each time, and along the other one the
      ideal place, rounded. */
  lemma EntryByNumber(w: nat, h: nat, s: Pos, i: nat)
    requires Entry(w, h, s, i)
    ensures s == if w >= h then Pos(i, if w == 0 then 0 else (2 * i * h + w) / (2 * w))
                 else Pos((2 * i * w + h) / (2 * h), i)
  {
    if w + h > 0 {
      NearIsRounded(s.p, s.q, w, h);
    }
  }

  /** The pixels set so far are those of the trace. */
  ghost predicate Painted(before: seq<bv16>, after: seq<bv16>, sw: int, sh: int, a: Point, b: Point, trace: seq<Pos>,
                          color: bv16)
  {
    |before| == |after| && forall u :: Inside(u, sw, sh) ==>
      && 0 <= Index(u, sw) < |after|
      && after[Index(u, sw)] == if Passes(a, b, trace, u) then color else before[Index(u, sw)]
  }

  lemma PixelsByNumber(before: seq<bv16>, after: seq<bv16>, sw: int, sh: int, a: Point, b: Point, trace: seq<Pos>,
                       color: bv16)
    requires Painted(before, after, sw, sh, a, b, trace, color)
    ensures forall u: Point :: 0 <= u.x < sw && 0 <= u.y < sh ==>
              && 0 <= u.y * sw + u.x < |after|
              && after[u.y * sw + u.x] == if Passes(a, b, trace, u) then color else before[u.y * sw + u.x]
    ensures forall u: Point :: Passes(a, b, trace, u) <==>
              exists i :: 0 <= i < |trace| && u.x == (if a.x < b.x then a.x + trace[i].p else a.x - trace[i].p)
                                           && u.y == (if a.y < b.y then a.y + trace[i].q else a.y - trace[i].q)
  {
    forall u: Point | 0 <= u.x < sw && 0 <= u.y < sh
      ensures 0 <= u.y * sw + u.x < |after|
      ensures after[u.y * sw + u.x] == if Passes(a, b, trace, u) then color else before[u.y * sw + u.x]
    {
      assert Inside(u, sw, sh) && Index(u, sw) == u.y * sw + u.x;
    }
  }

  lemma PaintedMore(before: seq<bv16>, mid: seq<bv16>, after: seq<bv16>, sw: int, sh: int, a: Point, b: Point,
                    trace: seq<Pos>, s: Pos, t: Point, color: bv16)
    requires Painted(before, mid, sw, sh, a, b, trace, color) && t == PointOf(a, b, s) && |after| == |mid|
    requires forall u :: Inside(u, sw, sh) ==>
               0 <= Index(u, sw) < |after| && after[Index(u, sw)] == if u == t then color else mid[Index(u, sw)]
    ensures Painted(before, after, sw, sh, a, b, trace + [s], color)
  {
    PassesMore(a, b, trace, s);
  }

  lemma StandsFirst(a: Point, b: Point, w: nat, h: nat, err: int)
    requires w == Abs(b.x - a.x) && h == Abs(b.y - a.y) && err == w - h
    ensures Standing(a, b, a, err, Pos(0, 0), 0) && PointOf(a, b, Pos(0, 0)) == a && TraceOk(w, h, [Pos(0, 0)])
  {
    assert Off(0, 0, w, h) == 0;
  }

  lemma TraceMore(a: Point, b: Point, w: nat, h: nat, trace: seq<Pos>, t: Point, err: int, s: Pos)
    requires w == Abs(b.x - a.x) && h == Abs(b.y - a.y) && TraceOk(w, h, trace) && Standing(a, b, t, err, s, |trace|)
    ensures TraceOk(w, h, trace + [s]) && t == PointOf(a, b, s)
  {
  }

  /** The loop. */
  method DrawSteps(buf: array<bv16>, sw: int, sh: int, a: Point, b: Point, color: bv16) returns (ghost trace: seq<Pos>)
    requires sw > 0 && sh > 0 ==> sh * sw <= buf.Length
    modifies buf
    ensures var w, h := Abs(b.x - a.x), Abs(b.y - a.y);
      |trace| == Steps(w, h) + 1 && TraceOk(w, h, trace)
      && PointOf(a, b, trace[0]) == a && PointOf(a, b, trace[|trace| - 1]) == b
    ensures Painted(old(buf[..]), buf[..], sw, sh, a, b, trace, color)
  {
    ghost var w, h := Abs(b.x - a.x), Abs(b.y - a.y);
    var err: int := Abs(b.x - a.x) - Abs(b.y - a.y);
    var t := a;
    ghost var s := Pos(0, 0);
    StandsFirst(a, b, w, h, err);
    trace := [s];
    Plot(buf, sw, sh, a, color);
    while t != b
      invariant |trace| > 0 && Standing(a, b, t, err, s, |trace| - 1)
      invariant s == trace[|trace| - 1] && trace[0] == Pos(0, 0) && TraceOk(w, h, trace)
      invariant Painted(old(buf[..]), buf[..], sw, sh, a, b, trace, color)
      decreases Steps(w, h) + 1 - |trace|
    {
      NotYet(a, b, t, err, s, |trace| - 1);
      t, err, s := Turn(a, b, t, err, s, |trace| - 1);
      TraceMore(a, b, w, h, trace, t, err, s);
      ghost var mid := buf[..];
      Plot(buf, sw, sh, t, color);
      PaintedMore(old(buf[..]), mid, buf[..], sw, sh, a, b, trace, s, t, color);
      trace := trace + [s];
    }
    ArrivedLast(a, b, w, h, s, |trace| - 1);
  }

  /** Draw a line from `a` to `b`: the pixels are those of the steps, as far as they are inside. */
  method DrawLine(buf: array<bv16>, sw: int, sh: int, a: Point, b: Point, color: bv16) returns (ghost trace: seq<Pos>)
    requires sw > 0 && sh > 0 ==> sh * sw <= buf.Length
    modifies buf
    ensures var w, h := Abs(b.x - a.x), Abs(b.y - a.y);
      && |trace| == (if w >= h then w else h) + 1 && TraceOk(w, h, trace)
      && PointOf(a, b, trace[0]) == a && PointOf(a, b, trace[|trace| - 1]) == b
    ensures forall u: Point :: 0 <= u.x < sw && 0 <= u.y < sh ==>
              && 0 <= u.y * sw + u.x < buf.Length
              && buf[..][u.y * sw + u.x] == if Passes(a, b, trace, u) then color else old(buf[..])[u.y * sw + u.x]
    ensures forall u: Point :: Passes(a, b, trace, u) <==>
              exists i :: 0 <= i < |trace| && u.x == (if a.x < b.x then a.x + trace[i].p else a.x - trace[i].p)
                                           && u.y == (if a.y < b.y then a.y + trace[i].q else a.y - trace[i].q)
  {
    trace := DrawSteps(buf, sw, sh, a, b, color);
    PixelsByNumber(old(buf[..]), buf[..], sw, sh, a, b, trace, color);
  }

  lemma ArrivedLast(a: Point, b: Point, w: nat, h: nat, s: Pos, i: nat)
    requires w == Abs(b.x - a.x) && h == Abs(b.y - a.y) && Entry(w, h, s, i) && PointOf(a, b, s) == b
    ensures i == Steps(w, h)
  {
  }
}
