/** Tasks that wait in a ring-buffer receive. A send or a completed reservation serves the first
    of them; giving an item back serves nobody. */
module RingWaiters {
  import opened Options
  import opened RingBuffer

  /** A buffer and, per task, the limit of the receive it waits in, if it does. */
  datatype Hall = Hall(meta: Meta, waits: seq<Option<nat>>)

  /** What may happen to it. `Timeout` is the deadline of a wait passing. */
  datatype Event =
    | Sending(size: nat)
    | Completing(offset: int)
    | Receiving(task: nat, max: nat)
    | Returning
    | Reserving(size: nat)
    | Timeout(task: nat)

  /** The first waiter in table order. */
  function FirstWait(ws: seq<Option<nat>>): (r: int)
    ensures -1 <= r < |ws|
    ensures r >= 0 ==> ws[r].Some? && forall i :: 0 <= i < r ==> ws[i].None?
    ensures r < 0 ==> forall i :: 0 <= i < |ws| ==> ws[i].None?
  {
    if ws == [] then -1
    else
      var r := FirstWait(ws[..|ws| - 1]);
      if r >= 0 then r else if ws[|ws| - 1].Some? then |ws| - 1 else -1
  }

  /** The scan, which stops at the first waiter whether or not it can be served. */
  method ScanWaits(ws: seq<Option<nat>>) returns (i: int)
    ensures i == FirstWait(ws)
  {
    i := 0;
    while i < |ws|
      invariant 0 <= i <= |ws| && forall k :: 0 <= k < i ==> ws[k].None?
    {
      if ws[i].Some? { return; }
      i := i + 1;
    }
    i := -1;
  }

  function Lent(kind: Kind, m: Meta, max: nat): Meta
    requires Borrows(kind, m, max)
  {
    m.(borrowed := Out(BorrowSize(kind, m, max)))
  }

  /** The first waiter gets the oldest item, or what its limit allows, if it can be lent now. */
  function Woken(kind: Kind, h: Hall): Hall {
    var i := FirstWait(h.waits);
    if i >= 0 && Borrows(kind, h.meta, h.waits[i].value)
    then Hall(Lent(kind, h.meta, h.waits[i].value), h.waits[i := None])
    else h
  }

  method Wake(kind: Kind, h: Hall) returns (woke: bool, h': Hall)
    ensures h' == Woken(kind, h) && (!woke ==> h' == h)
    ensures (forall i :: 0 <= i < |h.waits| ==> h.waits[i].None?) ==> !woke
    ensures forall i :: 0 <= i < |h.waits| && h.waits[i].Some? && (forall k :: 0 <= k < i ==> h.waits[k].None?) ==>
      var m, max := h.meta, h.waits[i].value;
      && (woke <==> m.borrowed == Free && max > 0 && if kind == ByteBuf then m.used > 0 else |m.lens| > 0)
      && (woke ==> h'.waits == h.waits[i := None] && h'.meta == m.(borrowed := Out(
                     if kind != ByteBuf then m.lens[0] else if m.used < max then m.used else max)))
  {
    woke, h' := false, h;
    var i := ScanWaits(h.waits);
    if i < 0 { return; }
    var max := h.waits[i].value;
    if !Borrows(kind, h.meta, max) { return; }
    woke, h' := true, Hall(Lent(kind, h.meta, max), h.waits[i := None]);
  }

  function Next(kind: Kind, capacity: nat, h: Hall, e: Event): Hall {
    match e
    case Sending(size) =>
      if Sends(kind, capacity, h.meta, size)
      then Woken(kind, h.(meta := After(kind, capacity, h.meta, Send(size)))) else h
    case Completing(offset) =>
      if Completes(h.meta, offset)
      then Woken(kind, h.(meta := After(kind, capacity, h.meta, Complete(offset)))) else h
    case Receiving(task, max) =>
      if Borrows(kind, h.meta, max) then h.(meta := Lent(kind, h.meta, max))
      else if h.meta.borrowed.Free? && task < |h.waits| then h.(waits := h.waits[task := Some(max)])
      else h
    case Returning => h.(meta := After(kind, capacity, h.meta, GiveBack))
    case Reserving(size) => h.(meta := After(kind, capacity, h.meta, Acquire(size)))
    case Timeout(task) => if task < |h.waits| then h.(waits := h.waits[task := None]) else h
  }

  /** The rules of the events. A send that fits and a completion at the end of the used bytes wake;
      a receive is served, or waits if nothing is lent out; the others wake nobody. */
  lemma EventRules(kind: Kind, capacity: nat, h: Hall, e: Event)
    ensures e.Sending? ==>
      Next(kind, capacity, h, e) ==
      if h.meta.acquired == Free && h.meta.used + e.size <= capacity && (kind == ByteBuf || |h.meta.lens| < 256)
      then Woken(kind, h.(meta := h.meta.(used := h.meta.used + e.size,
                                          lens := h.meta.lens + if kind == ByteBuf then [] else [e.size])))
      else h
    ensures e.Completing? ==>
      Next(kind, capacity, h, e) ==
      if h.meta.acquired.Out? && e.offset == h.meta.used
      then Woken(kind, h.(meta := After(kind, capacity, h.meta, Complete(e.offset)))) else h
    ensures e.Receiving? ==>
      var m := h.meta;
      Next(kind, capacity, h, e) ==
      if m.borrowed.Out? then h
      else if e.max > 0 && (if kind == ByteBuf then m.used > 0 else |m.lens| > 0)
      then h.(meta := m.(borrowed := Out(
                if kind != ByteBuf then m.lens[0] else if m.used < e.max then m.used else e.max)))
      else if e.task < |h.waits| then h.(waits := h.waits[e.task := Some(e.max)]) else h
    ensures e.Returning? || e.Reserving? ==> Next(kind, capacity, h, e).waits == h.waits
    ensures e.Returning? ==> Next(kind, capacity, h, e).meta == After(kind, capacity, h.meta, GiveBack)
    ensures e.Timeout? && e.task < |h.waits| ==> Next(kind, capacity, h, e) == h.(waits := h.waits[e.task := None])
  {
    if e.Sending? && kind == ByteBuf {
      assert h.meta.lens + [] == h.meta.lens;
    }
  }

  /** A task waits although it could be lent something now. */
  predicate InVain(kind: Kind, h: Hall, i: nat)
    requires i < |h.waits|
  {
    h.waits[i].Some? && Borrows(kind, h.meta, h.waits[i].value)
  }

  ghost predicate Fair(kind: Kind, h: Hall) { forall i :: 0 <= i < |h.waits| ==> !InVain(kind, h, i) }

  predicate Holds(kind: Kind, m: Meta) { if kind.ByteBuf? then m.used != 0 else m.lens != [] }

  /** Somebody waits with a limit that an item could meet. */
  predicate Hungry(ws: seq<Option<nat>>) { exists i :: 0 <= i < |ws| && ws[i].Some? && ws[i].value != 0 }

  /** The first waiter asks for nothing and keeps the others waiting. */
  predicate Blocked(ws: seq<Option<nat>>) { FirstWait(ws) >= 0 && ws[FirstWait(ws)].value == 0 && Hungry(ws) }

  lemma FairExactly(kind: Kind, h: Hall)
    ensures Fair(kind, h) <==> h.meta.borrowed.Out? || !Holds(kind, h.meta) || !Hungry(h.waits)
  {
    if i :| 0 <= i < |h.waits| && h.waits[i].Some? && h.waits[i].value != 0 {
      assert InVain(kind, h, i) <==> h.meta.borrowed.Free? && Holds(kind, h.meta);
    }
  }

  /** Waking is fair unless the first waiter asks for nothing. */
  lemma WokenFair(kind: Kind, h: Hall)
    ensures Fair(kind, Woken(kind, h)) <==> h.meta.borrowed.Out? || !Holds(kind, h.meta) || !Blocked(h.waits)
  {
    FairExactly(kind, h);
    FairExactly(kind, Woken(kind, h));
    var i := FirstWait(h.waits);
    if i >= 0 && h.waits[i].value != 0 {
      assert Hungry(h.waits);
    }
  }

  /** What a caller can check beforehand. */
  predicate KeepsFair(kind: Kind, capacity: nat, h: Hall, e: Event) {
    match e
    case Sending(size) =>
      var m := After(kind, capacity, h.meta, Send(size));
      Sends(kind, capacity, h.meta, size) && h.meta.borrowed.Free? && Holds(kind, m) ==> !Blocked(h.waits)
    case Completing(offset) =>
      Completes(h.meta, offset) && h.meta.borrowed.Free? && !kind.ByteBuf? ==> !Blocked(h.waits)
    case Returning =>
      h.meta.borrowed.Out? && Holds(kind, After(kind, capacity, h.meta, GiveBack)) ==> !Hungry(h.waits)
    case _ => true
  }

  /** Exactly when an event leaves nobody waiting in vain: returning an item does if and only if
      nothing is left or nobody is waiting for it. */
  lemma FairNext(kind: Kind, capacity: nat, h: Hall, e: Event)
    requires MetaOk(kind, capacity, h.meta) && Fair(kind, h)
    ensures Fair(kind, Next(kind, capacity, h, e)) <==> KeepsFair(kind, capacity, h, e)
  {
    var next := Next(kind, capacity, h, e);
    FairExactly(kind, h);
    FairExactly(kind, next);
    match e
    case Sending(size) => WokenFair(kind, h.(meta := After(kind, capacity, h.meta, Send(size))));
    case Completing(offset) => WokenFair(kind, h.(meta := After(kind, capacity, h.meta, Complete(offset))));
    case Receiving(task, max) =>
      if !Borrows(kind, h.meta, max) && h.meta.borrowed.Free? && task < |h.waits| {
        Parking(h.waits, task, max);
      }
    case Returning =>
    case Reserving(size) =>
    case Timeout(task) =>
      if task < |h.waits| && Hungry(h.waits[task := None]) {
        assert Hungry(h.waits);
      }
  }

  /** For a return: exactly when it was the last item or byte there, or nobody waits for one. */
  lemma ReturnIsFair(kind: Kind, capacity: nat, h: Hall)
    requires MetaOk(kind, capacity, h.meta) && h.meta.borrowed.Out?
    ensures Fair(kind, Next(kind, capacity, h, Returning)) <==>
      || (if kind == ByteBuf then h.meta.used == h.meta.borrowed.len else |h.meta.lens| == 1)
      || forall i :: 0 <= i < |h.waits| ==> h.waits[i].None? || h.waits[i].value == 0
  {
    FairExactly(kind, h);
    FairExactly(kind, Next(kind, capacity, h, Returning));
    FairNext(kind, capacity, h, Returning);
  }

  lemma Parking(ws: seq<Option<nat>>, task: nat, max: nat)
    requires task < |ws|
    ensures max == 0 && Hungry(ws[task := Some(max)]) ==> Hungry(ws)
  {
  }

  function NextAll(kind: Kind, capacity: nat, h: Hall, events: seq<Event>): Hall {
    if events == [] then h
    else Next(kind, capacity, NextAll(kind, capacity, h, events[..|events| - 1]), events[|events| - 1])
  }

  lemma OneEvent(kind: Kind, capacity: nat, h: Hall, events: seq<Event>, n: nat)
    requires n < |events|
    ensures NextAll(kind, capacity, h, events[..n + 1])
            == Next(kind, capacity, NextAll(kind, capacity, h, events[..n]), events[n])
  {
    assert events[..n + 1][..n] == events[..n];
  }

  lemma LentIsBorrowed(kind: Kind, capacity: nat, m: Meta, max: nat)
    requires MetaOk(kind, capacity, m) && Borrows(kind, m, max)
    ensures MetaOk(kind, capacity, Lent(kind, m, max))
  {
    CallKeeps(kind, capacity, m, Borrow(max));
  }

  lemma WokenKeeps(kind: Kind, capacity: nat, h: Hall)
    requires MetaOk(kind, capacity, h.meta)
    ensures MetaOk(kind, capacity, Woken(kind, h).meta)
  {
    var i := FirstWait(h.waits);
    if i >= 0 && Borrows(kind, h.meta, h.waits[i].value) {
      LentIsBorrowed(kind, capacity, h.meta, h.waits[i].value);
    }
  }

  /** Every event keeps the bookkeeping in order. */
  lemma NextKeeps(kind: Kind, capacity: nat, h: Hall, e: Event)
    requires MetaOk(kind, capacity, h.meta)
    ensures MetaOk(kind, capacity, Next(kind, capacity, h, e).meta)
  {
    match e
    case Sending(size) =>
      CallKeeps(kind, capacity, h.meta, Send(size));
      WokenKeeps(kind, capacity, h.(meta := After(kind, capacity, h.meta, Send(size))));
    case Completing(offset) =>
      CallKeeps(kind, capacity, h.meta, Complete(offset));
      WokenKeeps(kind, capacity, h.(meta := After(kind, capacity, h.meta, Complete(offset))));
    case Receiving(task, max) =>
      if Borrows(kind, h.meta, max) {
        LentIsBorrowed(kind, capacity, h.meta, max);
      }
    case Returning => CallKeeps(kind, capacity, h.meta, GiveBack);
    case Reserving(size) => CallKeeps(kind, capacity, h.meta, Acquire(size));
    case Timeout(task) =>
  }

  lemma {:induction false} KeptSoFar(kind: Kind, capacity: nat, h: Hall, events: seq<Event>, n: nat)
    requires MetaOk(kind, capacity, h.meta) && n <= |events|
    ensures MetaOk(kind, capacity, NextAll(kind, capacity, h, events[..n]).meta)
    decreases n
  {
    if n > 0 {
      KeptSoFar(kind, capacity, h, events, n - 1);
      OneEvent(kind, capacity, h, events, n - 1);
      NextKeeps(kind, capacity, NextAll(kind, capacity, h, events[..n - 1]), events[n - 1]);
    } else {
      assert events[..0] == [];
    }
  }

  /** The condition holds of the `n`th event, as things stand when it happens. */
  ghost predicate FairAt(kind: Kind, capacity: nat, h: Hall, events: seq<Event>, n: nat)
    requires n < |events|
  {
    KeepsFair(kind, capacity, NextAll(kind, capacity, h, events[..n]), events[n])
  }

  lemma FairOn(kind: Kind, capacity: nat, s: Hall, e: Event, t: Hall)
    requires t == Next(kind, capacity, s, e) && MetaOk(kind, capacity, s.meta) && Fair(kind, s)
    requires KeepsFair(kind, capacity, s, e)
    ensures Fair(kind, t)
  {
    FairNext(kind, capacity, s, e);
  }

  lemma {:induction false} FairSoFar(kind: Kind, capacity: nat, h: Hall, events: seq<Event>, n: nat)
    requires MetaOk(kind, capacity, h.meta) && Fair(kind, h) && n <= |events|
    requires forall k | 0 <= k < n :: FairAt(kind, capacity, h, events, k)
    ensures Fair(kind, NextAll(kind, capacity, h, events[..n]))
    decreases n
  {
    if n > 0 {
      FairSoFar(kind, capacity, h, events, n - 1);
      KeptSoFar(kind, capacity, h, events, n - 1);
      OneEvent(kind, capacity, h, events, n - 1);
      assert FairAt(kind, capacity, h, events, n - 1);
      FairOn(kind, capacity, NextAll(kind, capacity, h, events[..n - 1]), events[n - 1],
             NextAll(kind, capacity, h, events[..n]));
    } else {
      assert events[..0] == [];
    }
  }

  /** Over any events, nobody ever waits in vain if and only if each of them meets its condition. */
  lemma FairThroughout(kind: Kind, capacity: nat, h: Hall, events: seq<Event>)
    requires MetaOk(kind, capacity, h.meta) && Fair(kind, h)
    ensures (forall n | 0 <= n <= |events| :: Fair(kind, NextAll(kind, capacity, h, events[..n])))
            <==> (forall n | 0 <= n < |events| :: FairAt(kind, capacity, h, events, n))
  {
    if forall n | 0 <= n < |events| :: FairAt(kind, capacity, h, events, n) {
      forall n | 0 <= n <= |events|
        ensures Fair(kind, NextAll(kind, capacity, h, events[..n]))
      {
        FairSoFar(kind, capacity, h, events, n);
      }
    }
    if forall n | 0 <= n <= |events| :: Fair(kind, NextAll(kind, capacity, h, events[..n])) {
      forall n | 0 <= n < |events|
        ensures FairAt(kind, capacity, h, events, n)
      {
        KeptSoFar(kind, capacity, h, events, n);
        OneEvent(kind, capacity, h, events, n);
        assert Fair(kind, NextAll(kind, capacity, h, events[..n]));
        assert Fair(kind, NextAll(kind, capacity, h, events[..n + 1]));
        FairNext(kind, capacity, NextAll(kind, capacity, h, events[..n]), events[n]);
      }
    }
  }

  /** Two tasks wait, two items come, the first is served and gives its item back. */
  const STEPS: seq<Event> := [Receiving(0, 9), Receiving(1, 9), Sending(1), Sending(1), Returning]

  /** A buffer that holds `n` items of one byte. */
  function Items(n: nat, borrowed: Loan): Meta { Meta(n, seq(n, _ => 1), borrowed, Free) }

  lemma TwoWait(capacity: nat)
    ensures Next(NoSplit, capacity, Hall(Items(0, Free), [None, None]), STEPS[0])
            == Hall(Items(0, Free), [Some(9), None])
    ensures Next(NoSplit, capacity, Hall(Items(0, Free), [Some(9), None]), STEPS[1])
            == Hall(Items(0, Free), [Some(9), Some(9)])
  {
  }

  lemma FirstServed(capacity: nat)
    requires capacity >= 2
    ensures Next(NoSplit, capacity, Hall(Items(0, Free), [Some(9), Some(9)]), STEPS[2])
            == Hall(Items(1, Out(1)), [None, Some(9)])
  {
    assert [] + [1] == Items(1, Free).lens;
    assert FirstWait([Some(9), Some(9)]) == 0;
    assert [Some(9), Some(9)][0 := None] == [None, Some(9)];
  }

  lemma SecondPassedOver(capacity: nat)
    requires capacity >= 2
    ensures Next(NoSplit, capacity, Hall(Items(1, Out(1)), [None, Some(9)]), STEPS[3])
            == Hall(Items(2, Out(1)), [None, Some(9)])
    ensures Next(NoSplit, capacity, Hall(Items(2, Out(1)), [None, Some(9)]), STEPS[4])
            == Hall(Items(1, Free), [None, Some(9)])
  {
    assert Items(1, Free).lens + [1] == Items(2, Free).lens;
    assert Items(2, Free).lens[1..] == Items(1, Free).lens;
  }

  /** It happens from a new buffer: the second task waits on with the other item there. */
  lemma ReturnWakesNobody(capacity: nat)
    requires capacity >= 2
    ensures var h := NextAll(NoSplit, capacity, Hall(Items(0, Free), [None, None]), STEPS);
            |h.waits| == 2 && InVain(NoSplit, h, 1)
  {
    var h := Hall(Items(0, Free), [None, None]);
    assert STEPS[..0] == [] && STEPS[..5] == STEPS;
    TwoWait(capacity);
    FirstServed(capacity);
    SecondPassedOver(capacity);
    OneEvent(NoSplit, capacity, h, STEPS, 0);
    OneEvent(NoSplit, capacity, h, STEPS, 1);
    OneEvent(NoSplit, capacity, h, STEPS, 2);
    OneEvent(NoSplit, capacity, h, STEPS, 3);
    OneEvent(NoSplit, capacity, h, STEPS, 4);
  }
}
