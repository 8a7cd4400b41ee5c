/** Event groups: the wake pass of a setter, and why nobody it passes over is left
    waiting for bits that are there. */
module KernelEvents {
  import opened QueueRing
  import opened KernelTypes
  import opened QueueHistory
  import opened KernelSteps

  predicate Within(small: bv32, large: bv32) { small & large == small }

  lemma WithinTransitive(a: bv32, b: bv32, c: bv32)
    requires Within(a, b) && Within(b, c)
    ensures Within(a, c)
  {
  }

  lemma ClearedIsWithin(bits: bv32, cleared: bv32)
    ensures Within(bits & !cleared, bits)
  {
  }

  /** Taking bits away never meets a condition. */
  lemma UnmetStaysUnmet(small: bv32, large: bv32, wanted: bv32, all: bool)
    requires Within(small, large) && !ConditionMet(large, wanted, all)
    ensures !ConditionMet(small, wanted, all)
  {
    if all {
      assert small & wanted == wanted ==> large & wanted == wanted;
    } else {
      assert large & wanted == 0 && small & large == small ==> small & wanted == 0;
    }
  }

  /** A waiter let go with the bits as they stood when its condition was met. */
  function Released(t: Tcb, bits: bv32): Tcb {
    t.(state := Ready, ret := bits, eg := t.eg.(waiting := false))
  }

  predicate Satisfied(t: Tcb, h: nat, bits: bv32) {
    EgWaiterOn(t, h) && ConditionMet(bits, t.eg.wanted, t.eg.all)
  }

  function BitsAfter(t: Tcb, h: nat, bits: bv32): bv32 {
    if Satisfied(t, h, bits) && t.eg.clear then bits & !t.eg.wanted else bits
  }

  /** The bits of the group once the pass has gone over the first `n` tasks. */
  function PassBits(ts: seq<Tcb>, h: nat, bits: bv32, n: nat): bv32
    requires n <= |ts|
  {
    if n == 0 then bits else BitsAfter(ts[n - 1], h, PassBits(ts, h, bits, n - 1))
  }

  /** The task table after a full pass. */
  function PassTask(ts: seq<Tcb>, h: nat, bits: bv32, i: nat): Tcb
    requires i < |ts|
  {
    var b := PassBits(ts, h, bits, i);
    if Satisfied(ts[i], h, b) then Released(ts[i], b) else ts[i]
  }

  lemma {:induction false} PassShrinks(ts: seq<Tcb>, h: nat, bits: bv32, m: nat, n: nat)
    requires m <= n <= |ts|
    ensures Within(PassBits(ts, h, bits, n), PassBits(ts, h, bits, m))
    decreases n
  {
    if m < n {
      PassShrinks(ts, h, bits, m, n - 1);
      var b := PassBits(ts, h, bits, n - 1);
      ClearedIsWithin(b, ts[n - 1].eg.wanted);
      WithinTransitive(PassBits(ts, h, bits, n), b, PassBits(ts, h, bits, m));
    } else {
      assert Within(PassBits(ts, h, bits, n), PassBits(ts, h, bits, n));
    }
  }

  /** After the pass nobody still waiting has its condition met by the bits that are
      left, even where an earlier waiter cleared some on its way out; and whoever
      was let go got bits that met its own condition. */
  lemma PassIsFair(ts: seq<Tcb>, h: nat, bits: bv32, i: nat)
    requires i < |ts|
    ensures var t, final := PassTask(ts, h, bits, i), PassBits(ts, h, bits, |ts|);
            && (EgWaiterOn(t, h) ==> t == ts[i] && !ConditionMet(final, t.eg.wanted, t.eg.all))
            && (EgWaiterOn(ts[i], h) && !t.eg.waiting ==>
                  ConditionMet(t.ret, t.eg.wanted, t.eg.all) && Within(t.ret, bits) && Within(final, t.ret))
  {
    var b, final := PassBits(ts, h, bits, i), PassBits(ts, h, bits, |ts|);
    PassShrinks(ts, h, bits, i, |ts|);
    if Satisfied(ts[i], h, b) {
      PassShrinks(ts, h, bits, 0, i);
      assert PassTask(ts, h, bits, i) == Released(ts[i], b);
    } else if EgWaiterOn(ts[i], h) {
      UnmetStaysUnmet(final, b, ts[i].eg.wanted, ts[i].eg.all);
    }
  }

  /** The pass let task `i` of the table go. */
  ghost predicate LetGo(ts: seq<Tcb>, ts': seq<Tcb>, i: nat)
    requires |ts| == |ts'|
  {
    i < |ts| && ts[i].eg.waiting && !ts'[i].eg.waiting
  }

  /** Among the first `n` tasks somebody was let go who takes bit `b` along. */
  ghost predicate Taken(ts: seq<Tcb>, ts': seq<Tcb>, n: nat, b: bv5)
    requires |ts| == |ts'|
  {
    exists i: nat :: i < n && LetGo(ts, ts', i) && ts[i].eg.clear && Bit(ts[i].eg.wanted, b)
  }

  /** What a set of `bits` at first does to the tasks and to the group, which is left with `final`:
      a waiter goes, and with which bits, if and only if those it sees on its turn are what it asks
      for, and nobody stays whom the bits that are left would satisfy. */
  ghost predicate PassInBits(ts: seq<Tcb>, ts': seq<Tcb>, h: nat, bits: bv32, final: bv32) {
    && |ts| == |ts'|
    && Sees(ts, ts', bits, |ts|, final)
    && (forall i: nat :: i < |ts| ==> InPass(ts, ts', h, bits, final, i))
  }

  /** The bits that are left when it is task `i`'s turn. */
  ghost predicate Sees(ts: seq<Tcb>, ts': seq<Tcb>, bits: bv32, i: nat, seen: bv32)
    requires i <= |ts| == |ts'|
  {
    forall b: bv5 :: Bit(seen, b) <==> Bit(bits, b) && !Taken(ts, ts', i, b)
  }

  ghost predicate InPass(ts: seq<Tcb>, ts': seq<Tcb>, h: nat, bits: bv32, final: bv32, i: nat)
    requires i < |ts| == |ts'|
  {
    var t, t' := ts[i], ts'[i];
    if !(t.eg.waiting && t.eg.handle == h) then t' == t
    else exists seen: bv32 ::
      && Sees(ts, ts', bits, i, seen)
      && if Meets(seen, t.eg.wanted, t.eg.all)
         then t' == t.(state := Ready, ret := seen, eg := t.eg.(waiting := false))
         else t' == t && !Meets(final, t.eg.wanted, t.eg.all)
  }

  lemma TakenNext(ts: seq<Tcb>, ts': seq<Tcb>, n: nat, b: bv5)
    requires n < |ts| == |ts'|
    ensures Taken(ts, ts', n + 1, b) <==>
              Taken(ts, ts', n, b) || (LetGo(ts, ts', n) && ts[n].eg.clear && Bit(ts[n].eg.wanted, b))
  {
  }

  lemma BitAfter(t: Tcb, h: nat, seen: bv32, after: bv32, b: bv5)
    requires after == BitsAfter(t, h, seen)
    ensures Bit(after, b) <==> Bit(seen, b) && !(Satisfied(t, h, seen) && t.eg.clear && Bit(t.eg.wanted, b))
  {
    BitsOf(seen, t.eg.wanted, b);
  }

  lemma {:induction false} SeenBits(ts: seq<Tcb>, ts': seq<Tcb>, h: nat, bits: bv32, n: nat, b: bv5)
    requires n <= |ts| == |ts'| && forall i: nat :: i < |ts| ==> ts'[i] == PassTask(ts, h, bits, i)
    ensures Bit(PassBits(ts, h, bits, n), b) <==> Bit(bits, b) && !Taken(ts, ts', n, b)
    decreases n
  {
    if n > 0 {
      var m := n - 1;
      SeenBits(ts, ts', h, bits, m, b);
      BitAfter(ts[m], h, PassBits(ts, h, bits, m), PassBits(ts, h, bits, n), b);
      assert ts'[m] == PassTask(ts, h, bits, m);
      TakenNext(ts, ts', m, b);
    }
  }

  /** One task of the pass. */
  lemma TaskInPass(ts: seq<Tcb>, h: nat, bits: bv32, i: nat, t': Tcb)
    requires i < |ts| && t' == PassTask(ts, h, bits, i)
    ensures EgWaiterOn(ts[i], h) ==>
              if Meets(PassBits(ts, h, bits, i), ts[i].eg.wanted, ts[i].eg.all)
              then t' == Released(ts[i], PassBits(ts, h, bits, i))
              else t' == ts[i] && !Meets(PassBits(ts, h, bits, |ts|), ts[i].eg.wanted, ts[i].eg.all)
    ensures !EgWaiterOn(ts[i], h) ==> t' == ts[i]
  {
    PassIsFair(ts, h, bits, i);
    MetBitByBit(PassBits(ts, h, bits, |ts|), ts[i].eg.wanted, ts[i].eg.all);
    MetBitByBit(PassBits(ts, h, bits, i), ts[i].eg.wanted, ts[i].eg.all);
  }

  /** The pass, bit by bit. */
  lemma PassBitByBit(ts: seq<Tcb>, ts': seq<Tcb>, h: nat, bits: bv32)
    requires |ts| == |ts'| && forall i: nat :: i < |ts| ==> ts'[i] == PassTask(ts, h, bits, i)
    ensures PassInBits(ts, ts', h, bits, PassBits(ts, h, bits, |ts|))
  {
    forall n: nat | n <= |ts|
      ensures Sees(ts, ts', bits, n, PassBits(ts, h, bits, n))
    {
      forall b: bv5
        ensures Bit(PassBits(ts, h, bits, n), b) <==> Bit(bits, b) && !Taken(ts, ts', n, b)
      {
        SeenBits(ts, ts', h, bits, n, b);
      }
    }
    forall i: nat | i < |ts|
      ensures InPass(ts, ts', h, bits, PassBits(ts, h, bits, |ts|), i)
    {
      TaskInPass(ts, h, bits, i, ts'[i]);
    }
  }

  lemma {:induction false} FindGroupFrame(gs: seq<Group>, k: nat, g: Group, h: nat)
    requires k < |gs| && (gs[k].used && gs[k].handle == h <==> g.used && g.handle == h)
    ensures FindGroup(gs[k := g], h) == FindGroup(gs, h)
    decreases |gs|
  {
    var n := |gs| - 1;
    if k < n {
      FindGroupFrame(gs[..n], k, g, h);
      assert gs[k := g][..n] == gs[..n][k := g];
    } else {
      assert gs[k := g][..n] == gs[..n];
    }
  }

  lemma {:induction false} FindGroupPrefix(gs: seq<Group>, h: nat, n: nat)
    requires n <= |gs| && FindGroup(gs[..n], h) >= 0
    ensures FindGroup(gs, h) == FindGroup(gs[..n], h)
    decreases |gs|
  {
    if n == |gs| {
      assert gs[..n] == gs;
    } else {
      assert gs[..|gs| - 1][..n] == gs[..n];
      FindGroupPrefix(gs[..|gs| - 1], h, n);
    }
  }

  /** Tasks that were let go or untouched, and a group whose bits changed so that
      nobody left on it is satisfied. */
  lemma GroupStep(ts: seq<Tcb>, ts': seq<Tcb>, qs: seq<Queue>, gs: seq<Group>, k: nat, g: Group, started: bool)
    requires WaitsOk(ts, qs, gs, started) && k < |gs| && |ts'| == |ts| && FindGroup(gs, gs[k].handle) == k
    requires g.handle == gs[k].handle
    requires forall i :: 0 <= i < |ts| ==>
               ts'[i] == ts[i] || (EgWaiterOn(ts[i], g.handle) && ts'[i] == Released(ts[i], ts'[i].ret))
    requires forall i :: 0 <= i < |ts| && EgWaiterOn(ts'[i], g.handle) ==>
               g.used && !ConditionMet(g.bits, ts'[i].eg.wanted, ts'[i].eg.all)
    ensures WaitsOk(ts', qs, gs[k := g], started)
  {
    forall i | 0 <= i < |ts'| ensures WaitOk(ts'[i], qs, gs[k := g]) && (!started ==> !Waiting(ts'[i])) {
      var t := ts'[i];
      assert WaitOk(ts[i], qs, gs);
      if t.eg.waiting {
        if t.eg.handle == g.handle {
          FindGroupFrame(gs, k, g, g.handle);
        } else {
          FindGroupFrame(gs, k, g, t.eg.handle);
        }
      }
    }
  }

  /** Letting a waiter go does not disturb the scheduler. */
  lemma ReleaseKeepsSched(ts: seq<Tcb>, ts': seq<Tcb>, cur: seq<int>, idle: seq<nat>, idleReady: bool)
    requires SchedOk(ts, cur) && IdleOk(ts, idle, idleReady) && |ts'| == |ts|
    requires forall i :: 0 <= i < |ts| ==> TaskOk(ts[i])
    requires forall i :: 0 <= i < |ts| ==>
               ts'[i] == ts[i] || (ts[i].eg.waiting && ts'[i] == Released(ts[i], ts'[i].ret))
    ensures SchedOk(ts', cur) && IdleOk(ts', idle, idleReady)
  {
    assert forall i :: 0 <= i < |ts| && ts[i].state.Running? ==> ts'[i] == ts[i];
  }

  function ReleaseOne(t: Tcb, isCurrent: bool, bits: bv32): (r: Tcb)
    ensures !isCurrent ==> r == Released(t, bits)
  {
    t.(ret := bits, eg := t.eg.(waiting := false), state := if isCurrent then Running else Ready)
  }

  /** One pass over the table in index order. */
  method WakePass(ts: seq<Tcb>, cur: seq<int>, started: bool, h: nat, bits: bv32) returns (ts': seq<Tcb>, bits': bv32)
    requires SchedOk(ts, cur) && forall i :: 0 <= i < |ts| ==> TaskOk(ts[i])
    requires !started ==> forall i :: 0 <= i < |ts| ==> !ts[i].eg.waiting
    ensures |ts'| == |ts| && bits' == PassBits(ts, h, bits, |ts|)
    ensures forall i :: 0 <= i < |ts| ==> ts'[i] == PassTask(ts, h, bits, i)
  {
    ts', bits' := ts, bits;
    if !started {
      NoWaiters(ts, h, bits, |ts|);
      forall i | 0 <= i < |ts| ensures ts'[i] == PassTask(ts, h, bits, i) { NoWaiters(ts, h, bits, i); }
      return;
    }
    var i := 0;
    while i < |ts|
      invariant 0 <= i <= |ts| == |ts'| && bits' == PassBits(ts, h, bits, i)
      invariant forall k :: 0 <= k < i ==> ts'[k] == PassTask(ts, h, bits, k)
      invariant forall k :: i <= k < |ts| ==> ts'[k] == ts[k]
    {
      var t := ts[i];
      if EgWaiterOn(t, h) && ConditionMet(bits', t.eg.wanted, t.eg.all) {
        ts' := ts'[i := ReleaseOne(t, cur[0] == i || cur[1] == i, bits')];
        if t.eg.clear {
          bits' := bits' & !t.eg.wanted;
        }
      }
      i := i + 1;
    }
  }

  lemma {:induction false} NoWaiters(ts: seq<Tcb>, h: nat, bits: bv32, n: nat)
    requires n <= |ts| && forall i :: 0 <= i < |ts| ==> !ts[i].eg.waiting
    ensures PassBits(ts, h, bits, n) == bits
  {
    if n > 0 { NoWaiters(ts, h, bits, n - 1); }
  }

  /** The caller's TCB once its event wait has blocked. */
  function EgParked(t: Tcb, w: EventWait, bits: bv32, timeout: nat, now: nat, cyclesPerTick: nat): Tcb {
    if timeout == MAX_DELAY then t.(ret := bits, eg := w, state := BlockedEventGroup)
    else t.(ret := bits, eg := w, state := Sleeping, wakeCycle := now + Timeout(timeout, cyclesPerTick))
  }

  /** An event wait that was only just begun outlasts the switch it leads to. */
  lemma StaysEgParked(t: Tcb, w: EventWait, bits: bv32, timeout: nat, now: nat, cyclesPerTick: nat, t': Tcb,
                      gs: seq<Group>)
    requires timeout > 0 && cyclesPerTick > 0 && !t.isIdle
    requires Settled(EgParked(t, w, bits, timeout, now, cyclesPerTick), t', now, gs)
    ensures t' == EgParked(t, w, bits, timeout, now, cyclesPerTick)
    ensures WaitsSince(t', BlockedEventGroup, timeout, now, cyclesPerTick)
  {
    assert timeout * cyclesPerTick > 0;
  }

  lemma FindGroupAppend(gs: seq<Group>, h: nat)
    ensures FindGroup(gs + [Group(0, 0, false)], h) == FindGroup(gs, h)
  {
    var gs' := gs + [Group(0, 0, false)];
    assert gs'[..|gs'| - 1] == gs;
  }

  lemma GroupAppend(ts: seq<Tcb>, qs: seq<Queue>, gs: seq<Group>, started: bool)
    requires WaitsOk(ts, qs, gs, started)
    ensures WaitsOk(ts, qs, gs + [Group(0, 0, false)], started)
    ensures forall h :: FindGroup(gs + [Group(0, 0, false)], h) == FindGroup(gs, h)
  {
    var gs' := gs + [Group(0, 0, false)];
    forall h ensures FindGroup(gs', h) == FindGroup(gs, h) { FindGroupAppend(gs, h); }
    forall i | 0 <= i < |ts| ensures WaitOk(ts[i], qs, gs') {
      assert WaitOk(ts[i], qs, gs);
    }
  }

  lemma {:induction false} FindGroupNone(gs: seq<Group>, h: nat)
    requires forall k :: 0 <= k < |gs| ==> !(gs[k].used && gs[k].handle == h)
    ensures FindGroup(gs, h) == -1
    decreases |gs|
  {
    if gs != [] { FindGroupNone(gs[..|gs| - 1], h); }
  }

  lemma {:induction false} FindGroupHit(gs: seq<Group>, h: nat, k: nat)
    requires k < |gs| && gs[k].used && gs[k].handle == h
    ensures FindGroup(gs, h) >= 0
    decreases |gs|
  {
    if k < |gs| - 1 { FindGroupHit(gs[..|gs| - 1], h, k); }
  }

  /** A group that is only being made now has no waiters, and hides no other. */
  lemma GroupFill(ts: seq<Tcb>, qs: seq<Queue>, gs: seq<Group>, started: bool, k: nat, h: nat)
    requires WaitsOk(ts, qs, gs, started) && k < |gs| && !gs[k].used
    requires forall j :: 0 <= j < |gs| && gs[j].used ==> gs[j].handle != h
    ensures WaitsOk(ts, qs, gs[k := Group(h, 0, true)], started)
    ensures FindGroup(gs, h) == -1 && FindGroup(gs[k := Group(h, 0, true)], h) == k
    ensures forall x :: x != h ==> FindGroup(gs[k := Group(h, 0, true)], x) == FindGroup(gs, x)
  {
    var gs' := gs[k := Group(h, 0, true)];
    FindGroupNone(gs, h);
    FindGroupHit(gs', h, k);
    forall x | x != h ensures FindGroup(gs', x) == FindGroup(gs, x) { FindGroupFrame(gs, k, Group(h, 0, true), x); }
    forall i | 0 <= i < |ts| ensures WaitOk(ts[i], qs, gs') {
      assert WaitOk(ts[i], qs, gs);
    }
  }

  /** What a setter leaves behind. */
  lemma SetKeeps(ts: seq<Tcb>, ts': seq<Tcb>, qs: seq<Queue>, gs: seq<Group>, k: nat, b: bv32,
                 cur: seq<int>, idle: seq<nat>, idleReady: bool, started: bool)
    requires WaitsOk(ts, qs, gs, started) && SchedOk(ts, cur) && IdleOk(ts, idle, idleReady)
    requires k < |gs| && FindGroup(gs, gs[k].handle) == k && |ts'| == |ts|
    requires forall i :: 0 <= i < |ts| ==> ts'[i] == PassTask(ts, gs[k].handle, b, i)
    ensures WaitsOk(ts', qs, gs[k := gs[k].(bits := PassBits(ts, gs[k].handle, b, |ts|))], started)
    ensures SchedOk(ts', cur) && IdleOk(ts', idle, idleReady)
    ensures forall r: set<nat> :: OwnersOk(ts, r) ==> OwnersOk(ts', r)
  {
    var h := gs[k].handle;
    forall i | 0 <= i < |ts|
      ensures TaskOk(ts[i])
      ensures ts'[i] == ts[i] || (EgWaiterOn(ts[i], h) && ts'[i] == Released(ts[i], ts'[i].ret))
      ensures EgWaiterOn(ts'[i], h) ==> !ConditionMet(PassBits(ts, h, b, |ts|), ts'[i].eg.wanted, ts'[i].eg.all)
    {
      PassIsFair(ts, h, b, i);
      assert WaitOk(ts[i], qs, gs);
    }
    GroupStep(ts, ts', qs, gs, k, gs[k].(bits := PassBits(ts, h, b, |ts|)), started);
    ReleaseKeepsSched(ts, ts', cur, idle, idleReady);
  }

  function Cleared(g: Group, cleared: bv32): Group { g.(bits := g.bits & !cleared) }

  lemma ClearedBits(bits: bv32, cleared: bv32, left: bv32)
    requires left == bits & !cleared
    ensures forall b: bv5 :: Bit(left, b) <==> Bit(bits, b) && !Bit(cleared, b)
  {
    forall b: bv5
      ensures Bit(left, b) <==> Bit(bits, b) && !Bit(cleared, b)
    {
      BitsOf(bits, cleared, b);
    }
  }

  /** Clearing bits satisfies nobody. */
  lemma ClearKeeps(ts: seq<Tcb>, qs: seq<Queue>, gs: seq<Group>, k: nat, cleared: bv32, started: bool)
    requires WaitsOk(ts, qs, gs, started) && k < |gs| && FindGroup(gs, gs[k].handle) == k
    ensures WaitsOk(ts, qs, gs[k := Cleared(gs[k], cleared)], started)
  {
    var g := Cleared(gs[k], cleared);
    ClearedIsWithin(gs[k].bits, cleared);
    assert Within(g.bits, gs[k].bits);
    ShrinkKeeps(ts, qs, gs, k, g, started);
  }

  lemma ShrinkKeeps(ts: seq<Tcb>, qs: seq<Queue>, gs: seq<Group>, k: nat, g: Group, started: bool)
    requires WaitsOk(ts, qs, gs, started) && k < |gs| && FindGroup(gs, gs[k].handle) == k
    requires g.handle == gs[k].handle && g.used && Within(g.bits, gs[k].bits)
    ensures WaitsOk(ts, qs, gs[k := g], started)
  {
    forall i | 0 <= i < |ts| && EgWaiterOn(ts[i], g.handle)
      ensures !ConditionMet(g.bits, ts[i].eg.wanted, ts[i].eg.all)
    {
      assert WaitOk(ts[i], qs, gs);
      UnmetStaysUnmet(g.bits, gs[k].bits, ts[i].eg.wanted, ts[i].eg.all);
    }
    GroupStep(ts, ts, qs, gs, k, g, started);
  }

  lemma GroupHandlesKept(qs: seq<Queue>, gs: seq<Group>, bump: nat, recursive: set<nat>, k: nat, g: Group)
    requires HandlesOk(qs, gs, bump, recursive) && k < |gs|
    requires g.used ==> BUMP_BASE <= g.handle < bump
    ensures HandlesOk(qs, gs[k := g], bump, recursive)
  {
  }

  /** What a setter leaves behind, all together. */
  lemma SetSound(ts: seq<Tcb>, ts': seq<Tcb>, qs: seq<Queue>, trace: seq<Log>, cur: seq<int>, started: bool,
                 at: Context, k: nat, b: bv32)
    requires SoundTables(ts, qs, trace, started, at) && UsableTables(ts, qs, cur, at)
    requires k < |at.groups| && at.groups[k].used && FindGroup(at.groups, at.groups[k].handle) == k && |ts'| == |ts|
    requires forall i :: 0 <= i < |ts| ==> ts'[i] == PassTask(ts, at.groups[k].handle, b, i)
    ensures var g := at.groups[k].(bits := PassBits(ts, at.groups[k].handle, b, |ts|));
            SoundTables(ts', qs, trace, started, at.(groups := at.groups[k := g])) && UsableTables(ts', qs, cur, at)
  {
    var g := at.groups[k].(bits := PassBits(ts, at.groups[k].handle, b, |ts|));
    SetKeeps(ts, ts', qs, at.groups, k, b, cur, at.idle, at.idleReady, started);
    AccountedKept(ts, ts', cur, at.strays);
    GroupHandlesKept(qs, at.groups, at.bump, at.recursive, k, g);
    SoundTablesUsable(ts', qs, trace, started, at.(groups := at.groups[k := g]));
  }
}
