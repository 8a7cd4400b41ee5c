/** Task table, event groups and call histories of the host-side FreeRTOS, and
    the invariants every API step keeps. */
module KernelTypes {
  import opened QueueRing

  const MAX_TASKS: nat := 16
  const MAX_QUEUES: nat := 64
  const MAX_EVENT_GROUPS: nat := 16
  const BUMP_BASE: nat := 0x3FFF_0000
  const BUMP_LIMIT: nat := 0x3FFF_4000
  const IDLE_HANDLE: nat := 0x3FFF_0100
  const MAX_DELAY: nat := 0xFFFF_FFFF
  const BLOCK_CAP: nat := 200_000_000
  const BOOT_OWNER: nat := 0xFFFF_FFFF
  const TOKENS_CAP: nat := 0x7FFF_FFFF

  datatype TaskState =
    Unused | Ready | Running | Sleeping | BlockedQueue | BlockedEventGroup | Suspended

  /** A blocked send, receive or take. */
  datatype QueueWait = QueueWait(
    handle: nat, buf: nat, waiting: bool, semaphore: bool, sender: bool, pos: Position)

  /** A blocked event-group wait. */
  datatype EventWait = EventWait(handle: nat, wanted: bv32, waiting: bool, clear: bool, all: bool)

  /** A task control block. The saved CPU context is reduced to `ret`, the return
      slot that whoever completes a blocked call patches. */
  datatype Tcb = Tcb(
    handle: nat, priority: nat, affinity: int, isIdle: bool,
    state: TaskState, wakeCycle: nat, ret: bv32, q: QueueWait, eg: EventWait)

  datatype Group = Group(handle: nat, bits: bv32, used: bool)

  function NewTask(handle: nat, priority: nat, affinity: int): Tcb {
    Tcb(handle, priority, affinity, false, Ready, 0, 0,
        QueueWait(0, 0, false, false, false, Back), EventWait(0, 0, false, false, false))
  }

  /** The per-core task that only waits for interrupts. */
  function IdleTask(core: nat): Tcb { NewTask(IDLE_HANDLE + core, 0, core).(isIdle := true) }

  predicate Eligible(t: Tcb, core: nat) { t.affinity < 0 || t.affinity == core }

  /** Real work that `core` could run now. */
  predicate Candidate(t: Tcb, core: nat) { t.state.Ready? && !t.isIdle && Eligible(t, core) }

  predicate Waiting(t: Tcb) { t.q.waiting || t.eg.waiting }

  predicate EgWaiterOn(t: Tcb, h: nat) { t.eg.waiting && t.eg.handle == h }

  // ----- lookups by handle -----

  function FindQueue(qs: seq<Queue>, h: nat): (r: int)
    ensures -1 <= r < |qs|
    ensures r >= 0 ==> qs[r].handle == h
  {
    if qs == [] then -1
    else
      var r := FindQueue(qs[..|qs| - 1], h);
      if r >= 0 then r else if qs[|qs| - 1].handle == h then |qs| - 1 else -1
  }

  lemma {:induction false} FindQueuePrefix(qs: seq<Queue>, h: nat, n: nat)
    requires n <= |qs| && FindQueue(qs[..n], h) >= 0
    ensures FindQueue(qs, h) == FindQueue(qs[..n], h)
    decreases |qs|
  {
    if n == |qs| {
      assert qs[..n] == qs;
    } else {
      assert qs[..|qs| - 1][..n] == qs[..n];
      FindQueuePrefix(qs[..|qs| - 1], h, n);
    }
  }

  /** The handle names an object that holds tokens, not items. */
  predicate IsToken(qs: seq<Queue>, h: nat) { FindQueue(qs, h) >= 0 && qs[FindQueue(qs, h)].itemSize == 0 }

  function FindTask(ts: seq<Tcb>, h: nat): (r: int)
    ensures -1 <= r < |ts|
    ensures r >= 0 ==> !ts[r].state.Unused? && ts[r].handle == h
  {
    if ts == [] then -1
    else
      var r := FindTask(ts[..|ts| - 1], h);
      var t := ts[|ts| - 1];
      if r >= 0 then r else if !t.state.Unused? && t.handle == h then |ts| - 1 else -1
  }

  function FindGroup(gs: seq<Group>, h: nat): (r: int)
    ensures -1 <= r < |gs|
    ensures r >= 0 ==> gs[r].used && gs[r].handle == h
  {
    if gs == [] then -1
    else
      var r := FindGroup(gs[..|gs| - 1], h);
      var g := gs[|gs| - 1];
      if r >= 0 then r else if g.used && g.handle == h then |gs| - 1 else -1
  }

  /** The current bits of a group, zero when there is no such group. */
  function GroupBits(gs: seq<Group>, h: nat): bv32 {
    var g := FindGroup(gs, h);
    if g >= 0 then gs[g].bits else 0
  }

  predicate ConditionMet(bits: bv32, wanted: bv32, all: bool) {
    wanted == 0 || if all then bits & wanted == wanted else bits & wanted != 0
  }

  /** Bit `b` of a word. */
  ghost predicate Bit(w: bv32, b: bv5) { (w >> b) & 1 == 1 }

  /** What a waiter asks for, bit by bit: every wanted bit, or any of them if there are any. */
  ghost predicate Meets(bits: bv32, wanted: bv32, all: bool) {
    if all then forall b: bv5 :: Bit(wanted, b) ==> Bit(bits, b)
    else wanted == 0 || exists b: bv5 :: Bit(wanted, b) && Bit(bits, b)
  }

  lemma BitsOf(x: bv32, y: bv32, b: bv5)
    ensures Bit(x & y, b) <==> Bit(x, b) && Bit(y, b)
    ensures Bit(x | y, b) <==> Bit(x, b) || Bit(y, b)
    ensures Bit(x & !y, b) <==> Bit(x, b) && !Bit(y, b)
  {
  }

  /** The place of the lowest bit of a word that is not zero. */
  function LowestBit(x: bv32): bv5 {
    var a: bv5 := if x & 0xFFFF == 0 then 16 else 0;
    var x1 := x >> a;
    var b: bv5 := if x1 & 0xFF == 0 then 8 else 0;
    var x2 := x1 >> b;
    var c: bv5 := if x2 & 0xF == 0 then 4 else 0;
    var x3 := x2 >> c;
    var d: bv5 := if x3 & 3 == 0 then 2 else 0;
    var x4 := x3 >> d;
    a + b + c + d + if x4 & 1 == 0 then 1 else 0
  }

  lemma SomeBit(x: bv32)
    requires x != 0
    ensures Bit(x, LowestBit(x))
  {
  }

  lemma AllBits(bits: bv32, wanted: bv32)
    ensures bits & wanted == wanted <==> forall b: bv5 :: Bit(wanted, b) ==> Bit(bits, b)
  {
    if bits & wanted == wanted {
      forall b: bv5 | Bit(wanted, b)
        ensures Bit(bits, b)
      {
        BitsOf(bits, wanted, b);
      }
    } else {
      SomeBit(wanted & !bits);
      BitsOf(wanted, bits, LowestBit(wanted & !bits));
    }
  }

  lemma AnyBit(bits: bv32, wanted: bv32)
    ensures bits & wanted != 0 <==> exists b: bv5 :: Bit(wanted, b) && Bit(bits, b)
  {
    if bits & wanted != 0 {
      SomeBit(bits & wanted);
      BitsOf(bits, wanted, LowestBit(bits & wanted));
    }
    forall b: bv5 | Bit(wanted, b) && Bit(bits, b)
      ensures bits & wanted != 0
    {
      BitsOf(bits, wanted, b);
    }
  }

  /** The masks say bit by bit what they should. */
  lemma MetBitByBit(bits: bv32, wanted: bv32, all: bool)
    ensures ConditionMet(bits, wanted, all) <==> Meets(bits, wanted, all)
  {
    AllBits(bits, wanted);
    AnyBit(bits, wanted);
  }

  // ----- the steps on one task -----

  /** A sleeper whose deadline passed: its wait is over, with the result its call
      was primed with, or the group's bits as they stand now. */
  function Expired(t: Tcb, gs: seq<Group>): Tcb {
    t.(state := Ready,
       ret := if t.eg.waiting then GroupBits(gs, t.eg.handle) else t.ret,
       q := if t.q.waiting then t.q.(waiting := false, sender := false, handle := 0) else t.q,
       eg := t.eg.(waiting := false))
  }

  function Woke(t: Tcb, now: nat, gs: seq<Group>): Tcb {
    if t.state.Sleeping? && now >= t.wakeCycle then Expired(t, gs) else t
  }

  function WokenAt(ts: seq<Tcb>, now: nat, gs: seq<Group>): (r: seq<Tcb>)
    ensures |r| == |ts|
    ensures forall i :: 0 <= i < |ts| ==> r[i] == Woke(ts[i], now, gs)
  {
    seq(|ts|, i requires 0 <= i < |ts| => Woke(ts[i], now, gs))
  }

  /** A blocked queue call completed on the caller's behalf. */
  function Completed(t: Tcb): Tcb {
    t.(state := Ready, ret := 1, q := t.q.(waiting := false, sender := false, handle := 0))
  }

  function Capped(advance: nat): nat { if advance > BLOCK_CAP then BLOCK_CAP else advance }

  lemma {:induction false} FindTaskPrefix(ts: seq<Tcb>, h: nat, n: nat)
    requires n <= |ts| && FindTask(ts[..n], h) >= 0
    ensures FindTask(ts, h) == FindTask(ts[..n], h)
    decreases |ts|
  {
    if n == |ts| {
      assert ts[..n] == ts;
    } else {
      assert ts[..|ts| - 1][..n] == ts[..n];
      FindTaskPrefix(ts[..|ts| - 1], h, n);
    }
  }

  // ----- cyclic order -----

  function Cyc(start: nat, j: nat, n: nat): (i: nat)
    requires start < n && j <= n
    ensures i < n
  {
    Mod(start + j, n)
  }

  /** Where a round-robin search starts: just past the current task. */
  function After(cur: int, n: nat): (start: nat)
    requires -1 <= cur < n && n > 0
    ensures start < n
  {
    if cur + 1 < n then cur + 1 else 0
  }

  /** Every index is met once going round from `start`. */
  lemma CycReaches(start: nat, n: nat, i: nat) returns (j: nat)
    requires start < n && i < n
    ensures j < n && Cyc(start, j, n) == i
  {
    j := if start <= i then i - start else n - start + i;
  }

  /** `r` is the first index from `start` on, going round, that satisfies the
      top-priority test. */
  ghost predicate CyclicallyFirst(ts: seq<Tcb>, core: nat, prio: int, start: nat, r: nat)
    requires start < |ts| && r < |ts|
  {
    exists k | 0 <= k < |ts| :: FirstAt(ts, core, prio, start, k) && Cyc(start, k, |ts|) == r
  }

  predicate ReadyAt(t: Tcb, core: nat, prio: int) {
    t.state.Ready? && t.priority == prio && Eligible(t, core)
  }

  ghost predicate FirstAt(ts: seq<Tcb>, core: nat, prio: int, start: nat, k: nat)
    requires start < |ts| && k <= |ts|
  {
    forall j | 0 <= j < k :: !(Candidate(ts[Cyc(start, j, |ts|)], core) && ts[Cyc(start, j, |ts|)].priority == prio)
  }

  // ----- invariants -----

  /** Each core runs nothing, or a RUNNING task that may run there. */
  ghost predicate CoreOk(ts: seq<Tcb>, cur: seq<int>, core: nat)
    requires |cur| == 2 && core < 2
  {
    cur[core] == -1
    || (0 <= cur[core] < |ts| && ts[cur[core]].state.Running? && Eligible(ts[cur[core]], core))
  }

  /** Scheduler safety: no task is current on both cores. */
  ghost predicate SchedOk(ts: seq<Tcb>, cur: seq<int>) {
    |cur| == 2 && CoreOk(ts, cur, 0) && CoreOk(ts, cur, 1) && (cur[0] >= 0 ==> cur[0] != cur[1])
  }

  /** Every RUNNING task is current on a core, or was when the scheduler forgot it. */
  ghost predicate Accounted(ts: seq<Tcb>, cur: seq<int>, strays: set<int>) {
    |cur| == 2 && forall i :: 0 <= i < |ts| && ts[i].state.Running? ==> i == cur[0] || i == cur[1] || i in strays
  }

  /** The tasks that these cores run. */
  function Tasks(cur: seq<int>): set<int> { set i | i in cur && i >= 0 }

  /** A pick leaves a RUNNING task RUNNING, and does not pick it, unless it is the core's own
      idle task. */
  ghost predicate Undisturbed(ts: seq<Tcb>, ts': seq<Tcb>, core: nat, next: int) {
    && |ts| <= |ts'|
    && forall i :: 0 <= i < |ts| && ts[i].state.Running? && !(ts[i].isIdle && ts[i].affinity == core) ==>
         ts'[i].state.Running? && i != next
  }

  ghost predicate IdleOk(ts: seq<Tcb>, idle: seq<nat>, idleReady: bool) {
    && |idle| == 2
    && (idleReady ==> forall c :: 0 <= c < 2 ==>
          idle[c] < |ts| && ts[idle[c]].isIdle && ts[idle[c]].affinity == c)
  }

  /** A waiting task is parked, a parked task is waiting for something, and an
      unfinished queue call still holds pdFALSE. */
  ghost predicate TaskOk(t: Tcb) {
    && (Waiting(t) ==> (t.state.Sleeping? || t.state.BlockedQueue? || t.state.BlockedEventGroup?) && !t.isIdle)
    && !(t.q.waiting && t.eg.waiting)
    && (t.state.BlockedQueue? ==> t.q.waiting)
    && (t.state.BlockedEventGroup? ==> t.eg.waiting)
    && (t.q.sender ==> t.q.waiting && !t.q.semaphore)
    && (t.q.waiting ==> t.ret == 0)
    && (t.isIdle ==> t.priority == 0)
  }

  /** A queue wait names a live object of the kind the call is for. */
  ghost predicate Typed(t: Tcb, qs: seq<Queue>) {
    t.q.waiting ==>
      && t.q.handle != 0
      && FindQueue(qs, t.q.handle) >= 0
      && (t.q.semaphore <==> qs[FindQueue(qs, t.q.handle)].itemSize == 0)
  }

  /** Nobody waits for something that is already there: a parked receiver faces
      an empty queue, a parked sender a full one, a parked taker no token. */
  ghost predicate Justified(t: Tcb, qs: seq<Queue>)
    requires Typed(t, qs)
  {
    t.q.waiting ==>
      var q := qs[FindQueue(qs, t.q.handle)];
      if t.q.sender then q.count == q.maxItems else q.count == 0
  }

  /** No event-group waiter's condition is met by the group's current bits. */
  ghost predicate EgJustified(t: Tcb, gs: seq<Group>) {
    t.eg.waiting ==>
      FindGroup(gs, t.eg.handle) >= 0 && !ConditionMet(gs[FindGroup(gs, t.eg.handle)].bits, t.eg.wanted, t.eg.all)
  }

  /** What a context switch may do to one task: let an expired sleep end, start
      running it, or (idle task only) make it ready. */
  ghost predicate Settled(t: Tcb, t': Tcb, now: nat, gs: seq<Group>) {
    var w := Woke(t, now, gs);
    && t' == w.(state := t'.state)
    && (|| t'.state == w.state
        || (t'.state.Running? && (w.state.Ready? || w.isIdle))
        || (t'.state.Ready? && w.isIdle))
  }

  ghost predicate Switched(ts: seq<Tcb>, ts': seq<Tcb>, now: nat, gs: seq<Group>) {
    && |ts| <= |ts'| <= |ts| + 2
    && (forall i :: 0 <= i < |ts| ==> Settled(ts[i], ts'[i], now, gs))
    && (forall i :: |ts| <= i < |ts'| ==> ts'[i].isIdle && ts'[i].priority == 0 && !Waiting(ts'[i]) && !ts'[i].q.sender
                                           && (ts'[i].state.Ready? || ts'[i].state.Running?))
  }

  /** The task table after a pick: expired sleeps ended, idle tasks installed,
      this core's idle task perhaps made ready. */
  ghost predicate Picked(ts: seq<Tcb>, ts': seq<Tcb>, core: nat, now: nat, gs: seq<Group>) {
    && |ts| <= |ts'| <= |ts| + 2
    && (forall i :: 0 <= i < |ts| ==> PickedTask(ts[i], ts'[i], core, now, gs))
    && (forall i :: |ts| <= i < |ts'| ==> 0 <= ts'[i].affinity < 2 && ts'[i] == IdleTask(ts'[i].affinity))
  }

  ghost predicate PickedTask(t: Tcb, t': Tcb, core: nat, now: nat, gs: seq<Group>) {
    var w := Woke(t, now, gs);
    t' == w || (t' == w.(state := Ready) && w.isIdle && w.affinity == core)
  }

  /** No ready task that this core could run outranks the one it runs, and a core
      without a current task has nothing to run. */
  ghost predicate Served(ts: seq<Tcb>, cur: seq<int>, core: nat)
    requires |cur| == 2 && core < 2
  {
    forall i :: 0 <= i < |ts| && Candidate(ts[i], core) ==>
      0 <= cur[core] < |ts| && ts[i].priority <= ts[cur[core]].priority
  }

  /** A pick accounts for whoever runs. */
  lemma StillAccounted(ts: seq<Tcb>, ts': seq<Tcb>, core: nat, now: nat, gs: seq<Group>, cur: seq<int>,
                       strays: set<int>, r: int)
    requires |cur| == 2 && core < 2 && Picked(ts, ts', core, now, gs)
    requires Accounted(ts, cur[core := -1], strays)
    requires -1 <= r < |ts'|
    requires r >= 0 ==> ts'[r].state.Ready?
    ensures r == -1 ==> Accounted(ts', cur[core := -1], strays) && Undisturbed(ts, ts', core, -1)
    ensures r >= 0 ==>
              var run := ts'[r := ts'[r].(state := Running)];
              Accounted(run, cur[core := r], strays) && Undisturbed(ts, run, core, r)
  {
    forall i | 0 <= i < |ts|
      ensures ts'[i].state.Running? ==> ts[i].state.Running?
      ensures ts[i].state.Running? && !(ts[i].isIdle && ts[i].affinity == core) ==> ts'[i].state.Running?
    {
      assert PickedTask(ts[i], ts'[i], core, now, gs);
    }
  }

  /** The task, if it is one, runs and is current nowhere. */
  ghost predicate Stranded(i: int, ts: seq<Tcb>, cur: seq<int>) {
    i >= 0 ==> i < |ts| && ts[i].state.Running? && i !in cur
  }

  /** Core 1's task when core 0 picks and core 1 has lost its place. */
  lemma LeftBehind(ts: seq<Tcb>, ts': seq<Tcb>, cur: seq<int>, cur': seq<int>)
    requires |cur| == |cur'| == 2 && CoreOk(ts, cur, 1) && cur'[1] == -1 && Undisturbed(ts, ts', 0, cur'[0])
    ensures Stranded(cur[1], ts', cur')
  {
  }

  /** If no task starts to run, those that run are accounted for. */
  lemma AccountedKept(ts: seq<Tcb>, ts': seq<Tcb>, cur: seq<int>, strays: set<int>)
    requires Accounted(ts, cur, strays) && |ts'| <= |ts|
    requires forall i :: 0 <= i < |ts'| && ts'[i].state.Running? ==> ts[i].state.Running?
    ensures Accounted(ts', cur, strays)
  {
  }

  /** An idle task runs only where there is no work, and no task at all only where not even the
      idle tasks found room. */
  ghost predicate Occupied(ts: seq<Tcb>, cur: seq<int>, core: nat, idleReady: bool) {
    && |cur| == 2 && core < 2
    && (forall i :: 0 <= i < |ts| && Candidate(ts[i], core) ==> 0 <= cur[core] < |ts| && !ts[cur[core]].isIdle)
    && (cur[core] == -1 ==> |ts| == MAX_TASKS && !idleReady)
  }

  /** Running the picked task leaves nothing ready that outranks it. */
  lemma PickServes(ts: seq<Tcb>, core: nat, cur: seq<int>, next: int, idleReady: bool)
    requires |cur| == 2 && core < 2 && -1 <= next < |ts| && (next >= 0 ==> ts[next].state.Ready?)
    requires forall i :: 0 <= i < |ts| && Candidate(ts[i], core) ==>
               next >= 0 && Candidate(ts[next], core) && ts[i].priority <= ts[next].priority
    requires next == -1 ==> |ts| == MAX_TASKS && !idleReady
    ensures var run := if next >= 0 then ts[next := ts[next].(state := Running)] else ts;
            Served(run, cur[core := next], core) && Occupied(run, cur[core := next], core, idleReady)
  {
  }

  /** Running the picked task keeps both cores safe. */
  lemma RunPicked(ts: seq<Tcb>, ts': seq<Tcb>, core: nat, now: nat, gs: seq<Group>, cur: seq<int>, strays: set<int>,
                  r: int)
    requires |cur| == 2 && core < 2 && Picked(ts, ts', core, now, gs) && CoreOk(ts, cur, 1 - core)
    requires Accounted(ts, cur[core := -1], strays)
    requires -1 <= r < |ts'|
    requires r >= 0 ==> ts'[r].state.Ready? && Eligible(ts'[r], core)
    ensures r == -1 ==>
              && SchedOk(ts', cur[core := -1]) && Switched(ts, ts', now, gs)
              && Accounted(ts', cur[core := -1], strays) && Undisturbed(ts, ts', core, -1)
    ensures r >= 0 ==>
              var run := ts'[r := ts'[r].(state := Running)];
              && SchedOk(run, cur[core := r]) && Switched(ts, run, now, gs)
              && Accounted(run, cur[core := r], strays) && Undisturbed(ts, run, core, r)
  {
    StillAccounted(ts, ts', core, now, gs, cur, strays, r);
    var o := cur[1 - core];
    if o >= 0 {
      assert PickedTask(ts[o], ts'[o], core, now, gs);
    }
    forall i | 0 <= i < |ts| ensures Settled(ts[i], ts'[i], now, gs) {
      assert PickedTask(ts[i], ts'[i], core, now, gs);
    }
    if r >= 0 {
      var run := ts'[r := ts'[r].(state := Running)];
      forall i | 0 <= i < |ts| ensures Settled(ts[i], run[i], now, gs) {
        assert PickedTask(ts[i], ts'[i], core, now, gs);
      }
    }
  }

  /** The wait invariants of one task. */
  ghost predicate WaitOk(t: Tcb, qs: seq<Queue>, gs: seq<Group>) {
    TaskOk(t) && Typed(t, qs) && Justified(t, qs) && EgJustified(t, gs)
  }

  ghost predicate WaitsOk(ts: seq<Tcb>, qs: seq<Queue>, gs: seq<Group>, started: bool) {
    && (forall i :: 0 <= i < |ts| ==> WaitOk(ts[i], qs, gs))
    && (!started ==> forall i :: 0 <= i < |ts| ==> !Waiting(ts[i]))
  }

  /** Handles handed out by the bump allocator are below its mark. */
  ghost predicate HandlesOk(qs: seq<Queue>, gs: seq<Group>, bump: nat, recursive: set<nat>) {
    && 0 !in recursive
    && (forall h :: h in recursive && BUMP_BASE <= h < BUMP_LIMIT ==> h < bump)
    && (forall j :: 0 <= j < |qs| && BUMP_BASE <= qs[j].handle < BUMP_LIMIT ==> qs[j].handle < bump)
    && (forall j :: 0 <= j < |gs| && gs[j].used ==> BUMP_BASE <= gs[j].handle < bump)
  }

  lemma SettleKeepsWait(t: Tcb, t': Tcb, now: nat, qs: seq<Queue>, gs: seq<Group>)
    requires WaitOk(t, qs, gs) && Settled(t, t', now, gs)
    ensures WaitOk(t', qs, gs)
  {
  }

  /** A switch only ends waits, so every wait invariant survives it. */
  lemma SwitchKeepsWaits(ts: seq<Tcb>, ts': seq<Tcb>, now: nat, qs: seq<Queue>, gs: seq<Group>, started: bool)
    requires WaitsOk(ts, qs, gs, started)
    requires Switched(ts, ts', now, gs)
    ensures WaitsOk(ts', qs, gs, started)
    ensures forall r: set<nat> :: OwnersOk(ts, r) ==> OwnersOk(ts', r)
  {
    assert forall i :: 0 <= i < |ts'| && ts'[i].q.waiting ==>
        i < |ts| && Settled(ts[i], ts'[i], now, gs) && ts'[i].q == ts[i].q && ts'[i].handle == ts[i].handle;
    forall i | 0 <= i < |ts'| ensures WaitOk(ts'[i], qs, gs) && (!started ==> !Waiting(ts'[i])) {
      if i < |ts| {
        SettleKeepsWait(ts[i], ts'[i], now, qs, gs);
      }
    }
  }

  /** A task that loses its core is ready again, unless it was suspended or deleted meanwhile. */
  function Displaced(t: Tcb): Tcb { if t.state.Running? then t.(state := Ready) else t }

  /** `prev` loses the core and `next` runs. */
  function Preempted(ts: seq<Tcb>, prev: int, next: int): (r: seq<Tcb>)
    requires 0 <= prev < |ts| && 0 <= next < |ts|
    ensures |r| == |ts| && r[next] == ts[next].(state := Running)
    ensures prev != next ==> r[prev] == if ts[prev].state.Running? then ts[prev].(state := Ready) else ts[prev]
    ensures forall i :: 0 <= i < |ts| && i != prev && i != next ==> r[i] == ts[i]
  {
    ts[prev := Displaced(ts[prev])][next := ts[next].(state := Running)]
  }

  /** A core whose task may have been suspended or deleted under it; the other core is in order. */
  ghost predicate Loose(ts: seq<Tcb>, cur: seq<int>, core: nat) {
    && |cur| == 2 && core < 2 && CoreOk(ts, cur, 1 - core)
    && (cur[core] == -1
        || (&& 0 <= cur[core] < |ts| && cur[core] != cur[1 - core] && !Waiting(ts[cur[core]])
            && (ts[cur[core]].state.Running? || ts[cur[core]].state.Suspended? || ts[cur[core]].state.Unused?)))
  }

  lemma WokenStaysLoose(ts: seq<Tcb>, cur: seq<int>, core: nat, now: nat, gs: seq<Group>)
    requires Loose(ts, cur, core)
    ensures Loose(WokenAt(ts, now, gs), cur, core)
    ensures Switched(ts, WokenAt(ts, now, gs), now, gs)
  {
  }

  /** Preempting such a task puts the core in order, and leaves nothing ready that outranks the
      new one. */
  lemma PreemptTightens(ts: seq<Tcb>, cur: seq<int>, core: nat, next: nat)
    requires Loose(ts, cur, core) && cur[core] >= 0 && next < |ts| && ts[next].state.Ready? && Eligible(ts[next], core)
    requires forall i :: 0 <= i < |ts| && Candidate(ts[i], core) ==> ts[i].priority <= ts[next].priority
    requires ts[cur[core]].isIdle || ts[cur[core]].priority <= ts[next].priority
    ensures var ts' := Preempted(ts, cur[core], next);
            && SchedOk(ts', cur[core := next]) && Served(ts', cur[core := next], core)
            && forall strays: set<int> :: Accounted(ts, cur, strays) ==> Accounted(ts', cur[core := next], strays)
  {
  }

  lemma PreemptKeeps(ts: seq<Tcb>, cur: seq<int>, core: nat, next: nat, qs: seq<Queue>, gs: seq<Group>,
                     idle: seq<nat>, idleReady: bool)
    requires SchedOk(ts, cur) && IdleOk(ts, idle, idleReady) && core < 2 && 0 <= cur[core] < |ts| && next < |ts|
    requires next != cur[core]
    requires ts[next].state.Ready? && Eligible(ts[next], core)
    requires WaitsOk(ts, qs, gs, true)
    requires forall i :: 0 <= i < |ts| && Candidate(ts[i], core) ==> ts[i].priority <= ts[next].priority
    requires ts[cur[core]].isIdle || ts[cur[core]].priority <= ts[next].priority
    ensures var ts' := Preempted(ts, cur[core], next);
            && SchedOk(ts', cur[core := next])
            && IdleOk(ts', idle, idleReady)
            && Served(ts', cur[core := next], core)
            && WaitsOk(ts', qs, gs, true)
            && forall r: set<nat> :: OwnersOk(ts, r) ==> OwnersOk(ts', r)
  {
    var c := cur[core];
    assert WaitOk(ts[c], qs, gs) && WaitOk(ts[next], qs, gs);
    assert WaitOk(ts[c].(state := Ready), qs, gs) && WaitOk(ts[next].(state := Running), qs, gs);
  }

  // ----- queue steps -----

  predicate WaiterOn(t: Tcb, h: nat, sender: bool) {
    t.q.waiting && t.q.sender == sender && t.q.handle == h
  }

  /** The waiter that is served next: the first in table order. */
  function FirstWaiter(ts: seq<Tcb>, h: nat, sender: bool): (r: int)
    ensures -1 <= r < |ts|
    ensures r >= 0 ==> WaiterOn(ts[r], h, sender)
  {
    if ts == [] then -1
    else
      var r := FirstWaiter(ts[..|ts| - 1], h, sender);
      if r >= 0 then r else if WaiterOn(ts[|ts| - 1], h, sender) then |ts| - 1 else -1
  }

  lemma {:induction false} FirstWaiterPrefix(ts: seq<Tcb>, h: nat, sender: bool, n: nat)
    requires n <= |ts| && FirstWaiter(ts[..n], h, sender) >= 0
    ensures FirstWaiter(ts, h, sender) == FirstWaiter(ts[..n], h, sender)
    decreases |ts|
  {
    if n == |ts| {
      assert ts[..n] == ts;
    } else {
      assert ts[..|ts| - 1][..n] == ts[..n];
      FirstWaiterPrefix(ts[..|ts| - 1], h, sender, n);
    }
  }

  /** Nobody precedes the first waiter, and -1 means nobody waits. */
  lemma {:induction false} FirstWaiterIsFirst(ts: seq<Tcb>, h: nat, sender: bool, i: nat)
    requires i < |ts| && WaiterOn(ts[i], h, sender)
    ensures 0 <= FirstWaiter(ts, h, sender) <= i
    decreases |ts|
  {
    if i < |ts| - 1 {
      FirstWaiterIsFirst(ts[..|ts| - 1], h, sender, i);
    }
  }

  /** A receiver the wake scan stops at: one that takes a token, or one that takes an item
      when there is one. Receivers that face an empty object are passed over. */
  predicate Servable(t: Tcb, h: nat, count: nat) {
    WaiterOn(t, h, false) && (t.q.semaphore || count > 0)
  }

  function FirstServable(ts: seq<Tcb>, h: nat, count: nat): (r: int)
    ensures -1 <= r < |ts|
    ensures r >= 0 ==> Servable(ts[r], h, count)
  {
    if ts == [] then -1
    else
      var r := FirstServable(ts[..|ts| - 1], h, count);
      if r >= 0 then r else if Servable(ts[|ts| - 1], h, count) then |ts| - 1 else -1
  }

  lemma {:induction false} FirstServablePrefix(ts: seq<Tcb>, h: nat, count: nat, n: nat)
    requires n <= |ts| && FirstServable(ts[..n], h, count) >= 0
    ensures FirstServable(ts, h, count) == FirstServable(ts[..n], h, count)
    decreases |ts|
  {
    if n == |ts| {
      assert ts[..n] == ts;
    } else {
      assert ts[..|ts| - 1][..n] == ts[..n];
      FirstServablePrefix(ts[..|ts| - 1], h, count, n);
    }
  }

  /** Where every receiver can be served, the first one is. */
  lemma {:induction false} FirstServed(ts: seq<Tcb>, h: nat, count: nat)
    requires forall i :: 0 <= i < |ts| && WaiterOn(ts[i], h, false) ==> ts[i].q.semaphore || count > 0
    ensures FirstServable(ts, h, count) == FirstWaiter(ts, h, false)
    decreases |ts|
  {
    if ts != [] {
      FirstServed(ts[..|ts| - 1], h, count);
    }
  }

  /** Where no receiver can be served, none is. */
  lemma {:induction false} NobodyServed(ts: seq<Tcb>, h: nat, count: nat)
    requires forall i :: 0 <= i < |ts| ==> !Servable(ts[i], h, count)
    ensures FirstServable(ts, h, count) == -1
    decreases |ts|
  {
    if ts != [] {
      NobodyServed(ts[..|ts| - 1], h, count);
    }
  }

  lemma {:induction false} NoWaiter(ts: seq<Tcb>, h: nat, sender: bool)
    requires forall i :: 0 <= i < |ts| ==> !WaiterOn(ts[i], h, sender)
    ensures FirstWaiter(ts, h, sender) == -1
    decreases |ts|
  {
    if ts != [] {
      NoWaiter(ts[..|ts| - 1], h, sender);
    }
  }

  /** Whom the wake scan serves; nobody before the scheduler runs. */
  function Awakened(ts: seq<Tcb>, h: nat, count: nat, started: bool): (w: int)
    ensures -1 <= w < |ts|
    ensures w >= 0 ==> Servable(ts[w], h, count)
  {
    if started then FirstServable(ts, h, count) else -1
  }

  // ----- what even an unsound kernel keeps -----

  /** A task in a wait is parked or its slot was freed under it. */
  predicate TaskUsable(t: Tcb) {
    && (Waiting(t) ==>
         !t.isIdle && (t.state.Sleeping? || t.state.BlockedQueue? || t.state.BlockedEventGroup? || t.state.Unused?))
    && !(t.q.waiting && t.eg.waiting)
    && (t.isIdle ==> t.priority == 0)
  }

  ghost predicate TasksUsable(ts: seq<Tcb>) { forall i :: 0 <= i < |ts| ==> TaskUsable(ts[i]) }

  ghost predicate RingSafe(q: Queue) { if q.itemSize > 0 then RingOk(q) else q.handle != 0 ==> InRing(q) }

  ghost predicate RingsSafe(qs: seq<Queue>) { forall j :: 0 <= j < |qs| ==> RingSafe(qs[j]) }

  lemma SwitchKeepsUsable(ts: seq<Tcb>, ts': seq<Tcb>, now: nat, gs: seq<Group>)
    requires TasksUsable(ts) && Switched(ts, ts', now, gs)
    ensures TasksUsable(ts')
  {
    forall i | 0 <= i < |ts'|
      ensures TaskUsable(ts'[i])
    {
      if i < |ts| {
        assert TaskUsable(ts[i]) && Settled(ts[i], ts'[i], now, gs);
      }
    }
  }

  lemma {:induction false} FindQueueUpdate(qs: seq<Queue>, j: nat, q: Queue, h: nat)
    requires j < |qs| && q.handle == qs[j].handle
    ensures FindQueue(qs[j := q], h) == FindQueue(qs, h)
    decreases |qs|
  {
    var n := |qs| - 1;
    if j < n {
      FindQueueUpdate(qs[..n], j, q, h);
      assert qs[j := q][..n] == qs[..n][j := q];
    } else {
      assert qs[j := q][..n] == qs[..n];
    }
  }

  /** Replacing queue `j` and ending some waits keeps the wait invariants if the
      waiters that are left on it are still right to wait. */
  lemma QueueStep(ts: seq<Tcb>, ts': seq<Tcb>, qs: seq<Queue>, j: nat, q: Queue, gs: seq<Group>, started: bool)
    requires WaitsOk(ts, qs, gs, started) && j < |qs| && |ts'| == |ts|
    requires q.handle == qs[j].handle && q.itemSize == qs[j].itemSize && FindQueue(qs, q.handle) == j
    requires forall i :: 0 <= i < |ts| ==> ts'[i] == ts[i] || (TaskOk(ts'[i]) && !Waiting(ts'[i]))
    requires forall i :: 0 <= i < |ts| && WaiterOn(ts'[i], q.handle, true) ==> q.count == q.maxItems
    requires forall i :: 0 <= i < |ts| && WaiterOn(ts'[i], q.handle, false) ==> q.count == 0
    ensures WaitsOk(ts', qs[j := q], gs, started)
  {
    forall i | 0 <= i < |ts'| ensures WaitOk(ts'[i], qs[j := q], gs) {
      var t := ts'[i];
      if t.q.waiting {
        assert WaitOk(ts[i], qs, gs) && t == ts[i];
        FindQueueUpdate(qs, j, q, t.q.handle);
      } else {
        assert WaitOk(ts[i], qs, gs);
      }
    }
  }

  function Timeout(timeout: nat, cyclesPerTick: nat): nat { Capped(timeout * cyclesPerTick) }

  /** The caller's TCB once its queue call has blocked: pdFALSE is the result a
      timeout leaves behind. */
  function Parked(t: Tcb, w: QueueWait, timeout: nat, now: nat, cyclesPerTick: nat): Tcb {
    if timeout == MAX_DELAY then t.(ret := 0, q := w, state := BlockedQueue)
    else t.(ret := 0, q := w, state := Sleeping, wakeCycle := now + Timeout(timeout, cyclesPerTick))
  }

  ghost function AtMost(n: nat, limit: nat): (r: nat)
    ensures r <= n && r <= limit && (r == n || r == limit)
  {
    if n > limit then limit else n
  }

  /** A wait of `timeout` ticks that begins at `now`: for ever, or asleep until its deadline, which
      is never more than 200,000,000 cycles away. */
  ghost predicate WaitsSince(t: Tcb, forEver: TaskState, timeout: nat, now: nat, cyclesPerTick: nat) {
    if timeout == 0xFFFF_FFFF then t.state == forEver
    else
      && t.state.Sleeping?
      && t.wakeCycle == now + AtMost(timeout * cyclesPerTick, 200_000_000)
  }

  /** What the presence of a waiter says about the object it waits on. */
  lemma WaitersOn(ts: seq<Tcb>, qs: seq<Queue>, j: nat, gs: seq<Group>, started: bool)
    requires WaitsOk(ts, qs, gs, started) && j < |qs| && FindQueue(qs, qs[j].handle) == j
    ensures forall i :: 0 <= i < |ts| && WaiterOn(ts[i], qs[j].handle, true) ==>
              started && qs[j].count == qs[j].maxItems
    ensures forall i :: 0 <= i < |ts| && WaiterOn(ts[i], qs[j].handle, false) ==>
              started && qs[j].count == 0 && (ts[i].q.semaphore <==> qs[j].itemSize == 0)
    ensures var w := FirstWaiter(ts, qs[j].handle, false); w < 0 ==>
              forall i :: 0 <= i < |ts| ==> !WaiterOn(ts[i], qs[j].handle, false)
    ensures var w := FirstWaiter(ts, qs[j].handle, true); w < 0 ==>
              forall i :: 0 <= i < |ts| ==> !WaiterOn(ts[i], qs[j].handle, true)
  {
    var h := qs[j].handle;
    forall i | 0 <= i < |ts|
      ensures WaiterOn(ts[i], h, true) ==> started && qs[j].count == qs[j].maxItems && FirstWaiter(ts, h, true) >= 0
      ensures WaiterOn(ts[i], h, false) ==>
                started && qs[j].count == 0 && (ts[i].q.semaphore <==> qs[j].itemSize == 0)
                  && FirstWaiter(ts, h, false) >= 0
    {
      assert WaitOk(ts[i], qs, gs);
      if WaiterOn(ts[i], h, true) { FirstWaiterIsFirst(ts, h, true, i); }
      if WaiterOn(ts[i], h, false) { FirstWaiterIsFirst(ts, h, false, i); }
    }
  }

  /** Whoever waits for a recursive mutex has a handle to own it under. */
  ghost predicate OwnersOk(ts: seq<Tcb>, recursive: set<nat>) {
    forall i :: 0 <= i < |ts| && ts[i].q.waiting && ts[i].q.handle in recursive ==> ts[i].handle != 0
  }

  lemma {:induction false} FindQueueNone(qs: seq<Queue>, h: nat, k: nat)
    requires FindQueue(qs, h) == -1 && k < |qs|
    ensures qs[k].handle != h
    decreases |qs|
  {
    if k < |qs| - 1 { FindQueueNone(qs[..|qs| - 1], h, k); }
  }

  lemma {:induction false} FindQueueFrame(qs: seq<Queue>, k: nat, q: Queue, h: nat)
    requires k < |qs| && qs[k].handle != h && q.handle != h
    ensures FindQueue(qs[k := q], h) == FindQueue(qs, h)
    decreases |qs|
  {
    var n := |qs| - 1;
    if k < n {
      FindQueueFrame(qs[..n], k, q, h);
      assert qs[k := q][..n] == qs[..n][k := q];
    } else {
      assert qs[k := q][..n] == qs[..n];
    }
  }

  const ZERO_QUEUE: Queue := Queue(0, 0, 0, 0, 0, 0, [], false, 0, 0)

  /** A new, empty record at the end of the table is found by no one. */
  lemma AppendKeeps(ts: seq<Tcb>, qs: seq<Queue>, gs: seq<Group>, started: bool)
    requires WaitsOk(ts, qs, gs, started)
    ensures WaitsOk(ts, qs + [ZERO_QUEUE], gs, started)
  {
    var qs' := qs + [ZERO_QUEUE];
    assert qs'[..|qs'| - 1] == qs;
    forall i | 0 <= i < |ts| ensures WaitOk(ts[i], qs', gs) {
      assert WaitOk(ts[i], qs, gs);
    }
  }

  /** Nobody can be waiting on an object that is only being made now. */
  lemma FillKeeps(ts: seq<Tcb>, qs: seq<Queue>, gs: seq<Group>, started: bool, k: nat, q: Queue)
    requires WaitsOk(ts, qs, gs, started)
    requires k < |qs| && qs[k].handle == 0 && q.handle != 0 && FindQueue(qs, q.handle) == -1
    ensures WaitsOk(ts, qs[k := q], gs, started)
    ensures forall i :: 0 <= i < |ts| && ts[i].q.waiting ==> ts[i].q.handle != q.handle
  {
    forall i | 0 <= i < |ts|
      ensures WaitOk(ts[i], qs[k := q], gs) && (ts[i].q.waiting ==> ts[i].q.handle != q.handle)
    {
      assert WaitOk(ts[i], qs, gs);
      if ts[i].q.waiting { FindQueueFrame(qs, k, q, ts[i].q.handle); }
    }
  }

  lemma {:induction false} FindQueueHit(qs: seq<Queue>, h: nat, k: nat)
    requires k < |qs| && qs[k].handle == h
    ensures 0 <= FindQueue(qs, h) <= k
    decreases |qs|
  {
    if k < |qs| - 1 { FindQueueHit(qs[..|qs| - 1], h, k); }
  }

  lemma {:induction false} FindQueueMissing(qs: seq<Queue>, h: nat)
    requires forall i :: 0 <= i < |qs| ==> qs[i].handle != h
    ensures FindQueue(qs, h) == -1
    decreases |qs|
  {
    if qs != [] { FindQueueMissing(qs[..|qs| - 1], h); }
  }

  /** The record a new object goes into: a free one, else one more, else none. */
  function SlotOf(qs: seq<Queue>): int {
    if FindQueue(qs, 0) >= 0 then FindQueue(qs, 0) else if |qs| < MAX_QUEUES then |qs| else -1
  }

  /** The table with that record in it. */
  function WithSlot(qs: seq<Queue>): seq<Queue> {
    if FindQueue(qs, 0) < 0 && |qs| < MAX_QUEUES then qs + [ZERO_QUEUE] else qs
  }

  /** The handle a new object gets, 0 if the allocator is exhausted. */
  function NewHandle(preferred: nat, bump: nat): nat {
    if preferred != 0 then preferred else if bump + 4 > BUMP_LIMIT then 0 else bump
  }

  lemma AppendFind(qs: seq<Queue>, h: nat)
    ensures h != 0 ==> FindQueue(qs + [ZERO_QUEUE], h) == FindQueue(qs, h)
  {
    var qs' := qs + [ZERO_QUEUE];
    assert qs'[..|qs'| - 1] == qs;
  }

  /** The allocator's next address is nobody's handle. */
  lemma FreshHandle(qs: seq<Queue>, bump: nat)
    requires BUMP_BASE <= bump <= BUMP_LIMIT
    requires forall j :: 0 <= j < |qs| && BUMP_BASE <= qs[j].handle < BUMP_LIMIT ==> qs[j].handle < bump
    ensures bump < BUMP_LIMIT ==> FindQueue(qs, bump) == -1
  {
    if bump < BUMP_LIMIT { FindQueueMissing(qs, bump); }
  }

  lemma ParkedOk(t: Tcb, w: QueueWait, timeout: nat, now: nat, cyclesPerTick: nat, qs: seq<Queue>, gs: seq<Group>)
    requires WaitOk(t, qs, gs) && t.state.Running? && !t.isIdle && w.waiting && (w.sender ==> !w.semaphore)
    requires var t1 := t.(ret := 0, q := w); Typed(t1, qs) && Justified(t1, qs)
    ensures WaitOk(Parked(t, w, timeout, now, cyclesPerTick), qs, gs)
  {
  }

  /** A wait that was only just begun outlasts the switch it leads to. */
  lemma StaysParked(t: Tcb, w: QueueWait, timeout: nat, now: nat, cyclesPerTick: nat, t': Tcb, qs: seq<Queue>,
                    gs: seq<Group>)
    requires timeout > 0 && cyclesPerTick > 0 && w.waiting && !t.isIdle
    requires Settled(Parked(t, w, timeout, now, cyclesPerTick), t', now, gs)
    ensures t' == Parked(t, w, timeout, now, cyclesPerTick)
    ensures WaitsSince(t', BlockedQueue, timeout, now, cyclesPerTick)
    ensures !Typed(t.(q := w), qs) ==> !WaitOk(t', qs, gs)
  {
    assert timeout * cyclesPerTick > 0;
  }
}
