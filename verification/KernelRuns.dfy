/** Calls carried through from a new kernel, with everything they leave behind spelled out: who waits
    and until when, who is let go with what, who holds a mutex, and how long a task keeps its core. */
module KernelRuns {
  import opened GuestMemory
  import opened QueueRing
  import opened QueueHistory
  import opened KernelTypes
  import opened KernelSteps
  import opened KernelEvents
  import opened KernelChoice
  import opened KernelModel
  import opened KernelFaults

  // ----- a semaphore -----

  /** A take of an empty semaphore parks its task, and a give completes it: the task is ready with the
      result 1, and the token is gone. */
  method TakeIsCompleted(mem: Mem, h: nat, timeout: nat) returns (k: Kernel, ghost parked: Tcb)
    requires 0 < h < BUMP_BASE && timeout > 0
    ensures fresh(k) && k.Valid() && |k.tasks| > 0 && FindQueue(k.queues, h) == 0 && k.queues[0].count == 0
    ensures parked.q.waiting && parked.q.handle == h && parked.q.semaphore && parked.ret == 0
    ensures timeout == 0xFFFF_FFFF ==> parked.state.BlockedQueue?
    ensures timeout != 0xFFFF_FFFF ==>
              parked.state.Sleeping?
                && parked.wakeCycle == if timeout > 1250 then 200_000_000 else timeout * 160_000
    ensures k.tasks[0].state.Ready? && k.tasks[0].ret == 1 && !k.tasks[0].q.waiting
  {
    k := BootedWith(mem, h, Creation(1, 0, 0, false, false));
    var ok, blocked := k.Take(0, h, timeout);
    assert blocked;
    parked := k.tasks[0];
    FirstWaiterIsFirst(k.tasks, h, false, 0);
    var given := k.Give(h, false, Back);
  }

  // ----- a queue -----

  /** A receive parks its task on an empty queue of one-byte items; the other core's send is copied to
      where the receiver asked for it, and the receiver is ready with the result 1. */
  method ItemIsHandedOver(mem: Mem, h: nat, itemPtr: nat, dst: nat, timeout: nat) returns (k: Kernel)
    requires 0 < h < BUMP_BASE && 0 < dst < ADDR_SPACE && dst in mem && timeout > 0
    ensures fresh(k) && k.Valid() && |k.tasks| > 1 && FindQueue(k.queues, h) == 0 && k.queues[0].count == 0
    ensures k.tasks[0].state.Ready? && k.tasks[0].ret == 1 && !k.tasks[0].q.waiting
    ensures Read8(k.mem, dst) == Read8(mem, itemPtr)
  {
    ghost var low;
    k, low := PairWithQueue(mem, h);
    AwaitItem(k, low, h, dst, timeout);
    HandItem(k, h, itemPtr, dst);
    WriteBytesAt(mem, dst, ReadBytes(mem, itemPtr, 1), dst);
  }

  /** The first task waits for an item. */
  method AwaitItem(k: Kernel, ghost low: Tcb, h: nat, dst: nat, timeout: nat)
    requires k.Valid() && Crew(k, InUse(HIGH), InUse(low), h, 0) && k.current == [0, 1]
    requires low == Low(low.handle) && timeout > 0
    modifies k
    ensures k.Valid() && k.started && k.mem == old(k.mem) && |k.queues| == 1 && SharedQueue(k.queues[0], h, 0)
    ensures k.recursive == {} && k.current[1] == 1 && |k.tasks| > 1 && !k.tasks[1].isIdle
    ensures WaiterOn(k.tasks[0], h, false) && k.tasks[0].q.buf == dst
  {
    ghost var was := k.tasks;
    var ok, blocked := k.Receive(0, h, dst, timeout);
    ghost var w := QueueWait(h, dst, true, false, false, Back);
    ghost var left := was[0 := Parked(was[0], w, timeout, k.clock[0], k.cyclesPerTick)];
    assert Settled(left[1], k.tasks[1], k.clock[0], k.groups);
  }

  /** The second task sends it. */
  method HandItem(k: Kernel, h: nat, itemPtr: nat, dst: nat)
    requires k.Valid() && k.started && |k.queues| == 1 && SharedQueue(k.queues[0], h, 0) && dst != 0
    requires k.recursive == {} && k.current[1] == 1 && |k.tasks| > 1 && !k.tasks[1].isIdle
    requires WaiterOn(k.tasks[0], h, false) && k.tasks[0].q.buf == dst
    modifies k
    ensures k.Valid() && |k.tasks| > 1 && |k.queues| == 1 && SharedQueue(k.queues[0], h, 0)
    ensures k.tasks[0].state.Ready? && k.tasks[0].ret == 1 && !k.tasks[0].q.waiting
    ensures k.mem == WriteBytes(old(k.mem), dst, ReadBytes(old(k.mem), itemPtr, 1))
  {
    FirstWaiterIsFirst(k.tasks, h, false, 0);
    var ok, blocked := k.Send(1, h, itemPtr, 0, Back);
  }

  // ----- a recursive mutex -----

  /** Two tasks, one on each core, nobody waiting, and a mutex that both may take recursively: who holds
      it, and how deep. */
  ghost predicate Pairing(k: Kernel, h: nat, owner: nat, depth: nat)
    reads k
  {
    && k.Valid() && k.started && k.current == [0, 1] && |k.tasks| >= 2
    && k.tasks[0].handle == 0x3FFF_0000 && k.tasks[1].handle == 0x3FFF_0004
    && !k.tasks[0].isIdle && !k.tasks[1].isIdle && (forall i :: 0 <= i < |k.tasks| ==> !k.tasks[i].q.waiting)
    && h in k.recursive && |k.queues| > 0 && k.queues[0].handle == h
    && k.queues[0].mutexOwner == owner && k.queues[0].mutexDepth == depth
  }

  method PairWithMutex(mem: Mem, h: nat) returns (k: Kernel)
    requires 0 < h < BUMP_BASE
    ensures fresh(k) && Pairing(k, h, 0, 0)
  {
    ghost var handle;
    k, handle := Pair(mem);
    FirstSlot(h, Creation(1, 0, 1, true, true).Object(h));
    var made := k.CreateQueue(h, Creation(1, 0, 1, true, true));
  }

  /** A take that does not wait. */
  method TryTake(k: Kernel, core: nat, h: nat, ghost owner: nat, ghost depth: nat) returns (ok: bool)
    requires core < 2 && Pairing(k, h, owner, depth)
    modifies k
    ensures var me := 0x3FFF_0000 + 4 * core;
            && (ok <==> owner == 0 || owner == me)
            && if ok then Pairing(k, h, me, depth + 1) else Pairing(k, h, owner, depth)
  {
    FindQueueHit(k.queues, h, 0);
    var blocked;
    ok, blocked := k.TakeRecursive(core, h, 0);
  }

  /** A give. */
  method TryGive(k: Kernel, core: nat, h: nat, ghost owner: nat, ghost depth: nat) returns (ok: bool)
    requires core < 2 && Pairing(k, h, owner, depth)
    modifies k
    ensures var me := 0x3FFF_0000 + 4 * core;
            && (ok <==> owner == me)
            && if !ok then Pairing(k, h, owner, depth)
               else if depth > 1 then Pairing(k, h, me, depth - 1)
               else Pairing(k, h, 0, 0)
  {
    FindQueueHit(k.queues, h, 0);
    NoWaiter(k.tasks, h, false);
    assert QueueOk(k.queues[0], k.trace[0], true);
    ok := k.GiveRecursive(core, h);
  }

  /** The first task takes the mutex twice; the second is refused, and may not give it either. */
  method MutexIsHeld(mem: Mem, h: nat) returns (k: Kernel)
    requires 0 < h < BUMP_BASE
    ensures fresh(k) && Pairing(k, h, 0x3FFF_0000, 2)
  {
    k := PairWithMutex(mem, h);
    var ok := TryTake(k, 0, h, 0, 0);
    ok := TryTake(k, 0, h, 0x3FFF_0000, 1);
    ok := TryTake(k, 1, h, 0x3FFF_0000, 2);
    assert !ok;
    ok := TryGive(k, 1, h, 0x3FFF_0000, 2);
    assert !ok;
  }

  /** The second gets it once the first has given it back as often as it took it. */
  method MutexChangesHands(mem: Mem, h: nat) returns (k: Kernel)
    requires 0 < h < BUMP_BASE
    ensures fresh(k) && Pairing(k, h, 0x3FFF_0004, 1)
  {
    k := MutexIsHeld(mem, h);
    var ok := TryGive(k, 0, h, 0x3FFF_0000, 2);
    ok := TryTake(k, 1, h, 0x3FFF_0000, 1);
    assert !ok;
    ok := TryGive(k, 0, h, 0x3FFF_0000, 1);
    ok := TryTake(k, 1, h, 0, 0);
  }

  // ----- an event group -----

  /** A task on core 0 and a group with these bits. */
  method WithBits(mem: Mem, bits: bv32) returns (k: Kernel, h: nat)
    ensures fresh(k) && k.Valid() && k.started && k.current == [0, -1] && |k.tasks| > 0 && !k.tasks[0].isIdle
    ensures k.cyclesPerTick == 160_000 && k.clock[0] == 0
    ensures FindGroup(k.groups, h) >= 0 && k.groups[FindGroup(k.groups, h)].bits == bits
  {
    k := Booted(mem);
    h := k.CreateGroup();
    SetFirst(k, h, bits);
  }

  /** Bits set where there were none, with nobody waiting. */
  method SetFirst(k: Kernel, h: nat, bits: bv32)
    requires k.Valid() && FindGroup(k.groups, h) >= 0 && k.groups[FindGroup(k.groups, h)].bits == 0
    requires forall i :: 0 <= i < |k.tasks| ==> !k.tasks[i].eg.waiting
    modifies k`tasks, k`groups
    ensures k.Valid() && k.tasks == old(k.tasks)
    ensures FindGroup(k.groups, h) >= 0 && k.groups[FindGroup(k.groups, h)].bits == bits
  {
    ghost var ts, gs := k.tasks, k.groups;
    var r := k.SetBits(h, bits);
    FindGroupFrame(gs, FindGroup(gs, h), Group(h, r, true), h);
    OrZero(0, bits);
    NoWaiters(ts, h, bits, |ts|);
    QuietPass(ts, k.tasks, h, bits);
  }

  lemma QuietPass(ts: seq<Tcb>, ts': seq<Tcb>, h: nat, bits: bv32)
    requires |ts| == |ts'| && forall i :: 0 <= i < |ts| ==> ts'[i] == PassTask(ts, h, bits, i) && !ts[i].eg.waiting
    ensures ts' == ts
  {
    forall i | 0 <= i < |ts|
      ensures ts'[i] == ts[i]
    {
      assert ts'[i] == PassTask(ts, h, bits, i) && !EgWaiterOn(ts[i], h);
    }
  }

  lemma OrZero(x: bv32, y: bv32)
    requires x == 0
    ensures x | y == y
  {
  }

  /** Of bits 0 and 1 the group has bit 0. A task that wants both waits; one that wants either does not,
      and takes bit 0 along if it says so. */
  method WaitForTwoBits(mem: Mem, all: bool, clear: bool) returns (k: Kernel, h: nat, r: bv32, blocked: bool)
    ensures fresh(k) && k.Valid() && |k.tasks| > 0 && r == 1 && blocked == all
    ensures all ==> k.tasks[0].state.BlockedEventGroup? && k.tasks[0].eg == EventWait(h, 3, true, clear, true)
    ensures FindGroup(k.groups, h) >= 0
              && k.groups[FindGroup(k.groups, h)].bits == if !all && clear then 0 else 1
  {
    k, h := WithBits(mem, 1);
    ghost var gs := k.groups;
    r, blocked := k.WaitBits(0, h, 3, clear, all, 0xFFFF_FFFF);
    FindGroupFrame(gs, FindGroup(gs, h), Cleared(gs[FindGroup(gs, h)], 3), h);
  }

  // ----- a time slice -----

  /** Three tasks of one priority: the first on core 0, the second on core 1, the third ready. */
  ghost predicate Sharing(k: Kernel, at: nat, passed: nat)
    reads k
  {
    && k.Valid() && k.started && k.current == [0, 1] && |k.tasks| >= 3 && IdleFrom(k.tasks, 3)
    && k.cyclesPerTick == 160_000 && k.clock[1] == at + passed && k.lastSwitch[1] == at
    && (forall i :: 0 <= i < 3 ==> k.tasks[i].priority == 1 && k.tasks[i].affinity == -1 && !k.tasks[i].isIdle)
    && k.tasks[0].state.Running? && k.tasks[1].state.Running? && k.tasks[2].state.Ready?
    && forall i :: 0 <= i < |k.tasks| ==> !k.tasks[i].state.Sleeping?
  }

  /** The same before core 1 has joined. */
  ghost predicate Trio(ts: seq<Tcb>) {
    && |ts| == 3 && ts[0].state.Running? && ts[1].state.Ready? && ts[2].state.Ready?
    && forall i :: 0 <= i < 3 ==> ts[i].priority == 1 && ts[i].affinity == -1 && !ts[i].isIdle
  }

  /** The second task starts the kernel. */
  method Two(mem: Mem) returns (k: Kernel)
    ensures fresh(k) && k.Valid() && k.started && k.current == [0, -1] && k.strays == {}
    ensures k.cyclesPerTick == 160_000 && k.clock == [0, 0] && |k.tasks| == 2
    ensures k.tasks[0] == NewTask(BUMP_BASE, 1, -1).(state := Running) && k.tasks[1] == NewTask(BUMP_BASE + 4, 1, -1)
  {
    k := Single(mem, 1);
    var second := k.CreateTask(1, -1, 0);
  }

  method Three(mem: Mem, at: nat) returns (k: Kernel)
    ensures fresh(k) && k.Valid() && k.started && k.current == [0, -1] && k.strays == {}
    ensures k.cyclesPerTick == 160_000 && k.clock == [0, at] && Trio(k.tasks)
  {
    k := Two(mem);
    var third := k.CreateTask(1, -1, 0);
    k.Tick(1, at);
  }

  method Share(mem: Mem, at: nat) returns (k: Kernel)
    ensures fresh(k) && Sharing(k, at, 0)
  {
    k := Three(mem, at);
    ghost var ts := k.tasks;
    NoSleeper(ts, at, k.groups);
    k.JoinCore(1);
    FirstOfThree(ts, k.tasks, k.current[1], k.groups, at);
    assert k.current == [0, 1];
  }

  /** A core that joins goes to the second task. */
  lemma FirstOfThree(ts: seq<Tcb>, ts': seq<Tcb>, next: int, gs: seq<Group>, at: nat)
    requires Trio(ts) && PickedByTheRules(ts, 1, -1, next, ts') && Switched(ts, ts', at, gs)
    ensures next == 1 && IdleFrom(ts', 3) && forall i :: 0 <= i < |ts'| ==> !ts'[i].state.Sleeping?
    ensures forall i :: 0 <= i < 3 ==> Settled(ts[i], ts'[i], at, gs)
  {
    assert MayRun(ts[1], 1) && !ts[1].isIdle;
    var k: nat :| 1 <= k <= 3 && Turn(-1, k, 3) == next && NobodyInTurn(ts, 1, -1, k, ts[next].priority, false);
    assert Turn(-1, 1, 3) == 0 && Turn(-1, 2, 3) == 1 && Turn(-1, 3, 3) == 2;
    forall i | 0 <= i < 3
      ensures Settled(ts[i], ts'[i], at, gs)
    {
    }
  }

  function Sum(gaps: seq<nat>): nat {
    if gaps == [] then 0 else Sum(gaps[..|gaps| - 1]) + gaps[|gaps| - 1]
  }

  /** Core 1 is checked after each of these gaps until it goes to the third task. That happens at the
      first check that comes 160,000 cycles or more after the second task was dispatched. */
  method SliceIsKept(mem: Mem, at: nat, gaps: seq<nat>) returns (k: Kernel, n: nat)
    ensures fresh(k) && k.Valid() && |k.current| == 2 && n <= |gaps|
    ensures forall i :: 0 <= i <= n ==> Sum(gaps[..i]) < 160_000
    ensures n == |gaps| ==> k.current[1] == 1
    ensures n < |gaps| ==> k.current[1] == 2 && Sum(gaps[..n + 1]) >= 160_000
  {
    k := Share(mem, at);
    n := 0;
    while n < |gaps|
      invariant fresh(k) && n <= |gaps| && Sharing(k, at, Sum(gaps[..n]))
      invariant forall i :: 0 <= i <= n ==> Sum(gaps[..i]) < 160_000
    {
      assert gaps[..n + 1][..n] == gaps[..n];
      var gone := Check(k, at, Sum(gaps[..n]), gaps[n]);
      if gone { return; }
      n := n + 1;
    }
  }

  /** One check. */
  method Check(k: Kernel, ghost at: nat, ghost passed: nat, gap: nat) returns (gone: bool)
    requires Sharing(k, at, passed)
    modifies k
    ensures gone <==> passed + gap >= 160_000
    ensures !gone ==> Sharing(k, at, passed + gap)
    ensures gone ==> k.Valid() && |k.current| == 2 && k.current[1] == 2
  {
    k.Tick(1, gap);
    NoSleeper(k.tasks, k.clock[1], k.groups);
    UsableIsLoose(k.tasks, k.queues, k.current, 1, k.Here());
    gone := k.CheckPreempt(1, true);
  }
}
