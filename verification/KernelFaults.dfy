/** Uses of the API that the kernel accepts and that leave it unsound, each carried through
    from a new kernel to the harm it does. */
module KernelFaults {
  import opened GuestMemory
  import opened QueueRing
  import opened KernelTypes
  import opened KernelSteps
  import opened KernelChoice
  import opened KernelModel

  /** From `n` on there are only idle tasks, which wait for nothing. */
  ghost predicate IdleFrom(ts: seq<Tcb>, n: nat) {
    n <= |ts| && forall i :: n <= i < |ts| ==> ts[i].isIdle && ts[i].priority == 0 && !Waiting(ts[i]) && !ts[i].q.sender
  }

  lemma IdleKept(ts: seq<Tcb>, ts': seq<Tcb>, n: nat, now: nat, gs: seq<Group>)
    requires IdleFrom(ts, n) && Switched(ts, ts', now, gs)
    ensures IdleFrom(ts', n)
  {
    forall i | n <= i < |ts'|
      ensures ts'[i].isIdle && ts'[i].priority == 0 && !Waiting(ts'[i]) && !ts'[i].q.sender
    {
      if i < |ts| {
        assert Settled(ts[i], ts'[i], now, gs);
      }
    }
  }

  /** Who a core runs, when only one task can be it. */
  lemma Runs(ts: seq<Tcb>, cur: seq<int>, core: nat, i: nat)
    requires SchedOk(ts, cur) && Accounted(ts, cur, {}) && core < 2 && Served(ts, cur, core) && cur[1 - core] != i
    requires i < |ts| && (ts[i].state.Ready? || ts[i].state.Running?) && !ts[i].isIdle && Eligible(ts[i], core)
    requires forall j :: 0 <= j < |ts| && j != i ==>
               j == cur[1 - core] || ts[j].priority < ts[i].priority || !ts[j].state.Running?
    ensures cur[core] == i && ts[i].state.Running?
  {
    if ts[i].state.Ready? {
      assert Candidate(ts[i], core);
    }
  }

  // ----- one task -----

  /** The task that core 0 runs. */
  const WORKER: Tcb := NewTask(BUMP_BASE, 1, -1).(state := Running)

  /** A kernel that has yet to be started, with one task and nothing else. */
  method Single(mem: Mem, priority: nat) returns (k: Kernel)
    requires priority < 20
    ensures fresh(k) && k.Valid() && !k.started && k.queues == [] && k.recursive == {} && k.current == [-1, -1]
    ensures k.mem == mem && k.strays == {} && k.groups == [] && k.bump == BUMP_BASE + 4
    ensures k.lastSwitch == [0, 0] && k.cyclesPerTick == 160_000
    ensures k.clock == [0, 0] && k.tasks == [NewTask(BUMP_BASE, priority, -1)]
  {
    k := new Kernel(mem);
    var handle := k.CreateTask(priority, -1, 0);
  }

  /** A kernel with one task on core 0, and nothing else. */
  method Booted(mem: Mem) returns (k: Kernel)
    ensures fresh(k) && k.Valid() && k.started && k.queues == [] && k.recursive == {} && k.current == [0, -1]
    ensures IdleFrom(k.tasks, 1) && k.tasks[0] == WORKER && k.clock == [0, 0] && k.cyclesPerTick == 160_000
    ensures k.groups == [] && k.bump == BUMP_BASE + 4
  {
    k := Single(mem, 1);
    ghost var ts := k.tasks;
    k.Start();
    IdleKept(ts, k.tasks, 1, 0, k.groups);
    assert Settled(ts[0], k.tasks[0], 0, k.groups);
    assert k.strays == {};
    Runs(k.tasks, k.current, 0, 0);
  }

  /** The same with one queue object. */
  method BootedWith(mem: Mem, h: nat, c: Creation) returns (k: Kernel)
    requires 0 < h < BUMP_BASE && c.Allowed() && Creatable(c.length, c.itemSize) && !c.forRecursive
    ensures fresh(k) && k.Valid() && k.started && k.queues == [c.Object(h)] && k.recursive == {} && k.current == [0, -1]
    ensures IdleFrom(k.tasks, 1) && k.tasks[0] == WORKER && k.clock == [0, 0] && k.cyclesPerTick == 160_000
  {
    k := Booted(mem);
    FirstSlot(h, c.Object(h));
    var made := k.CreateQueue(h, c);
  }

  /** An empty table has no object, and room for one. */
  lemma FirstSlot(h: nat, q: Queue)
    ensures FindQueue([], h) == -1 && SlotOf([]) == 0 && WithSlot([])[0 := q] == [q]
  {
  }

  /** A task parked for good in a wait of its own making. */
  function Waiter(w: QueueWait): Tcb { WORKER.(q := w, state := BlockedQueue) }

  /** The task waits in a receive. */
  method AwaitReceive(k: Kernel, h: nat, dst: nat)
    requires k.Valid() && k.started && |k.queues| == 1 && k.queues[0].handle == h && k.queues[0].count == 0
    requires h != 0 && k.recursive == {} && k.current == [0, -1] && IdleFrom(k.tasks, 1) && k.tasks[0] == WORKER
    modifies k
    ensures k.Usable() && k.started && k.queues == old(k.queues) && k.recursive == {} && k.current[1] == -1
    ensures IdleFrom(k.tasks, 1) && k.tasks[0] == Waiter(QueueWait(h, dst, true, false, false, Back))
    ensures k.queues[0].itemSize > 0 ==> k.Valid()
  {
    ghost var was := k.tasks;
    var ok, blocked := k.Receive(0, h, dst, MAX_DELAY);
    ghost var p := Waiter(QueueWait(h, dst, true, false, false, Back));
    assert blocked && Parked(WORKER, p.q, MAX_DELAY, k.clock[0], k.cyclesPerTick) == p;
    IdleKept(was[0 := p], k.tasks, 1, k.clock[0], k.groups);
    assert Settled(p, k.tasks[0], k.clock[0], k.groups);
  }

  /** A receive that waits for a semaphore is passed over by the give it waits for. */
  method ReceiverOfTokenWaitsInVain(mem: Mem, h: nat, dst: nat) returns (k: Kernel)
    requires 0 < h < BUMP_BASE
    ensures fresh(k) && k.Usable() && |k.tasks| > 0 && FindQueue(k.queues, h) == 0
    ensures WaiterOn(k.tasks[0], h, false) && k.tasks[0].state.BlockedQueue? && k.queues[0].count == 1
  {
    k := BootedWith(mem, h, Creation(1, 0, 0, false, false));
    AwaitReceive(k, h, dst);
    NobodyServed(k.tasks, h, 0);
    var ok := k.Give(h, false, Back);
  }

  /** A send that waits for a full semaphore is not woken by the take that makes room. */
  method SenderOfTokenWaitsInVain(mem: Mem, h: nat, itemPtr: nat) returns (k: Kernel)
    requires 0 < h < BUMP_BASE
    ensures fresh(k) && k.Usable() && |k.tasks| > 0 && FindQueue(k.queues, h) == 0
    ensures WaiterOn(k.tasks[0], h, true) && k.tasks[0].state.BlockedQueue? && k.queues[0].count < k.queues[0].maxItems
  {
    k := BootedWith(mem, h, Creation(1, 0, 1, false, false));
    AwaitRoom(k, h, itemPtr);
    var ok, blocked := k.Take(1, h, 0);
  }

  /** The task waits in a send. */
  method AwaitRoom(k: Kernel, h: nat, itemPtr: nat)
    requires k.Valid() && k.started && |k.queues| == 1 && k.queues[0].handle == h
    requires k.queues[0].itemSize == 0 && k.queues[0].count == k.queues[0].maxItems
    requires h != 0 && k.recursive == {} && k.current == [0, -1] && IdleFrom(k.tasks, 1) && k.tasks[0] == WORKER
    modifies k
    ensures k.Usable() && k.started && k.queues == old(k.queues) && k.recursive == {} && k.current[1] == -1
    ensures IdleFrom(k.tasks, 1) && k.tasks[0] == Waiter(QueueWait(h, itemPtr, true, false, true, Back))
  {
    ghost var was := k.tasks;
    NobodyServed(was, h, k.queues[0].count);
    var ok, blocked := k.Send(0, h, itemPtr, MAX_DELAY, Back);
    ghost var p := Waiter(QueueWait(h, itemPtr, true, false, true, Back));
    assert blocked && Parked(WORKER, p.q, MAX_DELAY, k.clock[0], k.cyclesPerTick) == p;
    IdleKept(was[0 := p], k.tasks, 1, k.clock[0], k.groups);
    assert Settled(p, k.tasks[0], k.clock[0], k.groups);
  }

  /** A deleted task that was waiting comes back to life when its wait is over. */
  method DeletedTaskRevives(mem: Mem, h: nat, dst: nat, itemPtr: nat) returns (k: Kernel, ghost deleted: Tcb)
    requires 0 < h < BUMP_BASE
    ensures fresh(k) && k.Usable() && |k.tasks| > 0 && deleted.state.Unused?
    ensures k.tasks[0] == Completed(deleted) && k.tasks[0].state.Ready?
  {
    k := BootedWith(mem, h, Creation(1, 1, 0, false, false));
    AwaitReceive(k, h, dst);
    DeleteWaiter(k);
    deleted := k.tasks[0];
    FirstServableHit(k.tasks, h, 1, 0);
    var ok, blocked := k.Send(1, h, itemPtr, 0, Back);
  }

  method DeleteWaiter(k: Kernel)
    requires k.Valid() && k.started && |k.tasks| > 0 && k.tasks[0].handle == BUMP_BASE && k.tasks[0].state.BlockedQueue?
    modifies k
    ensures k.Usable() && k.started && k.tasks == old(k.tasks)[0 := old(k.tasks)[0].(state := Unused)]
    ensures k.queues == old(k.queues) && k.current == old(k.current) && k.recursive == old(k.recursive)
  {
    FindTaskHit(k.tasks, BUMP_BASE, 0);
    k.DeleteByHandle(BUMP_BASE);
  }

  /** A task that deletes itself by its own handle keeps its core. */
  method DeletedTaskRuns(mem: Mem) returns (k: Kernel)
    ensures fresh(k) && k.started && k.current == [0, -1] && |k.tasks| > 0 && k.tasks[0].state.Unused?
  {
    k := Booted(mem);
    FindTaskHit(k.tasks, BUMP_BASE, 0);
    k.DeleteByHandle(BUMP_BASE);
  }

  /** A task that core 1 runs before the scheduler starts is left RUNNING on no core. */
  method ForgottenTask(mem: Mem) returns (k: Kernel)
    ensures fresh(k) && k.Valid() && k.started && |k.current| == 2 && |k.tasks| > 0
    ensures k.tasks[0].state.Running? && k.current[0] != 0 && k.current[1] != 0
  {
    k := Single(mem, 1);
    ghost var ts := k.tasks;
    k.JoinCore(1);
    IdleKept(ts, k.tasks, 1, k.clock[1], k.groups);
    assert Settled(ts[0], k.tasks[0], k.clock[1], k.groups);
    Runs(k.tasks, k.current, 1, 0);
    k.Start();
  }

  /** Deadlines are set on one core's clock and compared with the other's. A sleep that core 0
      begins is over as soon as core 1 picks with its clock past the deadline, although core
      0's clock has not moved; it lasts exactly when core 1 is not that far ahead. */
  method SleepEndsOnOtherClock(mem: Mem, advance: nat, ahead: nat) returns (k: Kernel)
    ensures fresh(k) && k.Valid() && |k.tasks| > 0 && k.clock == [0, ahead] && k.tasks[0].wakeCycle == Capped(advance)
    ensures k.tasks[0].state.Sleeping? <==> ahead < Capped(advance)
  {
    k := Asleep(mem, advance, ahead);
    ghost var was := k.tasks;
    k.JoinCore(1);
    assert Settled(was[0], k.tasks[0], ahead, k.groups);
  }

  /** Core 0's task goes to sleep, with core 1's clock ahead. */
  method Asleep(mem: Mem, advance: nat, ahead: nat) returns (k: Kernel)
    ensures fresh(k) && k.Valid() && k.current[1] == -1 && |k.tasks| > 0 && k.clock == [0, ahead]
    ensures k.tasks[0].wakeCycle == Capped(advance) && !k.tasks[0].isIdle
    ensures k.tasks[0].state == Sleeping || (Capped(advance) == 0 && k.tasks[0].state in {Ready, Running})
  {
    k := Booted(mem);
    k.Tick(1, ahead);
    k.Delay(0, advance);
    assert Settled(WORKER.(state := Sleeping, wakeCycle := Capped(advance)), k.tasks[0], 0, k.groups);
  }

  lemma {:induction false} FindTaskHit(ts: seq<Tcb>, h: nat, i: nat)
    requires i < |ts| && !ts[i].state.Unused? && ts[i].handle == h
    ensures 0 <= FindTask(ts, h) <= i
    decreases |ts|
  {
    if i < |ts| - 1 { FindTaskHit(ts[..|ts| - 1], h, i); }
  }

  lemma {:induction false} FirstServableHit(ts: seq<Tcb>, h: nat, count: nat, i: nat)
    requires i < |ts| && Servable(ts[i], h, count)
    ensures 0 <= FirstServable(ts, h, count) <= i
    decreases |ts|
  {
    if i < |ts| - 1 { FirstServableHit(ts[..|ts| - 1], h, count, i); }
  }

  /** A first task pinned to core 1 is put on core 0 when a second one is created. */
  method PinnedTaskOnWrongCore(mem: Mem) returns (k: Kernel)
    ensures fresh(k) && k.started && |k.current| == 2 && k.current[0] == 0 && |k.tasks| == 2 && k.tasks[0].affinity == 1
    ensures !CoreOk(k.tasks, k.current, 0)
  {
    k := new Kernel(mem);
    var first := k.CreateTask(1, 1, 0);
    var second := k.CreateTask(1, -1, 0);
  }

  // ----- an idle task ahead of work -----

  /** The only task, of priority 0, is asleep, and core 0 runs an idle task. */
  method Idling(mem: Mem) returns (k: Kernel)
    ensures fresh(k) && k.Valid() && k.started && k.strays == {} && k.current[1] == -1 && k.clock[0] == 0
    ensures IdleFrom(k.tasks, 1) && k.tasks[0] == NewTask(BUMP_BASE, 0, -1).(state := Sleeping, wakeCycle := 1)
    ensures k.current[0] >= 1 && |k.tasks| <= 5
    ensures forall i :: 1 <= i < |k.tasks| ==> k.tasks[i].state.Ready? || k.tasks[i].state.Running?
  {
    k := Lazy(mem);
    ghost var p := NewTask(BUMP_BASE, 0, -1).(state := Sleeping, wakeCycle := 1);
    ghost var was := k.tasks[0 := p];
    k.Delay(0, 1);
    IdleKept(was, k.tasks, 1, 0, k.groups);
    assert Settled(p, k.tasks[0], 0, k.groups);
    AwakeKept(was, k.tasks, 0, k.groups);
  }

  /** A task of priority 0 runs on core 0. */
  method Lazy(mem: Mem) returns (k: Kernel)
    ensures fresh(k) && k.Valid() && k.started && k.strays == {} && k.current == [0, -1] && k.clock == [0, 0]
    ensures IdleFrom(k.tasks, 1) && k.tasks[0] == NewTask(BUMP_BASE, 0, -1).(state := Running) && |k.tasks| <= 3
    ensures forall i :: 1 <= i < |k.tasks| ==> k.tasks[i].state.Ready? || k.tasks[i].state.Running?
  {
    k := Single(mem, 0);
    ghost var ts := k.tasks;
    k.Start();
    assert k.strays == {};
    IdleKept(ts, k.tasks, 1, 0, k.groups);
    assert Settled(ts[0], k.tasks[0], 0, k.groups);
    AwakeKept(ts, k.tasks, 0, k.groups);
  }

  /** Idle tasks are ready or running. */
  lemma AwakeKept(ts: seq<Tcb>, ts': seq<Tcb>, now: nat, gs: seq<Group>)
    requires |ts| >= 1 && Switched(ts, ts', now, gs)
    requires forall i :: 1 <= i < |ts| ==> ts[i].state.Ready? || ts[i].state.Running?
    ensures forall i :: 1 <= i < |ts'| ==> ts'[i].state.Ready? || ts'[i].state.Running?
  {
    forall i | 1 <= i < |ts'|
      ensures ts'[i].state.Ready? || ts'[i].state.Running?
    {
      if i < |ts| {
        assert Settled(ts[i], ts'[i], now, gs);
      }
    }
  }

  /** A preemption check whose choice is known. */
  method SwitchTo(k: Kernel, core: nat, ghost next: nat)
    requires k.Valid() && k.started && core < 2 && k.current[core] >= 0
    requires next == Chosen(WokenAt(k.tasks, k.clock[core], k.groups), core, k.current[core], k.SliceOver(core))
    modifies k
    ensures k.Valid() && k.started && k.strays == old(k.strays)
    ensures |k.current| == 2 && k.current[core] == next && k.current[1 - core] == old(k.current)[1 - core]
    ensures k.tasks == Preempted(WokenAt(old(k.tasks), old(k.clock)[core], old(k.groups)), old(k.current)[core], next)
  {
    UsableIsLoose(k.tasks, k.queues, k.current, core, k.Here());
    var switched := k.CheckPreempt(core, true);
  }

  /** The task's deadline is past. */
  method Due(mem: Mem) returns (k: Kernel, ghost idler: nat)
    ensures fresh(k) && k.Valid() && k.started && k.strays == {} && k.current[0] == idler && k.current[1] == -1
    ensures 1 <= idler < |k.tasks| <= 5 && k.clock[0] == 1
    ensures k.tasks[idler].state.Running? && Eligible(k.tasks[idler], 0)
    ensures IdleFrom(k.tasks, 1) && k.tasks[0] == NewTask(BUMP_BASE, 0, -1).(state := Sleeping, wakeCycle := 1)
    ensures forall i :: 1 <= i < |k.tasks| ==> k.tasks[i].state.Ready? || k.tasks[i].state.Running?
  {
    k := Idling(mem);
    idler := k.current[0];
    k.Tick(0, 1);
  }

  /** Core 0 goes back to it, and the idle task is ready. */
  method Roused(mem: Mem) returns (k: Kernel, ghost idler: nat)
    ensures fresh(k) && k.Valid() && k.started && k.current == [0, -1] && |k.tasks| <= 5
    ensures IdleFrom(k.tasks, 1) && k.tasks[0] == NewTask(BUMP_BASE, 0, -1).(state := Running, wakeCycle := 1)
    ensures 1 <= idler < |k.tasks| && k.tasks[idler].state.Ready? && Eligible(k.tasks[idler], 0)
    ensures forall i :: 0 <= i < |k.tasks| ==> !k.tasks[i].state.Sleeping?
  {
    k, idler := Due(mem);
    ghost var ts, gs := k.tasks, k.groups;
    Awoken(ts, gs);
    OnlyChoice(WokenAt(ts, 1, gs), idler, k.SliceOver(0));
    SwitchTo(k, 0, 0);
    AwakeAgain(ts, k.tasks, idler, gs);
  }

  lemma Awoken(ts: seq<Tcb>, gs: seq<Group>)
    requires IdleFrom(ts, 1) && ts[0] == NewTask(BUMP_BASE, 0, -1).(state := Sleeping, wakeCycle := 1)
    requires forall i :: 1 <= i < |ts| ==> ts[i].state.Ready? || ts[i].state.Running?
    ensures IdleFrom(WokenAt(ts, 1, gs), 1) && Candidate(WokenAt(ts, 1, gs)[0], 0)
  {
  }

  lemma AwakeAgain(ts: seq<Tcb>, ts': seq<Tcb>, idler: nat, gs: seq<Group>)
    requires IdleFrom(ts, 1) && ts[0] == NewTask(BUMP_BASE, 0, -1).(state := Sleeping, wakeCycle := 1)
    requires 1 <= idler < |ts| && ts[idler].state.Running? && ts' == Preempted(WokenAt(ts, 1, gs), idler, 0)
    requires forall i :: 1 <= i < |ts| ==> ts[i].state.Ready? || ts[i].state.Running?
    ensures IdleFrom(ts', 1) && ts'[0] == ts[0].(state := Running) && ts'[idler] == ts[idler].(state := Ready)
    ensures forall i :: 0 <= i < |ts'| ==> !ts'[i].state.Sleeping?
  {
  }

  /** With one candidate in the table, an idle task gives way to it. */
  lemma OnlyChoice(ts: seq<Tcb>, cur: nat, sliceOver: bool)
    requires IdleFrom(ts, 1) && 1 <= cur < |ts| && Candidate(ts[0], 0)
    ensures Chosen(ts, 0, cur, sliceOver) == 0
  {
    BestOfIsBest(ts, 0);
    var i := CycReaches(After(cur, |ts|), |ts|, 0);
    FirstFromFinds(ts, CandidateAt(0, BestOf(ts, 0)), After(cur, |ts|), 0, i);
  }

  /** After a task of priority 0 comes the idle one, whatever else of priority 0 is ready. */
  lemma IdleIsNext(ts: seq<Tcb>, idler: nat, n: nat)
    requires 1 <= idler < n < |ts| && !ts[0].isIdle && ts[0].priority == 0 && !ts[0].state.Ready?
    requires forall i :: 1 <= i < n ==> ts[i].isIdle && ts[i].priority == 0
    requires forall i :: n <= i < |ts| ==> Candidate(ts[i], 0) && ts[i].priority == 0
    requires ts[idler].state.Ready? && Eligible(ts[idler], 0)
    ensures var next := Chosen(ts, 0, 0, true); next >= 0 && ts[next].isIdle
  {
    BestOfIsBest(ts, 0);
    assert Candidate(ts[n], 0);
    assert Cyc(0, idler, |ts|) == idler;
    FirstFromFinds(ts, AnyReadyAt(0, 0), 0, 1, idler);
  }

  /** A task of priority 0 has had its slice, another is ready, and the core goes to its idle task. */
  method IdleRunsAheadOfWork(mem: Mem) returns (k: Kernel)
    ensures fresh(k) && k.Valid() && |k.current| == 2 && 0 <= k.current[0] < |k.tasks|
    ensures k.tasks[k.current[0]].isIdle && Candidate(k.tasks[|k.tasks| - 1], 0)
  {
    ghost var idler, n;
    k, idler, n := TwoLazy(mem);
    k.Tick(0, k.lastSwitch[0] + k.cyclesPerTick);
    IdleIsNext(k.tasks, idler, n);
    NoSleeper(k.tasks, k.clock[0], k.groups);
    SwitchTo(k, 0, Chosen(k.tasks, 0, 0, true));
  }

  /** A second task of priority 0 is created. */
  method TwoLazy(mem: Mem) returns (k: Kernel, ghost idler: nat, ghost n: nat)
    ensures fresh(k) && k.Valid() && k.started && k.current == [0, -1] && |k.tasks| == n + 1 && 1 <= idler < n
    ensures k.tasks[0].state.Running? && !k.tasks[0].isIdle && k.tasks[0].priority == 0
    ensures forall i :: 1 <= i < n ==> k.tasks[i].isIdle && k.tasks[i].priority == 0
    ensures k.tasks[idler].state.Ready? && Eligible(k.tasks[idler], 0)
    ensures Candidate(k.tasks[n], 0) && k.tasks[n].priority == 0
    ensures forall i :: 0 <= i < |k.tasks| ==> !k.tasks[i].state.Sleeping?
  {
    k, idler := Roused(mem);
    n := |k.tasks|;
    var handle := k.CreateTask(0, -1, 0);
  }

  lemma NoSleeper(ts: seq<Tcb>, now: nat, gs: seq<Group>)
    requires forall i :: 0 <= i < |ts| ==> !ts[i].state.Sleeping?
    ensures WokenAt(ts, now, gs) == ts
  {
  }

  // ----- two tasks, the first of higher priority -----

  const HIGH: Tcb := NewTask(BUMP_BASE, 2, -1)

  function Low(handle: nat): Tcb { NewTask(handle, 1, -1) }

  /** The first task on core 0, the second ready. */
  method Promoted(mem: Mem) returns (k: Kernel, ghost handle: nat)
    ensures fresh(k) && k.Valid() && k.started && k.recursive == {} && k.strays == {} && k.queues == []
    ensures k.current == [0, -1] && k.tasks == [HIGH.(state := Running), Low(handle)] && handle == BUMP_BASE + 4
    ensures k.clock == k.lastSwitch == [0, 0] && k.cyclesPerTick == 160_000 && k.mem == mem
  {
    k := Single(mem, 2);
    handle := k.CreateTask(1, -1, 0);
    assert k.strays == {};
  }

  /** Each core runs one of the tasks. */
  method Pair(mem: Mem) returns (k: Kernel, ghost handle: nat)
    ensures fresh(k) && k.Valid() && k.started && k.recursive == {} && k.strays == {} && k.queues == []
    ensures k.current == [0, 1] && IdleFrom(k.tasks, 2) && |k.tasks| <= 4 && handle == BUMP_BASE + 4
    ensures k.mem == mem && k.cyclesPerTick == 160_000
    ensures k.tasks[0] == HIGH.(state := Running) && k.tasks[1] == Low(handle).(state := Running)
  {
    k, handle := Promoted(mem);
    ghost var ts := k.tasks;
    k.JoinCore(1);
    IdleKept(ts, k.tasks, 2, k.clock[1], k.groups);
    assert Settled(ts[0], k.tasks[0], k.clock[1], k.groups) && Settled(ts[1], k.tasks[1], k.clock[1], k.groups);
    Runs(k.tasks, k.current, 1, 1);
  }

  /** The second task, suspended from the other core; `rival` adds a third of its priority. */
  method SuspendRemote(mem: Mem, rival: bool) returns (k: Kernel)
    ensures fresh(k) && k.started && k.Checkable(1) && k.current == [0, 1] && Stopped(k.tasks, rival)
  {
    ghost var handle;
    k, handle := Pair(mem);
    if rival {
      var third := k.CreateTask(1, -1, 0);
    }
    k.SuspendOther(0, 1);
  }

  /** A running task, a suspended one that has core 1, idle tasks, and the rival if there is one. */
  ghost predicate Stopped(ts: seq<Tcb>, rival: bool) {
    && |ts| >= (if rival then 3 else 2) && ts[0].state.Running?
    && ts[1].state.Suspended? && !ts[1].isIdle && ts[1].priority == 1
    && (forall i :: 2 <= i < |ts| - (if rival then 1 else 0) ==> ts[i].isIdle)
    && (rival ==> Candidate(ts[|ts| - 1], 1) && ts[|ts| - 1].priority == 1)
  }

  lemma StoppedChoice(ts: seq<Tcb>, rival: bool)
    requires Stopped(ts, rival)
    ensures Chosen(ts, 1, 1, true) >= 0 <==> rival
  {
    BestOfIsBest(ts, 1);
    if rival {
      var n := |ts| - 1;
      assert Candidate(ts[n], 1) && Cyc(1, n - 1, |ts|) == n;
      FirstFromFinds(ts, AnyReadyAt(1, 1), 1, 1, n - 1);
    }
  }

  lemma StoppedStays(ts: seq<Tcb>, rival: bool, now: nat, gs: seq<Group>)
    requires Stopped(ts, rival)
    ensures Stopped(WokenAt(ts, now, gs), rival)
  {
  }

  /** Suspending the task that another core runs does not stop it: after its slice it still has the
      core, and loses it, still suspended, exactly when a task of its priority is ready. */
  method SuspendedTaskRuns(mem: Mem, rival: bool) returns (k: Kernel)
    ensures fresh(k) && k.started && |k.current| == 2 && |k.tasks| > 1 && k.tasks[1].state.Suspended?
    ensures k.current[1] == 1 <==> !rival
    ensures rival ==> k.Usable()
  {
    k := SuspendRemote(mem, rival);
    k.Tick(1, k.lastSwitch[1] + k.cyclesPerTick);
    StoppedStays(k.tasks, rival, k.clock[1], k.groups);
    StoppedChoice(WokenAt(k.tasks, k.clock[1], k.groups), rival);
    var switched := k.CheckPreempt(1, true);
  }

  /** A queue of two one-byte items. */
  ghost predicate SharedQueue(q: Queue, h: nat, count: nat) {
    q.handle == h != 0 && q.itemSize == 1 && q.maxItems == 2 && q.count == count
  }

  /** The two tasks as they stand, and the queue they share. */
  ghost predicate Crew(k: Kernel, first: Tcb, second: Tcb, h: nat, count: nat)
    reads k
  {
    && k.Usable() && k.started && k.recursive == {} && k.strays == {}
    && IdleFrom(k.tasks, 2) && k.tasks[0] == first && k.tasks[1] == second
    && |k.queues| == 1 && SharedQueue(k.queues[0], h, count)
  }

  function InUse(t: Tcb): Tcb { t.(state := Running) }

  method PairWithQueue(mem: Mem, h: nat) returns (k: Kernel, ghost low: Tcb)
    requires 0 < h < BUMP_BASE
    ensures fresh(k) && k.Valid() && Crew(k, InUse(HIGH), InUse(low), h, 0) && k.current == [0, 1]
    ensures low == Low(low.handle) && k.mem == mem
  {
    ghost var handle;
    k, handle := Pair(mem);
    low := Low(handle);
    var made := k.CreateQueue(h, Creation(2, 1, 0, false, false));
  }

  /** The first task sends an item. */
  method SendOne(k: Kernel, ghost low: Tcb, h: nat, itemPtr: nat, ghost count: nat)
    requires k.Valid() && Crew(k, InUse(HIGH), InUse(low), h, count) && k.current == [0, 1]
    requires low == Low(low.handle) && count < 2
    modifies k
    ensures k.Valid() && Crew(k, InUse(HIGH), InUse(low), h, count + 1) && k.current == [0, 1]
  {
    NobodyServed(k.tasks, h, count + 1);
    var ok, blocked := k.Send(0, h, itemPtr, 0, Back);
  }

  /** A wait of the first task on the shared queue, under the sender's flag. */
  function Wait(h: nat, buf: nat, waiting: bool): QueueWait { QueueWait(h, buf, waiting, false, true, Back) }

  /** The first task waits for room. */
  method Park(k: Kernel, ghost low: Tcb, h: nat, itemPtr: nat)
    requires k.Valid() && Crew(k, InUse(HIGH), InUse(low), h, 2) && k.current == [0, 1] && low == Low(low.handle)
    modifies k
    ensures k.Valid() && k.current[1] == 1
    ensures Crew(k, HIGH.(state := BlockedQueue, q := Wait(h, itemPtr, true)), InUse(low), h, 2)
  {
    ghost var was := k.tasks;
    NobodyServed(was, h, 3);
    var ok, blocked := k.Send(0, h, itemPtr, MAX_DELAY, Back);
    ghost var p := HIGH.(state := BlockedQueue, q := Wait(h, itemPtr, true));
    assert blocked && Parked(was[0], p.q, MAX_DELAY, k.clock[0], k.cyclesPerTick) == p;
    IdleKept(was[0 := p], k.tasks, 2, k.clock[0], k.groups);
    assert Settled(p, k.tasks[0], k.clock[0], k.groups) && Settled(was[1], k.tasks[1], k.clock[0], k.groups);
  }

  /** The second task suspends it. */
  method SuspendSender(k: Kernel, ghost low: Tcb, h: nat, itemPtr: nat)
    requires k.Valid() && k.current[1] == 1 && low == Low(low.handle)
    requires Crew(k, HIGH.(state := BlockedQueue, q := Wait(h, itemPtr, true)), InUse(low), h, 2)
    modifies k
    ensures Crew(k, HIGH.(state := Suspended, q := Wait(h, itemPtr, false)), InUse(low), h, 2)
    ensures k.current[1] == 1 && k.current[0] !in {0, 1}
  {
    k.SuspendOther(1, 0);
  }

  /** An interrupt handler takes an item. */
  method Drain(k: Kernel, ghost low: Tcb, h: nat, itemPtr: nat, ghost count: nat)
    requires Crew(k, HIGH.(state := Suspended, q := Wait(h, itemPtr, false)), InUse(low), h, count)
    requires k.current[1] == 1 && k.current[0] !in {0, 1} && low == Low(low.handle) && count > 0
    modifies k
    ensures Crew(k, HIGH.(state := Suspended, q := Wait(h, itemPtr, false)), InUse(low), h, count - 1)
    ensures k.current[1] == 1 && k.current[0] !in {0, 1}
  {
    NoWaiter(k.tasks, h, true);
    var ok := k.ReceiveFromISR(h, itemPtr);
  }

  /** The first task is resumed, and the second makes way for it. */
  method ResumeSender(k: Kernel, ghost low: Tcb, h: nat, itemPtr: nat)
    requires Crew(k, HIGH.(state := Suspended, q := Wait(h, itemPtr, false)), InUse(low), h, 0)
    requires k.current[1] == 1 && k.current[0] !in {0, 1} && low == Low(low.handle)
    modifies k
    ensures Crew(k, InUse(HIGH).(q := Wait(h, itemPtr, false)), low, h, 0)
    ensures k.current[1] == 0 && k.current[0] !in {0, 1}
  {
    FindTaskHit(k.tasks, BUMP_BASE, 0);
    var woke := k.Resume(BUMP_BASE);
    ghost var was := k.tasks;
    k.Yield(1);
    ghost var left := was[1 := low];
    IdleKept(left, k.tasks, 2, k.clock[1], k.groups);
    assert Settled(left[0], k.tasks[0], k.clock[1], k.groups) && Settled(left[1], k.tasks[1], k.clock[1], k.groups);
    Runs(k.tasks, k.current, 1, 0);
  }

  /** Its receive is entered in the table as a send. */
  method ReceiveAsSender(k: Kernel, ghost low: Tcb, h: nat, itemPtr: nat, dst: nat)
    requires Crew(k, InUse(HIGH).(q := Wait(h, itemPtr, false)), low, h, 0)
    requires k.current[1] == 0 && k.current[0] !in {0, 1} && low == Low(low.handle)
    modifies k
    ensures Crew(k, HIGH.(state := BlockedQueue, q := Wait(h, dst, true)), InUse(low), h, 0) && k.current[1] == 1
  {
    ghost var was := k.tasks;
    var ok, blocked := k.Receive(1, h, dst, MAX_DELAY);
    ghost var p := HIGH.(state := BlockedQueue, q := Wait(h, dst, true));
    assert blocked && Parked(was[0], p.q, MAX_DELAY, k.clock[1], k.cyclesPerTick) == p;
    IdleKept(was[0 := p], k.tasks, 2, k.clock[1], k.groups);
    assert Settled(p, k.tasks[0], k.clock[1], k.groups) && Settled(was[1], k.tasks[1], k.clock[1], k.groups);
    Runs(k.tasks, k.current, 1, 1);
  }

  /** The first task is suspended in a send that waits for room, and then there is room. */
  method SuspendedSender(mem: Mem, h: nat, itemPtr: nat) returns (k: Kernel, ghost low: Tcb)
    requires 0 < h < BUMP_BASE
    ensures fresh(k) && Crew(k, HIGH.(state := Suspended, q := Wait(h, itemPtr, false)), InUse(low), h, 0)
    ensures k.current[1] == 1 && k.current[0] !in {0, 1} && low == Low(low.handle)
  {
    k, low := PairWithQueue(mem, h);
    SendOne(k, low, h, itemPtr, 0);
    SendOne(k, low, h, itemPtr, 1);
    Park(k, low, h, itemPtr);
    SuspendSender(k, low, h, itemPtr);
    Drain(k, low, h, itemPtr, 2);
    Drain(k, low, h, itemPtr, 1);
  }

  /** A sender that was suspended while it waited for room later waits for an item in vain: the
      item is there, and there is room for more. */
  method SuspendedSenderWaitsInVain(mem: Mem, h: nat, itemPtr: nat, dst: nat) returns (k: Kernel)
    requires 0 < h < BUMP_BASE
    ensures fresh(k) && k.Usable() && |k.tasks| > 0 && FindQueue(k.queues, h) == 0
    ensures k.tasks[0].q.waiting && k.tasks[0].q.handle == h && k.tasks[0].q.buf == dst
    ensures k.tasks[0].state.BlockedQueue?
    ensures 0 < k.queues[0].count < k.queues[0].maxItems
  {
    ghost var low;
    k, low := SuspendedSender(mem, h, itemPtr);
    ResumeSender(k, low, h, itemPtr);
    ReceiveAsSender(k, low, h, itemPtr, dst);
    NobodyServed(k.tasks, h, 1);
    var ok, blocked := k.Send(1, h, itemPtr, 0, Back);
  }
}
