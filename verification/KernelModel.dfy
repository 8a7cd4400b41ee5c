/** The host-side FreeRTOS: one task table, two cores, queues, semaphores,
    recursive mutexes and event groups. Each method is one API call or one
    scheduler entry, executed atomically under the kernel lock. */
module KernelModel {
  import opened GuestMemory
  import opened QueueRing
  import opened QueueHistory
  import opened KernelTypes
  import opened KernelSteps
  import opened KernelEvents
  import opened KernelChoice

  class Kernel {
    var mem: Mem
    var bump: nat
    var cyclesPerTick: nat

    var tasks: seq<Tcb>
    var current: seq<int>
    var started: bool
    var clock: seq<nat>
    var lastSwitch: seq<nat>
    var idle: seq<nat>
    var idleReady: bool

    var queues: seq<Queue>
    var groups: seq<Group>

    /** Per queue object, everything that ever happened to it. */
    ghost var trace: seq<Log>
    /** Tasks that were running when the scheduler started and forgot them. */
    ghost var strays: set<int>
    /** Mutexes the guest reserves for the recursive take and give. */
    var recursive: set<nat>

    ghost predicate Shape()
      reads this
    {
      && |clock| == |lastSwitch| == |current| == 2
      && cyclesPerTick > 0
      && |tasks| <= MAX_TASKS && |queues| <= MAX_QUEUES && |groups| <= MAX_EVENT_GROUPS
      && |trace| == |queues|
      && BUMP_BASE <= bump <= BUMP_LIMIT
    }

    /** What every step keeps, even in a kernel that misuse has made unsound. */
    ghost predicate Usable()
      reads this
    {
      Shape() && UsableTables(tasks, queues, current, Here())
    }

    /** What a queue step leaves alone. */
    ghost function Here(): Context
      reads this
    {
      Context(groups, recursive, bump, idle, idleReady, strays)
    }

    /** Every wait is justified and every history true. */
    ghost predicate Sound()
      reads this
    {
      SoundTables(tasks, queues, trace, started, Here())
    }

    /** The invariant. */
    ghost predicate Valid()
      reads this
    {
      Usable() && Sound()
    }

    constructor (mem: Mem)
      ensures Valid()
      ensures tasks == [] && queues == [] && groups == [] && !started && current == [-1, -1]
      ensures this.mem == mem && trace == [] && recursive == {} && strays == {} && bump == BUMP_BASE
      ensures clock == [0, 0] && lastSwitch == [0, 0] && cyclesPerTick == 160_000
    {
      this.mem, bump, cyclesPerTick := mem, BUMP_BASE, 160_000;
      tasks, current, started := [], [-1, -1], false;
      clock, lastSwitch, idle, idleReady := [0, 0], [0, 0], [0, 0], false;
      queues, groups, trace, recursive, strays := [], [], [], {}, {};
    }

    // ----- scheduler -----

    /** The core runs a task, and the scheduler is up. */
    predicate OnTask(core: nat)
      reads this
    {
      |current| == 2 && core < 2 && started && current[core] >= 0
    }

    /** Ends every sleep whose deadline this core's clock has reached. */
    method WakeSleepers(core: nat)
      requires |clock| == 2 && core < 2
      modifies `tasks
      ensures tasks == WokenAt(old(tasks), clock[core], groups)
      ensures forall i :: 0 <= i < |tasks| ==>
                var t, t' := old(tasks)[i], tasks[i];
                if t.state.Sleeping? && clock[core] >= t.wakeCycle then
                  && t'.state.Ready? && !t'.q.waiting && !t'.eg.waiting
                  && t'.ret == (if t.eg.waiting then GroupBits(groups, t.eg.handle) else t.ret)
                  && (t.q.waiting ==> !t'.q.sender)
                  && t' == t.(state := t'.state, ret := t'.ret, q := t'.q, eg := t'.eg)
                else t' == t
    {
      var now := clock[core];
      var i := 0;
      while i < |tasks|
        invariant 0 <= i <= |tasks| == |old(tasks)|
        invariant forall k :: 0 <= k < i ==> tasks[k] == Woke(old(tasks)[k], now, groups)
        invariant forall k :: i <= k < |tasks| ==> tasks[k] == old(tasks)[k]
      {
        var t := tasks[i];
        if t.state.Sleeping? && now >= t.wakeCycle {
          if t.q.waiting {
            t := t.(q := t.q.(waiting := false, sender := false, handle := 0));
          }
          if t.eg.waiting {
            t := t.(ret := GroupBits(groups, t.eg.handle), eg := t.eg.(waiting := false));
          }
          t := t.(state := Ready);
          tasks := tasks[i := t];
        }
        i := i + 1;
      }
    }

    method RegisterTask(handle: nat, priority: nat, affinity: int) returns (idx: int)
      requires |tasks| <= MAX_TASKS
      modifies `tasks
      ensures |old(tasks)| == MAX_TASKS ==> idx == -1 && tasks == old(tasks)
      ensures |old(tasks)| < MAX_TASKS ==>
                idx == |old(tasks)| && tasks == old(tasks) + [NewTask(handle, priority, affinity)]
    {
      if |tasks| >= MAX_TASKS { return -1; }
      idx := |tasks|;
      tasks := tasks + [NewTask(handle, priority, affinity)];
    }

    /** Gives each core its own idle task, the first time one is needed. */
    method InstallIdleTasks()
      requires |tasks| <= MAX_TASKS && IdleOk(tasks, idle, idleReady)
      modifies `tasks, `idle, `idleReady
      ensures |tasks| <= MAX_TASKS && IdleOk(tasks, idle, idleReady)
      ensures old(idleReady) ==> idleReady && tasks == old(tasks) && idle == old(idle)
      ensures old(tasks) <= tasks && |tasks| <= |old(tasks)| + 2
      ensures forall i :: |old(tasks)| <= i < |tasks| ==>
                0 <= tasks[i].affinity < 2 && tasks[i] == IdleTask(tasks[i].affinity)
      ensures !idleReady ==> |tasks| == MAX_TASKS
    {
      if idleReady { return; }
      var core := 0;
      while core < 2
        invariant 0 <= core <= 2 && |idle| == 2 && |tasks| <= MAX_TASKS && !idleReady
        invariant old(tasks) <= tasks && |tasks| <= |old(tasks)| + core
        invariant forall i :: |old(tasks)| <= i < |tasks| ==>
                    0 <= tasks[i].affinity < 2 && tasks[i] == IdleTask(tasks[i].affinity)
        invariant forall c :: 0 <= c < core ==>
                    idle[c] < |tasks| && tasks[idle[c]].isIdle && tasks[idle[c]].affinity == c
      {
        var idx := RegisterTask(IDLE_HANDLE + core, 0, core);
        if idx < 0 { return; }
        tasks := tasks[idx := tasks[idx].(isIdle := true)];
        idle := idle[core := idx];
        core := core + 1;
      }
      idleReady := true;
    }

    /** The highest-priority ready task for this core, round robin among equals,
        else the core's idle task, else -1. */
    method PickNext(core: nat) returns (r: int)
      requires core < 2 && Shape() && IdleOk(tasks, idle, idleReady) && -1 <= current[core] < |tasks|
      modifies `tasks, `idle, `idleReady
      ensures Shape() && IdleOk(tasks, idle, idleReady)
      ensures Picked(old(tasks), tasks, core, clock[core], groups)
      ensures -1 <= r < |tasks|
      ensures r >= 0 ==> tasks[r].state.Ready? && Eligible(tasks[r], core)
      ensures forall i :: 0 <= i < |tasks| && Candidate(tasks[i], core) ==>
                r >= 0 && Candidate(tasks[r], core) && tasks[i].priority <= tasks[r].priority
      ensures r >= 0 && Candidate(tasks[r], core) ==>
                tasks == WokenAt(old(tasks), clock[core], groups)
                && CyclicallyFirst(tasks, core, tasks[r].priority, After(current[core], |tasks|), r)
      ensures r >= 0 && !Candidate(tasks[r], core) ==> idleReady && r == idle[core]
      ensures r == -1 ==> |tasks| == MAX_TASKS && !idleReady
      ensures old(idleReady) ==> idleReady && idle == old(idle)
      ensures r >= 0 ==> MayRun(tasks[r], core)
      ensures PickedByTheRules(WokenAt(old(tasks), clock[core], groups), core, current[core], r, tasks)
    {
      WakeSleepers(core);
      var bestPrio := TopPriority(tasks, core);
      if bestPrio >= 0 {
        r := RoundRobin(tasks, core, bestPrio, After(current[core], |tasks|));
        ReadyByTheRules(tasks, core, current[core], r);
        return;
      }
      ghost var woken := tasks;
      r := PickIdle(core);
      IdleByTheRules(woken, core, current[core], r, tasks);
    }

    /** The core's idle task, made ready, once the idle tasks are there. */
    method PickIdle(core: nat) returns (r: int)
      requires core < 2 && Shape() && IdleOk(tasks, idle, idleReady)
      requires forall i :: 0 <= i < |tasks| ==> !Candidate(tasks[i], core)
      modifies `tasks, `idle, `idleReady
      ensures Shape() && IdleOk(tasks, idle, idleReady) && (old(idleReady) ==> idleReady && idle == old(idle))
      ensures |old(tasks)| <= |tasks| <= |old(tasks)| + 2 && -1 <= r < |tasks|
      ensures forall i :: 0 <= i < |old(tasks)| ==>
        var t := old(tasks)[i]; tasks[i] == t || (tasks[i] == t.(state := Ready) && t.isIdle && t.affinity == core)
      ensures forall i :: |old(tasks)| <= i < |tasks| ==>
                0 <= tasks[i].affinity < 2 && tasks[i] == IdleTask(tasks[i].affinity)
      ensures if r < 0 then |tasks| == MAX_TASKS && !idleReady
              else idleReady && r == idle[core] && tasks[r].state.Ready? && tasks[r].isIdle && tasks[r].affinity == core
      ensures forall i :: 0 <= i < |tasks| ==> !Candidate(tasks[i], core)
    {
      InstallIdleTasks();
      r := -1;
      if idleReady {
        r := idle[core];
        tasks := tasks[r := tasks[r].(state := Ready)];
      }
    }

    /** The next task of a core, and the table with it running. */
    method Pick(core: nat) returns (next: int, run: seq<Tcb>)
      requires core < 2 && Shape() && IdleOk(tasks, idle, idleReady) && -1 <= current[core] < |tasks|
      requires CoreOk(tasks, current, 1 - core) && Accounted(tasks, current[core := -1], strays)
      modifies `tasks, `idle, `idleReady
      ensures Shape() && -1 <= next < |tasks| == |run| && IdleOk(run, idle, idleReady)
      ensures run == if next >= 0 then tasks[next := tasks[next].(state := Running)] else tasks
      ensures SchedOk(run, current[core := next])
      ensures Accounted(run, current[core := next], strays) && Undisturbed(old(tasks), run, core, next)
      ensures Switched(old(tasks), run, clock[core], groups)
      ensures Served(run, current[core := next], core) && Occupied(run, current[core := next], core, idleReady)
      ensures PickedByTheRules(WokenAt(old(tasks), clock[core], groups), core, current[core], next, run)
      ensures old(idleReady) ==> idleReady && idle == old(idle)
    {
      next := PickNext(core);
      RunPicked(old(tasks), tasks, core, clock[core], groups, current, strays, next);
      PickServes(tasks, core, current, next, idleReady);
      run := tasks;
      if next >= 0 {
        RunningPick(WokenAt(old(tasks), clock[core], groups), core, current[core], next, tasks);
        run := run[next := run[next].(state := Running)];
      }
    }

    /** Leaves the current task, which the caller has already taken out of the
        RUNNING state, and runs the next one. */
    method Switch(core: nat)
      requires core < 2 && Shape() && IdleOk(tasks, idle, idleReady) && -1 <= current[core] < |tasks|
      requires CoreOk(tasks, current, 1 - core) && Accounted(tasks, current[core := -1], strays)
      modifies `tasks, `current, `idle, `idleReady, `lastSwitch
      ensures Shape() && IdleOk(tasks, idle, idleReady)
      ensures SchedOk(tasks, current) && current[1 - core] == old(current)[1 - core]
      ensures Accounted(tasks, current, strays) && Undisturbed(old(tasks), tasks, core, current[core])
      ensures Switched(old(tasks), tasks, clock[core], groups)
      ensures Served(tasks, current, core) && Occupied(tasks, current, core, idleReady)
      ensures lastSwitch == if current[core] >= 0 then old(lastSwitch)[core := clock[core]] else old(lastSwitch)
      ensures old(idleReady) ==> idleReady && idle == old(idle)
      ensures PickedByTheRules(WokenAt(old(tasks), clock[core], groups), core, old(current)[core], current[core], tasks)
    {
      var next, run := Pick(core);
      tasks, current := run, current[core := next];
      if next >= 0 {
        lastSwitch := lastSwitch[core := clock[core]];
      }
    }

    /** The common end of every call that gives the core away: the caller's TCB
        becomes `t`, and the core switches. */
    method Leave(core: nat, t: Tcb)
      requires Usable() && core < 2 && current[core] >= 0 && started
      requires !t.state.Running? && TaskUsable(t)
      requires var c := tasks[current[core]]; t.affinity == c.affinity && t.isIdle == c.isIdle
      modifies `tasks, `current, `idle, `idleReady, `lastSwitch
      ensures Usable() && current[1 - core] == old(current)[1 - core]
      ensures Served(tasks, current, core) && Occupied(tasks, current, core, idleReady)
      ensures Left(old(tasks)[old(current)[core] := t], core, old(current)[core])
      ensures old(Valid() && MayLeave(t, queues, Here())) ==> Valid()
      ensures lastSwitch == if current[core] >= 0 then old(lastSwitch)[core := clock[core]] else old(lastSwitch)
      ensures old(idleReady) ==> idleReady && idle == old(idle)
    {
      ghost var keep, was, c := Valid() && MayLeave(t, queues, Here()), tasks, current[core];
      UsableUpdate(tasks, current[core], t);
      tasks := tasks[current[core] := t];
      Switch(core);
      SwitchKeepsUsable(was[c := t], tasks, clock[core], groups);
      if keep {
        LeaveSound(was, c, t, tasks, queues, trace, old(Here()), clock[core]);
      }
    }

    /** The table once task `c` is asleep until `at`. */
    function Dozing(ts: seq<Tcb>, c: int, at: nat): (r: seq<Tcb>)
      requires 0 <= c < |ts|
      ensures r == ts[c := ts[c].(state := Sleeping, wakeCycle := at)]
    {
      ts[c := ts[c].(state := Sleeping, wakeCycle := at)]
    }

    /** The caller sleeps, for no longer than the cap. */
    method Sleep(core: nat, advance: nat)
      requires Usable() && core < 2 && OnTask(core)
      modifies `tasks, `current, `idle, `idleReady, `lastSwitch
      ensures Usable() && (old(Valid()) ==> Valid()) && current[1 - core] == old(current)[1 - core]
      ensures Slept(core, advance)
      ensures Served(tasks, current, core) && Occupied(tasks, current, core, idleReady)
      ensures var c, at := old(current)[core], clock[core] + AtMost(advance, 200_000_000);
              Left(Dozing(old(tasks), c, at), core, c)
      ensures lastSwitch == if current[core] >= 0 then old(lastSwitch)[core := clock[core]] else old(lastSwitch)
    {
      var at := clock[core] + Capped(advance);
      assert at == clock[core] + AtMost(advance, 200_000_000);
      var t := tasks[current[core]].(state := Sleeping, wakeCycle := at);
      WaitKept(current[core]);
      assert Valid() ==> MayLeave(t, queues, Here());
      assert tasks[current[core] := t] == Dozing(tasks, current[core], at);
      Leave(core, t);
    }

    /** The core has just gone from task `c` of the table `ts` to the task it runs now. */
    ghost predicate Left(ts: seq<Tcb>, core: nat, c: int)
      requires |clock| == |current| == 2 && core < 2 && 0 <= c < |ts|
      reads this
    {
      && Switched(ts, tasks, clock[core], groups)
      && PickedByTheRules(WokenAt(ts, clock[core], groups), core, c, current[core], tasks)
    }

    /** The task that was running on the core is asleep, for that long or for the cap. */
    twostate predicate Slept(core: nat, advance: nat)
      reads this
    {
      && |clock| == |current| == |old(current)| == 2 && core < 2 && 0 <= old(current)[core] < |old(tasks)|
      && Served(tasks, current, core) && Occupied(tasks, current, core, idleReady)
      && Left(Dozing(old(tasks), old(current)[core], clock[core] + AtMost(advance, 200_000_000)), core,
              old(current)[core])
    }

    /** vTaskDelay and the other pure sleeps, with the cap on their length. Without a task to
        park, the clock moves on instead. */
    method Delay(core: nat, advance: nat)
      requires Usable() && core < 2
      modifies `tasks, `current, `idle, `idleReady, `lastSwitch, `clock
      ensures Usable() && (!old(Valid()) || Valid()) && current[1 - core] == old(current)[1 - core]
      ensures old(OnTask(core)) ==> clock == old(clock)
      ensures !old(OnTask(core)) || Slept(core, advance)
      ensures !old(OnTask(core)) ==>
              && tasks == old(tasks) && current == old(current)
              && clock == old(clock)[core := old(clock)[core] + AtMost(advance, 200_000_000)]
      ensures lastSwitch ==
        if old(OnTask(core)) && current[core] >= 0 then old(lastSwitch)[core := clock[core]] else old(lastSwitch)
    {
      if OnTask(core) {
        Sleep(core, advance);
      } else {
        Pass(core, advance);
      }
    }

    /** The clock alone moves on. */
    method Pass(core: nat, advance: nat)
      requires Usable() && core < 2
      modifies `clock
      ensures Usable() && (old(Valid()) ==> Valid())
      ensures clock == old(clock)[core := old(clock)[core] + AtMost(advance, 200_000_000)]
    {
      Tick(core, Capped(advance));
    }

    /** A running task may be moved to another state, as far as waits go. */
    lemma WaitKept(i: int)
      requires Usable() && 0 <= i < |tasks| && tasks[i].state.Running?
      ensures !Waiting(tasks[i])
      ensures Valid() ==> WaitOk(tasks[i], queues, groups) && !tasks[i].q.sender
    {
      assert TaskUsable(tasks[i]);
    }

    /** The core has gone from its task, left in another state, to the task the rules pick. */
    twostate predicate HandedOver(core: nat, state: TaskState)
      reads this
    {
      && |clock| == |current| == |old(current)| == 2 && core < 2 && 0 <= old(current)[core] < |old(tasks)|
      && var c := old(current)[core]; Left(old(tasks)[c := old(tasks)[c].(state := state)], core, c)
    }

    /** vPortYield; nothing to do without a task. */
    method Yield(core: nat)
      requires Usable() && core < 2
      modifies `tasks, `current, `idle, `idleReady, `lastSwitch
      ensures Usable() && (old(Valid()) ==> Valid()) && current[1 - core] == old(current)[1 - core]
      ensures old(OnTask(core)) ==> Served(tasks, current, core)
      ensures !old(OnTask(core)) || HandedOver(core, Ready)
      ensures !old(OnTask(core)) ==> tasks == old(tasks) && current == old(current)
      ensures lastSwitch ==
        if old(OnTask(core)) && current[core] >= 0 then old(lastSwitch)[core := clock[core]] else old(lastSwitch)
    {
      if OnTask(core) {
        WaitKept(current[core]);
        Leave(core, tasks[current[core]].(state := Ready));
      }
    }

    /** vTaskSuspend of the caller; without a task only the CPU stops. */
    method SuspendSelf(core: nat)
      requires Usable() && core < 2
      modifies `tasks, `current, `idle, `idleReady, `lastSwitch
      ensures Usable() && (old(Valid()) ==> Valid()) && current[1 - core] == old(current)[1 - core]
      ensures old(OnTask(core)) ==> Served(tasks, current, core)
      ensures !old(OnTask(core)) || HandedOver(core, Suspended)
      ensures !old(OnTask(core)) ==> tasks == old(tasks) && current == old(current)
      ensures lastSwitch ==
        if old(OnTask(core)) && current[core] >= 0 then old(lastSwitch)[core := clock[core]] else old(lastSwitch)
    {
      if OnTask(core) {
        WaitKept(current[core]);
        Leave(core, tasks[current[core]].(state := Suspended));
      }
    }

    /** vTaskDelete of the caller. On a core without a task a null handle is a handle like any
        other. */
    method DeleteSelf(core: nat)
      requires Usable() && core < 2
      modifies `tasks, `current, `idle, `idleReady, `lastSwitch
      ensures |current| == 2 && current[1 - core] == old(current)[1 - core]
      ensures old(OnTask(core)) ==>
              Usable() && (old(Valid()) ==> Valid()) && Served(tasks, current, core)
      ensures !old(OnTask(core)) || HandedOver(core, Unused)
      ensures !old(OnTask(core)) ==> current == old(current) && Deleted(old(tasks), tasks, 0)
      ensures !old(OnTask(core)) && old(Valid()) ==> (Valid() <==> old(Deletable(0)))
      ensures lastSwitch ==
        if old(OnTask(core)) && current[core] >= 0 then old(lastSwitch)[core := clock[core]] else old(lastSwitch)
    {
      if OnTask(core) {
        WaitKept(current[core]);
        Leave(core, tasks[current[core]].(state := Unused));
      } else {
        DeleteByHandle(0);
      }
    }

    method LookupTask(handle: nat) returns (k: int)
      ensures k == FindTask(tasks, handle)
    {
      k := 0;
      assert tasks[..0] == [];
      while k < |tasks|
        invariant 0 <= k <= |tasks| && FindTask(tasks[..k], handle) == -1
      {
        assert tasks[..k + 1][..k] == tasks[..k];
        if !tasks[k].state.Unused? && tasks[k].handle == handle {
          FindTaskPrefix(tasks, handle, k + 1);
          return;
        }
        k := k + 1;
      }
      assert tasks[..k] == tasks;
      k := -1;
    }

    method Resume(handle: nat) returns (woke: bool)
      requires Usable()
      modifies `tasks
      ensures Usable() && (old(Valid()) ==> Valid())
      ensures var k := FindTask(old(tasks), handle);
              && (woke <==> k >= 0 && old(tasks)[k].state.Suspended?)
              && tasks == if woke then old(tasks)[k := old(tasks)[k].(state := Ready)] else old(tasks)
    {
      var k := LookupTask(handle);
      woke := k >= 0 && tasks[k].state.Suspended?;
      if woke {
        assert TaskUsable(tasks[k]);
        assert Valid() ==> WaitOk(tasks[k], queues, groups);
        tasks := tasks[k := tasks[k].(state := Ready)];
      }
    }

    /** vTaskSuspend of another task, by a task. It keeps the kernel sound exactly when the
        target is not the other core's current task and is not parked in a send: the
        first keeps executing while marked suspended, the second keeps its sender flag
        and later receives as a sender. */
    method SuspendOther(core: nat, target: nat)
      requires Valid() && core < 2 && target < |tasks| && target != current[core] && !tasks[target].state.Unused?
      modifies `tasks
      ensures tasks == if OnTask(core) then old(tasks)[target := Halted(old(tasks)[target])] else old(tasks)
      ensures Valid() <==> OnTask(core) ==> target != current[1 - core] && !old(tasks)[target].q.sender
      ensures target != current[1 - core] ==> Usable()
      ensures OnTask(core) && target == current[1 - core] ==> Checkable(1 - core)
      ensures OnTask(core) ==>
                && tasks[target].state.Suspended? && !tasks[target].q.waiting && !tasks[target].eg.waiting
                && tasks[target].q.sender == old(tasks)[target].q.sender
    {
      if !OnTask(core) { return; }
      SuspendExactly(tasks, queues, trace, current, Here(), target);
      var t := tasks[target];
      t := t.(state := Suspended);
      t := t.(q := t.q.(waiting := false));
      t := t.(eg := t.eg.(waiting := false));
      tasks := tasks[target := t];
    }

    /** The task that a delete by handle finds, once the scheduler runs. */
    function Doomed(ts: seq<Tcb>, handle: nat): int
      reads this
    {
      if started then FindTask(ts, handle) else -1
    }

    ghost predicate Deleted(ts: seq<Tcb>, ts': seq<Tcb>, handle: nat)
      reads this
    {
      var k := Doomed(ts, handle);
      ts' == if k >= 0 then ts[k := ts[k].(state := Unused)] else ts
    }

    /** The target, if there is one, is current on neither core, the caller naming itself
        included, and not parked in a wait that would revive it. */
    predicate Deletable(handle: nat)
      reads this
    {
      var k := Doomed(tasks, handle);
      k >= 0 ==> !IsCurrent(current, k) && !Waiting(tasks[k])
    }

    /** vTaskDelete by handle. It only marks the slot, so it keeps the kernel sound exactly when
        the target is deletable. */
    method DeleteByHandle(handle: nat)
      requires Usable()
      modifies `tasks
      ensures Deleted(old(tasks), tasks, handle)
      ensures old(Valid()) ==> (Valid() <==> old(Deletable(handle)))
      ensures var k := Doomed(old(tasks), handle);
              && (k < 0 || !IsCurrent(current, k) ==> Usable())
              && forall core :: 0 <= core < 2 && k >= 0 && current[core] == k ==> Checkable(core)
      ensures !started || FindTask(old(tasks), handle) < 0 ==> tasks == old(tasks)
      ensures started && FindTask(old(tasks), handle) >= 0 ==>
                var k := FindTask(old(tasks), handle); tasks == old(tasks)[k := old(tasks)[k].(state := Unused)]
    {
      if !started { return; }
      var k := LookupTask(handle);
      if k >= 0 {
        DeleteExactly(tasks, queues, trace, current, Here(), k);
        tasks := tasks[k := tasks[k].(state := Unused)];
      }
    }

    /** Time passes on one core. */
    method Tick(core: nat, cycles: nat)
      requires Shape() && core < 2
      modifies `clock
      ensures Shape() && clock == old(clock)[core := old(clock)[core] + cycles]
      ensures (old(Usable()) ==> Usable()) && (old(Valid()) ==> Valid())
      ensures forall c :: old(Checkable(c)) ==> Checkable(c)
    {
      clock := clock[core := clock[core] + cycles];
    }

    /** What the preemption check of a core needs: its own task may have been suspended or
        deleted under it. */
    ghost predicate Checkable(core: nat)
      reads this
    {
      Shape() && LooseTables(tasks, queues, current, core, Here())
    }

    /** Takes the core from its current task for `next`. Only a task that was running becomes
        ready again. */
    method Preempt(core: nat, next: nat)
      requires Checkable(core) && started && current[core] >= 0 && next < |tasks| && next != current[core]
      requires tasks[next].state.Ready? && Eligible(tasks[next], core)
      requires forall i :: 0 <= i < |tasks| && Candidate(tasks[i], core) ==> tasks[i].priority <= tasks[next].priority
      requires tasks[current[core]].isIdle || tasks[current[core]].priority <= tasks[next].priority
      modifies `tasks, `current, `lastSwitch
      ensures Usable() && Served(tasks, current, core) && current == old(current)[core := next]
      ensures tasks == Preempted(old(tasks), old(current)[core], next)
      ensures old(Valid()) ==> Valid()
      ensures lastSwitch == old(lastSwitch)[core := clock[core]]
    {
      PreemptUsable(tasks, current, core, next, queues, trace, Here());
      var cur, ts := current[core], tasks;
      if ts[cur].state.Running? {
        ts := ts[cur := ts[cur].(state := Ready)];
      }
      assert ts == tasks[cur := Displaced(tasks[cur])];
      tasks := ts[next := ts[next].(state := Running)];
      current := current[core := next];
      lastSwitch := lastSwitch[core := clock[core]];
    }

    /** Ends expired sleeps on a running kernel. */
    method EndSleeps(core: nat)
      requires Checkable(core)
      modifies `tasks
      ensures Checkable(core) && tasks == WokenAt(old(tasks), clock[core], groups)
      ensures (old(Usable()) ==> Usable()) && (old(Valid()) ==> Valid())
    {
      ghost var keep := Valid();
      WokenLoose(tasks, queues, current, core, Here(), clock[core]);
      WokenStaysLoose(tasks, current, core, clock[core], groups);
      WakeSleepers(core);
      if keep {
        SwitchSound(old(tasks), tasks, queues, trace, started, Here(), clock[core]);
      }
    }

    /** The current task has had its tick, or the core's clock went back. */
    function SliceOver(core: nat): bool
      requires |clock| == |lastSwitch| == 2 && core < 2
      reads this
    {
      !(clock[core] >= lastSwitch[core] && clock[core] - lastSwitch[core] < cyclesPerTick)
    }

    /** The time-slice check on a core that runs a task: sleeps end, and then the task the
        rules choose, if they choose one, takes over. A suspended or deleted task goes on
        running until one is chosen. */
    method CheckRunning(core: nat) returns (switched: bool)
      requires Checkable(core) && started && current[core] >= 0
      modifies `tasks, `current, `lastSwitch
      ensures Checkable(core) && (switched || old(Usable()) ==> Usable()) && (old(Valid()) ==> Valid())
      ensures Served(tasks, current, core) && current[1 - core] == old(current)[1 - core]
      ensures 0 <= current[core] < |old(tasks)| && (switched <==> current[core] != old(current)[core])
      ensures var w := WokenAt(old(tasks), clock[core], groups);
              var next := Chosen(w, core, old(current)[core], old(SliceOver(core)));
              && (switched <==> next >= 0) && (switched ==> current[core] == next)
              && tasks == if switched then Preempted(w, old(current)[core], next) else w
      ensures lastSwitch == if switched then old(lastSwitch)[core := clock[core]] else old(lastSwitch)
      ensures var over := clock[core] < old(lastSwitch)[core] || clock[core] - old(lastSwitch)[core] >= cyclesPerTick;
              ByTheRules(WokenAt(old(tasks), clock[core], groups), core, old(current)[core], over,
                         if switched then current[core] else -1)
    {
      EndSleeps(core);
      switched := PreemptIfDue(core);
    }

    /** The choice, and the switch it leads to. */
    method PreemptIfDue(core: nat) returns (switched: bool)
      requires Checkable(core) && started && current[core] >= 0
      modifies `tasks, `current, `lastSwitch
      ensures Checkable(core) && (switched || old(Usable()) ==> Usable()) && (old(Valid()) ==> Valid())
      ensures Served(tasks, current, core) && current[1 - core] == old(current)[1 - core]
      ensures 0 <= current[core] < |old(tasks)| && (switched <==> current[core] != old(current)[core])
      ensures var next := Chosen(old(tasks), core, old(current)[core], old(SliceOver(core)));
              && (switched <==> next >= 0) && (switched ==> current[core] == next)
              && tasks == if switched then Preempted(old(tasks), old(current)[core], next) else old(tasks)
      ensures lastSwitch == if switched then old(lastSwitch)[core := clock[core]] else old(lastSwitch)
      ensures var over := clock[core] < old(lastSwitch)[core] || clock[core] - old(lastSwitch)[core] >= cyclesPerTick;
              ByTheRules(old(tasks), core, old(current)[core], over, if switched then current[core] else -1)
    {
      assert forall i :: 0 <= i < |tasks| ==> TaskUsable(tasks[i]);
      var next := ChooseNext(tasks, core, current[core], SliceOver(core));
      if next < 0 { return false; }
      Preempt(core, next);
      UsableIsLoose(tasks, queues, current, core, Here());
      return true;
    }

    /** The time-slice check a front end makes on a core between batches. */
    method CheckPreempt(core: nat, attached: bool) returns (switched: bool)
      requires Checkable(core)
      modifies `tasks, `current, `idle, `idleReady, `lastSwitch
      ensures Checkable(core) && (switched || old(Usable()) ==> Usable()) && (old(Valid()) ==> Valid())
      ensures current[1 - core] == old(current)[1 - core]
      ensures !attached || !started ==> !switched && tasks == old(tasks) && current == old(current)
      ensures attached && started ==> Served(tasks, current, core)
      ensures attached && started && old(current)[core] < 0 ==>
                Switched(old(tasks), tasks, clock[core], groups) && (switched <==> current[core] >= 0)
      ensures attached && started && old(current)[core] >= 0 ==>
                && 0 <= current[core] < |old(tasks)| && (switched <==> current[core] != old(current)[core])
                && var w := WokenAt(old(tasks), clock[core], groups);
                   var next := Chosen(w, core, old(current)[core], old(SliceOver(core)));
                   && (switched <==> next >= 0) && (switched ==> current[core] == next)
                   && tasks == if switched then Preempted(w, old(current)[core], next) else w
      ensures lastSwitch == if switched then old(lastSwitch)[core := clock[core]] else old(lastSwitch)
      ensures attached && started && old(current)[core] >= 0 ==>
                var over := clock[core] < old(lastSwitch)[core] || clock[core] - old(lastSwitch)[core] >= cyclesPerTick;
                ByTheRules(WokenAt(old(tasks), clock[core], groups), core, old(current)[core], over,
                           if switched then current[core] else -1)
      ensures attached && started && old(current)[core] < 0 ==>
                PickedByTheRules(WokenAt(old(tasks), clock[core], groups), core, -1, current[core], tasks)
    {
      if !attached || !started { return false; }
      if current[core] < 0 {
        Enter(core);
        UsableIsLoose(tasks, queues, current, core, Here());
        return current[core] >= 0;
      }
      switched := CheckRunning(core);
    }

    /** vTaskStartScheduler: forgets who was running and dispatches core 0. A task that core 1
        ran before, if there is one, is still RUNNING and is then current nowhere. */
    method Start()
      requires Valid()
      modifies `tasks, `current, `idle, `idleReady, `lastSwitch, `started, `clock, `strays
      ensures Valid() && started && strays == (if old(started) then old(strays) else old(strays) + Tasks(old(current)))
      ensures old(started) ==> tasks == old(tasks) && current == old(current) && clock == old(clock)
      ensures !old(started) ==>
                && clock == old(clock)[0 := 0] && current[1] == -1
                && Stranded(old(current)[1], tasks, current)
                && Switched(old(tasks), tasks, 0, groups) && Served(tasks, current, 0)
                && Occupied(tasks, current, 0, idleReady)
      ensures lastSwitch == if !old(started) && current[0] >= 0 then old(lastSwitch)[0 := 0] else old(lastSwitch)
      ensures !old(started) ==> PickedByTheRules(WokenAt(old(tasks), 0, groups), 0, -1, current[0], tasks)
    {
      if started { return; }
      ghost var ts, cur := tasks, current;
      Forget();
      Enter(0);
      LeftBehind(ts, tasks, cur, current);
    }

    /** Nobody is current any more, and core 0's clock starts again. */
    method Forget()
      requires Valid() && !started
      modifies `current, `started, `clock, `strays
      ensures Valid() && started && current == [-1, -1] && clock == old(clock)[0 := 0]
      ensures strays == old(strays) + Tasks(old(current))
    {
      StartSound(tasks, queues, trace, current, Here());
      started := true;
      strays := strays + Tasks(current);
      current := [-1, -1];
      clock := clock[0 := 0];
    }

    /** A core enters the scheduler. A task it already ran stays RUNNING and is forgotten. */
    method JoinCore(core: nat)
      requires Usable() && core < 2
      modifies `tasks, `current, `idle, `idleReady, `lastSwitch, `strays
      ensures Usable() && (old(Valid()) ==> Valid()) && strays == old(strays) + Tasks([old(current)[core]])
      ensures current[1 - core] == old(current)[1 - core]
      ensures Served(tasks, current, core) && Occupied(tasks, current, core, idleReady)
      ensures Switched(old(tasks), tasks, clock[core], groups) && Undisturbed(old(tasks), tasks, core, current[core])
      ensures lastSwitch == if current[core] >= 0 then old(lastSwitch)[core := clock[core]] else old(lastSwitch)
      ensures PickedByTheRules(WokenAt(old(tasks), clock[core], groups), core, old(current)[core], current[core], tasks)
    {
      strays := strays + Tasks([current[core]]);
      Enter(core);
    }

    /** The core picks a task without leaving one. */
    method Enter(core: nat)
      requires Usable() && core < 2 && Accounted(tasks, current[core := -1], strays)
      modifies `tasks, `current, `idle, `idleReady, `lastSwitch
      ensures Usable() && (old(Valid()) ==> Valid())
      ensures current[1 - core] == old(current)[1 - core]
      ensures Served(tasks, current, core) && Occupied(tasks, current, core, idleReady)
      ensures Switched(old(tasks), tasks, clock[core], groups) && Undisturbed(old(tasks), tasks, core, current[core])
      ensures lastSwitch == if current[core] >= 0 then old(lastSwitch)[core := clock[core]] else old(lastSwitch)
      ensures old(idleReady) ==> idleReady && idle == old(idle)
      ensures PickedByTheRules(WokenAt(old(tasks), clock[core], groups), core, old(current)[core], current[core], tasks)
    {
      ghost var keep := Valid();
      Switch(core);
      SwitchKeepsUsable(old(tasks), tasks, clock[core], groups);
      if keep {
        SwitchKeepsWaits(old(tasks), tasks, clock[core], queues, groups, started);
      }
    }

    /** Turns the code running outside the scheduler into task 0 on core 0. Safety
        survives exactly when task 0 may run on core 0 and core 1 does not
        already run it. */
    method PromoteLegacy()
      requires Valid() && !started && |tasks| >= 2
      modifies `tasks, `current, `started, `lastSwitch, `strays
      ensures strays == old(strays) + Tasks([old(current)[0]])
      ensures started && current == old(current)[0 := 0] && tasks == old(tasks)[0 := old(tasks)[0].(state := Running)]
      ensures Valid() <==> Eligible(old(tasks)[0], 0) && old(current)[1] != 0
      ensures lastSwitch == old(lastSwitch)[0 := clock[0]]
    {
      PromoteExactly(tasks, queues, trace, current, Here());
      started := true;
      strays := strays + Tasks([current[0]]);
      current := current[0 := 0];
      tasks := tasks[0 := tasks[0].(state := Running)];
      lastSwitch := lastSwitch[0 := clock[0]];
    }

    method BumpAlloc() returns (h: nat)
      requires BUMP_BASE <= bump <= BUMP_LIMIT
      modifies `bump
      ensures bump == (if old(bump) + 4 > BUMP_LIMIT then old(bump) else old(bump) + 4)
      ensures h == if old(bump) + 4 > BUMP_LIMIT then 0 else old(bump)
    {
      if bump + 4 > BUMP_LIMIT { return 0; }
      h := bump;
      bump := bump + 4;
    }

    /** The table once a new task has been entered, if it was and there was room. */
    function Entered(ts: seq<Tcb>, handle: nat, priority: nat, affinity: int): seq<Tcb> {
      if priority < 20 && |ts| < MAX_TASKS then ts + [NewTask(handle, priority, affinity)] else ts
    }

    /** The core a task is pinned to; anything but 0 and 1 means any core. */
    function Affinity(core: int): int { if core < 0 || core > 1 then -1 else core }

    /** A handle for a new task: taken if the caller wants to be told, or if the task is entered. */
    method TaskHandle(priority: nat, handleOut: nat) returns (handle: nat)
      requires BUMP_BASE <= bump <= BUMP_LIMIT
      modifies `bump, `mem
      ensures bump == old(bump) + (if handle != 0 then 4 else 0) && BUMP_BASE <= bump <= BUMP_LIMIT
      ensures handle == if (handleOut != 0 || priority < 20) && old(bump) + 4 <= BUMP_LIMIT then old(bump) else 0
      ensures mem == if handleOut != 0 && handle != 0 then Write32(old(mem), handleOut, handle as bv32) else old(mem)
    {
      handle := 0;
      if handleOut != 0 {
        handle := BumpAlloc();
        if handle != 0 {
          mem := Write32(mem, handleOut, handle as bv32);
        }
      }
      if priority < 20 && handle == 0 {
        handle := BumpAlloc();
      }
    }

    /** xTaskCreate and xTaskCreatePinnedToCore. Tasks of priority 20 and up are the system's own
        and are not entered. The second task to be created before the scheduler starts promotes
        task 0, which keeps the kernel sound exactly when task 0 may run on core 0 and core 1
        does not already run it. */
    method CreateTask(priority: nat, core: int, handleOut: nat) returns (handle: nat)
      requires Valid()
      modifies `tasks, `current, `started, `lastSwitch, `bump, `mem, `strays
      ensures handle == if (handleOut != 0 || priority < 20) && old(bump) + 4 <= BUMP_LIMIT then old(bump) else 0
      ensures bump == old(bump) + if handle != 0 then 4 else 0
      ensures mem == if handleOut != 0 && handle != 0 then Write32(old(mem), handleOut, handle as bv32) else old(mem)
      ensures var ts := Entered(old(tasks), handle, priority, Affinity(core));
              if priority < 20 && !old(started) && |ts| > 1 then
                && started && current == old(current)[0 := 0] && tasks == ts[0 := ts[0].(state := Running)]
                && strays == old(strays) + Tasks([old(current)[0]])
                && (Valid() <==> Eligible(ts[0], 0) && old(current)[1] != 0)
              else
                Valid() && started == old(started) && current == old(current) && tasks == ts && strays == old(strays)
      ensures lastSwitch == if started && !old(started) then old(lastSwitch)[0 := clock[0]] else old(lastSwitch)
      ensures priority < 20 && |old(tasks)| < 16 ==>
                && |tasks| == |old(tasks)| + 1
                && var t := tasks[|old(tasks)|];
                   && t.handle == handle && t.priority == priority
                   && t.affinity == (if core == 0 || core == 1 then core else -1)
                   && t.state.Ready? && !t.isIdle && !t.q.waiting && !t.eg.waiting
      ensures priority >= 20 || |old(tasks)| >= 16 ==> |tasks| == |old(tasks)|
    {
      handle := TaskHandle(priority, handleOut);
      if priority < 20 {
        EnterTask(handle, priority, Affinity(core));
      }
    }

    /** The new task joins the table. */
    method EnterTask(handle: nat, priority: nat, affinity: int)
      requires Valid() && priority < 20
      modifies `tasks, `current, `started, `lastSwitch, `strays
      ensures var ts := Entered(old(tasks), handle, priority, affinity);
              if !old(started) && |ts| > 1 then
                && started && current == old(current)[0 := 0] && tasks == ts[0 := ts[0].(state := Running)]
                && strays == old(strays) + Tasks([old(current)[0]])
                && (Valid() <==> Eligible(ts[0], 0) && old(current)[1] != 0)
              else
                Valid() && started == old(started) && current == old(current) && tasks == ts && strays == old(strays)
      ensures lastSwitch == if started && !old(started) then old(lastSwitch)[0 := clock[0]] else old(lastSwitch)
    {
      var idx := RegisterTask(handle, priority, affinity);
      NewTaskKeeps(old(tasks), tasks, handle, priority, affinity);
      if !started && |tasks| > 1 {
        PromoteLegacy();
      }
    }

    /** A new task waits for nothing. */
    lemma NewTaskKeeps(ts: seq<Tcb>, ts': seq<Tcb>, handle: nat, priority: nat, affinity: int)
      requires WaitsOk(ts, queues, groups, started) && OwnersOk(ts, recursive) && SchedOk(ts, current)
      requires IdleOk(ts, idle, idleReady)
      requires ts' == ts || ts' == ts + [NewTask(handle, priority, affinity)]
      ensures WaitsOk(ts', queues, groups, started) && OwnersOk(ts', recursive)
      ensures SchedOk(ts', current) && IdleOk(ts', idle, idleReady)
      ensures Accounted(ts, current, strays) ==> Accounted(ts', current, strays)
    {
      assert WaitOk(NewTask(handle, priority, affinity), queues, groups);
      forall i | 0 <= i < |ts'|
        ensures WaitOk(ts'[i], queues, groups) && (!started ==> !Waiting(ts'[i]))
      {
        if i < |ts| {
          assert ts'[i] == ts[i];
        }
      }
    }

    // ----- queues -----

    method LookupQueue(h: nat) returns (j: int)
      ensures j == FindQueue(queues, h)
    {
      j := 0;
      assert queues[..0] == [];
      while j < |queues|
        invariant 0 <= j <= |queues| && FindQueue(queues[..j], h) == -1
      {
        assert queues[..j + 1][..j] == queues[..j];
        if queues[j].handle == h {
          FindQueuePrefix(queues, h, j + 1);
          return;
        }
        j := j + 1;
      }
      assert queues[..j] == queues;
      j := -1;
    }

    /** The caller may block: it is not one of the idle tasks, whose code makes no
        calls. */
    predicate CanCall(core: nat)
      requires |current| == 2 && core < 2
      reads this
    {
      0 <= current[core] < |tasks| ==> !tasks[current[core]].isIdle
    }

    /** Whether a wait is of the kind of the object it names, and right to be made now. */
    ghost predicate Fitting(t: Tcb, w: QueueWait)
      reads this
    {
      && w.waiting && (w.sender ==> !w.semaphore)
      && Typed(t.(ret := 0, q := w), queues) && Justified(t.(ret := 0, q := w), queues)
      && (w.handle in recursive ==> t.handle != 0)
    }

    /** Task `c` is parked in a queue wait of `timeout` ticks that began on this core just now. */
    ghost predicate ParkedIn(c: int, w: QueueWait, core: nat, timeout: nat)
      reads this
    {
      && core < |clock| && 0 <= c < |tasks| && tasks[c].q == w && tasks[c].ret == 0
      && WaitsSince(tasks[c], BlockedQueue, timeout, clock[core], cyclesPerTick)
    }

    /** Parks the caller in a queue wait. A wait that is not of the object's kind leaves the
        kernel unsound. */
    method Block(core: nat, w: QueueWait, timeout: nat)
      requires Usable() && core < 2 && OnTask(core) && CanCall(core) && timeout > 0 && w.waiting
      modifies `tasks, `current, `idle, `idleReady, `lastSwitch
      ensures Usable() && Served(tasks, current, core) && current[1 - core] == old(current)[1 - core]
      ensures var c := old(current)[core];
              Left(old(tasks)[c := Parked(old(tasks)[c], w, timeout, clock[core], cyclesPerTick)], core, c)
      ensures old(Valid() && Fitting(tasks[current[core]], w)) ==> Valid()
      ensures old(!Typed(tasks[current[core]].(q := w), queues)) ==> !Valid()
      ensures w.handle in recursive && old(tasks[current[core]].handle) == 0 ==> !Valid()
      ensures lastSwitch == if current[core] >= 0 then old(lastSwitch)[core := clock[core]] else old(lastSwitch)
      ensures ParkedIn(old(current)[core], w, core, timeout)
    {
      var c := current[core];
      var t := tasks[c];
      var p := Parked(t, w, timeout, clock[core], cyclesPerTick);
      WaitKept(c);
      if Valid() && Fitting(t, w) {
        ParkedOk(t, w, timeout, clock[core], cyclesPerTick, queues, groups);
      }
      ghost var left := tasks[c := p];
      Leave(core, p);
      assert Settled(left[c], tasks[c], clock[core], groups);
      StaysParked(t, w, timeout, clock[core], cyclesPerTick, tasks[c], queues, groups);
    }

    /** Commits what a step did to the tables. */
    method Store(ts: seq<Tcb>, qs: seq<Queue>, m: Mem, ghost tr: seq<Log>)
      requires Shape() && |ts| == |tasks| && |qs| == |queues| == |tr| && UsableTables(ts, qs, current, Here())
      modifies `tasks, `queues, `mem, `trace
      ensures Usable() && tasks == ts && queues == qs && mem == m && trace == tr
      ensures SoundTables(ts, qs, tr, started, Here()) ==> Valid()
    {
      tasks, queues, mem, trace := ts, qs, m, tr;
    }

    /** The same for a step that leaves guest memory alone. */
    method StoreTables(ts: seq<Tcb>, qs: seq<Queue>, ghost tr: seq<Log>)
      requires Shape() && |ts| == |tasks| && |qs| == |queues| == |tr| && UsableTables(ts, qs, current, Here())
      modifies `tasks, `queues, `trace
      ensures Usable() && tasks == ts && queues == qs && trace == tr
      ensures SoundTables(ts, qs, tr, started, Here()) ==> Valid()
    {
      tasks, queues, trace := ts, qs, tr;
    }

    /** The part of a send that finds room. */
    method Deliver(j: nat, itemPtr: nat, pos: Position, overwrite: bool)
      requires Usable() && j < |queues| && FindQueue(queues, queues[j].handle) == j
      requires queues[j].handle != 0 && 0 < queues[j].itemSize
      requires queues[j].count < queues[j].maxItems || (overwrite && queues[j].count != 0)
      requires overwrite ==> queues[j].maxItems == 1
      modifies `tasks, `queues, `mem, `trace
      ensures Usable() && Grew(old(queues), old(trace), queues, trace) && trace == old(trace)[j := trace[j]]
      ensures |queues| == |old(queues)| && queues == old(queues)[j := queues[j]]
      ensures queues[j].handle == old(queues)[j].handle
      ensures var c := SentCount(old(queues)[j], overwrite);
              var w := Awakened(old(tasks), queues[j].handle, c, started);
              && tasks == AfterWake(old(tasks), w)
              && queues[j].count == if w >= 0 && !old(tasks)[w].q.semaphore then c - 1 else c
      ensures old(Valid()) ==>
                && Valid()
                && SentTo(old(queues)[j], itemPtr, pos, overwrite, old(tasks), tasks, old(mem), mem, old(trace)[j],
                          trace[j])
      ensures || !old(Valid())
              || Arrives(old(queues)[j], queues[j], old(trace)[j], trace[j],
                        ReadBytes(old(mem), itemPtr, old(queues)[j].itemSize), pos, overwrite,
                        FirstWaiter(old(tasks), old(queues)[j].handle, false) >= 0)
    {
      var ts, qs, m;
      ghost var tr;
      ts, qs, m, tr := AcceptSend(tasks, queues, mem, trace, current, started, Here(), j, itemPtr, pos, overwrite);
      Store(ts, qs, m, tr);
    }

    /** A send to a data queue. */
    method SendData(core: nat, h: nat, j: nat, itemPtr: nat, timeout: nat, pos: Position)
      returns (ok: bool, blocked: bool)
      requires Usable() && core < 2 && CanCall(core) && h != 0 && h !in recursive
      requires j == FindQueue(queues, h) && queues[j].itemSize > 0
      modifies `tasks, `current, `idle, `idleReady, `lastSwitch, `queues, `mem, `trace
      ensures Usable() && (old(Valid()) ==> Valid()) && Grew(old(queues), old(trace), queues, trace)
      ensures current[1 - core] == old(current)[1 - core] && |queues| == |old(queues)|
      ensures var q := old(queues)[j];
              var overwrite := pos.Overwrite? && q.maxItems == 1;
              && (ok <==> q.count < q.maxItems || overwrite)
              && (blocked <==> !ok && timeout != 0 && old(OnTask(core)))
              && (ok ==>
                    var c := SentCount(q, overwrite);
                    var w := Awakened(old(tasks), h, c, started);
                    && current == old(current) && tasks == AfterWake(old(tasks), w)
                       && trace == old(trace)[j := trace[j]]
                    && queues == old(queues)[j := queues[j]]
                    && queues[j].count == if w >= 0 && !old(tasks)[w].q.semaphore then c - 1 else c)
              && (ok && old(Valid()) ==>
                    SentTo(q, itemPtr, pos, overwrite, old(tasks), tasks, old(mem), mem, old(trace)[j], trace[j]))
              && (!ok ==> queues == old(queues) && trace == old(trace) && mem == old(mem))
              && (!blocked && !ok ==> tasks == old(tasks) && current == old(current))
              && (blocked ==>
                    var c := old(current)[core];
                    var p := Parked(old(tasks)[c], QueueWait(h, itemPtr, true, false, true, pos), timeout,
                                    clock[core], cyclesPerTick);
                    Switched(old(tasks)[c := p], tasks, clock[core], groups))
      ensures blocked ==> Served(tasks, current, core)
      ensures lastSwitch ==
        if blocked && current[core] >= 0 then old(lastSwitch)[core := clock[core]] else old(lastSwitch)
      ensures blocked ==> ParkedIn(old(current)[core], QueueWait(h, itemPtr, true, false, true, pos), core, timeout)
      ensures ok && old(Valid()) ==>
                Arrives(old(queues)[j], queues[j], old(trace)[j], trace[j],
                        ReadBytes(old(mem), itemPtr, old(queues)[j].itemSize), pos,
                        pos.Overwrite? && old(queues)[j].maxItems == 1,
                        FirstWaiter(old(tasks), h, false) >= 0)
    {
      var q := queues[j];
      var overwrite := pos.Overwrite? && q.maxItems == 1;
      ok := q.count < q.maxItems || overwrite;
      if ok {
        assert RingSafe(q);
        Deliver(j, itemPtr, pos, overwrite);
        blocked := false;
      } else {
        blocked := RefuseSend(core, h, itemPtr, timeout, pos);
      }
    }

    /** A send to a full data queue waits, if it may. */
    method RefuseSend(core: nat, h: nat, itemPtr: nat, timeout: nat, pos: Position) returns (blocked: bool)
      requires Usable() && core < 2 && CanCall(core) && h != 0 && h !in recursive && FindQueue(queues, h) >= 0
      requires var q := queues[FindQueue(queues, h)]; q.itemSize > 0 && q.count >= q.maxItems
      modifies `tasks, `current, `idle, `idleReady, `lastSwitch
      ensures Usable() && (old(Valid()) ==> Valid()) && current[1 - core] == old(current)[1 - core]
      ensures blocked <==> timeout != 0 && old(OnTask(core))
      ensures !blocked ==> tasks == old(tasks) && current == old(current)
      ensures blocked ==>
              && Served(tasks, current, core)
              && var c := old(current)[core];
                 var p := Parked(old(tasks)[c], QueueWait(h, itemPtr, true, false, true, pos), timeout, clock[core],
                                 cyclesPerTick);
                 Switched(old(tasks)[c := p], tasks, clock[core], groups)
      ensures lastSwitch ==
        if blocked && current[core] >= 0 then old(lastSwitch)[core := clock[core]] else old(lastSwitch)
      ensures blocked ==> ParkedIn(old(current)[core], QueueWait(h, itemPtr, true, false, true, pos), core, timeout)
    {
      blocked := timeout != 0 && OnTask(core);
      if blocked {
        assert RingSafe(queues[FindQueue(queues, h)]);
        Block(core, QueueWait(h, itemPtr, true, false, true, pos), timeout);
      }
    }

    /** A give: xSemaphoreGive and a send to a semaphore (`asSend`), or the ISR form. */
    method Give(h: nat, asSend: bool, pos: Position) returns (ok: bool)
      requires Usable() && h != 0 && h !in recursive
      requires FindQueue(queues, h) >= 0 ==> queues[FindQueue(queues, h)].itemSize == 0
      modifies `tasks, `queues, `trace
      ensures Usable() && (old(Valid()) ==> Valid()) && Grew(old(queues), old(trace), queues, trace)
      ensures |queues| == |old(queues)|
      ensures var j := FindQueue(old(queues), h);
              if j < 0 then ok && tasks == old(tasks) && queues == old(queues) && trace == old(trace)
              else
                var q := old(queues)[j];
                var w := Awakened(old(tasks), h, q.count, started);
                && (old(Valid()) ==> w == FirstWaiter(old(tasks), h, false))
                && (ok <==> w >= 0 || q.count < q.maxItems || (asSend && pos.Overwrite? && q.maxItems == 1))
                && tasks == AfterWake(old(tasks), w)
                && queues == old(queues)[j := queues[j]] && queues[j].count == GivenCount(q, old(tasks), w)
                && trace == old(trace)[j := GiveLog(old(trace)[j], w >= 0, q.count < q.maxItems)]
                && (!ok ==> queues == old(queues))
      ensures old(Valid()) && FindQueue(old(queues), h) >= 0 ==>
                var j, w := FindQueue(old(queues), h), FirstWaiter(old(tasks), h, false);
                var count := old(queues)[j].count;
                if w >= 0 then
                  && ok && tasks == old(tasks)[w := tasks[w]] && tasks[w].state.Ready? && tasks[w].ret == 1
                  && !tasks[w].q.waiting && queues[j].count == count && trace[j] == old(trace)[j] + [Gave, Took]
                else if count < old(queues)[j].maxItems then
                  ok && tasks == old(tasks) && queues[j].count == count + 1 && trace[j] == old(trace)[j] + [Gave]
                else
                  tasks == old(tasks) && queues[j].count == count && trace[j] == old(trace)[j]
    {
      var j := LookupQueue(h);
      if j < 0 { return true; }
      var ts, qs;
      ghost var tr;
      ok, ts, qs, tr := AcceptGive(tasks, queues, mem, trace, current, started, Here(), j, asSend, pos);
      StoreTables(ts, qs, tr);
    }

    /** A send to a semaphore. */
    method SendToken(core: nat, h: nat, j: nat, itemPtr: nat, timeout: nat, pos: Position)
      returns (ok: bool, blocked: bool)
      requires Usable() && core < 2 && CanCall(core) && h != 0 && h !in recursive
      requires j == FindQueue(queues, h) && queues[j].itemSize == 0
      modifies `tasks, `current, `idle, `idleReady, `lastSwitch, `queues, `trace
      ensures Usable() && Grew(old(queues), old(trace), queues, trace) && |queues| == |old(queues)|
      ensures current[1 - core] == old(current)[1 - core]
      ensures old(Valid()) ==> (Valid() <==> !blocked)
      ensures var q := old(queues)[j];
              var w := Awakened(old(tasks), h, q.count, started);
              && (old(Valid()) ==> w == FirstWaiter(old(tasks), h, false))
              && (ok <==> w >= 0 || q.count < q.maxItems || (pos.Overwrite? && q.maxItems == 1))
              && (blocked <==> !ok && timeout != 0 && old(OnTask(core)))
              && (ok ==> current == old(current) && tasks == AfterWake(old(tasks), w)
                         && queues == old(queues)[j := queues[j]] && queues[j].count == GivenCount(q, old(tasks), w)
                         && trace == old(trace)[j := GiveLog(old(trace)[j], w >= 0, q.count < q.maxItems)])
              && (!ok ==> queues == old(queues) && trace == old(trace))
              && (blocked ==>
                    var c := old(current)[core];
                    var p := Parked(old(tasks)[c], QueueWait(h, itemPtr, true, false, true, pos), timeout,
                                    clock[core], cyclesPerTick);
                    Switched(old(tasks)[c := p], tasks, clock[core], groups))
      ensures blocked ==> Served(tasks, current, core)
      ensures lastSwitch ==
        if blocked && current[core] >= 0 then old(lastSwitch)[core := clock[core]] else old(lastSwitch)
      ensures blocked ==> ParkedIn(old(current)[core], QueueWait(h, itemPtr, true, false, true, pos), core, timeout)
    {
      ok := Give(h, true, pos);
      blocked := !ok && timeout != 0 && OnTask(core);
      if blocked {
        Block(core, QueueWait(h, itemPtr, true, false, true, pos), timeout);
      }
    }

    /** xQueueSend and its front and overwrite forms. A send to a semaphore is a give; one
        that waits for a full semaphore leaves a wait of the wrong kind behind, and in every
        other case a sound kernel stays sound. */
    method Send(core: nat, h: nat, itemPtr: nat, timeout: nat, pos: Position) returns (ok: bool, blocked: bool)
      requires Usable() && core < 2 && CanCall(core) && h != 0 && h !in recursive
      modifies `tasks, `current, `idle, `idleReady, `lastSwitch, `queues, `mem, `trace
      ensures Usable() && Grew(old(queues), old(trace), queues, trace) && |queues| == |old(queues)|
      ensures current[1 - core] == old(current)[1 - core] && (blocked ==> timeout != 0)
      ensures old(Valid()) ==> (Valid() <==> !(blocked && IsToken(old(queues), h)))
      ensures FindQueue(old(queues), h) < 0 ==>
                ok && !blocked && tasks == old(tasks) && queues == old(queues) && trace == old(trace)
                  && current == old(current)
      ensures FindQueue(old(queues), h) >= 0 ==>
              var j := FindQueue(old(queues), h);
              var q := old(queues)[j];
              var overwrite := pos.Overwrite? && q.maxItems == 1;
              var c := if q.itemSize > 0 then SentCount(q, overwrite) else q.count;
              var w := Awakened(old(tasks), h, c, started);
              && (ok <==> q.count < q.maxItems || overwrite || (q.itemSize == 0 && w >= 0))
              && (blocked <==> !ok && timeout != 0 && old(OnTask(core)))
              && (ok ==>
                    && current == old(current) && tasks == AfterWake(old(tasks), w)
                       && trace == old(trace)[j := trace[j]]
                    && queues == old(queues)[j := queues[j]]
                    && queues[j].count == if q.itemSize == 0 then GivenCount(q, old(tasks), w)
                                          else if w >= 0 && !old(tasks)[w].q.semaphore then c - 1 else c)
              && (ok && q.itemSize > 0 && old(Valid()) ==>
                    SentTo(q, itemPtr, pos, overwrite, old(tasks), tasks, old(mem), mem, old(trace)[j], trace[j]))
              && (ok && q.itemSize == 0 ==> trace[j] == GiveLog(old(trace)[j], w >= 0, q.count < q.maxItems))
              && (!ok ==> queues == old(queues) && trace == old(trace) && mem == old(mem))
              && (blocked ==>
                    var at := old(current)[core];
                    var p := Parked(old(tasks)[at], QueueWait(h, itemPtr, true, false, true, pos), timeout,
                                    clock[core], cyclesPerTick);
                    Switched(old(tasks)[at := p], tasks, clock[core], groups))
      ensures blocked ==> Served(tasks, current, core)
      ensures lastSwitch ==
        if blocked && current[core] >= 0 then old(lastSwitch)[core := clock[core]] else old(lastSwitch)
      ensures blocked ==> ParkedIn(old(current)[core], QueueWait(h, itemPtr, true, false, true, pos), core, timeout)
      ensures ok && old(Valid()) && FindQueue(old(queues), h) >= 0 && !IsToken(old(queues), h) ==>
                var j := FindQueue(old(queues), h);
                Arrives(old(queues)[j], queues[j], old(trace)[j], trace[j],
                        ReadBytes(old(mem), itemPtr, old(queues)[j].itemSize), pos,
                        pos.Overwrite? && old(queues)[j].maxItems == 1,
                        FirstWaiter(old(tasks), h, false) >= 0)
    {
      var j := LookupQueue(h);
      if j < 0 { return true, false; }
      if queues[j].itemSize == 0 {
        ok, blocked := SendToken(core, h, j, itemPtr, timeout, pos);
      } else {
        ok, blocked := SendData(core, h, j, itemPtr, timeout, pos);
      }
    }

    /** Takes the head item of a data queue that has one. */
    method Fetch(j: nat, dst: nat)
      requires Usable() && j < |queues| && FindQueue(queues, queues[j].handle) == j
      requires queues[j].handle != 0 && 0 < queues[j].itemSize && queues[j].count > 0
      modifies `tasks, `queues, `mem, `trace
      ensures Usable() && Grew(old(queues), old(trace), queues, trace) && trace == old(trace)[j := trace[j]]
      ensures |queues| == |old(queues)| && queues == old(queues)[j := queues[j]] && RingOk(old(queues)[j])
      ensures var w := Admitted(old(tasks), old(queues)[j].handle, started);
              && tasks == AfterWake(old(tasks), w)
              && queues[j].count == if w >= 0 then old(queues)[j].count else old(queues)[j].count - 1
      ensures old(Valid()) ==>
                && Valid()
                && FetchedFrom(old(queues)[j], dst, old(tasks), tasks, old(mem), mem, old(trace)[j], trace[j])
      ensures old(Valid()) ==>
                LeavesFor(old(queues)[j], queues[j], old(trace)[j], trace[j], old(tasks), mem)
    {
      assert RingSafe(queues[j]);
      var ts, qs, m;
      ghost var tr;
      ts, qs, m, tr := AcceptReceive(tasks, queues, mem, trace, current, started, Here(), j, dst);
      Store(ts, qs, m, tr);
    }

    /** Receives from a semaphore that has a token. */
    method FetchToken(j: nat)
      requires Usable() && j < |queues| && FindQueue(queues, queues[j].handle) == j && queues[j].handle !in recursive
      requires queues[j].handle != 0 && 0 == queues[j].itemSize && queues[j].count > 0
      modifies `tasks, `queues, `trace
      ensures Usable() && Grew(old(queues), old(trace), queues, trace) && trace == old(trace)[j := trace[j]]
      ensures |queues| == |old(queues)| && queues == old(queues)[j := queues[j]]
      ensures var w := Admitted(old(tasks), old(queues)[j].handle, started);
              && tasks == AfterWake(old(tasks), w)
              && queues[j].count == if w >= 0 then old(queues)[j].count else old(queues)[j].count - 1
      ensures old(Valid()) ==> Valid() && tasks == old(tasks) && trace[j] == old(trace)[j] + [Took]
    {
      var ts, qs;
      ghost var tr;
      ts, qs, tr := AcceptTokenReceive(tasks, queues, mem, trace, current, started, Here(), j);
      StoreTables(ts, qs, tr);
    }

    /** xQueueReceiveFromISR, also used to take a token. */
    method ReceiveFromISR(h: nat, dst: nat) returns (ok: bool)
      requires Usable() && h != 0 && h !in recursive
      modifies `tasks, `queues, `mem, `trace
      ensures Usable() && (old(Valid()) ==> Valid()) && Grew(old(queues), old(trace), queues, trace)
      ensures |queues| == |old(queues)|
      ensures var j := FindQueue(old(queues), h);
              && (ok <==> j >= 0 && old(queues)[j].count > 0)
              && (!ok ==> tasks == old(tasks) && queues == old(queues) && mem == old(mem) && trace == old(trace))
              && (ok ==>
                    var w := Admitted(old(tasks), h, started);
                    && tasks == AfterWake(old(tasks), w) && trace == old(trace)[j := trace[j]]
                    && queues == old(queues)[j := queues[j]]
                    && queues[j].count == if w >= 0 then old(queues)[j].count else old(queues)[j].count - 1)
              && (ok && old(queues)[j].itemSize > 0 && old(Valid()) ==>
                    && RingOk(old(queues)[j])
                    && FetchedFrom(old(queues)[j], dst, old(tasks), tasks, old(mem), mem, old(trace)[j], trace[j]))
              && (ok && old(queues)[j].itemSize == 0 ==> mem == old(mem))
              && (ok && old(queues)[j].itemSize == 0 && old(Valid()) ==>
                    tasks == old(tasks) && trace[j] == old(trace)[j] + [Took])
      ensures ok && old(Valid()) && !IsToken(old(queues), h) ==>
                var j := FindQueue(old(queues), h);
                LeavesFor(old(queues)[j], queues[j], old(trace)[j], trace[j], old(tasks), mem)
    {
      var j := LookupQueue(h);
      if j < 0 || queues[j].count == 0 { return false; }
      if queues[j].itemSize > 0 {
        Fetch(j, dst);
      } else {
        FetchToken(j);
      }
      return true;
    }

    /** xQueueReceive. Waiting that way for an empty semaphore leaves a wait of the wrong
        kind behind; in every other case a sound kernel stays sound. */
    method Receive(core: nat, h: nat, dst: nat, timeout: nat) returns (ok: bool, blocked: bool)
      requires Usable() && core < 2 && CanCall(core) && h != 0 && h !in recursive
      modifies `tasks, `current, `idle, `idleReady, `lastSwitch, `queues, `mem, `trace
      ensures Usable() && Grew(old(queues), old(trace), queues, trace) && |queues| == |old(queues)|
      ensures current[1 - core] == old(current)[1 - core] && (blocked ==> timeout != 0)
      ensures old(Valid()) ==> (Valid() <==> !(blocked && IsToken(old(queues), h)))
      ensures var j := FindQueue(old(queues), h);
              && (ok <==> j >= 0 && old(queues)[j].count > 0)
              && (blocked <==> j >= 0 && old(queues)[j].count == 0 && timeout != 0 && old(OnTask(core)))
              && (!ok ==> queues == old(queues) && mem == old(mem) && trace == old(trace))
              && (ok ==>
                    var w := Admitted(old(tasks), h, started);
                    && current == old(current) && tasks == AfterWake(old(tasks), w)
                       && trace == old(trace)[j := trace[j]]
                    && queues == old(queues)[j := queues[j]])
              && (ok && old(queues)[j].itemSize > 0 && old(Valid()) ==>
                    && RingOk(old(queues)[j])
                    && FetchedFrom(old(queues)[j], dst, old(tasks), tasks, old(mem), mem, old(trace)[j], trace[j]))
              && (ok && old(queues)[j].itemSize == 0 && old(Valid()) ==>
                    tasks == old(tasks) && mem == old(mem) && trace[j] == old(trace)[j] + [Took])
              && (!ok && !blocked ==> tasks == old(tasks) && current == old(current))
              && (blocked ==>
                    var c := old(current)[core];
                    var w := old(tasks)[c].q.(handle := h, buf := dst, waiting := true, semaphore := false);
                    Switched(old(tasks)[c := Parked(old(tasks)[c], w, timeout, clock[core], cyclesPerTick)],
                             tasks, clock[core], groups))
      ensures blocked ==> Served(tasks, current, core)
      ensures lastSwitch ==
        if blocked && current[core] >= 0 then old(lastSwitch)[core := clock[core]] else old(lastSwitch)
      ensures blocked ==>
                var c := old(current)[core];
                var w := old(tasks)[c].q.(handle := h, buf := dst, waiting := true, semaphore := false);
                ParkedIn(c, w, core, timeout)
      ensures ok && old(Valid()) && !IsToken(old(queues), h) ==>
                var j := FindQueue(old(queues), h);
                LeavesFor(old(queues)[j], queues[j], old(trace)[j], trace[j], old(tasks), mem)
    {
      var j := LookupQueue(h);
      ok, blocked := false, false;
      if j < 0 { return; }
      if queues[j].count == 0 {
        blocked := timeout != 0 && OnTask(core);
        if blocked {
          WaitKept(current[core]);
          Block(core, tasks[current[core]].q.(handle := h, buf := dst, waiting := true, semaphore := false), timeout);
        }
        return;
      }
      ok := ReceiveFromISR(h, dst);
    }

    /** Takes a token that is there. */
    method TakeToken(j: nat)
      requires Usable() && j < |queues| && FindQueue(queues, queues[j].handle) == j && queues[j].handle !in recursive
      requires queues[j].handle != 0 && 0 == queues[j].itemSize && queues[j].count > 0
      modifies `tasks, `queues, `trace
      ensures Usable() && (old(Valid()) ==> Valid()) && tasks == old(tasks)
      ensures Grew(old(queues), old(trace), queues, trace) && trace == old(trace)[j := old(trace)[j] + [Took]]
      ensures |queues| == |old(queues)| && queues == old(queues)[j := queues[j]]
      ensures queues[j].count == old(queues)[j].count - 1
    {
      var q := queues[j].(count := queues[j].count - 1);
      assert RingSafe(queues[j]);
      if Valid() {
        TookSound(tasks, queues, groups, trace, recursive, started, j, q);
      }
      Commit(tasks, queues, trace, current, started, Here(), -1, j, q, trace[j] + [Took]);
      StoreTables(tasks, queues[j := q], trace[j := trace[j] + [Took]]);
    }

    /** The task that was running on the core waits for a token of the object, with result 0 and its
        deadline, and the core has gone to the next task. */
    twostate predicate AwaitsToken(core: nat, h: nat, timeout: nat)
      reads this
    {
      && |clock| == |old(current)| == 2 && core < 2 && 0 <= old(current)[core] < |old(tasks)|
      && var c := old(current)[core];
         var w := old(tasks)[c].q.(handle := h, buf := 0, waiting := true, semaphore := true);
         && ParkedIn(c, w, core, timeout)
         && Switched(old(tasks)[c := Parked(old(tasks)[c], w, timeout, clock[core], cyclesPerTick)],
                     tasks, clock[core], groups)
    }

    /** xSemaphoreTake. */
    method Take(core: nat, h: nat, timeout: nat) returns (ok: bool, blocked: bool)
      requires Usable() && core < 2 && CanCall(core) && h != 0 && h !in recursive
      requires FindQueue(queues, h) >= 0 ==> queues[FindQueue(queues, h)].itemSize == 0
      modifies `tasks, `current, `idle, `idleReady, `lastSwitch, `queues, `trace
      ensures Usable() && (old(Valid()) ==> Valid())
      ensures Grew(old(queues), old(trace), queues, trace) && |queues| == |old(queues)|
      ensures current[1 - core] == old(current)[1 - core]
      ensures var j := FindQueue(old(queues), h);
              && (ok <==> j < 0 || old(queues)[j].count > 0)
              && (blocked <==> !ok && timeout != 0 && old(OnTask(core)))
              && (!blocked ==> tasks == old(tasks) && current == old(current))
              && trace == (if ok && j >= 0 then old(trace)[j := old(trace)[j] + [Took]] else old(trace))
              && (ok && j >= 0 ==> queues == old(queues)[j := queues[j]] && queues[j].count == old(queues)[j].count - 1)
              && (!ok ==> queues == old(queues))
      ensures blocked ==> Served(tasks, current, core)
      ensures lastSwitch ==
        if blocked && current[core] >= 0 then old(lastSwitch)[core := clock[core]] else old(lastSwitch)
      ensures !blocked || AwaitsToken(core, h, timeout)
    {
      var j := LookupQueue(h);
      if j < 0 { return true, false; }
      ok := queues[j].count > 0;
      blocked := !ok && timeout != 0 && OnTask(core);
      if ok {
        TakeToken(j);
      } else if blocked {
        WaitKept(current[core]);
        Block(core, tasks[current[core]].q.(handle := h, buf := 0, waiting := true, semaphore := true), timeout);
      }
    }

    // ----- recursive mutexes -----

    /** Who the mutex bookkeeping takes the caller on this core for. */
    function Identity(core: nat): (o: nat)
      requires |current| == 2 && core < 2 && current[core] < |tasks|
      reads this
      ensures o != 0
    {
      if !started || current[core] < 0 || tasks[current[core]].handle == 0 then BOOT_OWNER
      else tasks[current[core]].handle
    }

    /** The caller has no handle of its own. */
    predicate Nameless(core: nat)
      reads this
    {
      OnTask(core) && current[core] < |tasks| && tasks[current[core]].handle == 0
    }

    /** Enters a mutex that is free or already the caller's. */
    method Lock(j: nat, owner: nat)
      requires Valid() && j < |queues| && FindQueue(queues, queues[j].handle) == j
      requires queues[j].handle != 0 && queues[j].handle in recursive
      requires owner != 0 && (queues[j].mutexOwner == owner || queues[j].count > 0)
      modifies `tasks, `queues, `trace
      ensures Valid() && tasks == old(tasks) && |queues| == |old(queues)| && queues == old(queues)[j := queues[j]]
      ensures queues[j].mutexOwner == owner && queues[j].mutexDepth == old(queues)[j].mutexDepth + 1
      ensures trace == old(trace)[j := old(trace)[j] + [Locked(owner)]] && Grew(old(queues), old(trace), queues, trace)
    {
      var qs;
      ghost var tr;
      qs, tr := AcceptLock(tasks, queues, trace, current, started, Here(), j, owner);
      StoreTables(tasks, qs, tr);
    }

    /** xSemaphoreTakeRecursive. A task without a handle, which is what an exhausted allocator
        leaves, must not wait: it would be made the owner under the mark of a free mutex. */
    method TakeRecursive(core: nat, h: nat, timeout: nat) returns (ok: bool, blocked: bool)
      requires Valid() && core < 2 && CanCall(core) && h in recursive
      modifies `tasks, `current, `idle, `idleReady, `lastSwitch, `queues, `trace
      ensures Usable() && (Valid() <==> !(blocked && old(Nameless(core)))) && (blocked ==> timeout != 0)
      ensures current[1 - core] == old(current)[1 - core]
      ensures Grew(old(queues), old(trace), queues, trace)
      ensures var j, o := FindQueue(old(queues), h), old(Identity(core));
              j >= 0 ==>
                && (ok <==> old(queues)[j].mutexOwner == o || old(queues)[j].mutexOwner == 0)
                && (blocked <==> !ok && timeout != 0 && old(OnTask(core)))
                && (!blocked ==> tasks == old(tasks) && current == old(current))
                && trace == (if ok then old(trace)[j := old(trace)[j] + [Locked(o)]] else old(trace))
                && (ok ==> queues[j].mutexOwner == o && queues[j].mutexDepth == old(queues)[j].mutexDepth + 1
                           && queues == old(queues)[j := queues[j]])
                && (!ok ==> queues == old(queues))
      ensures !blocked || Served(tasks, current, core)
      ensures lastSwitch ==
        if blocked && current[core] >= 0 then old(lastSwitch)[core := clock[core]] else old(lastSwitch)
      ensures !blocked || (old(OnTask(core)) && AwaitsToken(core, h, timeout))
      ensures FindQueue(old(queues), h) < 0 ==> ok && !blocked && tasks == old(tasks) && queues == old(queues)
      ensures FindQueue(old(queues), h) >= 0 && old(OnTask(core)) && old(tasks)[old(current)[core]].handle != 0 ==>
                var j, a := FindQueue(old(queues), h), old(tasks)[old(current)[core]].handle;
                && (ok <==> old(queues)[j].mutexOwner == 0 || old(queues)[j].mutexOwner == a)
                && (ok ==> queues[j].mutexOwner == a && queues[j].mutexDepth == old(queues)[j].mutexDepth + 1)
      ensures FindQueue(old(queues), h) >= 0 && !(old(OnTask(core)) && old(tasks)[old(current)[core]].handle != 0) ==>
                var j := FindQueue(old(queues), h);
                && (ok <==> old(queues)[j].mutexOwner == 0 || old(queues)[j].mutexOwner == 0xFFFF_FFFF)
                && (ok ==> queues[j].mutexOwner == 0xFFFF_FFFF && queues[j].mutexDepth == old(queues)[j].mutexDepth + 1)
    {
      var j := LookupQueue(h);
      if j < 0 { return true, false; }
      var owner := Identity(core);
      assert QueueOk(queues[j], trace[j], true);
      if queues[j].mutexOwner == owner || queues[j].count > 0 {
        Lock(j, owner);
        return true, false;
      }
      ok := false;
      blocked := timeout != 0 && OnTask(core);
      if blocked {
        AwaitMutex(core, h, timeout);
      }
    }

    /** The caller parks in a take of somebody else's mutex. */
    method AwaitMutex(core: nat, h: nat, timeout: nat)
      requires Valid() && core < 2 && OnTask(core) && CanCall(core) && timeout > 0 && h in recursive
      requires var j := FindQueue(queues, h); j >= 0 && queues[j].count == 0
      modifies `tasks, `current, `idle, `idleReady, `lastSwitch
      ensures Usable() && (Valid() <==> !old(Nameless(core))) && current[1 - core] == old(current)[1 - core]
      ensures Served(tasks, current, core) && AwaitsToken(core, h, timeout)
      ensures lastSwitch == if current[core] >= 0 then old(lastSwitch)[core := clock[core]] else old(lastSwitch)
    {
      assert QueueOk(queues[FindQueue(queues, h)], trace[FindQueue(queues, h)], true);
      WaitKept(current[core]);
      Block(core, tasks[current[core]].q.(handle := h, buf := 0, waiting := true, semaphore := true), timeout);
    }

    /** Leaves a mutex once. */
    method Unlock(j: nat)
      requires Valid() && j < |queues| && FindQueue(queues, queues[j].handle) == j
      requires queues[j].handle != 0 && queues[j].handle in recursive && queues[j].mutexOwner != 0
      modifies `tasks, `queues, `trace
      ensures Valid() && |queues| == |old(queues)| && Grew(old(queues), old(trace), queues, trace)
      ensures queues == old(queues)[j := queues[j]]
      ensures var q, q', w := old(queues)[j], queues[j], FirstWaiter(old(tasks), old(queues)[j].handle, false);
              if q.mutexDepth > 1 then
                && tasks == old(tasks) && q'.mutexOwner == q.mutexOwner && q'.mutexDepth == q.mutexDepth - 1
                && trace == old(trace)[j := UnlockLog(old(trace)[j], q.mutexOwner, 0)]
              else
                && tasks == AfterWake(old(tasks), w)
                && q'.mutexOwner == (if w >= 0 then old(tasks)[w].handle else 0)
                && q'.mutexDepth == (if w >= 0 then 1 else 0) && q'.count == (if w >= 0 then 0 else 1)
                && trace == old(trace)[j := UnlockLog(old(trace)[j], q.mutexOwner, q'.mutexOwner)]
    {
      var ts, qs;
      ghost var tr;
      ts, qs, tr := AcceptUnlock(tasks, queues, mem, trace, current, started, Here(), j);
      StoreTables(ts, qs, tr);
    }

    /** xSemaphoreGiveRecursive. */
    method GiveRecursive(core: nat, h: nat) returns (ok: bool)
      requires Valid() && core < 2 && h in recursive
      modifies `tasks, `queues, `trace
      ensures Valid() && |queues| == |old(queues)| && Grew(old(queues), old(trace), queues, trace)
      ensures var j, o, w := FindQueue(old(queues), h), old(Identity(core)), FirstWaiter(old(tasks), h, false);
              && (ok <==> j >= 0 && old(queues)[j].mutexOwner == o)
              && (!ok ==> tasks == old(tasks) && queues == old(queues) && trace == old(trace))
              && (ok ==> queues == old(queues)[j := queues[j]])
              && (ok && old(queues)[j].mutexDepth > 1 ==>
                    && tasks == old(tasks) && queues[j].mutexOwner == o
                       && queues[j].mutexDepth == old(queues)[j].mutexDepth - 1
                    && trace == old(trace)[j := UnlockLog(old(trace)[j], o, 0)])
              && (ok && old(queues)[j].mutexDepth == 1 ==>
                    && tasks == AfterWake(old(tasks), w)
                    && queues[j].mutexOwner == (if w >= 0 then old(tasks)[w].handle else 0)
                    && queues[j].mutexDepth == (if w >= 0 then 1 else 0) && queues[j].count == (if w >= 0 then 0 else 1)
                    && trace == old(trace)[j := UnlockLog(old(trace)[j], o, queues[j].mutexOwner)])
      ensures old(OnTask(core)) && old(tasks)[old(current)[core]].handle != 0 ==>
                var j := FindQueue(old(queues), h);
                ok <==> j >= 0 && old(queues)[j].mutexOwner == old(tasks)[old(current)[core]].handle
      ensures !(old(OnTask(core)) && old(tasks)[old(current)[core]].handle != 0) ==>
                var j := FindQueue(old(queues), h);
                ok <==> j >= 0 && old(queues)[j].mutexOwner == 0xFFFF_FFFF
    {
      var j := LookupQueue(h);
      var owner := Identity(core);
      if j < 0 || queues[j].mutexOwner != owner { return false; }
      assert QueueOk(queues[j], trace[j], true);
      Unlock(j);
      return true;
    }

    // ----- event groups -----

    method LookupGroup(h: nat) returns (k: int)
      ensures k == FindGroup(groups, h)
    {
      k := 0;
      assert groups[..0] == [];
      while k < |groups|
        invariant 0 <= k <= |groups| && FindGroup(groups[..k], h) == -1
      {
        assert groups[..k + 1][..k] == groups[..k];
        if groups[k].used && groups[k].handle == h {
          FindGroupPrefix(groups, h, k + 1);
          return;
        }
        k := k + 1;
      }
      assert groups[..k] == groups;
      k := -1;
    }

    method StoreGroups(ts: seq<Tcb>, gs: seq<Group>)
      requires Shape() && |ts| == |tasks| && |gs| <= MAX_EVENT_GROUPS
      requires UsableTables(ts, queues, current, Here())
      requires SoundTables(ts, queues, trace, started, Here().(groups := gs))
      modifies `tasks, `groups
      ensures Valid() && tasks == ts && groups == gs
    {
      tasks, groups := ts, gs;
    }

    /** xEventGroupSetBits: sets the bits, then lets go whoever they satisfy. */
    method SetBits(h: nat, bits: bv32) returns (r: bv32)
      requires Valid()
      modifies `tasks, `groups
      ensures Valid() && |tasks| == |old(tasks)|
      ensures var k := FindGroup(old(groups), h);
              if k < 0 then r == 0 && tasks == old(tasks) && groups == old(groups)
              else
                var b := old(groups)[k].bits | bits;
                && r == PassBits(old(tasks), h, b, |old(tasks)|)
                && groups == old(groups)[k := old(groups)[k].(bits := r)]
                && forall i :: 0 <= i < |tasks| ==> tasks[i] == PassTask(old(tasks), h, b, i)
      ensures var k := FindGroup(old(groups), h);
              k >= 0 ==> PassInBits(old(tasks), tasks, h, old(groups)[k].bits | bits, r)
    {
      var k := LookupGroup(h);
      if k < 0 { return 0; }
      var b := groups[k].bits | bits;
      TasksFine(tasks, queues, trace, started, Here());
      var ts;
      ts, r := WakePass(tasks, current, started, h, b);
      SetSound(tasks, ts, queues, trace, current, started, Here(), k, b);
      PassBitByBit(tasks, ts, h, b);
      StoreGroups(ts, groups[k := groups[k].(bits := r)]);
    }

    /** xEventGroupClearBits: the bits before the clear. */
    method ClearBits(h: nat, bits: bv32) returns (before: bv32)
      requires Valid()
      modifies `tasks, `groups
      ensures Valid() && tasks == old(tasks)
      ensures var k := FindGroup(old(groups), h);
              && before == (if k >= 0 then old(groups)[k].bits else 0)
              && groups == if k >= 0 then old(groups)[k := Cleared(old(groups)[k], bits)] else old(groups)
      ensures var k := FindGroup(old(groups), h);
              k >= 0 ==>
                && |groups| == |old(groups)|
                && forall b: bv5 :: Bit(groups[k].bits, b) <==> Bit(old(groups)[k].bits, b) && !Bit(bits, b)
    {
      var k := LookupGroup(h);
      if k < 0 { return 0; }
      before := groups[k].bits;
      ClearedBits(groups[k].bits, bits, Cleared(groups[k], bits).bits);
      ClearKeeps(tasks, queues, groups, k, bits, started);
      GroupHandlesKept(queues, groups, bump, recursive, k, Cleared(groups[k], bits));
      StoreGroups(tasks, groups[k := Cleared(groups[k], bits)]);
    }

    /** vEventGroupDelete: waiters go with zero rather than wait for ever. */
    method DeleteGroup(h: nat)
      requires Valid()
      modifies `tasks, `groups
      ensures Valid() && |tasks| == |old(tasks)|
      ensures var k := FindGroup(old(groups), h);
              if k < 0 then tasks == old(tasks) && groups == old(groups)
              else
                && groups == old(groups)[k := Group(h, 0, false)]
                && forall i :: 0 <= i < |tasks| ==>
                     tasks[i] == if EgWaiterOn(old(tasks)[i], h) then Released(old(tasks)[i], 0) else old(tasks)[i]
    {
      var k := LookupGroup(h);
      if k < 0 { return; }
      var ts, i := tasks, 0;
      while i < |ts|
        invariant 0 <= i <= |ts| == |tasks|
        invariant forall m :: 0 <= m < i ==>
                    ts[m] == if EgWaiterOn(tasks[m], h) then Released(tasks[m], 0) else tasks[m]
        invariant forall m :: i <= m < |ts| ==> ts[m] == tasks[m]
      {
        if EgWaiterOn(ts[i], h) {
          ts := ts[i := ts[i].(ret := 0, eg := ts[i].eg.(waiting := false), state := Ready)];
        }
        i := i + 1;
      }
      assert forall i :: 0 <= i < |tasks| ==> WaitOk(tasks[i], queues, groups);
      GroupStep(tasks, ts, queues, groups, k, Group(h, 0, false), started);
      ReleaseKeepsSched(tasks, ts, current, idle, idleReady);
      StoreGroups(ts, groups[k := Group(h, 0, false)]);
    }

    /** xEventGroupWaitBits: returns at once if the condition is met, else parks. */
    method WaitBits(core: nat, h: nat, wanted: bv32, clear: bool, all: bool, timeout: nat)
      returns (r: bv32, blocked: bool)
      requires Valid() && core < 2 && CanCall(core)
      modifies `tasks, `current, `idle, `idleReady, `lastSwitch, `groups
      ensures Valid() && current[1 - core] == old(current)[1 - core]
      ensures var k := FindGroup(old(groups), h);
              && (k < 0 ==>
                   r == 0 && !blocked && tasks == old(tasks) && groups == old(groups) && current == old(current))
              && (k >= 0 ==>
                    var bits := old(groups)[k].bits;
                    var met := ConditionMet(bits, wanted, all);
                    && r == bits
                    && groups == (if met && clear then old(groups)[k := Cleared(old(groups)[k], wanted)]
                                  else old(groups))
                    && (blocked <==> !met && timeout != 0 && started && old(current)[core] >= 0)
                    && (!blocked ==> tasks == old(tasks) && current == old(current))
                    && (blocked ==>
                          var c := old(current)[core];
                          Switched(old(tasks)[c := EgParked(old(tasks)[c], EventWait(h, wanted, true, clear, all),
                                                            bits, timeout, clock[core], cyclesPerTick)],
                                   tasks, clock[core], groups)))
      ensures blocked ==> Served(tasks, current, core)
      ensures lastSwitch ==
        if blocked && current[core] >= 0 then old(lastSwitch)[core := clock[core]] else old(lastSwitch)
      ensures var k := FindGroup(old(groups), h);
              k >= 0 ==>
                && |groups| == |old(groups)|
                && (blocked <==> !Meets(old(groups)[k].bits, wanted, all) && timeout != 0 && old(OnTask(core)))
                && forall b: bv5 ::
                     Bit(groups[k].bits, b) <==>
                       && Bit(old(groups)[k].bits, b)
                       && !(clear && Bit(wanted, b) && Meets(old(groups)[k].bits, wanted, all))
      ensures blocked ==>
                var c := old(current)[core];
                && 0 <= c < |tasks| && tasks[c].eg == EventWait(h, wanted, true, clear, all) && tasks[c].ret == r
                && WaitsSince(tasks[c], BlockedEventGroup, timeout, clock[core], cyclesPerTick)
    {
      var k := LookupGroup(h);
      if k < 0 { return 0, false; }
      r := groups[k].bits;
      blocked := false;
      MetBitByBit(r, wanted, all);
      if ConditionMet(r, wanted, all) {
        if clear {
          var before := ClearBits(h, wanted);
        }
        return;
      }
      blocked := timeout != 0 && started && current[core] >= 0;
      if blocked {
        AwaitBits(core, EventWait(h, wanted, true, clear, all), timeout);
      }
    }

    /** Parks the caller for bits that its group does not have. */
    method AwaitBits(core: nat, w: EventWait, timeout: nat)
      requires Valid() && core < 2 && OnTask(core) && CanCall(core) && timeout > 0 && w.waiting
      requires FindGroup(groups, w.handle) >= 0
      requires !ConditionMet(groups[FindGroup(groups, w.handle)].bits, w.wanted, w.all)
      modifies `tasks, `current, `idle, `idleReady, `lastSwitch
      ensures Valid() && current[1 - core] == old(current)[1 - core] && Served(tasks, current, core)
      ensures var c, bits := old(current)[core], groups[FindGroup(groups, w.handle)].bits;
              && Switched(old(tasks)[c := EgParked(old(tasks)[c], w, bits, timeout, clock[core], cyclesPerTick)],
                          tasks, clock[core], groups)
              && 0 <= c < |tasks| && tasks[c].eg == w && tasks[c].ret == bits
              && WaitsSince(tasks[c], BlockedEventGroup, timeout, clock[core], cyclesPerTick)
      ensures lastSwitch == if current[core] >= 0 then old(lastSwitch)[core := clock[core]] else old(lastSwitch)
    {
      var c := current[core];
      var k := LookupGroup(w.handle);
      var t, bits := tasks[c], groups[k].bits;
      assert WaitOk(t, queues, groups);
      ghost var left := tasks[c := EgParked(t, w, bits, timeout, clock[core], cyclesPerTick)];
      Leave(core, EgParked(t, w, bits, timeout, clock[core], cyclesPerTick));
      assert Settled(left[c], tasks[c], clock[core], groups);
      StaysEgParked(t, w, bits, timeout, clock[core], cyclesPerTick, tasks[c], groups);
    }

    predicate NoGroupLeft(gs: seq<Group>) { |gs| == MAX_EVENT_GROUPS && forall j :: 0 <= j < |gs| ==> gs[j].used }

    /** A slot for a new group: a free one, or one more; -1 when the table is full. */
    method GroupSlot() returns (k: int)
      requires Valid()
      modifies `tasks, `groups
      ensures Valid() && tasks == old(tasks) && -1 <= k < |groups|
      ensures k >= 0 ==> !groups[k].used
      ensures k == -1 <==> NoGroupLeft(old(groups))
      ensures forall x :: FindGroup(groups, x) == FindGroup(old(groups), x)
      ensures forall j :: 0 <= j < |groups| && groups[j].used ==> j < |old(groups)| && groups[j] == old(groups)[j]
      ensures old(groups) <= groups
    {
      k := 0;
      while k < |groups| && groups[k].used
        invariant 0 <= k <= |groups| && forall j :: 0 <= j < k ==> groups[j].used
      {
        k := k + 1;
      }
      if k == |groups| {
        if |groups| >= MAX_EVENT_GROUPS {
          assert NoGroupLeft(groups);
          return -1;
        }
        GroupAppend(tasks, queues, groups, started);
        StoreGroups(tasks, groups + [Group(0, 0, false)]);
      }
    }

    /** xEventGroupCreate. */
    method CreateGroup() returns (h: nat)
      requires Valid()
      modifies `tasks, `groups, `bump
      ensures Valid() && tasks == old(tasks)
      ensures h == if NoGroupLeft(old(groups)) || old(bump) + 4 > BUMP_LIMIT then 0 else old(bump)
      ensures h != 0 ==>
                FindGroup(old(groups), h) == -1 && FindGroup(groups, h) >= 0 && groups[FindGroup(groups, h)].bits == 0
      ensures forall x :: x != h ==> FindGroup(groups, x) == FindGroup(old(groups), x)
      ensures bump == if h != 0 then old(bump) + 4 else old(bump)
      ensures |old(groups)| <= |groups|
              && forall j :: 0 <= j < |old(groups)| && old(groups)[j].used ==> groups[j] == old(groups)[j]
    {
      var k := GroupSlot();
      if k < 0 { return 0; }
      h := BumpAlloc();
      if h == 0 { return; }
      GroupFill(tasks, queues, groups, started, k, h);
      GroupHandlesKept(queues, groups, bump, recursive, k, Group(h, 0, true));
      StoreGroups(tasks, groups[k := Group(h, 0, true)]);
    }

    // ----- creating queue objects -----

    /** A slot for a new object: a free one, or one more; -1 when the table is full. */
    method QueueSlot() returns (k: int)
      requires Valid()
      modifies `queues, `trace
      ensures Valid() && -1 <= k < |queues|
      ensures k == SlotOf(old(queues)) && queues == WithSlot(old(queues)) && (k >= 0 ==> queues[k].handle == 0)
      ensures Grew(old(queues), old(trace), queues, trace)
    {
      k := LookupQueue(0);
      if k < 0 {
        if |queues| >= MAX_QUEUES { return -1; }
        k := |queues|;
        AppendKeeps(tasks, queues, groups, started);
        queues := queues + [ZERO_QUEUE];
        trace := trace + [[]];
      }
    }

    /** The preferred handle, or a fresh one. */
    method QueueHandle(preferred: nat) returns (h: nat)
      requires Valid() && preferred !in recursive
      requires preferred != 0 ==> FindQueue(queues, preferred) == -1
      modifies `bump
      ensures Valid() && h == NewHandle(preferred, old(bump))
      ensures h != 0 ==> FindQueue(queues, h) == -1 && h !in recursive
      ensures Ahead(h, bump) <==> Ahead(preferred, old(bump))
      ensures preferred != 0 ==> bump == old(bump)
    {
      if preferred != 0 { return preferred; }
      FreshHandle(queues, bump);
      h := BumpAlloc();
    }

    /** Whether a call with these arguments makes a new object. */
    predicate Makes(preferred: nat, c: Creation)
      reads this
    {
      && Creatable(c.length, c.itemSize) && (preferred != 0 ==> FindQueue(queues, preferred) < 0)
      && SlotOf(queues) >= 0 && NewHandle(preferred, bump) != 0
    }

    /** queue_create_locked: the handle of a new object, of the object that already has the
        preferred handle, or 0. A preferred handle that the allocator has yet to reach is
        the one case that leaves the kernel unsound: it may be handed out again. */
    method CreateQueue(preferred: nat, c: Creation) returns (h: nat)
      requires Valid() && c.Allowed() && (preferred in recursive ==> FindQueue(queues, preferred) >= 0)
      modifies `queues, `trace, `bump, `recursive
      ensures Usable() && (Valid() <==> !(old(Makes(preferred, c)) && Ahead(preferred, old(bump))))
      ensures Grew(old(queues), old(trace), queues, trace)
      ensures h == if old(Makes(preferred, c)) then NewHandle(preferred, old(bump))
                   else if Creatable(c.length, c.itemSize) && FindQueue(old(queues), preferred) >= 0 then preferred
                   else 0
      ensures old(Makes(preferred, c)) ==>
              var j := SlotOf(old(queues));
              && 0 <= j < |queues| && FindQueue(queues, h) == j
              && queues == WithSlot(old(queues))[j := c.Object(h)] && trace[j] == c.Log()
              && recursive == if c.forRecursive then old(recursive) + {h} else old(recursive)
      ensures !old(Makes(preferred, c)) ==> recursive == old(recursive)
      ensures !old(Makes(preferred, c)) && h != 0 ==>
              var j := FindQueue(old(queues), h);
              && trace == old(trace)
              && queues == if c.isMutex then old(queues)[j := old(queues)[j].(isMutex := true)] else old(queues)
      ensures h == 0 ==> queues == old(queues) || queues == WithSlot(old(queues))
      ensures c.itemSize > 64 || c.length == 0 || (c.itemSize != 0 && c.length > 32) ==> h == 0
      ensures FindQueue(old(queues), preferred) < 0 && |old(queues)| < 64 && preferred != 0
                && c.itemSize <= 64 && c.length > 0 && (c.itemSize == 0 || c.length <= 32)
              ==> h == preferred
    {
      if !Creatable(c.length, c.itemSize) { return 0; }
      if preferred != 0 {
        var j := LookupQueue(preferred);
        if j >= 0 {
          if c.isMutex { Mark(j); }
          return preferred;
        }
      }
      NewObjectOk(c);
      h := Found(preferred, c.Object(0), c.Log(), c.forRecursive);
    }

    /** The mutex constructors mark whatever object has the handle. */
    method Mark(j: nat)
      requires Valid() && j < |queues| && queues[j].handle != 0 && FindQueue(queues, queues[j].handle) == j
      modifies `queues
      ensures Valid() && queues == old(queues)[j := old(queues)[j].(isMutex := true)]
      ensures Grew(old(queues), trace, queues, trace)
    {
      MarkSound(tasks, queues, trace, current, started, Here(), j);
      queues := queues[j := queues[j].(isMutex := true)];
    }

    /** Makes the object unless slots or handles are exhausted. */
    method Found(preferred: nat, blank: Queue, ghost log: Log, forRecursive: bool) returns (h: nat)
      requires Valid() && preferred !in recursive && Fits(blank, log, forRecursive)
      requires preferred != 0 ==> FindQueue(queues, preferred) == -1
      modifies `queues, `trace, `bump, `recursive
      ensures Usable() && (Valid() <==> h == 0 || !Ahead(preferred, old(bump)))
      ensures Grew(old(queues), old(trace), queues, trace)
      ensures h == if SlotOf(old(queues)) >= 0 then NewHandle(preferred, old(bump)) else 0
      ensures h == 0 ==> queues == WithSlot(old(queues)) && recursive == old(recursive)
      ensures h != 0 ==>
              var j := SlotOf(old(queues));
              && 0 <= j < |queues| && FindQueue(queues, h) == j
              && queues == WithSlot(old(queues))[j := blank.(handle := h)] && trace[j] == log
              && recursive == if forRecursive then old(recursive) + {h} else old(recursive)
    {
      var k;
      k, h := Reserve(preferred);
      if h == 0 { return; }
      Install(k, blank.(handle := h), log, forRecursive, old(queues), old(trace));
    }

    /** A free slot and a handle for it; the handle is 0 if either is exhausted. */
    method Reserve(preferred: nat) returns (k: int, h: nat)
      requires Valid() && preferred !in recursive
      requires preferred != 0 ==> FindQueue(queues, preferred) == -1
      modifies `queues, `trace, `bump
      ensures Valid() && Grew(old(queues), old(trace), queues, trace)
      ensures k == SlotOf(old(queues)) && queues == WithSlot(old(queues))
      ensures h == if k >= 0 then NewHandle(preferred, old(bump)) else 0
      ensures h != 0 ==> 0 <= k < |queues| && queues[k].handle == 0 && h !in recursive && FindQueue(queues, h) == -1
      ensures h != 0 ==> (Ahead(h, bump) <==> Ahead(preferred, old(bump)))
    {
      k := QueueSlot();
      if k < 0 { return k, 0; }
      AppendFind(old(queues), preferred);
      h := QueueHandle(preferred);
    }

    /** Puts a new object into a free slot. */
    method Install(k: nat, q: Queue, ghost log: Log, forRecursive: bool, ghost qs: seq<Queue>, ghost tr: seq<Log>)
      requires Valid() && k < |queues| && queues[k].handle == 0 && q.handle != 0
      requires FindQueue(queues, q.handle) == -1 && q.handle !in recursive
      requires QueueOk(q, log, forRecursive) && Grew(qs, tr, queues, trace)
      modifies `queues, `trace, `recursive
      ensures Usable() && (Valid() <==> !Ahead(q.handle, bump))
      ensures queues == old(queues)[k := q] && trace == old(trace)[k := log]
      ensures FindQueue(queues, q.handle) == k
      ensures recursive == if forRecursive then old(recursive) + {q.handle} else old(recursive)
      ensures Grew(qs, tr, queues, trace)
    {
      ghost var at := Here().(recursive := if forRecursive then recursive + {q.handle} else recursive);
      InstallKeeps(tasks, queues, trace, started, Here(), k, q, log, forRecursive);
      GrewOn(qs, tr, queues, trace, queues[k := q], trace[k := log]);
      queues := queues[k := q];
      trace := trace[k := log];
      if forRecursive { recursive := recursive + {q.handle}; }
      assert Here() == at;
    }

    // ----- whole runs -----

    /** What every operation keeps. */
    twostate predicate Kept()
      reads this
    {
      && Valid() && Grew(old(queues), old(trace), queues, trace)
      && (old(started) ==> started && strays == old(strays))
    }

    /** That the operations on tasks are made. */
    twostate predicate DidTask(op: TaskOp)
      requires old(Valid())
      reads this
    {
      match op
      case Create(priority, affinity, handleOut) =>
        (old(started) || old(tasks) == []) && priority < 20 && |old(tasks)| < 16 ==>
          |tasks| == |old(tasks)| + 1 && tasks[|old(tasks)|].priority == priority && tasks[|old(tasks)|].state.Ready?
      case DelayFor(core, advance) =>
        core < 2 ==>
          if old(OnTask(core)) then Slept(core, advance)
          else clock == old(clock)[core := old(clock)[core] + AtMost(advance, 200_000_000)]
      case YieldCore(core) => old(OnTask(core)) ==> HandedOver(core, Ready)
      case SuspendCaller(core) => old(OnTask(core)) ==> HandedOver(core, Suspended)
      case DeleteCaller(core) => old(OnTask(core)) ==> HandedOver(core, Unused)
    }

    method StepTask(op: TaskOp)
      requires Valid()
      modifies this
      ensures !old(Valid()) || Kept()
      ensures !old(Valid()) || DidTask(op)
    {
      match op
      case Create(priority, affinity, handleOut) => TryCreate(priority, affinity, handleOut);
      case DelayFor(core, advance) => TryDelay(core, advance);
      case YieldCore(core) => if core < 2 { Yield(core); }
      case SuspendCaller(core) => if core < 2 { SuspendSelf(core); }
      case DeleteCaller(core) => TryDelete(core);
    }

    method TryDelay(core: nat, advance: nat)
      requires Valid()
      modifies this
      ensures !old(Valid()) || (Kept() && DidTask(DelayFor(core, advance)))
    {
      if core < 2 {
        Delay(core, advance);
      }
    }

    method TryDelete(core: nat)
      requires Valid()
      modifies this
      ensures !old(Valid()) || (Kept() && DidTask(DeleteCaller(core)))
    {
      if core < 2 && (OnTask(core) || Deletable(0)) {
        DeleteSelf(core);
      }
    }

    /** A creation, except the one that would start the kernel with a task unfit for core 0. */
    method TryCreate(priority: nat, affinity: int, handleOut: nat)
      requires Valid()
      modifies this
      ensures !old(Valid()) || (Kept() && DidTask(Create(priority, affinity, handleOut)))
    {
      if started || |tasks| == 0 || priority >= 20 || (Eligible(tasks[0], 0) && current[1] != 0) {
        var h := CreateTask(priority, affinity, handleOut);
      }
    }

    /** That the operations on other tasks are. */
    twostate predicate DidRemote(op: RemoteOp)
      requires old(Valid())
      reads this
    {
      match op
      case ResumeTask(handle) =>
        var k := FindTask(old(tasks), handle);
        k >= 0 && old(tasks)[k].state.Suspended? ==> tasks == old(tasks)[k := old(tasks)[k].(state := Ready)]
      case SuspendTask(core, target) =>
        old(OnTask(core)) && target < |old(tasks)| && target !in old(current) && !old(tasks)[target].state.Unused?
        && !old(tasks)[target].q.sender ==>
          |tasks| == |old(tasks)| && tasks[target].state.Suspended?
      case DeleteTask(handle) =>
        var k := FindTask(old(tasks), handle);
        old(started) && k >= 0 && k !in old(current) && !Waiting(old(tasks)[k]) ==>
          tasks == old(tasks)[k := old(tasks)[k].(state := Unused)]
    }

    method StepRemote(op: RemoteOp)
      requires Valid()
      modifies this
      ensures !old(Valid()) || Kept()
      ensures !old(Valid()) || DidRemote(op)
    {
      match op
      case ResumeTask(handle) => var woke := Resume(handle);
      case SuspendTask(core, target) =>
        if core < 2 && target < |tasks| && target != current[core] && !tasks[target].state.Unused?
           && (OnTask(core) ==> target != current[1 - core] && !tasks[target].q.sender) {
          SuspendOther(core, target);
        }
      case DeleteTask(handle) =>
        if Deletable(handle) { DeleteByHandle(handle); }
    }

    /** What a check of an attached core comes to once the scheduler runs. */
    twostate predicate Checked(core: nat)
      requires old(Valid())
      reads this
    {
      && core < |clock| && |current| == 2 && core < 2
      && var woken, was := WokenAt(old(tasks), clock[core], groups), old(current)[core];
         var over := clock[core] < old(lastSwitch)[core] || clock[core] - old(lastSwitch)[core] >= cyclesPerTick;
         if was < 0 then PickedByTheRules(woken, core, -1, current[core], tasks)
         else ByTheRules(woken, core, was, over, if current[core] != was then current[core] else -1)
    }

    twostate predicate DidScheduler(op: SchedulerOp)
      requires old(Valid())
      reads this
    {
      match op
      case Preemption(core, attached) => core < 2 && attached && old(started) ==> Checked(core)
      case StartScheduler =>
        started && |current| == 2
        && (!old(started) ==> PickedByTheRules(WokenAt(old(tasks), 0, groups), 0, -1, current[0], tasks))
      case Join(core) =>
        core < 2 && old(current)[core] == -1 ==>
          |current| == |clock| == 2
          && PickedByTheRules(WokenAt(old(tasks), clock[core], groups), core, -1, current[core], tasks)
      case Advance(core, cycles) => core < 2 ==> clock == old(clock)[core := old(clock)[core] + cycles]
    }

    method StepScheduler(op: SchedulerOp)
      requires Valid()
      modifies this
      ensures !old(Valid()) || Kept()
      ensures !old(Valid()) || DidScheduler(op)
    {
      match op
      case Preemption(core, attached) => TryPreempt(core, attached);
      case StartScheduler => Start();
      case Join(core) => TryJoin(core);
      case Advance(core, cycles) => if core < 2 { Tick(core, cycles); }
    }

    method TryJoin(core: nat)
      requires Valid()
      modifies this
      ensures !old(Valid()) || (Kept() && DidScheduler(Join(core)))
    {
      if core < 2 && current[core] == -1 {
        JoinCore(core);
      }
    }

    method TryPreempt(core: nat, attached: bool)
      requires Valid()
      modifies this
      ensures !old(Valid()) || (Kept() && DidScheduler(Preemption(core, attached)))
    {
      if core < 2 {
        var switched := CheckPreempt(core, attached);
      }
    }

    /** What a creating call asks for, and the handle it would like. */
    function Asked(op: ObjectOp): (r: (nat, Creation)) {
      match op
      case Make(length, itemSize, initial, preferred) => (preferred, Creation(length, itemSize, initial, false, false))
      case MakeMutex(preferred) => (preferred, Creation(1, 0, 1, false, true))
      case MakeRecursiveMutex(preferred) => (preferred, Creation(1, 0, 1, true, true))
    }

    /** A wanted handle that is free is given to the new object. */
    twostate predicate DidCreate(preferred: nat, length: nat, itemSize: nat, initial: nat)
      requires old(Valid())
      reads this
    {
      preferred != 0 && preferred !in old(recursive) && FindQueue(old(queues), preferred) < 0 && |old(queues)| < 64
      && !Ahead(preferred, old(bump)) && itemSize <= 64 && length > 0 && (itemSize == 0 || length <= 32)
      && (itemSize == 0 || initial == 0) ==>
        var j := FindQueue(queues, preferred);
        && j >= 0 && queues[j].maxItems == AtMost(length, 0x7FFF_FFFF) && queues[j].itemSize == itemSize
        && queues[j].count == AtMost(initial, queues[j].maxItems)
    }

    twostate predicate DidObject(op: ObjectOp)
      requires old(Valid())
      reads this
    {
      match op
      case Make(length, itemSize, initial, preferred) => DidCreate(preferred, length, itemSize, initial)
      case MakeMutex(preferred) => DidCreate(preferred, 1, 0, 1)
      case MakeRecursiveMutex(preferred) => DidCreate(preferred, 1, 0, 1)
    }

    method StepObject(op: ObjectOp)
      requires Valid()
      modifies this
      ensures !old(Valid()) || Kept()
      ensures !old(Valid()) || DidObject(op)
    {
      var (preferred, c) := Asked(op);
      TryMake(preferred, c);
    }

    /** A creation, except one under a handle that the allocator will hand out. */
    method TryMake(preferred: nat, c: Creation)
      requires Valid()
      modifies this
      ensures !old(Valid()) || (Kept() && (!c.Allowed() || DidCreate(preferred, c.length, c.itemSize, c.initial)))
    {
      var j := LookupQueue(preferred);
      if c.Allowed() && !Ahead(preferred, bump) && (preferred in recursive ==> j >= 0) {
        var h := CreateQueue(preferred, c);
      }
    }

    /** The caller may use the object with this handle, a queue of items. */
    predicate Usual(core: nat, h: nat)
      requires |current| == 2
      reads this
    {
      && core < 2 && CanCall(core) && h != 0 && h !in recursive && FindQueue(queues, h) >= 0
      && queues[FindQueue(queues, h)].itemSize > 0
    }

    /** An item goes into a queue with room, and a sender without room waits. */
    twostate predicate DidSend(core: nat, h: nat, itemPtr: nat, timeout: nat, pos: Position)
      requires old(Valid())
      reads this
    {
      old(Usual(core, h)) ==>
        var j := FindQueue(old(queues), h);
        var q := old(queues)[j];
        && j < |queues| && |trace| == |queues|
        && if q.count < q.maxItems then
             Arrives(q, queues[j], old(trace)[j], trace[j], ReadBytes(old(mem), itemPtr, q.itemSize), pos,
                     pos.Overwrite? && q.maxItems == 1, FirstWaiter(old(tasks), h, false) >= 0)
           else
             !pos.Overwrite? && timeout != 0 && old(OnTask(core)) ==>
               ParkedIn(old(current)[core], QueueWait(h, itemPtr, true, false, true, pos), core, timeout)
    }

    /** The oldest item goes out of a queue, and a receiver without one waits. */
    twostate predicate DidReceive(core: nat, h: nat, dst: nat, timeout: nat)
      requires old(Valid())
      reads this
    {
      old(Usual(core, h)) ==>
        var j := FindQueue(old(queues), h);
        var q := old(queues)[j];
        && j < |queues| && |trace| == |queues|
        && if q.count > 0 then LeavesFor(q, queues[j], old(trace)[j], trace[j], old(tasks), mem)
           else
             timeout != 0 && old(OnTask(core)) ==>
               var w := old(tasks)[old(current)[core]].q.(handle := h, buf := dst, waiting := true, semaphore := false);
               ParkedIn(old(current)[core], w, core, timeout)
    }

    twostate predicate DidQueue(op: QueueOp)
      requires old(Valid())
      reads this
    {
      match op
      case SendItem(core, h, itemPtr, timeout, pos) => DidSend(core, h, itemPtr, timeout, pos)
      case ReceiveItem(core, h, dst, timeout) => DidReceive(core, h, dst, timeout)
      case IsrReceive(h, dst) =>
        var j := FindQueue(old(queues), h);
        h != 0 && h !in old(recursive) && j >= 0 && old(queues)[j].itemSize > 0 && old(queues)[j].count > 0 ==>
          && j < |queues| && |trace| == |queues|
          && LeavesFor(old(queues)[j], queues[j], old(trace)[j], trace[j], old(tasks), mem)
    }

    method StepQueue(op: QueueOp)
      requires Valid()
      modifies this
      ensures !old(Valid()) || Kept()
      ensures !old(Valid()) || DidQueue(op)
    {
      match op
      case SendItem(core, h, itemPtr, timeout, pos) => TrySend(core, h, itemPtr, timeout, pos);
      case ReceiveItem(core, h, dst, timeout) => TryReceive(core, h, dst, timeout);
      case IsrReceive(h, dst) => if h != 0 && h !in recursive { var ok := ReceiveFromISR(h, dst); }
    }

    /** A send, except one that would wait for a full semaphore. */
    method TrySend(core: nat, h: nat, itemPtr: nat, timeout: nat, pos: Position)
      requires Valid()
      modifies this
      ensures Valid() && Grew(old(queues), old(trace), queues, trace) && started == old(started)
      ensures strays == old(strays)
      ensures !old(Valid()) || DidSend(core, h, itemPtr, timeout, pos)
    {
      if core < 2 && CanCall(core) && h != 0 && h !in recursive {
        var j := LookupQueue(h);
        if timeout == 0 || !IsToken(queues, h) || queues[j].count < queues[j].maxItems {
          var ok, blocked := Send(core, h, itemPtr, timeout, pos);
        }
      }
    }

    /** A receive, except one that would wait for an empty semaphore. */
    method TryReceive(core: nat, h: nat, dst: nat, timeout: nat)
      requires Valid()
      modifies this
      ensures Valid() && Grew(old(queues), old(trace), queues, trace) && started == old(started)
      ensures strays == old(strays)
      ensures !old(Valid()) || DidReceive(core, h, dst, timeout)
    {
      if core < 2 && CanCall(core) && h != 0 && h !in recursive {
        var j := LookupQueue(h);
        if timeout == 0 || !IsToken(queues, h) || queues[j].count > 0 {
          var ok, blocked := Receive(core, h, dst, timeout);
        }
      }
    }

    /** A token is taken, or the caller waits for one. */
    twostate predicate DidTake(core: nat, h: nat, timeout: nat)
      requires old(Valid())
      reads this
    {
      core < 2 && old(CanCall(core)) && h != 0 && h !in old(recursive) && IsToken(old(queues), h) ==>
        var j := FindQueue(old(queues), h);
        && j < |queues|
        && if old(queues)[j].count > 0 then queues[j].count == old(queues)[j].count - 1
           else
             timeout != 0 && old(OnTask(core)) ==>
               var w := old(tasks)[old(current)[core]].q.(handle := h, buf := 0, waiting := true, semaphore := true);
               ParkedIn(old(current)[core], w, core, timeout)
    }

    /** A token goes to the first waiter, or is there. */
    twostate predicate DidGive(h: nat)
      requires old(Valid())
      reads this
    {
      h != 0 && h !in old(recursive) && IsToken(old(queues), h) ==>
        var j, w := FindQueue(old(queues), h), FirstWaiter(old(tasks), h, false);
        && j < |queues| && w < |tasks|
        && if w >= 0 then tasks[w].state.Ready? && tasks[w].ret == 1 && !tasks[w].q.waiting
           else old(queues)[j].count < old(queues)[j].maxItems ==> queues[j].count == old(queues)[j].count + 1
    }

    /** By tasks with handles of their own: a free mutex becomes the caller's, one it has goes a level
        deeper, and a give comes a level back. */
    twostate predicate DidLock(core: nat, h: nat, give: bool)
      requires old(Valid())
      reads this
    {
      old(OnTask(core)) && old(CanCall(core)) && h in old(recursive) && FindQueue(old(queues), h) >= 0 ==>
        var j, a := FindQueue(old(queues), h), old(tasks)[old(current)[core]].handle;
        var q := old(queues)[j];
        && j < |queues|
        && (a != 0 && !give && (q.mutexOwner == 0 || q.mutexOwner == a) ==>
              queues[j].mutexOwner == a && queues[j].mutexDepth == q.mutexDepth + 1)
        && (a != 0 && give && q.mutexOwner == a && q.mutexDepth > 1 ==> queues[j].mutexDepth == q.mutexDepth - 1)
        && (a != 0 && give && q.mutexOwner == a && q.mutexDepth == 1 ==>
              var w := FirstWaiter(old(tasks), h, false);
              queues[j].mutexOwner == if w >= 0 then old(tasks)[w].handle else 0)
    }

    twostate predicate DidToken(op: TokenOp)
      requires old(Valid())
      reads this
    {
      match op
      case TakeSemaphore(core, h, timeout) => DidTake(core, h, timeout)
      case IsrGive(h) => DidGive(h)
      case LockMutex(core, h, timeout) => DidLock(core, h, false)
      case UnlockMutex(core, h) => DidLock(core, h, true)
    }

    method StepToken(op: TokenOp)
      requires Valid()
      modifies this
      ensures !old(Valid()) || Kept()
      ensures !old(Valid()) || DidToken(op)
    {
      match op
      case TakeSemaphore(core, h, timeout) => TryTake(core, h, timeout);
      case IsrGive(h) => TryGive(h);
      case LockMutex(core, h, timeout) => TryLock(core, h, timeout);
      case UnlockMutex(core, h) => TryUnlock(core, h);
    }

    method TryTake(core: nat, h: nat, timeout: nat)
      requires Valid()
      modifies this
      ensures !old(Valid()) || (Kept() && DidTake(core, h, timeout))
    {
      var j := LookupQueue(h);
      if core < 2 && CanCall(core) && h != 0 && h !in recursive && (j >= 0 ==> queues[j].itemSize == 0) {
        var ok, blocked := Take(core, h, timeout);
      }
    }

    method TryGive(h: nat)
      requires Valid()
      modifies this
      ensures !old(Valid()) || (Kept() && DidGive(h))
    {
      var j := LookupQueue(h);
      if h != 0 && h !in recursive && (j >= 0 ==> queues[j].itemSize == 0) {
        var ok := Give(h, false, Back);
      }
    }

    /** A task without a handle does not wait. */
    method TryLock(core: nat, h: nat, timeout: nat)
      requires Valid()
      modifies this
      ensures !old(Valid()) || (Kept() && DidLock(core, h, false))
    {
      if core < 2 && CanCall(core) && h in recursive && (timeout == 0 || !Nameless(core)) {
        var ok, blocked := TakeRecursive(core, h, timeout);
      }
    }

    method TryUnlock(core: nat, h: nat)
      requires Valid()
      modifies this
      ensures !old(Valid()) || (Kept() && DidLock(core, h, true))
    {
      if core < 2 && h in recursive {
        var ok := GiveRecursive(core, h);
      }
    }

    /** Bits go in, and a pass over the waiters with them. */
    twostate predicate DidSet(h: nat, bits: bv32)
      requires old(Valid())
      reads this
    {
      var k := FindGroup(old(groups), h);
      k >= 0 ==> k < |groups| && PassInBits(old(tasks), tasks, h, old(groups)[k].bits | bits, groups[k].bits)
    }

    /** A condition that is met is met at once, and the caller waits for one that is not. */
    twostate predicate DidWait(core: nat, h: nat, wanted: bv32, clear: bool, all: bool, timeout: nat)
      requires old(Valid())
      reads this
    {
      var k := FindGroup(old(groups), h);
      core < 2 && old(CanCall(core)) && k >= 0 ==>
        && k < |groups|
        && if Meets(old(groups)[k].bits, wanted, all) then
             forall b: bv5 :: Bit(groups[k].bits, b) <==> Bit(old(groups)[k].bits, b) && !(clear && Bit(wanted, b))
           else
             timeout != 0 && old(OnTask(core)) ==>
               && old(current)[core] < |tasks|
               && tasks[old(current)[core]].eg == EventWait(h, wanted, true, clear, all)
    }

    twostate predicate DidEvent(op: EventOp)
      requires old(Valid())
      reads this
    {
      match op
      case MakeGroup =>
        !NoGroupLeft(old(groups)) && old(bump) + 4 <= BUMP_LIMIT ==>
          FindGroup(old(groups), old(bump)) == -1 && FindGroup(groups, old(bump)) >= 0
      case Set(h, bits) => DidSet(h, bits)
      case Clear(h, bits) =>
        var k := FindGroup(old(groups), h);
        k >= 0 ==>
          k < |groups| && forall b: bv5 :: Bit(groups[k].bits, b) <==> Bit(old(groups)[k].bits, b) && !Bit(bits, b)
      case Drop(h) => var k := FindGroup(old(groups), h); k >= 0 ==> groups == old(groups)[k := Group(h, 0, false)]
      case WaitFor(core, h, wanted, clear, all, timeout) => DidWait(core, h, wanted, clear, all, timeout)
    }

    method StepEvent(op: EventOp)
      requires Valid()
      modifies this
      ensures !old(Valid()) || Kept()
      ensures !old(Valid()) || DidEvent(op)
    {
      match op
      case MakeGroup => var h := CreateGroup();
      case Set(h, bits) => TrySet(h, bits);
      case Clear(h, bits) => var r := ClearBits(h, bits);
      case Drop(h) => DeleteGroup(h);
      case WaitFor(core, h, wanted, clear, all, timeout) => TryWait(core, h, wanted, clear, all, timeout);
    }

    method TrySet(h: nat, bits: bv32)
      requires Valid()
      modifies this
      ensures !old(Valid()) || (Kept() && DidSet(h, bits))
    {
      var r := SetBits(h, bits);
    }

    method TryWait(core: nat, h: nat, wanted: bv32, clear: bool, all: bool, timeout: nat)
      requires Valid()
      modifies this
      ensures !old(Valid()) || (Kept() && DidWait(core, h, wanted, clear, all, timeout))
    {
      if core < 2 && CanCall(core) {
        var r, blocked := WaitBits(core, h, wanted, clear, all, timeout);
      }
    }

    /** That the operation is made. */
    twostate predicate Did(op: Op)
      requires old(Valid())
      reads this
    {
      match op
      case OnTasks(op) => DidTask(op)
      case OnOthers(op) => DidRemote(op)
      case OnScheduler(op) => DidScheduler(op)
      case OnObjects(op) => DidObject(op)
      case OnQueues(op) => DidQueue(op)
      case OnTokens(op) => DidToken(op)
      case OnEvents(op) => DidEvent(op)
    }

    /** One operation. */
    method Step(op: Op)
      requires Valid()
      modifies this
      ensures !old(Valid()) || (Kept() && Did(op))
    {
      match op
      case OnTasks(op) => StepTask(op);
      case OnOthers(op) => StepRemote(op);
      case OnScheduler(op) => StepScheduler(op);
      case OnObjects(op) => StepObject(op);
      case OnQueues(op) => StepQueue(op);
      case OnTokens(op) => StepToken(op);
      case OnEvents(op) => StepEvent(op);
    }

    /** Any interleaving of the modelled calls on two cores, of any length, leaves the kernel
        sound and only adds to the histories of its objects. */
    method Run(ops: seq<Op>)
      requires Valid()
      modifies this
      ensures Valid() && Grew(old(queues), old(trace), queues, trace)
      ensures old(started) ==> started && strays == old(strays)
      ensures |ops| == 1 ==> Did(ops[0])
    {
      if |ops| > 1 {
        Run(ops[..|ops| - 1]);
      }
      if |ops| > 0 {
        ghost var qs, tr := queues, trace;
        Step(ops[|ops| - 1]);
        GrewOn(old(queues), old(trace), qs, tr, queues, trace);
      }
    }
  }

  datatype TaskOp =
    | Create(priority: nat, affinity: int, handleOut: nat)
    | DelayFor(core: nat, advance: nat)
    | YieldCore(core: nat)
    | SuspendCaller(core: nat)
    | DeleteCaller(core: nat)

  datatype RemoteOp =
    | ResumeTask(handle: nat)
    | SuspendTask(core: nat, target: nat)
    | DeleteTask(handle: nat)

  datatype SchedulerOp =
    | Preemption(core: nat, attached: bool)
    | StartScheduler
    | Join(core: nat)
    | Advance(core: nat, cycles: nat)

  datatype ObjectOp =
    | Make(length: nat, itemSize: nat, initial: nat, preferred: nat)
    | MakeMutex(preferred: nat)
    | MakeRecursiveMutex(preferred: nat)

  datatype QueueOp =
    | SendItem(core: nat, h: nat, itemPtr: nat, timeout: nat, pos: Position)
    | ReceiveItem(core: nat, h: nat, dst: nat, timeout: nat)
    | IsrReceive(h: nat, dst: nat)

  datatype TokenOp =
    | TakeSemaphore(core: nat, h: nat, timeout: nat)
    | IsrGive(h: nat)
    | LockMutex(core: nat, h: nat, timeout: nat)
    | UnlockMutex(core: nat, h: nat)

  datatype EventOp =
    | MakeGroup
    | Set(h: nat, bits: bv32)
    | Clear(h: nat, bits: bv32)
    | Drop(h: nat)
    | WaitFor(core: nat, h: nat, wanted: bv32, clear: bool, all: bool, timeout: nat)

  datatype Op =
    | OnTasks(task: TaskOp)
    | OnOthers(other: RemoteOp)
    | OnScheduler(scheduler: SchedulerOp)
    | OnObjects(object: ObjectOp)
    | OnQueues(queue: QueueOp)
    | OnTokens(token: TokenOp)
    | OnEvents(event: EventOp)

  /** No lost wakeup: in a sound kernel nobody waits for what is already there. */
  lemma NobodyWaitsInVain(k: Kernel, i: nat)
    requires k.Valid() && i < |k.tasks| && Waiting(k.tasks[i])
    ensures var t := k.tasks[i];
            && k.started && !t.state.Running? && !t.state.Ready? && k.current[0] != i && k.current[1] != i
            && (t.q.waiting ==>
                  var j := FindQueue(k.queues, t.q.handle);
                  && j >= 0 && t.ret == 0
                  && (t.q.sender ==> k.queues[j].itemSize > 0 && k.queues[j].count == k.queues[j].maxItems)
                  && (!t.q.sender ==> k.queues[j].count == 0))
            && (t.eg.waiting ==>
                  var g := FindGroup(k.groups, t.eg.handle);
                  g >= 0 && !Meets(k.groups[g].bits, t.eg.wanted, t.eg.all))
  {
    assert WaitOk(k.tasks[i], k.queues, k.groups);
    if k.tasks[i].eg.waiting {
      var g := FindGroup(k.groups, k.tasks[i].eg.handle);
      MetBitByBit(k.groups[g].bits, k.tasks[i].eg.wanted, k.tasks[i].eg.all);
    }
  }

  /** In a sound kernel a RUNNING task is current on a core, unless it was current when the
      scheduler started and forgot it. */
  lemma RunningIsCurrent(k: Kernel, i: nat)
    requires k.Valid() && i < |k.tasks| && k.tasks[i].state.Running?
    ensures i == k.current[0] || i == k.current[1] || i in k.strays
  {
  }

  /** First in, first out, over the whole history of a data queue of a sound kernel:
      the items delivered so far, to callers and to woken tasks alike, followed by
      those still in the ring are the items accepted so far. */
  lemma DeliveredInOrder(k: Kernel, j: nat)
    requires k.Valid() && j < |k.queues| && k.queues[j].itemSize > 0 && BackOnly(k.trace[j])
    ensures RingOk(k.queues[j])
    ensures k.queues[j].tail == (k.queues[j].head + k.queues[j].count) % k.queues[j].maxItems
    ensures Delivered(k.trace[j]) + Contents(k.queues[j]) == Accepted(k.trace[j])
  {
    var q := k.queues[j];
    assert QueueOk(q, k.trace[j], q.handle in k.recursive);
    FirstInFirstOut(k.trace[j]);
    ModIsRemainder(q.head + q.count, q.maxItems);
  }

  /** A semaphore's count is what was put in less what was taken, within bounds. */
  lemma TokensConserved(k: Kernel, j: nat)
    requires k.Valid() && j < |k.queues| && k.queues[j].itemSize == 0
    requires k.queues[j].handle != 0 && k.queues[j].handle !in k.recursive
    ensures k.queues[j].count == Tokens(k.trace[j]) <= k.queues[j].maxItems
  {
    assert QueueOk(k.queues[j], k.trace[j], false);
  }

  /** At most one task holds a recursive mutex, whatever the run, as long as no two
      tasks share a handle. */
  lemma OneHolder(k: Kernel, j: nat, a: nat, b: nat)
    requires k.Valid() && j < |k.queues| && k.queues[j].handle in k.recursive
    requires a < |k.tasks| && b < |k.tasks| && a != b && k.tasks[a].handle != k.tasks[b].handle
    requires k.tasks[a].handle != 0 && k.tasks[b].handle != 0
    ensures Unmatched(k.trace[j], k.tasks[a].handle) <= 0 || Unmatched(k.trace[j], k.tasks[b].handle) <= 0
    ensures Unmatched(k.trace[j], k.tasks[a].handle) > 0 ==>
              k.queues[j].mutexOwner == k.tasks[a].handle
                && k.queues[j].mutexDepth == Unmatched(k.trace[j], k.tasks[a].handle)
  {
    assert QueueOk(k.queues[j], k.trace[j], true);
  }
}
