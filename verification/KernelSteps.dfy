/** What each queue step does to the kernel's tables, and that it keeps the
    invariants. These are facts about values; the kernel's methods apply them. */
module KernelSteps {
  import opened GuestMemory
  import opened QueueRing
  import opened QueueHistory
  import opened KernelTypes

  /** The tables a queue step touches or depends on. */
  ghost predicate TablesOk(ts: seq<Tcb>, qs: seq<Queue>, gs: seq<Group>, trace: seq<Log>, recursive: set<nat>,
                           started: bool) {
    WaitsOk(ts, qs, gs, started) && QueuesOk(qs, trace, recursive)
  }

  /** The rest of the kernel that a queue step depends on and leaves alone. */
  datatype Context = Context(groups: seq<Group>, recursive: set<nat>, bump: nat, idle: seq<nat>, idleReady: bool,
                             strays: set<int>)

  /** Every wait is justified, every history true, every handle accounted for. */
  ghost predicate SoundTables(ts: seq<Tcb>, qs: seq<Queue>, trace: seq<Log>, started: bool, x: Context) {
    && TablesOk(ts, qs, x.groups, trace, x.recursive, started)
    && HandlesOk(qs, x.groups, x.bump, x.recursive)
    && OwnersOk(ts, x.recursive)
  }

  /** What holds of the tables whatever misuse they have seen. */
  ghost predicate UsableTables(ts: seq<Tcb>, qs: seq<Queue>, cur: seq<int>, x: Context) {
    SchedOk(ts, cur) && Accounted(ts, cur, x.strays) && IdleOk(ts, x.idle, x.idleReady) && TasksUsable(ts)
      && RingsSafe(qs)
  }

  /** The same with one core's task perhaps suspended or deleted under it. */
  ghost predicate LooseTables(ts: seq<Tcb>, qs: seq<Queue>, cur: seq<int>, core: nat, x: Context) {
    && Loose(ts, cur, core) && Accounted(ts, cur, x.strays) && IdleOk(ts, x.idle, x.idleReady) && TasksUsable(ts)
    && RingsSafe(qs)
  }

  lemma UsableIsLoose(ts: seq<Tcb>, qs: seq<Queue>, cur: seq<int>, core: nat, x: Context)
    requires UsableTables(ts, qs, cur, x) && core < 2
    ensures LooseTables(ts, qs, cur, core, x)
  {
    if cur[core] >= 0 {
      assert TaskUsable(ts[cur[core]]);
    }
  }

  lemma SoundTablesUsable(ts: seq<Tcb>, qs: seq<Queue>, trace: seq<Log>, started: bool, x: Context)
    requires SoundTables(ts, qs, trace, started, x)
    ensures TasksUsable(ts) && RingsSafe(qs)
  {
    SoundIsUsable(ts, qs, x.groups, trace, x.recursive, started);
  }

  /** Completing a wait and replacing an object by another of the same handle keeps the tables
      usable, and sound if waits and histories are. */
  lemma Commit(ts: seq<Tcb>, qs: seq<Queue>, trace: seq<Log>, cur: seq<int>, started: bool, x: Context,
               w: int, j: nat, q: Queue, log: Log)
    requires UsableTables(ts, qs, cur, x) && |trace| == |qs| && -1 <= w < |ts| && (w >= 0 ==> ts[w].q.waiting)
    requires j < |qs| && RingSafe(q) && SameObject(qs[j], q) && trace[j] <= log
    ensures UsableTables(AfterWake(ts, w), qs[j := q], cur, x) && Grew(qs, trace, qs[j := q], trace[j := log])
    ensures && SoundTables(ts, qs, trace, started, x)
            && TablesOk(AfterWake(ts, w), qs[j := q], x.groups, trace[j := log], x.recursive, started)
            ==> SoundTables(AfterWake(ts, w), qs[j := q], trace[j := log], started, x)
  {
    if w >= 0 {
      assert TaskUsable(ts[w]);
    }
    GrewOne(qs, trace, j, q, log);
  }

  function AfterWake(ts: seq<Tcb>, w: int): seq<Tcb>
    requires -1 <= w < |ts|
  {
    if w >= 0 then ts[w := Completed(ts[w])] else ts
  }

  /** The history of a send that found room, and of the hand-over it led to. */
  ghost function SendLog(log: Log, q: Queue, x: Item, pos: Position, overwrite: bool, handed: bool): Log {
    log + [SendEvent(x, pos, overwrite && q.count != 0)] + if handed then [Received(x)] else []
  }

  /** Guest memory once waiter `w` has been handed `x`. */
  function HandOver(mem: Mem, ts: seq<Tcb>, w: int, x: Item): Mem
    requires -1 <= w < |ts|
  {
    if w >= 0 && ts[w].q.buf != 0 then WriteBytes(mem, ts[w].q.buf, x) else mem
  }

  /** An accepted send to data queue `q`: the item read from the caller's memory is
      logged, and goes straight on to the first waiting receiver if there is one. */
  ghost predicate SentTo(q: Queue, itemPtr: nat, pos: Position, overwrite: bool,
                         ts: seq<Tcb>, ts': seq<Tcb>, mem: Mem, mem': Mem, log: Log, log': Log)
  {
    var w, x := FirstWaiter(ts, q.handle, false), ReadBytes(mem, itemPtr, q.itemSize);
    && log' == SendLog(log, q, x, pos, overwrite, w >= 0)
    && ts' == AfterWake(ts, w)
    && mem' == HandOver(mem, ts, w, x)
  }

  /** The history of a receive, and of the blocked send it let through. */
  ghost function ReceiveLog(log: Log, x: Item, through: bool, y: Item, pos: Position): Log {
    log + [Received(x)] + if through then [Sent(y, pos)] else []
  }

  /** A receive from data queue `q`: the oldest item is copied out, and the first
      blocked send is completed with the item its memory holds now. */
  ghost predicate FetchedFrom(q: Queue, dst: nat, ts: seq<Tcb>, ts': seq<Tcb>, mem: Mem, mem': Mem, log: Log, log': Log)
    requires RingOk(q) && q.count > 0
  {
    var w, x := FirstWaiter(ts, q.handle, true), Contents(q)[0];
    && mem' == WriteBytes(mem, dst, x)
    && ts' == AfterWake(ts, w)
    && log' == if w >= 0 then ReceiveLog(log, x, true, ReadBytes(mem', ts[w].q.buf, q.itemSize), ts[w].q.pos)
               else ReceiveLog(log, x, false, [], Back)
  }

  /** What an accepted item does to a ring and its history: it goes on to a waiting receiver, which only
      an empty ring has; or it takes the place of the oldest one, or goes before all others or behind. */
  ghost predicate Arrives(q: Queue, q': Queue, log: Log, log': Log, x: Item, pos: Position, overwrite: bool,
                          handed: bool)
  {
    && RingOk(q) && RingOk(q')
    && Contents(q') == (if handed then []
                        else if overwrite && q.count != 0 then Contents(q)[0 := x]
                        else if pos.Front? then [x] + Contents(q)
                        else Contents(q) + [x])
    && log' == log + [if overwrite && q.count != 0 then Replaced(x) else Sent(x, pos)]
                   + if handed then [Received(x)] else []
  }

  /** What a receive does: the oldest item goes, and that of a blocked send, if one is let through, goes
      before all others or behind them. */
  ghost predicate Leaves(q: Queue, q': Queue, log: Log, log': Log, through: bool, y: Item, pos: Position) {
    && RingOk(q) && RingOk(q') && q.count > 0
    && Contents(q') == (if !through then Contents(q)[1..]
                        else if pos.Front? then [y] + Contents(q)[1..]
                        else Contents(q)[1..] + [y])
    && log' == log + [Received(Contents(q)[0])] + if through then [Sent(y, pos)] else []
  }

  lemma SentArrives(q: Queue, q': Queue, log: Log, log': Log, x: Item, pos: Position, overwrite: bool, handed: bool)
    requires QueueOk(q, log, false) && QueueOk(q', log', false) && q.handle != 0 && q'.handle != 0
    requires q.itemSize > 0 && q'.itemSize > 0 && (handed ==> q.count == 0)
    requires log' == SendLog(log, q, x, pos, overwrite, handed)
    ensures Arrives(q, q', log, log', x, pos, overwrite, handed)
  {
    var sent := log + [SendEvent(x, pos, overwrite && q.count != 0)];
    Appended(log, SendEvent(x, pos, overwrite && q.count != 0));
    Appended(sent, Received(x));
    assert sent + [] == sent;
  }

  lemma FetchedLeaves(q: Queue, q': Queue, log: Log, log': Log, through: bool, y: Item, pos: Position)
    requires QueueOk(q, log, false) && QueueOk(q', log', false) && q.handle != 0 && q'.handle != 0
    requires q.itemSize > 0 && q'.itemSize > 0 && q.count > 0
    requires log' == ReceiveLog(log, Contents(q)[0], through, y, pos)
    ensures Leaves(q, q', log, log', through, y, pos)
  {
    var x := Contents(q)[0];
    var got := log + [Received(x)];
    Appended(log, Received(x));
    assert Held(got) == Contents(q)[1..];
    if through {
      Appended(got, Sent(y, pos));
      assert log' == got + [Sent(y, pos)];
    } else {
      assert log' == got;
    }
  }

  /** An accepted send, as far as the enqueue. */
  lemma SendFirstHalf(ts: seq<Tcb>, qs: seq<Queue>, gs: seq<Group>, trace: seq<Log>, recursive: set<nat>, started: bool,
                      j: nat, x: Item, pos: Position, overwrite: bool)
    requires TablesOk(ts, qs, gs, trace, recursive, started)
    requires j < |qs| && FindQueue(qs, qs[j].handle) == j && qs[j].handle != 0 && 0 < qs[j].itemSize == |x|
    requires qs[j].count < qs[j].maxItems || (overwrite && qs[j].count != 0)
    ensures InRing(qs[j]) && Offset(SendSlot(qs[j], pos, overwrite), qs[j].itemSize) + |x| <= |qs[j].buf|
    ensures var q, w, q1 := qs[j], FirstWaiter(ts, qs[j].handle, false), Enqueued(qs[j], x, pos, overwrite);
            && q1.handle == q.handle && q1.itemSize == q.itemSize && RingOk(q1)
            && QueueOk(q1, trace[j] + [SendEvent(x, pos, overwrite && q.count != 0)], false)
            && (w >= 0 ==> started && q.count == 0 && q1.count == 1 && Slot(q1, q1.head) == x)
  {
    assert QueueOk(qs[j], trace[j], false);
    SendOk(qs[j], trace[j], x, pos, overwrite);
    WaitersOn(ts, qs, j, gs, started);
  }

  /** An accepted send and the hand-over to the first waiting receiver. */
  lemma SendKeeps(ts: seq<Tcb>, qs: seq<Queue>, gs: seq<Group>, trace: seq<Log>, recursive: set<nat>, started: bool,
                  j: nat, x: Item, pos: Position, overwrite: bool, q2: Queue)
    requires TablesOk(ts, qs, gs, trace, recursive, started)
    requires j < |qs| && FindQueue(qs, qs[j].handle) == j && qs[j].handle != 0 && 0 < qs[j].itemSize == |x|
    requires qs[j].count < qs[j].maxItems || (overwrite && qs[j].count != 0)
    requires overwrite ==> qs[j].maxItems == 1
    requires InRing(qs[j]) && Offset(SendSlot(qs[j], pos, overwrite), qs[j].itemSize) + |x| <= |qs[j].buf|
    requires var w, q1 := FirstWaiter(ts, qs[j].handle, false), Enqueued(qs[j], x, pos, overwrite);
             InRing(q1) && (w >= 0 ==> q1.count > 0) && q2 == if w >= 0 then Dequeued(q1) else q1
    ensures var w := FirstWaiter(ts, qs[j].handle, false);
            TablesOk(AfterWake(ts, w), qs[j := q2], gs,
                     trace[j := SendLog(trace[j], qs[j], x, pos, overwrite, w >= 0)], recursive, started)
  {
    SendFirstHalf(ts, qs, gs, trace, recursive, started, j, x, pos, overwrite);
    var w, q1 := FirstWaiter(ts, qs[j].handle, false), Enqueued(qs[j], x, pos, overwrite);
    var log := trace[j] + [SendEvent(x, pos, overwrite && qs[j].count != 0)];
    HandedOk(q1, log, x, w >= 0, q2);
    HandingKeeps(ts, qs, gs, trace, recursive, started, j, q2, SendLog(trace[j], qs[j], x, pos, overwrite, w >= 0));
  }

  /** A full queue that stays full keeps its senders waiting; a receiver that waits is served
      and leaves the queue empty. */
  lemma HandingKeeps(ts: seq<Tcb>, qs: seq<Queue>, gs: seq<Group>, trace: seq<Log>, recursive: set<nat>, started: bool,
                     j: nat, q2: Queue, log: Log)
    requires TablesOk(ts, qs, gs, trace, recursive, started)
    requires j < |qs| && FindQueue(qs, qs[j].handle) == j && SameObject(qs[j], q2)
    requires QueueOk(q2, log, q2.handle in recursive)
    requires qs[j].count == qs[j].maxItems ==> q2.count == q2.maxItems
    requires FirstWaiter(ts, q2.handle, false) >= 0 ==> q2.count == 0
    ensures TablesOk(AfterWake(ts, FirstWaiter(ts, q2.handle, false)), qs[j := q2], gs, trace[j := log], recursive,
                     started)
  {
    var w := FirstWaiter(ts, q2.handle, false);
    WaitersOn(ts, qs, j, gs, started);
    if w >= 0 {
      assert WaitOk(ts[w], qs, gs);
    }
    LogStep(qs, trace, recursive, j, q2, log);
    QueueStep(ts, AfterWake(ts, w), qs, j, q2, gs, started);
  }

  /** The object once its item has been handed on, or not. */
  lemma HandedOk(q1: Queue, log: Log, x: Item, handed: bool, q2: Queue)
    requires QueueOk(q1, log, false) && q1.handle != 0 && q1.itemSize > 0 && RingOk(q1)
    requires handed ==> q1.count > 0 && Slot(q1, q1.head) == x
    requires q2 == if handed then Dequeued(q1) else q1
    ensures QueueOk(q2, log + if handed then [Received(x)] else [], false)
  {
    if handed {
      ReceiveOk(q1, log);
    } else {
      assert log + [] == log;
    }
  }

  /** Completes task `i`'s blocked queue call. */
  method Complete(ts: seq<Tcb>, cur: seq<int>, i: nat) returns (r: seq<Tcb>)
    requires i < |ts| && SchedOk(ts, cur) && TasksUsable(ts) && ts[i].q.waiting
    ensures r == AfterWake(ts, i) && SchedOk(r, cur) && TasksUsable(r)
  {
    var t := ts[i];
    assert TaskUsable(t);
    t := t.(ret := 1, q := t.q.(waiting := false, sender := false, handle := 0));
    var isCurrent := cur[0] == i || cur[1] == i;
    r := ts[i := t.(state := if isCurrent then Running else Ready)];
  }

  /** The first receiver, or sender, in the table waiting on `h`, as the wake loop scans for it. */
  method ScanWaiter(ts: seq<Tcb>, h: nat, sender: bool) returns (i: int)
    ensures i == FirstWaiter(ts, h, sender)
  {
    i := 0;
    assert ts[..0] == [];
    while i < |ts|
      invariant 0 <= i <= |ts| && FirstWaiter(ts[..i], h, sender) == -1
    {
      assert ts[..i + 1][..i] == ts[..i];
      if WaiterOn(ts[i], h, sender) {
        FirstWaiterPrefix(ts, h, sender, i + 1);
        return;
      }
      i := i + 1;
    }
    assert ts[..i] == ts;
    i := -1;
  }

  /** The same for receivers: one that wants an item from an empty object is passed over. */
  method ScanServable(ts: seq<Tcb>, h: nat, count: nat) returns (i: int)
    ensures i == FirstServable(ts, h, count)
  {
    i := 0;
    assert ts[..0] == [];
    while i < |ts|
      invariant 0 <= i <= |ts| && FirstServable(ts[..i], h, count) == -1
    {
      assert ts[..i + 1][..i] == ts[..i];
      if WaiterOn(ts[i], h, false) && (ts[i].q.semaphore || count != 0) {
        FirstServablePrefix(ts, h, count, i + 1);
        return;
      }
      i := i + 1;
    }
    assert ts[..i] == ts;
    i := -1;
  }

  /** The object once receiver `t` has been served from it. */
  function ServedQueue(q: Queue, t: Tcb): Queue
    requires !t.q.semaphore ==> InRing(q) && q.count > 0
  {
    if !t.q.semaphore then Dequeued(q)
    else if q.isMutex then q.(mutexOwner := t.handle, mutexDepth := 1)
    else q
  }

  ghost function ServedMem(mem: Mem, q: Queue, t: Tcb): Mem
    requires q.itemSize > 0 ==> RingOk(q)
  {
    if !t.q.semaphore && q.itemSize > 0 && t.q.buf != 0 then WriteBytes(mem, t.q.buf, Slot(q, q.head)) else mem
  }

  /** Hands the head item, or the token being given, to the first receiver that can be
      served, and completes its call. */
  method WakeReceiver(ts: seq<Tcb>, q: Queue, mem: Mem, cur: seq<int>, started: bool)
    returns (woke: bool, ts': seq<Tcb>, q': Queue, mem': Mem)
    requires SchedOk(ts, cur) && TasksUsable(ts) && RingSafe(q) && q.handle != 0
    ensures SchedOk(ts', cur) && TasksUsable(ts') && RingSafe(q') && SameObject(q, q')
    ensures var w := Awakened(ts, q.handle, q.count, started);
            && (woke <==> w >= 0)
            && ts' == AfterWake(ts, w)
            && q' == (if w >= 0 then ServedQueue(q, ts[w]) else q)
            && mem' == (if w >= 0 then ServedMem(mem, q, ts[w]) else mem)
  {
    woke, ts', q', mem' := false, ts, q, mem;
    if !started { return; }
    var i := ScanServable(ts, q.handle, q.count);
    if i < 0 { return; }
    if !ts[i].q.semaphore {
      if q.itemSize > 0 && ts[i].q.buf != 0 {
        mem' := CopyHead(mem, q, ts[i].q.buf);
      }
      q' := Dequeued(q);
    } else if q.isMutex {
      q' := q.(mutexOwner := ts[i].handle, mutexDepth := 1);
    }
    ts' := Complete(ts, cur, i);
    woke := true;
  }

  lemma SafeFits(q: Queue, pos: Position, overwrite: bool)
    requires RingSafe(q) && q.handle != 0
    ensures InRing(q) && Offset(SendSlot(q, pos, overwrite), q.itemSize) + q.itemSize <= |q.buf|
  {
    if q.itemSize > 0 {
      SendFits(q, pos, overwrite);
    } else {
      OffsetIsProduct(SendSlot(q, pos, overwrite), 0);
    }
  }

  lemma SafeSend(q: Queue, x: Item, pos: Position, overwrite: bool)
    requires RingSafe(q) && q.handle != 0 && |x| == q.itemSize
    requires q.count < q.maxItems || (overwrite && q.count != 0)
    ensures InRing(q) && Offset(SendSlot(q, pos, overwrite), q.itemSize) + q.itemSize <= |q.buf|
    ensures RingSafe(Enqueued(q, x, pos, overwrite))
  {
    SafeFits(q, pos, overwrite);
    if q.itemSize > 0 {
      EnqueueKeepsRing(q, x, pos, overwrite);
    }
  }

  /** Whose blocked send a freed slot completes. */
  function Admitted(ts: seq<Tcb>, h: nat, started: bool): (w: int)
    ensures -1 <= w < |ts|
    ensures w >= 0 ==> WaiterOn(ts[w], h, true)
  {
    if started then FirstWaiter(ts, h, true) else -1
  }

  /** Completes the first send blocked on the object, now that a slot is free. The item is
      read from the sender's memory at this moment. */
  method WakeSender(ts: seq<Tcb>, q: Queue, mem: Mem, cur: seq<int>, started: bool)
    returns (woke: bool, ts': seq<Tcb>, q': Queue)
    requires SchedOk(ts, cur) && TasksUsable(ts) && RingSafe(q) && q.handle != 0
    ensures SchedOk(ts', cur) && TasksUsable(ts') && RingSafe(q') && SameObject(q, q')
    ensures var w := Admitted(ts, q.handle, started);
            && (woke <==> w >= 0 && q.count < q.maxItems)
            && ts' == (if woke then AfterWake(ts, w) else ts)
            && (!woke ==> q' == q)
            && (woke ==>
                  && InRing(q) && Offset(SendSlot(q, ts[w].q.pos, false), q.itemSize) + q.itemSize <= |q.buf|
                  && q' == Enqueued(q, ReadBytes(mem, ts[w].q.buf, q.itemSize), ts[w].q.pos, false))
  {
    woke, ts', q' := false, ts, q;
    if !started { return; }
    var i := ScanWaiter(ts, q.handle, true);
    if i < 0 || q.count >= q.maxItems { return; }
    SafeSend(q, ReadBytes(mem, ts[i].q.buf, q.itemSize), ts[i].q.pos, false);
    q' := Enqueue(mem, q, ts[i].q.buf, ts[i].q.pos, false);
    ts' := Complete(ts, cur, i);
    woke := true;
  }

  // ----- whom a sound kernel serves -----

  /** A sound kernel is usable. */
  lemma SoundIsUsable(ts: seq<Tcb>, qs: seq<Queue>, gs: seq<Group>, trace: seq<Log>, recursive: set<nat>, started: bool)
    requires TablesOk(ts, qs, gs, trace, recursive, started)
    ensures TasksUsable(ts) && RingsSafe(qs)
  {
    forall i | 0 <= i < |ts|
      ensures TaskUsable(ts[i])
    {
      assert WaitOk(ts[i], qs, gs);
    }
    forall j | 0 <= j < |qs|
      ensures RingSafe(qs[j])
    {
      assert QueueOk(qs[j], trace[j], qs[j].handle in recursive);
    }
  }

  /** In a sound kernel the receiver served is the first one waiting. */
  lemma AwakenedIsFirst(ts: seq<Tcb>, qs: seq<Queue>, gs: seq<Group>, started: bool, j: nat, count: nat)
    requires WaitsOk(ts, qs, gs, started) && j < |qs| && FindQueue(qs, qs[j].handle) == j
    requires qs[j].itemSize > 0 ==> count > 0
    ensures Awakened(ts, qs[j].handle, count, started) == FirstWaiter(ts, qs[j].handle, false)
    ensures var w := FirstWaiter(ts, qs[j].handle, false); w >= 0 ==> (ts[w].q.semaphore <==> qs[j].itemSize == 0)
  {
    WaitersOn(ts, qs, j, gs, started);
    if started {
      FirstServed(ts, qs[j].handle, count);
    } else {
      NoWaiter(ts, qs[j].handle, false);
    }
  }

  lemma AdmittedIsFirst(ts: seq<Tcb>, qs: seq<Queue>, gs: seq<Group>, started: bool, j: nat)
    requires WaitsOk(ts, qs, gs, started) && j < |qs| && FindQueue(qs, qs[j].handle) == j
    ensures Admitted(ts, qs[j].handle, started) == FirstWaiter(ts, qs[j].handle, true)
    ensures qs[j].itemSize == 0 ==> FirstWaiter(ts, qs[j].handle, true) == -1
  {
    WaitersOn(ts, qs, j, gs, started);
    if !started {
      NoWaiter(ts, qs[j].handle, true);
    }
    forall i | 0 <= i < |ts| && qs[j].itemSize == 0
      ensures !WaiterOn(ts[i], qs[j].handle, true)
    {
      assert WaitOk(ts[i], qs, gs);
    }
    if qs[j].itemSize == 0 {
      NoWaiter(ts, qs[j].handle, true);
    }
  }

  // ----- accepted calls -----

  function SentCount(q: Queue, overwrite: bool): nat { if overwrite && q.count != 0 then q.count else q.count + 1 }

  /** In a sound kernel an accepted send is logged, served and keeps everything sound. */
  lemma SendSound(ts: seq<Tcb>, qs: seq<Queue>, gs: seq<Group>, mem: Mem, trace: seq<Log>, recursive: set<nat>,
                  started: bool, j: nat, itemPtr: nat, pos: Position, overwrite: bool, q1: Queue, q2: Queue, mem': Mem)
    requires TablesOk(ts, qs, gs, trace, recursive, started)
    requires j < |qs| && FindQueue(qs, qs[j].handle) == j && qs[j].handle != 0 && 0 < qs[j].itemSize
    requires qs[j].count < qs[j].maxItems || (overwrite && qs[j].count != 0)
    requires overwrite ==> qs[j].maxItems == 1
    requires InRing(qs[j]) && Offset(SendSlot(qs[j], pos, overwrite), qs[j].itemSize) + qs[j].itemSize <= |qs[j].buf|
    requires q1 == Enqueued(qs[j], ReadBytes(mem, itemPtr, qs[j].itemSize), pos, overwrite) && RingOk(q1)
    requires var w := Awakened(ts, qs[j].handle, q1.count, started);
             && q2 == (if w >= 0 then ServedQueue(q1, ts[w]) else q1)
             && mem' == (if w >= 0 then ServedMem(mem, q1, ts[w]) else mem)
    ensures var w, x := Awakened(ts, qs[j].handle, q1.count, started), ReadBytes(mem, itemPtr, qs[j].itemSize);
            var log := SendLog(trace[j], qs[j], x, pos, overwrite, w >= 0);
            && TablesOk(AfterWake(ts, w), qs[j := q2], gs, trace[j := log], recursive, started)
            && SentTo(qs[j], itemPtr, pos, overwrite, ts, AfterWake(ts, w), mem, mem', trace[j], log)
  {
    var x := ReadBytes(mem, itemPtr, qs[j].itemSize);
    SendFirstHalf(ts, qs, gs, trace, recursive, started, j, x, pos, overwrite);
    AwakenedIsFirst(ts, qs, gs, started, j, q1.count);
    SendKeeps(ts, qs, gs, trace, recursive, started, j, x, pos, overwrite, q2);
  }

  /** Copies the item in and hands the front item to a waiting receiver. */
  method AcceptSend(ts: seq<Tcb>, qs: seq<Queue>, mem: Mem, ghost trace: seq<Log>, cur: seq<int>, started: bool,
                    ghost at: Context, j: nat, itemPtr: nat, pos: Position, overwrite: bool)
    returns (ts': seq<Tcb>, qs': seq<Queue>, mem': Mem, ghost trace': seq<Log>)
    requires UsableTables(ts, qs, cur, at) && |trace| == |qs|
    requires j < |qs| && FindQueue(qs, qs[j].handle) == j && qs[j].handle != 0 && 0 < qs[j].itemSize
    requires qs[j].count < qs[j].maxItems || (overwrite && qs[j].count != 0)
    requires overwrite ==> qs[j].maxItems == 1
    ensures UsableTables(ts', qs', cur, at) && Grew(qs, trace, qs', trace')
    ensures |qs'| == |qs| && qs' == qs[j := qs'[j]] && qs'[j].handle == qs[j].handle && trace' == trace[j := trace'[j]]
    ensures var c := SentCount(qs[j], overwrite);
            var w := Awakened(ts, qs[j].handle, c, started);
            ts' == AfterWake(ts, w) && qs'[j].count == if w >= 0 && !ts[w].q.semaphore then c - 1 else c
    ensures SoundTables(ts, qs, trace, started, at) ==>
              && SoundTables(ts', qs', trace', started, at)
              && SentTo(qs[j], itemPtr, pos, overwrite, ts, ts', mem, mem', trace[j], trace'[j])
              && Arrives(qs[j], qs'[j], trace[j], trace'[j], ReadBytes(mem, itemPtr, qs[j].itemSize), pos, overwrite,
                         FirstWaiter(ts, qs[j].handle, false) >= 0)
  {
    assert RingSafe(qs[j]);
    var q2;
    ghost var q1;
    ts', q2, mem', q1 := PutAndWake(ts, qs[j], mem, cur, started, itemPtr, pos, overwrite);
    ghost var w := Awakened(ts, qs[j].handle, SentCount(qs[j], overwrite), started);
    ghost var log := SendLog(trace[j], qs[j], ReadBytes(mem, itemPtr, qs[j].itemSize), pos, overwrite, w >= 0);
    if SoundTables(ts, qs, trace, started, at) {
      SendSound(ts, qs, at.groups, mem, trace, at.recursive, started, j, itemPtr, pos, overwrite, q1, q2, mem');
    }
    Commit(ts, qs, trace, cur, started, at, w, j, q2, log);
    qs', trace' := qs[j := q2], trace[j := log];
    if SoundTables(ts, qs, trace, started, at) {
      SoundArrives(ts, qs, trace, started, at, ts', qs', trace', j, ReadBytes(mem, itemPtr, qs[j].itemSize), pos,
                   overwrite);
    }
  }

  /** From a sound kernel to a sound kernel by way of an accepted send. */
  lemma SoundArrives(ts: seq<Tcb>, qs: seq<Queue>, trace: seq<Log>, started: bool, at: Context, ts': seq<Tcb>,
                     qs': seq<Queue>, trace': seq<Log>, j: nat, x: Item, pos: Position, overwrite: bool)
    requires SoundTables(ts, qs, trace, started, at) && SoundTables(ts', qs', trace', started, at)
    requires j < |qs| == |qs'| && FindQueue(qs, qs[j].handle) == j && SameObject(qs[j], qs'[j])
    requires qs[j].handle != 0 && qs[j].itemSize > 0
    requires trace'[j] == SendLog(trace[j], qs[j], x, pos, overwrite, FirstWaiter(ts, qs[j].handle, false) >= 0)
    ensures Arrives(qs[j], qs'[j], trace[j], trace'[j], x, pos, overwrite, FirstWaiter(ts, qs[j].handle, false) >= 0)
  {
    WaitersOn(ts, qs, j, at.groups, started);
    assert QueueOk(qs[j], trace[j], qs[j].handle in at.recursive);
    assert QueueOk(qs'[j], trace'[j], qs'[j].handle in at.recursive);
    SentArrives(qs[j], qs'[j], trace[j], trace'[j], x, pos, overwrite, FirstWaiter(ts, qs[j].handle, false) >= 0);
  }

  /** The item goes into the ring, and from there to a receiver that can be served. */
  method PutAndWake(ts: seq<Tcb>, q: Queue, mem: Mem, cur: seq<int>, started: bool, itemPtr: nat, pos: Position,
                    overwrite: bool)
    returns (ts': seq<Tcb>, q2: Queue, mem': Mem, ghost q1: Queue)
    requires SchedOk(ts, cur) && TasksUsable(ts) && RingSafe(q) && q.handle != 0
    requires q.count < q.maxItems || (overwrite && q.count != 0)
    ensures InRing(q) && Offset(SendSlot(q, pos, overwrite), q.itemSize) + q.itemSize <= |q.buf|
    ensures q1 == Enqueued(q, ReadBytes(mem, itemPtr, q.itemSize), pos, overwrite) && RingSafe(q1)
    ensures var w := Awakened(ts, q.handle, SentCount(q, overwrite), started);
            && q1.count == SentCount(q, overwrite)
            && ts' == AfterWake(ts, w)
            && q2 == (if w >= 0 then ServedQueue(q1, ts[w]) else q1)
            && mem' == (if w >= 0 then ServedMem(mem, q1, ts[w]) else mem)
            && q2.count == if w >= 0 && !ts[w].q.semaphore then q1.count - 1 else q1.count
    ensures RingSafe(q2) && SameObject(q, q2)
  {
    SafeSend(q, ReadBytes(mem, itemPtr, q.itemSize), pos, overwrite);
    var put := Enqueue(mem, q, itemPtr, pos, overwrite);
    var woke;
    woke, ts', q2, mem' := WakeReceiver(ts, put, mem, cur, started);
    q1 := put;
  }

  /** Taking the head item, and completing the first blocked send. */
  lemma ReceiveKeeps(ts: seq<Tcb>, qs: seq<Queue>, gs: seq<Group>, trace: seq<Log>, recursive: set<nat>, started: bool,
                     j: nat, y: Item, q2: Queue, log': Log)
    requires TablesOk(ts, qs, gs, trace, recursive, started)
    requires j < |qs| && FindQueue(qs, qs[j].handle) == j && qs[j].handle != 0 && 0 < qs[j].itemSize
    requires RingOk(qs[j]) && qs[j].count > 0 && RingOk(Dequeued(qs[j]))
    requires var w, q1, x := FirstWaiter(ts, qs[j].handle, true), Dequeued(qs[j]), Contents(qs[j])[0];
             if w >= 0 then
               && |y| == q1.itemSize && Offset(SendSlot(q1, ts[w].q.pos, false), q1.itemSize) + |y| <= |q1.buf|
               && q2 == Enqueued(q1, y, ts[w].q.pos, false)
               && log' == ReceiveLog(trace[j], x, true, y, ts[w].q.pos)
             else q2 == q1 && log' == ReceiveLog(trace[j], x, false, [], Back)
    ensures TablesOk(AfterWake(ts, FirstWaiter(ts, qs[j].handle, true)), qs[j := q2], gs, trace[j := log'],
                     recursive, started)
  {
    var w, q, q1 := FirstWaiter(ts, qs[j].handle, true), qs[j], Dequeued(qs[j]);
    assert QueueOk(q, trace[j], false);
    ReceiveOk(q, trace[j]);
    WaitersOn(ts, qs, j, gs, started);
    var log := trace[j] + [Received(Contents(q)[0])];
    if w >= 0 {
      SendOk(q1, log, y, ts[w].q.pos, false);
      assert WaitOk(ts[w], qs, gs);
    } else {
      assert log + [] == log;
    }
    LogStep(qs, trace, recursive, j, q2, log');
    QueueStep(ts, AfterWake(ts, w), qs, j, q2, gs, started);
  }

  /** A step on a semaphore's count. */
  lemma TokenKeeps(ts: seq<Tcb>, qs: seq<Queue>, gs: seq<Group>, trace: seq<Log>, recursive: set<nat>, started: bool,
                   j: nat, w: int, q2: Queue, log: Log)
    requires TablesOk(ts, qs, gs, trace, recursive, started)
    requires j < |qs| && FindQueue(qs, qs[j].handle) == j && qs[j].itemSize == 0
    requires q2.handle == qs[j].handle && q2.itemSize == 0 && QueueOk(q2, log, q2.handle in recursive)
    requires -1 <= w < |ts| && (w >= 0 ==> WaiterOn(ts[w], q2.handle, false))
    requires q2.count == 0 || FirstWaiter(ts, q2.handle, false) < 0
    ensures TablesOk(AfterWake(ts, w), qs[j := q2], gs, trace[j := log], recursive, started)
  {
    WaitersOn(ts, qs, j, gs, started);
    forall i | 0 <= i < |ts| ensures !WaiterOn(ts[i], q2.handle, true) {
      assert WaitOk(ts[i], qs, gs);
    }
    if w >= 0 { assert WaitOk(ts[w], qs, gs); }
    LogStep(qs, trace, recursive, j, q2, log);
    QueueStep(ts, AfterWake(ts, w), qs, j, q2, gs, started);
  }

  method AddToken(q: Queue, mem: Mem, asSend: bool, pos: Position) returns (r: Queue)
    requires InRing(q) && q.count < q.maxItems && q.itemSize == 0
    ensures InRing(r) && r.handle == q.handle && r.itemSize == 0 && r.maxItems == q.maxItems && r.count == q.count + 1
    ensures !asSend ==> r == q.(count := q.count + 1)
    ensures asSend && pos.Back? ==> r.head == q.head && r.tail == if q.tail + 1 == q.maxItems then 0 else q.tail + 1
  {
    var overwrite := pos.Overwrite? && q.maxItems == 1;
    if asSend {
      OffsetIsProduct(SendSlot(q, pos, overwrite), 0);
      r := Enqueue(mem, q, 0, pos, overwrite);
    } else {
      r := q.(count := q.count + 1);
    }
  }

  /** In a sound kernel a receive delivers the oldest item, or takes a token. */
  lemma ReceiveSound(ts: seq<Tcb>, qs: seq<Queue>, gs: seq<Group>, mem: Mem, trace: seq<Log>, recursive: set<nat>,
                     started: bool, j: nat, dst: nat, q2: Queue, log: Log)
    requires TablesOk(ts, qs, gs, trace, recursive, started)
    requires j < |qs| && FindQueue(qs, qs[j].handle) == j && qs[j].handle != 0 && 0 < qs[j].itemSize
    requires RingOk(qs[j]) && qs[j].count > 0
    requires var w, q1, x := Admitted(ts, qs[j].handle, started), Dequeued(qs[j]), Contents(qs[j])[0];
             var mem' := WriteBytes(mem, dst, x);
             if w >= 0 then
               && Offset(SendSlot(q1, ts[w].q.pos, false), q1.itemSize) + q1.itemSize <= |q1.buf|
               && q2 == Enqueued(q1, ReadBytes(mem', ts[w].q.buf, q1.itemSize), ts[w].q.pos, false)
               && log == ReceiveLog(trace[j], x, true, ReadBytes(mem', ts[w].q.buf, q1.itemSize), ts[w].q.pos)
             else q2 == q1 && log == ReceiveLog(trace[j], x, false, [], Back)
    ensures var w := Admitted(ts, qs[j].handle, started);
            && TablesOk(AfterWake(ts, w), qs[j := q2], gs, trace[j := log], recursive, started)
            && FetchedFrom(qs[j], dst, ts, AfterWake(ts, w), mem, WriteBytes(mem, dst, Contents(qs[j])[0]), trace[j],
                           log)
  {
    AdmittedIsFirst(ts, qs, gs, started, j);
    DequeueRefines(qs[j]);
    var w := FirstWaiter(ts, qs[j].handle, true);
    var y := if w >= 0 then ReadBytes(WriteBytes(mem, dst, Contents(qs[j])[0]), ts[w].q.buf, qs[j].itemSize) else [];
    ReceiveKeeps(ts, qs, gs, trace, recursive, started, j, y, q2, log);
  }

  /** Copies the head item out, frees its slot and lets a blocked send through. */
  method AcceptReceive(ts: seq<Tcb>, qs: seq<Queue>, mem: Mem, ghost trace: seq<Log>, cur: seq<int>, started: bool,
                       ghost at: Context, j: nat, dst: nat)
    returns (ts': seq<Tcb>, qs': seq<Queue>, mem': Mem, ghost trace': seq<Log>)
    requires UsableTables(ts, qs, cur, at) && |trace| == |qs|
    requires j < |qs| && FindQueue(qs, qs[j].handle) == j && qs[j].handle != 0
    requires 0 < qs[j].itemSize && RingOk(qs[j]) && qs[j].count > 0
    ensures UsableTables(ts', qs', cur, at) && Grew(qs, trace, qs', trace')
    ensures |qs'| == |qs| && qs' == qs[j := qs'[j]] && qs'[j].handle == qs[j].handle && trace' == trace[j := trace'[j]]
    ensures var w := Admitted(ts, qs[j].handle, started);
            ts' == AfterWake(ts, w) && qs'[j].count == if w >= 0 then qs[j].count else qs[j].count - 1
    ensures SoundTables(ts, qs, trace, started, at) ==>
              && SoundTables(ts', qs', trace', started, at)
              && FetchedFrom(qs[j], dst, ts, ts', mem, mem', trace[j], trace'[j])
              && LeavesFor(qs[j], qs'[j], trace[j], trace'[j], ts, mem')
  {
    var q := qs[j];
    ghost var w, x := Admitted(ts, q.handle, started), Contents(q)[0];
    DequeueRefines(q);
    mem' := CopyHead(mem, q, dst);
    var woke, q2;
    woke, ts', q2 := WakeSender(ts, Dequeued(q), mem', cur, started);
    ghost var log := if w >= 0 then ReceiveLog(trace[j], x, true, ReadBytes(mem', ts[w].q.buf, q.itemSize), ts[w].q.pos)
                     else ReceiveLog(trace[j], x, false, [], Back);
    if SoundTables(ts, qs, trace, started, at) {
      ReceiveSound(ts, qs, at.groups, mem, trace, at.recursive, started, j, dst, q2, log);
    }
    Commit(ts, qs, trace, cur, started, at, w, j, q2, log);
    qs' := qs[j := q2];
    trace' := trace[j := log];
    if SoundTables(ts, qs, trace, started, at) {
      SoundLeaves(ts, qs, mem', trace, started, at, ts', qs', trace', j);
    }
  }

  /** A receive lets the first blocked sender through, if there is one, with the item that its memory
      holds now. */
  ghost predicate LeavesFor(q: Queue, q': Queue, log: Log, log': Log, ts: seq<Tcb>, mem: Mem) {
    var w := FirstWaiter(ts, q.handle, true);
    if w >= 0 then Leaves(q, q', log, log', true, ReadBytes(mem, ts[w].q.buf, q.itemSize), ts[w].q.pos)
    else Leaves(q, q', log, log', false, [], Back)
  }

  /** From a sound kernel to a sound kernel by way of a receive. */
  lemma SoundLeaves(ts: seq<Tcb>, qs: seq<Queue>, mem: Mem, trace: seq<Log>, started: bool, at: Context, ts': seq<Tcb>,
                    qs': seq<Queue>, trace': seq<Log>, j: nat)
    requires SoundTables(ts, qs, trace, started, at) && SoundTables(ts', qs', trace', started, at)
    requires j < |qs| == |qs'| && SameObject(qs[j], qs'[j]) && RingOk(qs[j]) && qs[j].count > 0
    requires qs[j].handle != 0 && qs[j].itemSize > 0
    requires var w, x := FirstWaiter(ts, qs[j].handle, true), Contents(qs[j])[0];
             trace'[j] ==
               if w >= 0 then ReceiveLog(trace[j], x, true, ReadBytes(mem, ts[w].q.buf, qs[j].itemSize), ts[w].q.pos)
               else ReceiveLog(trace[j], x, false, [], Back)
    ensures LeavesFor(qs[j], qs'[j], trace[j], trace'[j], ts, mem)
  {
    var w := FirstWaiter(ts, qs[j].handle, true);
    assert QueueOk(qs[j], trace[j], qs[j].handle in at.recursive);
    assert QueueOk(qs'[j], trace'[j], qs'[j].handle in at.recursive);
    if w >= 0 {
      FetchedLeaves(qs[j], qs'[j], trace[j], trace'[j], true, ReadBytes(mem, ts[w].q.buf, qs[j].itemSize), ts[w].q.pos);
    } else {
      FetchedLeaves(qs[j], qs'[j], trace[j], trace'[j], false, [], Back);
    }
  }

  ghost function TookLog(log: Log, through: bool): Log { if through then log + [Took] + [Gave] else log + [Took] }

  /** Receives from a semaphore: the ring indices turn, and a blocked send is let through.
      A sound kernel has no such send. */
  method AcceptTokenReceive(ts: seq<Tcb>, qs: seq<Queue>, mem: Mem, ghost trace: seq<Log>, cur: seq<int>,
                            started: bool, ghost at: Context, j: nat)
    returns (ts': seq<Tcb>, qs': seq<Queue>, ghost trace': seq<Log>)
    requires UsableTables(ts, qs, cur, at) && |trace| == |qs|
    requires j < |qs| && FindQueue(qs, qs[j].handle) == j && qs[j].handle != 0 && qs[j].handle !in at.recursive
    requires qs[j].itemSize == 0 && qs[j].count > 0
    ensures UsableTables(ts', qs', cur, at) && Grew(qs, trace, qs', trace')
    ensures |qs'| == |qs| && qs' == qs[j := qs'[j]] && qs'[j].handle == qs[j].handle && trace' == trace[j := trace'[j]]
    ensures var w := Admitted(ts, qs[j].handle, started);
            ts' == AfterWake(ts, w) && qs'[j].count == if w >= 0 then qs[j].count else qs[j].count - 1
    ensures SoundTables(ts, qs, trace, started, at) ==>
              SoundTables(ts', qs', trace', started, at) && ts' == ts && trace'[j] == trace[j] + [Took]
  {
    var q := qs[j];
    ghost var w := Admitted(ts, q.handle, started);
    assert RingSafe(q);
    var woke, q2;
    woke, ts', q2 := WakeSender(ts, Dequeued(q), mem, cur, started);
    ghost var log := TookLog(trace[j], w >= 0);
    if SoundTables(ts, qs, trace, started, at) {
      AdmittedIsFirst(ts, qs, at.groups, started, j);
      TookSound(ts, qs, at.groups, trace, at.recursive, started, j, q2);
    }
    Commit(ts, qs, trace, cur, started, at, w, j, q2, log);
    qs' := qs[j := q2];
    trace' := trace[j := log];
  }

  /** Taking a token that is there. */
  lemma TookSound(ts: seq<Tcb>, qs: seq<Queue>, gs: seq<Group>, trace: seq<Log>, recursive: set<nat>, started: bool,
                  j: nat, q2: Queue)
    requires TablesOk(ts, qs, gs, trace, recursive, started)
    requires j < |qs| && FindQueue(qs, qs[j].handle) == j && qs[j].handle != 0 && qs[j].handle !in recursive
    requires qs[j].itemSize == 0 && qs[j].count > 0
    requires InRing(q2) && q2.handle == qs[j].handle && q2.itemSize == 0 && q2.count == qs[j].count - 1
    ensures TablesOk(ts, qs[j := q2], gs, trace[j := trace[j] + [Took]], recursive, started)
  {
    assert QueueOk(qs[j], trace[j], false);
    TokenLogs(trace[j]);
    WaitersOn(ts, qs, j, gs, started);
    TokenKeeps(ts, qs, gs, trace, recursive, started, j, -1, q2, trace[j] + [Took]);
  }

  /** The object after a give: a served receiver leaves the count alone or takes an item's
      worth of it; otherwise the token is added if there is room. */
  function GivenCount(q: Queue, ts: seq<Tcb>, w: int): int
    requires -1 <= w < |ts|
  {
    if w >= 0 then (if ts[w].q.semaphore then q.count else q.count - 1)
    else if q.count < q.maxItems then q.count + 1 else q.count
  }

  /** Gives one token: to the first waiter that can be served, else to the count. A give
      made as a send (`asSend`) also turns the unused ring indices. */
  method AcceptGive(ts: seq<Tcb>, qs: seq<Queue>, mem: Mem, ghost trace: seq<Log>, cur: seq<int>, started: bool,
                    ghost at: Context, j: nat, asSend: bool, pos: Position)
    returns (ok: bool, ts': seq<Tcb>, qs': seq<Queue>, ghost trace': seq<Log>)
    requires UsableTables(ts, qs, cur, at) && |trace| == |qs|
    requires j < |qs| && FindQueue(qs, qs[j].handle) == j && qs[j].handle != 0 && qs[j].handle !in at.recursive
    requires qs[j].itemSize == 0
    ensures UsableTables(ts', qs', cur, at) && Grew(qs, trace, qs', trace')
    ensures |qs'| == |qs| && qs' == qs[j := qs'[j]] && qs'[j].handle == qs[j].handle
    ensures var q := qs[j];
            var w := Awakened(ts, q.handle, q.count, started);
            && (ok <==> w >= 0 || q.count < q.maxItems || (asSend && pos.Overwrite? && q.maxItems == 1))
            && ts' == AfterWake(ts, w) && qs'[j].count == GivenCount(q, ts, w)
            && (!ok ==> qs' == qs)
            && trace' == trace[j := GiveLog(trace[j], w >= 0, q.count < q.maxItems)]
    ensures SoundTables(ts, qs, trace, started, at) ==>
              && SoundTables(ts', qs', trace', started, at)
              && Awakened(ts, qs[j].handle, qs[j].count, started) == FirstWaiter(ts, qs[j].handle, false)
  {
    var q := qs[j];
    ghost var w := Awakened(ts, q.handle, q.count, started);
    assert RingSafe(q);
    var woke, q2, mem';
    woke, ts', q2, mem' := WakeReceiver(ts, q, mem, cur, started);
    ok := woke || q.count < q.maxItems || (asSend && pos.Overwrite? && q.maxItems == 1);
    if !woke && q.count < q.maxItems {
      q2 := AddToken(q, mem, asSend, pos);
    }
    ghost var log := GiveLog(trace[j], woke, q.count < q.maxItems);
    if SoundTables(ts, qs, trace, started, at) {
      GiveSound(ts, qs, at.groups, trace, at.recursive, started, j, q2);
    }
    Commit(ts, qs, trace, cur, started, at, w, j, q2, log);
    qs' := qs[j := q2];
    trace' := trace[j := log];
  }

  lemma GiveSound(ts: seq<Tcb>, qs: seq<Queue>, gs: seq<Group>, trace: seq<Log>, recursive: set<nat>, started: bool,
                  j: nat, q2: Queue)
    requires TablesOk(ts, qs, gs, trace, recursive, started)
    requires j < |qs| && FindQueue(qs, qs[j].handle) == j && qs[j].handle != 0 && qs[j].handle !in recursive
    requires qs[j].itemSize == 0
    requires InRing(q2) && q2.handle == qs[j].handle && q2.itemSize == 0
    requires q2.count == GivenCount(qs[j], ts, Awakened(ts, qs[j].handle, qs[j].count, started))
    ensures var w := Awakened(ts, qs[j].handle, qs[j].count, started);
            && w == FirstWaiter(ts, qs[j].handle, false)
            && TablesOk(AfterWake(ts, w), qs[j := q2], gs,
                        trace[j := GiveLog(trace[j], w >= 0, qs[j].count < qs[j].maxItems)], recursive, started)
  {
    AwakenedIsFirst(ts, qs, gs, started, j, qs[j].count);
    var w := FirstWaiter(ts, qs[j].handle, false);
    assert QueueOk(qs[j], trace[j], false);
    WaitersOn(ts, qs, j, gs, started);
    TokenLogs(trace[j]);
    TokenKeeps(ts, qs, gs, trace, recursive, started, j, w, q2,
               GiveLog(trace[j], w >= 0, qs[j].count < qs[j].maxItems));
  }

  ghost function GiveLog(log: Log, handed: bool, room: bool): Log {
    if handed then log + [Gave, Took] else if room then log + [Gave] else log
  }

  /** Who holds a recursive mutex, and how deep, after one more take or give. */
  lemma LockLogs(log: Log, o: nat)
    ensures forall p :: Unmatched(log + [Locked(o)], p) == Unmatched(log, p) + if p == o then 1 else 0
    ensures forall p :: Unmatched(log + [Unlocked(o)], p) == Unmatched(log, p) - if p == o then 1 else 0
  {
    Appended(log, Locked(o));
    Appended(log, Unlocked(o));
  }

  ghost function UnlockLog(log: Log, owner: nat, next: nat): Log {
    if next != 0 then log + [Unlocked(owner)] + [Locked(next)] else log + [Unlocked(owner)]
  }

  /** A recursive give by the holder: one level less, and at the last level the
      mutex is free or belongs, at depth one, to the first waiter. */
  method AcceptUnlock(ts: seq<Tcb>, qs: seq<Queue>, mem: Mem, ghost trace: seq<Log>, cur: seq<int>, started: bool,
                      ghost at: Context, j: nat)
    returns (ts': seq<Tcb>, qs': seq<Queue>, ghost trace': seq<Log>)
    requires UsableTables(ts, qs, cur, at) && SoundTables(ts, qs, trace, started, at)
    requires j < |qs| && FindQueue(qs, qs[j].handle) == j && qs[j].handle != 0 && qs[j].handle in at.recursive
    requires qs[j].mutexOwner != 0
    ensures UsableTables(ts', qs', cur, at) && SoundTables(ts', qs', trace', started, at)
    ensures Grew(qs, trace, qs', trace')
    ensures |qs'| == |qs| && qs' == qs[j := qs'[j]] && qs'[j].handle == qs[j].handle
    ensures var q, q', w := qs[j], qs'[j], FirstWaiter(ts, qs[j].handle, false);
            if q.mutexDepth > 1 then
              && ts' == ts && q'.mutexOwner == q.mutexOwner && q'.mutexDepth == q.mutexDepth - 1 && q'.count == 0
              && trace' == trace[j := UnlockLog(trace[j], q.mutexOwner, 0)]
            else
              && ts' == AfterWake(ts, w)
              && q'.mutexOwner == (if w >= 0 then ts[w].handle else 0)
              && q'.mutexDepth == (if w >= 0 then 1 else 0)
              && q'.count == (if w >= 0 then 0 else 1)
              && trace' == trace[j := UnlockLog(trace[j], q.mutexOwner, q'.mutexOwner)]
  {
    var q := qs[j];
    ghost var w, log := FirstWaiter(ts, q.handle, false), trace[j] + [Unlocked(q.mutexOwner)];
    assert QueueOk(q, trace[j], true);
    LockLogs(trace[j], q.mutexOwner);
    var q2;
    if q.mutexDepth > 1 {
      ts' := ts;
      q2 := q.(mutexDepth := q.mutexDepth - 1);
      TokenKeeps(ts, qs, at.groups, trace, at.recursive, started, j, -1, q2, log);
      Commit(ts, qs, trace, cur, started, at, -1, j, q2, log);
    } else {
      ts', q2, log := HandMutexOver(ts, qs, mem, trace, cur, started, at, j);
    }
    qs', trace' := qs[j := q2], trace[j := log];
  }

  /** The last give: free the mutex, or make the first waiter its owner. */
  method HandMutexOver(ts: seq<Tcb>, qs: seq<Queue>, mem: Mem, ghost trace: seq<Log>, cur: seq<int>, started: bool,
                       ghost at: Context, j: nat)
    returns (ts': seq<Tcb>, q2: Queue, ghost log: Log)
    requires UsableTables(ts, qs, cur, at) && SoundTables(ts, qs, trace, started, at)
    requires j < |qs| && FindQueue(qs, qs[j].handle) == j && qs[j].handle != 0 && qs[j].handle in at.recursive
    requires qs[j].mutexOwner != 0 && qs[j].mutexDepth <= 1
    ensures UsableTables(ts', qs[j := q2], cur, at) && SoundTables(ts', qs[j := q2], trace[j := log], started, at)
    ensures Grew(qs, trace, qs[j := q2], trace[j := log])
    ensures var w := FirstWaiter(ts, qs[j].handle, false);
            && ts' == AfterWake(ts, w)
            && q2.mutexOwner == (if w >= 0 then ts[w].handle else 0)
            && q2.mutexDepth == (if w >= 0 then 1 else 0)
            && q2.count == (if w >= 0 then 0 else 1)
            && log == UnlockLog(trace[j], qs[j].mutexOwner, q2.mutexOwner)
  {
    var q := qs[j];
    ghost var w := FirstWaiter(ts, q.handle, false);
    log := trace[j] + [Unlocked(q.mutexOwner)];
    assert QueueOk(q, trace[j], true);
    LockLogs(trace[j], q.mutexOwner);
    WaitersOn(ts, qs, j, at.groups, started);
    AwakenedIsFirst(ts, qs, at.groups, started, j, q.count);
    var q1 := q.(mutexDepth := 0, mutexOwner := 0);
    var woke, mem';
    woke, ts', q2, mem' := WakeReceiver(ts, q1, mem, cur, started);
    if woke {
      LockLogs(log, ts[w].handle);
      log := log + [Locked(ts[w].handle)];
    } else if q2.count < q2.maxItems {
      q2 := q2.(count := q2.count + 1);
    }
    TokenKeeps(ts, qs, at.groups, trace, at.recursive, started, j, w, q2, log);
    Commit(ts, qs, trace, cur, started, at, w, j, q2, log);
  }

  /** A recursive take that need not wait: re-entry, or a free mutex. */
  method AcceptLock(ts: seq<Tcb>, qs: seq<Queue>, ghost trace: seq<Log>, ghost cur: seq<int>, ghost started: bool,
                    ghost at: Context, j: nat, owner: nat)
    returns (qs': seq<Queue>, ghost trace': seq<Log>)
    requires UsableTables(ts, qs, cur, at) && SoundTables(ts, qs, trace, started, at)
    requires j < |qs| && FindQueue(qs, qs[j].handle) == j && qs[j].handle != 0 && qs[j].handle in at.recursive
    requires owner != 0 && (qs[j].mutexOwner == owner || qs[j].count > 0)
    ensures UsableTables(ts, qs', cur, at) && SoundTables(ts, qs', trace', started, at) && Grew(qs, trace, qs', trace')
    ensures |qs'| == |qs| && qs' == qs[j := qs'[j]] && qs'[j].handle == qs[j].handle
    ensures qs'[j].mutexOwner == owner && qs'[j].count == 0
    ensures qs'[j].mutexDepth == qs[j].mutexDepth + 1
    ensures trace' == trace[j := trace[j] + [Locked(owner)]]
  {
    var q := qs[j];
    ghost var log := trace[j] + [Locked(owner)];
    assert QueueOk(q, trace[j], true);
    LockLogs(trace[j], owner);
    if q.mutexOwner == owner {
      q := q.(mutexDepth := q.mutexDepth + 1);
    } else {
      q := q.(count := q.count - 1, mutexOwner := owner, mutexDepth := 1);
    }
    TokenKeeps(ts, qs, at.groups, trace, at.recursive, started, j, -1, q, log);
    Commit(ts, qs, trace, cur, started, at, -1, j, q, log);
    qs', trace' := qs[j := q], trace[j := log];
  }

  /** A handle the allocator may still hand out to somebody else. */
  predicate Ahead(h: nat, bump: nat) { bump <= h && BUMP_BASE <= h < BUMP_LIMIT }

  /** Installing a new object under a handle nothing else has keeps the kernel sound, as long
      as the allocator will not hand out that handle again. */
  lemma InstallKeeps(ts: seq<Tcb>, qs: seq<Queue>, trace: seq<Log>, started: bool, at: Context,
                     k: nat, q: Queue, log: Log, forRecursive: bool)
    requires SoundTables(ts, qs, trace, started, at)
    requires k < |qs| && qs[k].handle == 0 && q.handle != 0 && q.handle !in at.recursive
    requires FindQueue(qs, q.handle) == -1
    requires QueueOk(q, log, forRecursive)
    ensures var r := if forRecursive then at.recursive + {q.handle} else at.recursive;
            && RingsSafe(qs[k := q])
            && (SoundTables(ts, qs[k := q], trace[k := log], started, at.(recursive := r))
                <==> !Ahead(q.handle, at.bump))
    ensures FindQueue(qs[k := q], q.handle) == k && Grew(qs, trace, qs[k := q], trace[k := log])
  {
    var gs, recursive := at.groups, at.recursive;
    var r := if forRecursive then recursive + {q.handle} else recursive;
    forall i | 0 <= i < |qs| ensures qs[i].handle != q.handle { FindQueueNone(qs, q.handle, i); }
    FillKeeps(ts, qs, gs, started, k, q);
    FillOk(qs, trace, recursive, k, q, log, forRecursive);
    FindQueueHit(qs[k := q], q.handle, k);
    SoundIsUsable(ts, qs[k := q], gs, trace[k := log], r, started);
    assert qs[k := q][k] == q;
  }

  function Capacity(length: nat): nat { if length > TOKENS_CAP then TOKENS_CAP else length }

  function InitialCount(length: nat, initial: nat): nat {
    if initial > Capacity(length) then Capacity(length) else initial
  }

  predicate Creatable(length: nat, itemSize: nat) {
    itemSize <= MAX_ITEM_SIZE && length != 0 && (itemSize != 0 ==> length <= MAX_QUEUE_ITEMS)
  }

  /** What is asked for when an object is made. A mutex the guest only ever takes and gives
      recursively is `forRecursive`. */
  datatype Creation = Creation(length: nat, itemSize: nat, initial: nat, forRecursive: bool, isMutex: bool) {

    /** What the callers of the creation routine pass. */
    predicate Allowed() {
      && (itemSize > 0 ==> initial == 0)
      && (isMutex ==> length == 1 && itemSize == 0 && initial == 1)
      && (forRecursive ==> isMutex)
    }

    function Object(h: nat): (q: Queue)
      ensures q.handle == h && q.itemSize == itemSize && q.isMutex == isMutex && q.head == q.tail == 0
      ensures q.maxItems == if length > 0x7FFF_FFFF then 0x7FFF_FFFF else length
      ensures q.count == if initial > q.maxItems then q.maxItems else initial
      ensures q.mutexOwner == 0 && q.mutexDepth == 0
    {
      NewQueue(h, itemSize, Capacity(length), InitialCount(length, initial)).(isMutex := isMutex)
    }

    /** How the object's history starts. */
    function Log(): Log { FirstLog(itemSize, InitialCount(length, initial)) }
  }

  /** A new record that is in order under any handle. */
  ghost predicate Fits(blank: Queue, log: Log, forRecursive: bool) {
    forall h: nat :: h != 0 ==> QueueOk(blank.(handle := h), log, forRecursive)
  }

  lemma NewObjectOk(c: Creation)
    requires c.Allowed() && Creatable(c.length, c.itemSize)
    ensures Fits(c.Object(0), c.Log(), c.forRecursive)
  {
    forall h: nat | h != 0
      ensures QueueOk(c.Object(0).(handle := h), c.Log(), c.forRecursive)
    {
      NewQueueOk(h, c.itemSize, Capacity(c.length), InitialCount(c.length, c.initial));
    }
  }

  /** Marking an object as a mutex changes nothing that counts so far. */
  lemma MarkSound(ts: seq<Tcb>, qs: seq<Queue>, trace: seq<Log>, cur: seq<int>, started: bool, at: Context, j: nat)
    requires UsableTables(ts, qs, cur, at) && SoundTables(ts, qs, trace, started, at)
    requires j < |qs| && qs[j].handle != 0 && FindQueue(qs, qs[j].handle) == j
    ensures UsableTables(ts, qs[j := qs[j].(isMutex := true)], cur, at)
    ensures SoundTables(ts, qs[j := qs[j].(isMutex := true)], trace, started, at)
    ensures Grew(qs, trace, qs[j := qs[j].(isMutex := true)], trace)
  {
    var q := qs[j].(isMutex := true);
    assert RingSafe(qs[j]) && QueueOk(qs[j], trace[j], q.handle in at.recursive);
    if q.itemSize > 0 {
      assert Contents(q) == Contents(qs[j]);
    }
    WaitersOn(ts, qs, j, at.groups, started);
    LogStep(qs, trace, at.recursive, j, q, trace[j]);
    assert trace[j := trace[j]] == trace;
    QueueStep(ts, ts, qs, j, q, at.groups, started);
    Commit(ts, qs, trace, cur, started, at, -1, j, q, trace[j]);
  }

  // ----- switches -----

  /** Every task of a sound kernel is in order by itself. */
  lemma TasksFine(ts: seq<Tcb>, qs: seq<Queue>, trace: seq<Log>, started: bool, at: Context)
    requires SoundTables(ts, qs, trace, started, at)
    ensures forall i :: 0 <= i < |ts| ==> TaskOk(ts[i])
  {
    forall i | 0 <= i < |ts|
      ensures TaskOk(ts[i])
    {
      assert WaitOk(ts[i], qs, at.groups);
    }
  }

  lemma UsableUpdate(ts: seq<Tcb>, c: nat, t: Tcb)
    requires TasksUsable(ts) && c < |ts| && TaskUsable(t)
    ensures TasksUsable(ts[c := t])
  {
  }

  /** A task may leave its core for any wait it is right to make. */
  ghost predicate MayLeave(t: Tcb, qs: seq<Queue>, at: Context) {
    WaitOk(t, qs, at.groups) && (t.q.waiting && t.q.handle in at.recursive ==> t.handle != 0)
  }

  lemma LeaveSound(ts: seq<Tcb>, c: nat, t: Tcb, ts': seq<Tcb>, qs: seq<Queue>, trace: seq<Log>, at: Context, now: nat)
    requires SoundTables(ts, qs, trace, true, at) && c < |ts| && MayLeave(t, qs, at)
    requires Switched(ts[c := t], ts', now, at.groups)
    ensures SoundTables(ts', qs, trace, true, at)
  {
    SwitchKeepsWaits(ts[c := t], ts', now, qs, at.groups, true);
  }

  lemma SwitchSound(ts: seq<Tcb>, ts': seq<Tcb>, qs: seq<Queue>, trace: seq<Log>, started: bool, at: Context, now: nat)
    requires SoundTables(ts, qs, trace, started, at) && Switched(ts, ts', now, at.groups)
    ensures SoundTables(ts', qs, trace, started, at)
  {
    SwitchKeepsWaits(ts, ts', now, qs, at.groups, started);
  }

  /** The scheduler starts with nobody current. */
  lemma StartSound(ts: seq<Tcb>, qs: seq<Queue>, trace: seq<Log>, cur: seq<int>, at: Context)
    requires SoundTables(ts, qs, trace, false, at) && UsableTables(ts, qs, cur, at)
    ensures var at' := at.(strays := at.strays + Tasks(cur));
            SoundTables(ts, qs, trace, true, at') && UsableTables(ts, qs, [-1, -1], at')
  {
  }

  /** Task 0 is put on core 0. */
  lemma PromoteExactly(ts: seq<Tcb>, qs: seq<Queue>, trace: seq<Log>, cur: seq<int>, at: Context)
    requires SoundTables(ts, qs, trace, false, at) && UsableTables(ts, qs, cur, at) && |ts| > 0
    ensures var ts', at' := ts[0 := ts[0].(state := Running)], at.(strays := at.strays + Tasks([cur[0]]));
            && SoundTables(ts', qs, trace, true, at')
            && (UsableTables(ts', qs, cur[0 := 0], at') <==> Eligible(ts[0], 0) && cur[1] != 0)
  {
    var ts', strays := ts[0 := ts[0].(state := Running)], at.strays + Tasks([cur[0]]);
    assert WaitOk(ts[0], qs, at.groups) && WaitOk(ts'[0], qs, at.groups);
    forall i | 0 <= i < |ts'|
      ensures TaskUsable(ts'[i])
    {
      assert TaskUsable(ts[i]);
    }
    assert Accounted(ts', cur[0 := 0], strays);
  }

  predicate IsCurrent(cur: seq<int>, k: int) { |cur| == 2 && (cur[0] == k || cur[1] == k) }

  /** A task that is stopped on paper while a core runs it. */
  lemma StoppedIsLoose(ts: seq<Tcb>, qs: seq<Queue>, cur: seq<int>, at: Context, k: nat, t: Tcb)
    requires UsableTables(ts, qs, cur, at) && k < |ts| && TaskUsable(t) && (t.state.Suspended? || t.state.Unused?)
    requires t.affinity == ts[k].affinity && t.isIdle == ts[k].isIdle
    ensures !IsCurrent(cur, k) ==> UsableTables(ts[k := t], qs, cur, at)
    ensures forall core :: 0 <= core < 2 && cur[core] == k && !Waiting(t) ==> LooseTables(ts[k := t], qs, cur, core, at)
  {
  }

  /** Freeing the slot of a task. */
  lemma DeleteExactly(ts: seq<Tcb>, qs: seq<Queue>, trace: seq<Log>, cur: seq<int>, at: Context, k: nat)
    requires UsableTables(ts, qs, cur, at) && k < |ts|
    ensures var ts' := ts[k := ts[k].(state := Unused)];
            && (!IsCurrent(cur, k) ==> UsableTables(ts', qs, cur, at))
            && (SoundTables(ts, qs, trace, true, at) ==>
                  (UsableTables(ts', qs, cur, at) && SoundTables(ts', qs, trace, true, at)
                   <==> !IsCurrent(cur, k) && !Waiting(ts[k])))
            && forall core :: 0 <= core < 2 && cur[core] == k ==> LooseTables(ts', qs, cur, core, at)
  {
    var t := ts[k].(state := Unused);
    assert TaskUsable(ts[k]);
    StoppedIsLoose(ts, qs, cur, at, k, t);
    if SoundTables(ts, qs, trace, true, at) {
      assert WaitOk(ts[k], qs, at.groups);
      assert WaitOk(t, qs, at.groups) <==> !Waiting(ts[k]);
      assert ts[k := t][k] == t;
    }
  }

  /** A suspended task, out of any wait; the sender's mark stays. */
  function Halted(t: Tcb): Tcb { t.(state := Suspended, q := t.q.(waiting := false), eg := t.eg.(waiting := false)) }

  /** Suspending a task from outside. */
  lemma SuspendExactly(ts: seq<Tcb>, qs: seq<Queue>, trace: seq<Log>, cur: seq<int>, at: Context, k: nat)
    requires SoundTables(ts, qs, trace, true, at) && UsableTables(ts, qs, cur, at) && k < |ts|
    ensures var ts' := ts[k := Halted(ts[k])];
            && (!IsCurrent(cur, k) ==> UsableTables(ts', qs, cur, at))
            && (UsableTables(ts', qs, cur, at) && SoundTables(ts', qs, trace, true, at)
                <==> !IsCurrent(cur, k) && !ts[k].q.sender)
            && forall core :: 0 <= core < 2 && cur[core] == k ==> LooseTables(ts', qs, cur, core, at)
  {
    var ts' := ts[k := Halted(ts[k])];
    assert WaitOk(ts[k], qs, at.groups) && TaskUsable(ts[k]);
    assert WaitOk(ts'[k], qs, at.groups) <==> !ts[k].q.sender;
    StoppedIsLoose(ts, qs, cur, at, k, Halted(ts[k]));
  }

  /** Preemption leaves the tables usable, and sound if they were. */
  lemma PreemptUsable(ts: seq<Tcb>, cur: seq<int>, core: nat, next: nat, qs: seq<Queue>, trace: seq<Log>, at: Context)
    requires LooseTables(ts, qs, cur, core, at) && cur[core] >= 0 && next < |ts| && next != cur[core]
    requires ts[next].state.Ready? && Eligible(ts[next], core)
    requires forall i :: 0 <= i < |ts| && Candidate(ts[i], core) ==> ts[i].priority <= ts[next].priority
    requires ts[cur[core]].isIdle || ts[cur[core]].priority <= ts[next].priority
    ensures var ts' := Preempted(ts, cur[core], next);
            && UsableTables(ts', qs, cur[core := next], at) && Served(ts', cur[core := next], core)
            && (UsableTables(ts, qs, cur, at) && SoundTables(ts, qs, trace, true, at) ==>
                  SoundTables(ts', qs, trace, true, at))
  {
    PreemptTightens(ts, cur, core, next);
    assert TaskUsable(ts[cur[core]]) && TaskUsable(ts[next]);
    if UsableTables(ts, qs, cur, at) && SoundTables(ts, qs, trace, true, at) {
      PreemptSound(ts, cur, core, next, qs, trace, at);
    }
  }

  lemma PreemptSound(ts: seq<Tcb>, cur: seq<int>, core: nat, next: nat, qs: seq<Queue>, trace: seq<Log>, at: Context)
    requires SoundTables(ts, qs, trace, true, at) && UsableTables(ts, qs, cur, at)
    requires core < 2 && 0 <= cur[core] < |ts| && next < |ts| && next != cur[core]
    requires ts[next].state.Ready? && Eligible(ts[next], core)
    requires forall i :: 0 <= i < |ts| && Candidate(ts[i], core) ==> ts[i].priority <= ts[next].priority
    requires ts[cur[core]].isIdle || ts[cur[core]].priority <= ts[next].priority
    ensures SoundTables(Preempted(ts, cur[core], next), qs, trace, true, at)
  {
    PreemptKeeps(ts, cur, core, next, qs, at.groups, at.idle, at.idleReady);
  }

  lemma WokenLoose(ts: seq<Tcb>, qs: seq<Queue>, cur: seq<int>, core: nat, at: Context, now: nat)
    requires LooseTables(ts, qs, cur, core, at)
    ensures LooseTables(WokenAt(ts, now, at.groups), qs, cur, core, at)
    ensures UsableTables(ts, qs, cur, at) ==> UsableTables(WokenAt(ts, now, at.groups), qs, cur, at)
  {
    var w := WokenAt(ts, now, at.groups);
    WokenStaysLoose(ts, cur, core, now, at.groups);
    SwitchKeepsUsable(ts, w, now, at.groups);
    AccountedKept(ts, w, cur, at.strays);
  }
}
