/** The history of one queue object, and what it says the object should hold.
    The histories are written by the API steps and never read by them. */
module QueueHistory {
  import opened QueueRing

  datatype Event =
    | Sent(item: Item, pos: Position)
    | Replaced(item: Item)
    | Received(item: Item)
    | Created(tokens: nat)
    | Gave
    | Took
    | Locked(owner: nat)
    | Unlocked(owner: nat)

  type Log = seq<Event>

  /** The items an abstract deque holds after the history. */
  ghost function Held(log: Log): seq<Item> {
    if log == [] then []
    else
      var c := Held(log[..|log| - 1]);
      match log[|log| - 1]
      case Sent(x, pos) => Pushed(c, x, pos, false)
      case Replaced(x) => Pushed(c, x, Back, true)
      case Received(_) => if c == [] then [] else c[1..]
      case _ => c
  }

  /** Every receive took the item that was at the front at that moment. */
  ghost predicate Legal(log: Log) {
    log == [] ||
    (&& Legal(log[..|log| - 1])
     && (log[|log| - 1].Received? ==>
           var c := Held(log[..|log| - 1]);
           c != [] && c[0] == log[|log| - 1].item))
  }

  ghost function Tokens(log: Log): int {
    if log == [] then 0
    else
      Tokens(log[..|log| - 1]) +
      match log[|log| - 1]
      case Created(n) => n
      case Gave => 1
      case Took => -1
      case _ => 0
  }

  /** Takes minus gives of a recursive mutex by one owner. */
  ghost function Unmatched(log: Log, owner: nat): int {
    if log == [] then 0
    else
      Unmatched(log[..|log| - 1], owner) +
      match log[|log| - 1]
      case Locked(o) => if o == owner then 1 else 0
      case Unlocked(o) => if o == owner then -1 else 0
      case _ => 0
  }

  ghost function Accepted(log: Log): seq<Item> {
    if log == [] then []
    else
      var e := log[|log| - 1];
      Accepted(log[..|log| - 1]) + if e.Sent? || e.Replaced? then [e.item] else []
  }

  ghost function Delivered(log: Log): seq<Item> {
    if log == [] then []
    else
      var e := log[|log| - 1];
      Delivered(log[..|log| - 1]) + if e.Received? then [e.item] else []
  }

  ghost predicate BackOnly(log: Log) {
    forall i :: 0 <= i < |log| ==> !log[i].Replaced? && (log[i].Sent? ==> !log[i].pos.Front?)
  }

  /** First in, first out: with sends to the back only, what has been delivered
      followed by what is still held is what was accepted, in order. */
  lemma {:induction false} FirstInFirstOut(log: Log)
    requires Legal(log) && BackOnly(log)
    ensures Delivered(log) + Held(log) == Accepted(log)
  {
    if log != [] {
      var prev, e := log[..|log| - 1], log[|log| - 1];
      FirstInFirstOut(prev);
      if e.Received? {
        assert Held(prev) == [e.item] + Held(log);
      }
    }
  }

  lemma OneMore(c: seq<Item>, x: Item)
    ensures multiset(c + [x]) == multiset(c) + multiset{x}
    ensures multiset([x] + c) == multiset(c) + multiset{x}
  {
  }

  /** What one event does to the three sequences. */
  lemma LastEvent(log: Log)
    requires log != []
    ensures var prev, e := log[..|log| - 1], log[|log| - 1];
            && Accepted(log) == Accepted(prev) + (if e.Sent? || e.Replaced? then [e.item] else [])
            && Delivered(log) == Delivered(prev) + (if e.Received? then [e.item] else [])
            && (e.Sent? ==> Held(log) == Pushed(Held(prev), e.item, e.pos, false))
            && (e.Received? && Legal(log) ==> Held(prev) == [e.item] + Held(log))
            && (!e.Sent? && !e.Replaced? && !e.Received? ==> Held(log) == Held(prev))
  {
  }

  /** Every accepted item is delivered or held. */
  ghost predicate Balanced(a: seq<Item>, d: seq<Item>, h: seq<Item>) { multiset(a) == multiset(d) + multiset(h) }

  lemma BalanceSent(a: seq<Item>, d: seq<Item>, h: seq<Item>, x: Item, pos: Position)
    requires Balanced(a, d, h)
    ensures Balanced(a + [x], d, Pushed(h, x, pos, false))
  {
    OneMore(a, x);
    OneMore(h, x);
  }

  lemma BalanceReceived(a: seq<Item>, d: seq<Item>, h: seq<Item>, x: Item)
    requires Balanced(a, d, [x] + h)
    ensures Balanced(a, d + [x], h)
  {
    OneMore(d, x);
    OneMore(h, x);
  }

  /** Nothing is invented or lost, whichever end sends go to: as long as no item
      is overwritten, every accepted item is delivered or still held. */
  lemma {:induction false} NothingLost(log: Log)
    requires Legal(log)
    requires forall i :: 0 <= i < |log| ==> !log[i].Replaced?
    ensures Balanced(Accepted(log), Delivered(log), Held(log))
  {
    if log != [] {
      var prev, e := log[..|log| - 1], log[|log| - 1];
      NothingLost(prev);
      LastEvent(log);
      var a, d, h := Accepted(prev), Delivered(prev), Held(prev);
      assert a + [] == a && d + [] == d;
      if e.Sent? {
        BalanceSent(a, d, h, e.item, e.pos);
      } else if e.Received? {
        BalanceReceived(a, d, Held(log), e.item);
      }
    }
  }

  lemma Appended(log: Log, e: Event)
    ensures (log + [e])[..|log + [e]| - 1] == log
  {
  }

  /** What one queue object keeps with respect to its history. */
  ghost predicate QueueOk(q: Queue, log: Log, recursive: bool) {
    if q.handle == 0 then q.itemSize == 0 && q.count == q.maxItems == 0 && !recursive
    else if q.itemSize > 0 then RingOk(q) && Legal(log) && Held(log) == Contents(q) && !recursive
    else if !recursive then InRing(q) && Tokens(log) == q.count
    else
      && InRing(q) && q.maxItems == 1 && q.isMutex
      && q.mutexDepth >= 0
      && (q.count == 1 <==> q.mutexOwner == 0)
      && (q.mutexOwner == 0 <==> q.mutexDepth == 0)
      && forall o :: o != 0 ==> Unmatched(log, o) == if o == q.mutexOwner then q.mutexDepth else 0
  }

  ghost predicate QueuesOk(qs: seq<Queue>, trace: seq<Log>, recursive: set<nat>) {
    && |trace| == |qs|
    && forall j :: 0 <= j < |qs| ==> QueueOk(qs[j], trace[j], qs[j].handle in recursive)
  }

  /** A step on one object and its history leaves the others alone. */
  lemma LogStep(qs: seq<Queue>, trace: seq<Log>, recursive: set<nat>, j: nat, q: Queue, log: Log)
    requires QueuesOk(qs, trace, recursive) && j < |qs| && q.handle == qs[j].handle
    requires QueueOk(q, log, q.handle in recursive)
    ensures QueuesOk(qs[j := q], trace[j := log], recursive)
  {
  }

  /** How an accepted send is recorded. */
  function SendEvent(x: Item, pos: Position, atop: bool): Event {
    if atop then Replaced(x) else Sent(x, pos)
  }

  /** An accepted send keeps the object in step with its history. */
  lemma SendOk(q: Queue, log: Log, x: Item, pos: Position, overwrite: bool)
    requires QueueOk(q, log, false) && q.handle != 0 && 0 < q.itemSize == |x|
    requires q.count < q.maxItems || (overwrite && q.count != 0)
    ensures Offset(SendSlot(q, pos, overwrite), q.itemSize) + |x| <= |q.buf|
    ensures QueueOk(Enqueued(q, x, pos, overwrite), log + [SendEvent(x, pos, overwrite && q.count != 0)], false)
    ensures q.count == 0 ==>
              var r := Enqueued(q, x, pos, overwrite); r.count == 1 && Slot(r, r.head) == x
  {
    EnqueueRefines(q, x, pos, overwrite);
    var e := SendEvent(x, pos, overwrite && q.count != 0);
    Appended(log, e);
    var r := Enqueued(q, x, pos, overwrite);
    if q.count == 0 {
      DequeueRefines(r);
      assert Contents(r)[0] == x;
    }
  }

  /** So does taking the head item. */
  lemma ReceiveOk(q: Queue, log: Log)
    requires QueueOk(q, log, false) && q.handle != 0 && q.itemSize > 0 && q.count > 0
    ensures Slot(q, q.head) == Contents(q)[0]
    ensures QueueOk(Dequeued(q), log + [Received(Slot(q, q.head))], false)
  {
    DequeueRefines(q);
    Appended(log, Received(Slot(q, q.head)));
  }

  lemma TokenLogs(log: Log)
    ensures Tokens(log + [Gave]) == Tokens(log) + 1
    ensures Tokens(log + [Took]) == Tokens(log) - 1
    ensures Tokens(log + [Gave, Took]) == Tokens(log)
  {
    Appended(log, Gave);
    Appended(log, Took);
    Appended(log + [Gave], Took);
    assert log + [Gave, Took] == log + [Gave] + [Took];
  }

  /** Mutual exclusion, read off the history alone: two identities never both
      have more takes than gives. */
  lemma MutualExclusion(q: Queue, log: Log, a: nat, b: nat)
    requires QueueOk(q, log, true) && a != 0 && b != 0
    requires Unmatched(log, a) > 0 && Unmatched(log, b) > 0
    ensures a == b == q.mutexOwner && q.count == 0
  {
  }

  function NewQueue(handle: nat, itemSize: nat, maxItems: nat, count: nat): Queue {
    Queue(handle, itemSize, maxItems, count, 0, 0, seq(MAX_QUEUE_ITEMS * MAX_ITEM_SIZE, _ => 0), false, 0, 0)
  }

  /** How the history of a new object starts. */
  function FirstLog(itemSize: nat, count: nat): Log { if itemSize > 0 then [] else [Created(count)] }

  lemma NewQueueOk(handle: nat, itemSize: nat, maxItems: nat, count: nat)
    requires handle != 0 && maxItems > 0 && count <= maxItems
    requires itemSize > 0 ==> itemSize <= MAX_ITEM_SIZE && maxItems <= MAX_QUEUE_ITEMS && count == 0
    ensures QueueOk(NewQueue(handle, itemSize, maxItems, count), FirstLog(itemSize, count), false)
    ensures itemSize == 0 && maxItems == count == 1 ==>
              QueueOk(NewQueue(handle, 0, 1, 1).(isMutex := true), FirstLog(0, 1), true)
              && QueueOk(NewQueue(handle, 0, 1, 1).(isMutex := true), FirstLog(0, 1), false)
  {
    Appended([], Created(count));
    var q := NewQueue(handle, itemSize, maxItems, count);
    if itemSize > 0 {
      assert RingOk(q) && Contents(q) == [];
    } else {
      assert [Created(count)][..0] == [];
    }
  }

  lemma FillOk(qs: seq<Queue>, trace: seq<Log>, recursive: set<nat>, k: nat, q: Queue, log: Log, r: bool)
    requires QueuesOk(qs, trace, recursive) && k < |qs|
    requires forall i :: 0 <= i < |qs| ==> qs[i].handle != q.handle
    requires q.handle !in recursive && QueueOk(q, log, r)
    ensures QueuesOk(qs[k := q], trace[k := log], if r then recursive + {q.handle} else recursive)
  {
  }

  /** What an object keeps for life. */
  predicate SameObject(q: Queue, q': Queue) {
    q'.handle == q.handle && q'.itemSize == q.itemSize && q'.maxItems == q.maxItems
  }

  /** Histories of live objects only grow, and the objects stay what they are. */
  ghost predicate Grew(qs: seq<Queue>, trace: seq<seq>, qs': seq<Queue>, trace': seq<seq>) {
    && |trace| == |qs| && |trace'| == |qs'| && |qs| <= |qs'|
    && forall j :: 0 <= j < |qs| && qs[j].handle != 0 ==> SameObject(qs[j], qs'[j]) && trace[j] <= trace'[j]
  }

  lemma GrewOne(qs: seq<Queue>, trace: seq<seq>, j: nat, q: Queue, log: seq)
    requires |trace| == |qs| && j < |qs| && SameObject(qs[j], q) && trace[j] <= log
    ensures Grew(qs, trace, qs[j := q], trace[j := log])
  {
  }

  lemma GrewOn(qs: seq<Queue>, trace: seq<seq>, qs1: seq<Queue>, trace1: seq<seq>, qs2: seq<Queue>, trace2: seq<seq>)
    requires Grew(qs, trace, qs1, trace1) && Grew(qs1, trace1, qs2, trace2)
    ensures Grew(qs, trace, qs2, trace2)
  {
    forall j | 0 <= j < |qs| && qs[j].handle != 0
      ensures SameObject(qs[j], qs2[j]) && trace[j] <= trace2[j]
    {
      assert SameObject(qs[j], qs1[j]) && trace[j] <= trace1[j] && trace1[j] <= trace2[j];
    }
  }
}
