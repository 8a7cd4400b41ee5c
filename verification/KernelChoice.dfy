/** Which task a core runs next: the picker of a core that has to find work, and the
    preemption check of a core that has some. */
module KernelChoice {
  import opened KernelTypes
  import opened QueueRing

  // ----- turns -----

  /** Ready, and allowed on this core. */
  ghost predicate MayRun(t: Tcb, core: nat) { t.state.Ready? && (t.affinity < 0 || t.affinity == core) }

  /** The index `k` places after `cur`, going round. */
  ghost function Turn(cur: int, k: nat, n: nat): (i: nat)
    requires 0 <= cur + k && n > 0
    ensures i < n
  {
    (cur + k) % n
  }

  /** Going round from just past `cur`, `next` is the first that may run with its priority; idle tasks
      take a turn or are passed over. */
  ghost predicate NextInTurn(ts: seq<Tcb>, core: nat, cur: int, next: nat, idles: bool)
    requires -1 <= cur < |ts| && next < |ts|
  {
    exists k: nat | 1 <= k <= |ts| ::
      Turn(cur, k, |ts|) == next && NobodyInTurn(ts, core, cur, k, ts[next].priority, idles)
  }

  ghost predicate NobodyInTurn(ts: seq<Tcb>, core: nat, cur: int, k: nat, priority: nat, idles: bool)
    requires -1 <= cur < |ts| && |ts| > 0
  {
    forall j: nat | 1 <= j < k ::
      var t := ts[Turn(cur, j, |ts|)];
      !(MayRun(t, core) && t.priority == priority && (idles || !t.isIdle))
  }

  /** What a pick on `core` does with the table `ts`: the next in turn of the real tasks with the highest
      priority, and only without such a task the core's own idle task or nothing. */
  ghost predicate PickedByTheRules(ts: seq<Tcb>, core: nat, prev: int, next: int, ts': seq<Tcb>)
    requires -1 <= prev < |ts|
  {
    if exists i :: 0 <= i < |ts| && MayRun(ts[i], core) && !ts[i].isIdle then
      && 0 <= next < |ts| && MayRun(ts[next], core) && !ts[next].isIdle
      && (forall i :: 0 <= i < |ts| && MayRun(ts[i], core) && !ts[i].isIdle ==> ts[i].priority <= ts[next].priority)
      && NextInTurn(ts, core, prev, next, false)
    else next == -1 || (0 <= next < |ts'| && ts'[next].isIdle && ts'[next].affinity == core)
  }

  lemma RunningPick(ts: seq<Tcb>, core: nat, prev: int, next: nat, ts': seq<Tcb>)
    requires -1 <= prev < |ts| && next < |ts'| && PickedByTheRules(ts, core, prev, next, ts')
    ensures PickedByTheRules(ts, core, prev, next, ts'[next := ts'[next].(state := Running)])
  {
  }

  /** The search from just past `cur`, and the one from `cur` that leaves out its first place. */
  lemma TurnIsCyc(cur: int, k: nat, n: nat)
    requires -1 <= cur < n && k < n
    ensures Cyc(After(cur, n), k, n) == Turn(cur, k + 1, n)
  {
    ModIsRemainder(After(cur, n) + k, n);
    ModIsRemainder(k + n, n);
  }

  lemma LaterTurn(cur: nat, k: nat, n: nat)
    requires cur < n && k < n
    ensures Cyc(cur, k, n) == Turn(cur, k, n)
  {
    ModIsRemainder(cur + k, n);
  }

  /** The first candidate from just past `cur` is the next in turn, idle tasks passed over. */
  lemma FirstIsNext(ts: seq<Tcb>, core: nat, cur: int, r: nat)
    requires -1 <= cur < |ts| && r < |ts| && Candidate(ts[r], core)
    requires CyclicallyFirst(ts, core, ts[r].priority, After(cur, |ts|), r)
    ensures NextInTurn(ts, core, cur, r, false)
  {
    var n, prio, start := |ts|, ts[r].priority, After(cur, |ts|);
    var k :| 0 <= k < n && FirstAt(ts, core, prio, start, k) && Cyc(start, k, n) == r;
    TurnIsCyc(cur, k, n);
    forall j: nat | 1 <= j < k + 1
      ensures var t := ts[Turn(cur, j, n)]; !(MayRun(t, core) && t.priority == prio && (false || !t.isIdle))
    {
      TurnIsCyc(cur, j - 1, n);
      assert !(Candidate(ts[Cyc(start, j - 1, n)], core) && ts[Cyc(start, j - 1, n)].priority == prio);
    }
    assert NobodyInTurn(ts, core, cur, k + 1, prio, false);
  }

  lemma ReadyByTheRules(ts: seq<Tcb>, core: nat, prev: int, r: nat)
    requires -1 <= prev < |ts| && r < |ts| && Candidate(ts[r], core)
    requires forall i :: 0 <= i < |ts| && Candidate(ts[i], core) ==> ts[i].priority <= ts[r].priority
    requires CyclicallyFirst(ts, core, ts[r].priority, After(prev, |ts|), r)
    ensures MayRun(ts[r], core) && PickedByTheRules(ts, core, prev, r, ts)
  {
    FirstIsNext(ts, core, prev, r);
    assert MayRun(ts[r], core) && !ts[r].isIdle;
    forall i | 0 <= i < |ts| && MayRun(ts[i], core) && !ts[i].isIdle
      ensures ts[i].priority <= ts[r].priority
    {
      assert Candidate(ts[i], core);
    }
  }

  lemma IdleByTheRules(ts: seq<Tcb>, core: nat, prev: int, next: int, ts': seq<Tcb>)
    requires -1 <= prev < |ts| && forall i :: 0 <= i < |ts| ==> !Candidate(ts[i], core)
    requires next == -1 || (0 <= next < |ts'| && ts'[next].isIdle && ts'[next].affinity == core)
    ensures PickedByTheRules(ts, core, prev, next, ts')
  {
    forall i | 0 <= i < |ts|
      ensures !(MayRun(ts[i], core) && !ts[i].isIdle)
    {
      assert !Candidate(ts[i], core);
    }
  }

  /** The best priority among the tasks this core could run, or -1. */
  method TopPriority(ts: seq<Tcb>, core: nat) returns (best: int)
    ensures best >= -1
    ensures forall k :: 0 <= k < |ts| && Candidate(ts[k], core) ==> ts[k].priority <= best
    ensures best >= 0 ==> exists k :: 0 <= k < |ts| && Candidate(ts[k], core) && ts[k].priority == best
  {
    best := -1;
    for i := 0 to |ts|
      invariant -1 <= best
      invariant forall k :: 0 <= k < i && Candidate(ts[k], core) ==> ts[k].priority <= best
      invariant best >= 0 ==> exists k :: 0 <= k < i && Candidate(ts[k], core) && ts[k].priority == best
    {
      if Candidate(ts[i], core) && ts[i].priority > best {
        best := ts[i].priority;
      }
    }
  }

  /** The first task of the given priority that this core could run, going round
      from `start`. */
  method RoundRobin(ts: seq<Tcb>, core: nat, prio: int, start: nat) returns (r: nat)
    requires start < |ts|
    requires exists k :: 0 <= k < |ts| && Candidate(ts[k], core) && ts[k].priority == prio
    ensures r < |ts| && Candidate(ts[r], core) && ts[r].priority == prio
    ensures CyclicallyFirst(ts, core, prio, start, r)
  {
    ghost var top :| 0 <= top < |ts| && Candidate(ts[top], core) && ts[top].priority == prio;
    ghost var reach := CycReaches(start, |ts|, top);
    var j := 0;
    r := Cyc(start, 0, |ts|);
    while !(Candidate(ts[r], core) && ts[r].priority == prio)
      invariant 0 <= j <= reach && r == Cyc(start, j, |ts|)
      invariant FirstAt(ts, core, prio, start, j)
      decreases |ts| - j
    {
      j := j + 1;
      r := Cyc(start, j, |ts|);
    }
  }

  /** One pass round the table from just past `cur` for the best task this core
      could run instead. */
  method BestOther(ts: seq<Tcb>, core: nat, cur: nat) returns (best: int, next: int)
    requires cur < |ts| && !ts[cur].state.Ready?
    ensures next == -1 ==> best == -1 && forall i :: 0 <= i < |ts| ==> !Candidate(ts[i], core)
    ensures next != -1 ==>
              && 0 <= next < |ts| && Candidate(ts[next], core) && ts[next].priority == best
              && (forall i :: 0 <= i < |ts| && Candidate(ts[i], core) ==> ts[i].priority <= best)
              && CyclicallyFirst(ts, core, best, After(cur, |ts|), next)
    ensures best == BestOf(ts, core)
    ensures next != -1 ==> next == FirstFrom(ts, CandidateAt(core, best), After(cur, |ts|), 0)
  {
    best, next := -1, -1;
    var start := After(cur, |ts|);
    ghost var at := 0;
    var j := 0;
    while j < |ts|
      invariant 0 <= j <= |ts| && best >= -1
      invariant forall k :: 0 <= k < j && Candidate(ts[Cyc(start, k, |ts|)], core) ==>
                  ts[Cyc(start, k, |ts|)].priority <= best
      invariant next == -1 ==> best == -1
      invariant next != -1 ==> 0 <= next < |ts| && Candidate(ts[next], core) && ts[next].priority == best
      invariant next != -1 ==> 0 <= at < j && Cyc(start, at, |ts|) == next && FirstAt(ts, core, best, start, at)
    {
      var i := Cyc(start, j, |ts|);
      if i != cur && Candidate(ts[i], core) && ts[i].priority > best {
        best, next, at := ts[i].priority, i, j;
      }
      j := j + 1;
    }
    forall i | 0 <= i < |ts| && Candidate(ts[i], core) ensures next != -1 && ts[i].priority <= best {
      var k := CycReaches(start, |ts|, i);
    }
    BestOfIsBest(ts, core);
    if next != -1 {
      FoundFirst(ts, core, best, start, at);
    }
  }

  lemma FoundFirst(ts: seq<Tcb>, core: nat, best: int, start: nat, at: nat)
    requires start < |ts| && at < |ts| && FirstAt(ts, core, best, start, at)
    requires Candidate(ts[Cyc(start, at, |ts|)], core) && ts[Cyc(start, at, |ts|)].priority == best
    ensures FirstFrom(ts, CandidateAt(core, best), start, 0) == Cyc(start, at, |ts|)
  {
    FirstFromIs(ts, CandidateAt(core, best), start, 0, at);
  }

  /** The first ready task of this priority after `cur`, going round; -1 if none.
      Idle tasks are not skipped. */
  method NextEqual(ts: seq<Tcb>, core: nat, cur: nat, prio: int) returns (next: int)
    requires cur < |ts|
    ensures next != -1 ==> 0 <= next < |ts| && ReadyAt(ts[next], core, prio)
    ensures next == -1 ==> forall j :: 1 <= j < |ts| ==> !ReadyAt(ts[Cyc(cur, j, |ts|)], core, prio)
    ensures next != -1 ==>
              exists k | 1 <= k < |ts| ::
                Cyc(cur, k, |ts|) == next && forall j | 1 <= j < k :: !ReadyAt(ts[Cyc(cur, j, |ts|)], core, prio)
    ensures next == FirstFrom(ts, AnyReadyAt(core, prio), cur, 1)
  {
    var j := 1;
    while j < |ts|
      invariant 1 <= j <= |ts|
      invariant forall k :: 1 <= k < j && k < |ts| ==> !ReadyAt(ts[Cyc(cur, k, |ts|)], core, prio)
    {
      next := Cyc(cur, j, |ts|);
      if ReadyAt(ts[next], core, prio) {
        FirstFromIs(ts, AnyReadyAt(core, prio), cur, 1, j);
        return;
      }
      j := j + 1;
    }
    FirstFromIs(ts, AnyReadyAt(core, prio), cur, 1, |ts|);
    next := -1;
  }

  // ----- the choice of the preemption check -----

  /** The best priority among the tasks this core could run, or -1. */
  function BestOf(ts: seq<Tcb>, core: nat): (b: int)
    ensures b >= -1
  {
    if ts == [] then -1
    else
      var b, t := BestOf(ts[..|ts| - 1], core), ts[|ts| - 1];
      if Candidate(t, core) && t.priority > b then t.priority else b
  }

  lemma {:induction false} BestOfIsBest(ts: seq<Tcb>, core: nat)
    ensures forall k :: 0 <= k < |ts| && Candidate(ts[k], core) ==> ts[k].priority <= BestOf(ts, core)
    ensures BestOf(ts, core) >= 0 ==>
              exists k :: 0 <= k < |ts| && Candidate(ts[k], core) && ts[k].priority == BestOf(ts, core)
  {
    if ts != [] {
      BestOfIsBest(ts[..|ts| - 1], core);
    }
  }

  function CandidateAt(core: nat, prio: int): Tcb -> bool {
    (t: Tcb) => Candidate(t, core) && t.priority == prio
  }

  function AnyReadyAt(core: nat, prio: int): Tcb -> bool {
    (t: Tcb) => ReadyAt(t, core, prio)
  }

  /** The first task that satisfies `p`, going round from `start` and leaving out the
      first `k` places; -1 if there is none. */
  function FirstFrom(ts: seq<Tcb>, p: Tcb -> bool, start: nat, k: nat): (r: int)
    requires start < |ts| && k <= |ts|
    ensures r == -1 || (0 <= r < |ts| && p(ts[r]))
    decreases |ts| - k
  {
    if k == |ts| then -1
    else if p(ts[Cyc(start, k, |ts|)]) then Cyc(start, k, |ts|)
    else FirstFrom(ts, p, start, k + 1)
  }

  /** Nobody before place `j` satisfies `p`. */
  ghost predicate NoneBefore(ts: seq<Tcb>, p: Tcb -> bool, start: nat, k: nat, j: nat)
    requires start < |ts| && j <= |ts|
  {
    forall i | k <= i < j :: !p(ts[Cyc(start, i, |ts|)])
  }

  lemma {:induction false} FirstFromIs(ts: seq<Tcb>, p: Tcb -> bool, start: nat, k: nat, j: nat)
    requires start < |ts| && k <= j <= |ts| && NoneBefore(ts, p, start, k, j)
    requires j < |ts| ==> p(ts[Cyc(start, j, |ts|)])
    ensures FirstFrom(ts, p, start, k) == if j < |ts| then Cyc(start, j, |ts|) else -1
    decreases |ts| - k
  {
    if k < j {
      assert !p(ts[Cyc(start, k, |ts|)]);
      FirstFromIs(ts, p, start, k + 1, j);
    }
  }

  /** Where the search ends. */
  lemma {:induction false} FirstFromAt(ts: seq<Tcb>, p: Tcb -> bool, start: nat, k: nat) returns (j: nat)
    requires start < |ts| && k <= |ts|
    ensures k <= j <= |ts| && NoneBefore(ts, p, start, k, j)
    ensures j < |ts| ==> p(ts[Cyc(start, j, |ts|)])
    ensures FirstFrom(ts, p, start, k) == if j < |ts| then Cyc(start, j, |ts|) else -1
    decreases |ts| - k
  {
    j := k;
    if k < |ts| && !p(ts[Cyc(start, k, |ts|)]) {
      j := FirstFromAt(ts, p, start, k + 1);
    }
  }

  /** What the running task counts for; an idle one gives way to any real work. */
  function CurrentPriority(t: Tcb): int { if t.isIdle then -1 else t.priority }

  /** The task the check preempts `cur` for: the next one of the best priority if that is
      higher; the next one of equal priority, idle tasks not skipped, once the slice is
      over; otherwise none. */
  function Chosen(ts: seq<Tcb>, core: nat, cur: nat, sliceOver: bool): (next: int)
    requires cur < |ts|
    ensures -1 <= next < |ts|
  {
    var best, prio := BestOf(ts, core), CurrentPriority(ts[cur]);
    if best < 0 || best < prio then -1
    else if best > prio then FirstFrom(ts, CandidateAt(core, best), After(cur, |ts|), 0)
    else if sliceOver then FirstFrom(ts, AnyReadyAt(core, prio), cur, 1)
    else -1
  }

  /** The preemption rules: somebody takes over if and only if a real task is ready that outranks the
      current one, or equals it and the slice is over, an idle one giving way to all; it is the next in
      turn of those with the highest priority, and among equals idle tasks take turns too. */
  ghost predicate ByTheRules(ts: seq<Tcb>, core: nat, cur: nat, sliceOver: bool, next: int)
    requires cur < |ts|
  {
    && -1 <= next < |ts|
    && (next >= 0 <==>
          exists i :: 0 <= i < |ts| && MayRun(ts[i], core) && !ts[i].isIdle
                      && (ts[cur].isIdle || ts[i].priority > ts[cur].priority
                          || (sliceOver && ts[i].priority == ts[cur].priority)))
    && (next >= 0 ==>
          && MayRun(ts[next], core)
          && (forall i :: 0 <= i < |ts| && MayRun(ts[i], core) && !ts[i].isIdle ==> ts[i].priority <= ts[next].priority)
          && var equal := !ts[cur].isIdle && ts[next].priority == ts[cur].priority;
             (!equal ==> !ts[next].isIdle) && NextInTurn(ts, core, cur, next, equal))
  }

  /** The next in turn of the best priority. */
  lemma BestInTurn(ts: seq<Tcb>, core: nat, cur: nat, r: int)
    requires cur < |ts| && BestOf(ts, core) >= 0
    requires r == FirstFrom(ts, CandidateAt(core, BestOf(ts, core)), After(cur, |ts|), 0)
    ensures 0 <= r < |ts| && Candidate(ts[r], core) && ts[r].priority == BestOf(ts, core)
    ensures NextInTurn(ts, core, cur, r, false)
  {
    var n, best, start := |ts|, BestOf(ts, core), After(cur, |ts|);
    var p := CandidateAt(core, best);
    BestOfIsBest(ts, core);
    var top :| 0 <= top < n && Candidate(ts[top], core) && ts[top].priority == best;
    var reach := CycReaches(start, n, top);
    FirstFromFinds(ts, p, start, 0, reach);
    var j := FirstFromAt(ts, p, start, 0);
    assert FirstAt(ts, core, best, start, j) by {
      assert forall i :: 0 <= i < j ==> !p(ts[Cyc(start, i, n)]);
    }
    FirstIsNext(ts, core, cur, r);
  }

  /** The next in turn among equals. */
  lemma EqualInTurn(ts: seq<Tcb>, core: nat, cur: nat, r: int)
    requires cur < |ts| && !ts[cur].state.Ready? && r == FirstFrom(ts, AnyReadyAt(core, ts[cur].priority), cur, 1)
    requires exists i :: 0 <= i < |ts| && ReadyAt(ts[i], core, ts[cur].priority)
    ensures 0 <= r < |ts| && ReadyAt(ts[r], core, ts[cur].priority) && NextInTurn(ts, core, cur, r, true)
  {
    var n, prio := |ts|, ts[cur].priority;
    var p := AnyReadyAt(core, prio);
    var top :| 0 <= top < n && ReadyAt(ts[top], core, prio);
    var reach := CycReaches(cur, n, top);
    FirstFromFinds(ts, p, cur, 1, reach);
    var k := FirstFromAt(ts, p, cur, 1);
    LaterTurn(cur, k, n);
    forall j: nat | 1 <= j < k
      ensures var t := ts[Turn(cur, j, n)]; !(MayRun(t, core) && t.priority == prio && (true || !t.isIdle))
    {
      LaterTurn(cur, j, n);
      assert !p(ts[Cyc(cur, j, n)]);
    }
    assert NobodyInTurn(ts, core, cur, k, prio, true);
  }

  /** The choice is by the rules. */
  lemma ChosenByTheRules(ts: seq<Tcb>, core: nat, cur: nat, sliceOver: bool)
    requires cur < |ts| && !ts[cur].state.Ready? && IdlesLast(ts)
    ensures ByTheRules(ts, core, cur, sliceOver, Chosen(ts, core, cur, sliceOver))
  {
    var best, prio, next := BestOf(ts, core), CurrentPriority(ts[cur]), Chosen(ts, core, cur, sliceOver);
    BestOfIsBest(ts, core);
    if best > prio {
      BestInTurn(ts, core, cur, next);
    } else if best >= 0 && best == prio && sliceOver {
      var top :| 0 <= top < |ts| && Candidate(ts[top], core) && ts[top].priority == best;
      EqualInTurn(ts, core, cur, next);
      assert MayRun(ts[top], core) && !ts[top].isIdle;
    }
    assert forall i :: 0 <= i < |ts| ==> (Candidate(ts[i], core) <==> MayRun(ts[i], core) && !ts[i].isIdle);
  }

  /** Idle tasks have the lowest priority. */
  ghost predicate IdlesLast(ts: seq<Tcb>) { forall i :: 0 <= i < |ts| ==> ts[i].isIdle ==> ts[i].priority == 0 }

  /** The first ready task of priority 0 after `cur`, going round, is an idle one. */
  ghost predicate FirstReadyIdle(ts: seq<Tcb>, core: nat, cur: nat)
    requires cur < |ts|
  {
    exists k | 1 <= k < |ts| ::
      && ReadyAt(ts[Cyc(cur, k, |ts|)], core, 0) && ts[Cyc(cur, k, |ts|)].isIdle
      && forall j | 1 <= j < k :: !ReadyAt(ts[Cyc(cur, j, |ts|)], core, 0)
  }

  /** Exactly when an idle task is chosen, which is always ahead of real work: the slice of
      a real task of priority 0 is over, nothing better than priority 0 is ready, something
      real of priority 0 is, and the next ready task of that priority is idle. */
  lemma IdleChosenExactly(ts: seq<Tcb>, core: nat, cur: nat, sliceOver: bool)
    requires cur < |ts| && IdlesLast(ts)
    ensures var next := Chosen(ts, core, cur, sliceOver);
            next >= 0 && ts[next].isIdle <==>
              sliceOver && !ts[cur].isIdle && ts[cur].priority == 0 && BestOf(ts, core) == 0
                && FirstReadyIdle(ts, core, cur)
  {
    var best, prio := BestOf(ts, core), CurrentPriority(ts[cur]);
    if best >= 0 && best == prio && sliceOver {
      var p := AnyReadyAt(core, prio);
      var j := FirstFromAt(ts, p, cur, 1);
      if FirstReadyIdle(ts, core, cur) && prio == 0 {
        var k :| 1 <= k < |ts| && ReadyAt(ts[Cyc(cur, k, |ts|)], core, 0) && ts[Cyc(cur, k, |ts|)].isIdle
                 && forall i | 1 <= i < k :: !ReadyAt(ts[Cyc(cur, i, |ts|)], core, 0);
        FirstFromIs(ts, p, cur, 1, k);
      } else if j < |ts| && ts[Cyc(cur, j, |ts|)].isIdle {
        IdleAt(ts, core, cur, prio, j);
      }
    }
  }

  lemma IdleAt(ts: seq<Tcb>, core: nat, cur: nat, prio: int, j: nat)
    requires cur < |ts| && 1 <= j < |ts| && ts[Cyc(cur, j, |ts|)].isIdle && IdlesLast(ts)
    requires ReadyAt(ts[Cyc(cur, j, |ts|)], core, prio) && NoneBefore(ts, AnyReadyAt(core, prio), cur, 1, j)
    ensures prio == 0 && FirstReadyIdle(ts, core, cur)
  {
    forall i | 1 <= i < j
      ensures !ReadyAt(ts[Cyc(cur, i, |ts|)], core, 0)
    {
      assert !AnyReadyAt(core, prio)(ts[Cyc(cur, i, |ts|)]);
    }
  }

  /** It does happen: task 0 runs, and core 0's idle task comes before task 3. */
  lemma IdleCanWin()
    ensures var work := NewTask(1, 0, -1);
            var ts := [work.(state := Running), IdleTask(0), IdleTask(1), work];
            Candidate(ts[3], 0) && Chosen(ts, 0, 0, true) == 1
  {
    var work := NewTask(1, 0, -1);
    var ts := [work.(state := Running), IdleTask(0), IdleTask(1), work];
    BestOfIsBest(ts, 0);
    assert Candidate(ts[3], 0);
    assert Cyc(0, 1, 4) == 1;
    FirstFromIs(ts, AnyReadyAt(0, 0), 0, 1, 1);
  }

  /** Where somebody satisfies `p`, the search finds somebody. */
  lemma FirstFromFinds(ts: seq<Tcb>, p: Tcb -> bool, start: nat, k: nat, i: nat)
    requires start < |ts| && k <= i < |ts| && p(ts[Cyc(start, i, |ts|)])
    ensures exists j | k <= j <= i :: FirstFrom(ts, p, start, k) == Cyc(start, j, |ts|)
  {
    var j := FirstFromAt(ts, p, start, k);
    assert !NoneBefore(ts, p, start, k, i + 1);
  }

  /** FreeRTOS's preemption rules: a higher priority preempts at once, an equal one
      when the time slice is over, a lower one never. An idle task gives way to
      any real work. */
  method ChooseNext(ts: seq<Tcb>, core: nat, cur: nat, sliceOver: bool) returns (next: int)
    requires cur < |ts| && !ts[cur].state.Ready? && IdlesLast(ts)
    ensures next == Chosen(ts, core, cur, sliceOver) && ByTheRules(ts, core, cur, sliceOver, next)
    ensures next == -1 ==>
              forall i :: 0 <= i < |ts| && Candidate(ts[i], core) ==>
                  !ts[cur].isIdle && ts[i].priority <= ts[cur].priority
    ensures next != -1 ==>
              && 0 <= next < |ts| && next != cur && ts[next].state.Ready? && Eligible(ts[next], core)
              && (forall i :: 0 <= i < |ts| && Candidate(ts[i], core) ==> ts[i].priority <= ts[next].priority)
              && (ts[cur].isIdle || ts[next].priority > ts[cur].priority
                  || (sliceOver && ts[next].priority == ts[cur].priority))
              && (ts[next].isIdle ==> sliceOver && !ts[cur].isIdle && ts[cur].priority == 0)
  {
    ChosenByTheRules(ts, core, cur, sliceOver);
    var curPrio := if ts[cur].isIdle then -1 else ts[cur].priority;
    var best;
    best, next := BestOther(ts, core, cur);
    if next < 0 || best < curPrio { return -1; }
    if best == curPrio {
      if !sliceOver { return -1; }
      next := NextEqual(ts, core, cur, curPrio);
    }
  }
}
