/** Priority scheduling with aging does not starve a ready process. */
module SchedulerPriority {
  import opened Prelude
  import opened SchedulerModel

  // ---------- what the process competes with ----------

  /** Execution ticks the processes of `q` that arrived by `arrival` still need. */
  function Work(q: seq<Proc>, arrival: int): int {
    if q == [] then 0
    else (if q[0].arrival <= arrival then q[0].remaining else 0) + Work(q[1..], arrival)
  }

  /** A process with work left, at most `limit` ticks of it, and a legal priority. */
  predicate Sound(p: Proc, limit: int) {
    p.burst > 0 && 1 <= p.remaining <= limit && p.priority <= MAX_PRIORITY && p.waiting >= 0
  }

  predicate AllSound(q: seq<Proc>, limit: int) {
    forall p :: p in q ==> Sound(p, limit)
  }

  lemma {:induction false} WorkNonNegative(q: seq<Proc>, arrival: int, limit: int)
    requires AllSound(q, limit)
    ensures Work(q, arrival) >= 0
  {
    if q != [] {
      assert Sound(q[0], limit);
      WorkNonNegative(q[1..], arrival, limit);
    }
  }

  lemma {:induction false} WorkConcat(a: seq<Proc>, b: seq<Proc>, arrival: int)
    ensures Work(a + b, arrival) == Work(a, arrival) + Work(b, arrival)
  {
    if a == [] {
      assert a + b == b;
    } else {
      assert (a + b)[1..] == a[1..] + b;
      WorkConcat(a[1..], b, arrival);
    }
  }

  lemma WorkWithout(q: seq<Proc>, i: nat, arrival: int)
    requires i < |q|
    ensures Work(q, arrival) == Work(Without(q, i), arrival) + (if q[i].arrival <= arrival then q[i].remaining else 0)
  {
    assert q == q[..i] + ([q[i]] + q[i + 1..]);
    WorkConcat(q[..i], [q[i]] + q[i + 1..], arrival);
    WorkConcat([q[i]], q[i + 1..], arrival);
    WorkConcat(q[..i], q[i + 1..], arrival);
  }

  lemma {:induction false} WorkAged(q: seq<Proc>, arrival: int)
    ensures Work(AgeAll(q), arrival) == Work(q, arrival)
  {
    if q != [] {
      assert AgeAll(q)[1..] == AgeAll(q[1..]);
      WorkAged(q[1..], arrival);
    }
  }

  lemma {:induction false} WorkDropped(q: seq<Proc>, pid: int, arrival: int, limit: int)
    requires AllSound(q, limit)
    ensures Work(Drop(q, pid), arrival) <= Work(q, arrival)
  {
    if q != [] {
      assert Sound(q[0], limit);
      WorkDropped(q[1..], pid, arrival, limit);
      if q[0].pid != pid {
        assert Drop(q, pid)[1..] == Drop(q[1..], pid);
      }
    }
  }

  lemma {:induction false} DropConcat(a: seq<Proc>, b: seq<Proc>, pid: int)
    ensures Drop(a + b, pid) == Drop(a, pid) + Drop(b, pid)
  {
    if a == [] {
      assert a + b == b;
    } else {
      assert (a + b)[1..] == a[1..] + b;
      DropConcat(a[1..], b, pid);
    }
  }

  // ---------- the run ----------

  /** `p` waits at index `k` of a priority-scheduled system whose processes
      need at most `limit` more ticks each. */
  predicate Waits(s: Sched, k: nat, p: Proc, limit: int) {
    && s.algorithm == PRIO
    && k < |s.ready| && s.ready[k] == p
    && AllSound(s.ready, limit)
    && (s.current.Some? ==> Sound(s.current.value, limit))
  }

  /** `pid` stays in the system, the algorithm stays, and whoever arrives does
      not claim to have arrived before `pid`. */
  predicate Fair(e: Event, pid: int, arrival: int, limit: int) {
    match e
    case ClockTick => true
    case Gone(p) => p != pid
    case Add(q, now) => Sound(q, limit) && Stamped(q, now).arrival >= arrival
    case SetAlgorithm(_) => false
    case SetQuantum(_) => true
  }

  /** Work of the ready processes a top-priority `p` at index `k` gives way to:
      those ahead of it that arrived no later, those behind it that arrived earlier. */
  function WorkBefore(s: Sched, k: nat, arrival: int): int
    requires k < |s.ready|
  {
    Work(s.ready[..k], arrival) + Work(s.ready[k + 1..], arrival - 1)
  }

  /** Ticks until a top-priority process at index `k` is dispatched, at the
      latest: the running process, then those before it, and one tick when the
      CPU is idle. */
  function Backlog(s: Sched, k: nat, arrival: int): int
    requires k < |s.ready|
  {
    WorkBefore(s, k, arrival) + (if s.current.Some? then s.current.value.remaining else 1)
  }

  /** The part of the backlog that does not grow while `p` is still aging. */
  function Earlier(s: Sched, k: nat, arrival: int): int
    requires k < |s.ready|
  {
    WorkBefore(s, k, arrival) +
    (if s.current.Some? && s.current.value.arrival < arrival then s.current.value.remaining else 0)
  }

  /** Queue ticks until aging has lifted `p` to the top priority. */
  function TicksToTop(p: Proc): int {
    if p.priority >= MAX_PRIORITY then 0
    else AGING_THRESHOLD * (MAX_PRIORITY - p.priority) - p.waiting % AGING_THRESHOLD
  }

  lemma TopComesCloser(p: Proc)
    requires p.waiting >= 0 && p.priority <= MAX_PRIORITY
    ensures WaitAndAge(p).priority <= MAX_PRIORITY
    ensures TicksToTop(WaitAndAge(p)) == Max(0, TicksToTop(p) - 1)
    ensures TicksToTop(p) == 0 <==> p.priority == MAX_PRIORITY
  {
  }

  // ---------- one tick ----------

  lemma AgingKeepsWaits(s: Sched, k: nat, p: Proc, limit: int)
    requires Waits(s, k, p, limit)
    ensures var aged := s.(tick := s.tick + 1, ready := AgeAll(s.ready));
      Waits(aged, k, WaitAndAge(p), limit) && WorkBefore(aged, k, p.arrival) == WorkBefore(s, k, p.arrival)
  {
    hide Work;
    AgedMembers(s.ready);
    assert AgeAll(s.ready)[..k] == AgeAll(s.ready[..k]);
    assert AgeAll(s.ready)[k + 1..] == AgeAll(s.ready[k + 1..]);
    WorkAged(s.ready[..k], p.arrival);
    WorkAged(s.ready[k + 1..], p.arrival - 1);
  }

  lemma AppendedWork(s: Sched, k: nat, q: Proc, arrival: int)
    requires k < |s.ready|
    ensures WorkBefore(s.(ready := s.ready + [q]), k, arrival) ==
            WorkBefore(s, k, arrival) + (if q.arrival < arrival then q.remaining else 0)
  {
    var all := s.ready + [q];
    assert all[..k] == s.ready[..k] && all[k + 1..] == s.ready[k + 1..] + [q];
    WorkConcat(s.ready[k + 1..], [q], arrival - 1);
  }

  lemma AdvanceKeepsWaits(s: Sched, k: nat, p: Proc, limit: int)
    requires Waits(s, k, p, limit) && s.current.Some?
    ensures var s' := Advance(s).s;
      && Waits(s', k, p, limit)
      && Earlier(s', k, p.arrival) <= Earlier(s, k, p.arrival)
      && (if s'.current.Some? then Backlog(s', k, p.arrival) <= Backlog(s, k, p.arrival) - 1
          else WorkBefore(s', k, p.arrival) <= Backlog(s, k, p.arrival) - 1)
  {
    var cp := s.current.value;
    AppendedWork(s, k, RecordAfter(s, cp), p.arrival);
  }

  /** The process that gets an idle CPU instead of a top-priority one is in its backlog. */
  lemma ChosenComesBefore(s: Sched, k: nat, p: Proc, limit: int)
    requires Waits(s, k, p, limit) && p.priority == MAX_PRIORITY
    ensures var i := SelectIndex(s.algorithm, s.ready);
      && (i < k ==> s.ready[i].arrival <= p.arrival)
      && (i > k ==> s.ready[i].arrival < p.arrival)
  {
    var i := SelectIndex(s.algorithm, s.ready);
    SelectedIsBest(s.algorithm, s.ready);
    assert !Prefers(PRIO, s.ready[k], s.ready[i]);
    assert s.ready[i] in s.ready;
  }

  /** Taking the process at index `i` out of the queue moves its work out of the backlog. */
  lemma WorkMoves(s: Sched, k: nat, i: nat, arrival: int) returns (k': nat)
    requires k < |s.ready| && i < |s.ready| && i != k
    ensures var rest := Without(s.ready, i);
      && k' < |rest| && rest[k'] == s.ready[k]
      && Work(rest[..k'], arrival) + Work(rest[k' + 1..], arrival - 1) ==
         WorkBefore(s, k, arrival) -
         (if s.ready[i].arrival <= (if i < k then arrival else arrival - 1) then s.ready[i].remaining else 0)
  {
    var rest := Without(s.ready, i);
    if i < k {
      k' := k - 1;
      WorkWithout(s.ready[..k], i, arrival);
      assert rest[..k'] == Without(s.ready[..k], i) && rest[k' + 1..] == s.ready[k + 1..];
    } else {
      k' := k;
      WorkWithout(s.ready[k + 1..], i - k - 1, arrival - 1);
      assert rest[..k'] == s.ready[..k] && rest[k' + 1..] == Without(s.ready[k + 1..], i - k - 1);
    }
  }

  lemma DispatchKeepsWaits(s: Sched, k: nat, p: Proc, limit: int) returns (k': nat)
    requires Waits(s, k, p, limit) && s.current.None?
    ensures var s' := Dispatch(s);
      || OnCpu(s', p.pid)
      || (&& Waits(s', k', p, limit)
          && Earlier(s', k', p.arrival) <= WorkBefore(s, k, p.arrival)
          && (p.priority == MAX_PRIORITY ==> Backlog(s', k', p.arrival) <= WorkBefore(s, k, p.arrival)))
  {
    var i := SelectIndex(s.algorithm, s.ready);
    if i != k {
      assert s.ready[i] in s.ready;
      if p.priority == MAX_PRIORITY { ChosenComesBefore(s, k, p, limit); }
      k' := WorkMoves(s, k, i, p.arrival);
    } else {
      k' := 0;
    }
  }

  lemma AfterAdvance(mid: Sched, k: nat, p: Proc, limit: int, earlier: int, backlog: int, s': Sched) returns (k': nat)
    requires s' == Dispatch(mid)
    requires Waits(mid, k, p, limit) && Earlier(mid, k, p.arrival) <= earlier
    requires if mid.current.Some? then Backlog(mid, k, p.arrival) <= backlog
             else WorkBefore(mid, k, p.arrival) <= backlog
    ensures
      || OnCpu(s', p.pid)
      || (&& Waits(s', k', p, limit) && Earlier(s', k', p.arrival) <= earlier
          && (p.priority == MAX_PRIORITY ==> Backlog(s', k', p.arrival) <= backlog))
  {
    k' := k;
    if mid.current.None? { k' := DispatchKeepsWaits(mid, k, p, limit); }
  }

  lemma BeforeDispatchKeepsWaits(s: Sched, k: nat, p: Proc, limit: int)
    requires Waits(s, k, p, limit)
    ensures var mid, p' := BeforeDispatch(s, s.tick + 1).s, WaitAndAge(p);
      && Waits(mid, k, p', limit) && Earlier(mid, k, p.arrival) <= Earlier(s, k, p.arrival)
      && (if mid.current.Some? then Backlog(mid, k, p.arrival) <= Backlog(s, k, p.arrival) - 1
          else WorkBefore(mid, k, p.arrival) <= Backlog(s, k, p.arrival) - 1)
  {
    AgingKeepsWaits(s, k, p, limit);
    if s.current.Some? {
      AdvanceKeepsWaits(s.(tick := s.tick + 1, ready := AgeAll(s.ready)), k, WaitAndAge(p), limit);
    }
  }

  /** One tick of a system in which `p` waits: `p` runs, or it is one tick
      closer to the top priority and, once there, to the end of its backlog. */
  lemma TickMakesProgress(s: Sched, k: nat, p: Proc, limit: int) returns (k': nat)
    requires Waits(s, k, p, limit)
    ensures var s', p' := Step(s, ClockTick), WaitAndAge(p);
      || OnCpu(s', p.pid)
      || (&& Waits(s', k', p', limit)
          && TicksToTop(p') == Max(0, TicksToTop(p) - 1)
          && Earlier(s', k', p.arrival) <= Earlier(s, k, p.arrival)
          && (p.priority == MAX_PRIORITY ==> Backlog(s', k', p.arrival) <= Backlog(s, k, p.arrival) - 1))
  {
    assert Sound(p, limit);
    TopComesCloser(p);
    BeforeDispatchKeepsWaits(s, k, p, limit);
    var mid, s' := BeforeDispatch(s, s.tick + 1).s, Step(s, ClockTick);
    assert s' == Dispatch(mid);
    var earlier, backlog := Earlier(s, k, p.arrival), Backlog(s, k, p.arrival) - 1;
    k' := AfterAdvance(mid, k, WaitAndAge(p), limit, earlier, backlog, s');
  }

  /** Dropping another pid keeps what is ahead of and what is behind index `k` apart. */
  lemma DropSplits(q: seq<Proc>, k: nat, pid: int) returns (k': nat)
    requires k < |q| && q[k].pid != pid
    ensures var rest := Drop(q, pid);
      && k' < |rest| && rest[k'] == q[k]
      && rest[..k'] == Drop(q[..k], pid) && rest[k' + 1..] == Drop(q[k + 1..], pid)
  {
    var front, back := q[..k], q[k + 1..];
    assert q == front + ([q[k]] + back);
    DropConcat(front, [q[k]] + back, pid);
    DropConcat([q[k]], back, pid);
    assert Drop([q[k]], pid) == [q[k]];
    k' := |Drop(front, pid)|;
    hide Drop;
    assert Drop(q, pid) == Drop(front, pid) + ([q[k]] + Drop(back, pid));
  }

  lemma RemovalKeepsWaits(s: Sched, k: nat, p: Proc, pid: int, limit: int) returns (k': nat)
    requires Waits(s, k, p, limit) && p.pid != pid
    ensures var rest := Drop(s.ready, pid);
      && k' < |rest| && rest[k'] == p && AllSound(rest, limit)
      && Work(rest[..k'], p.arrival) + Work(rest[k' + 1..], p.arrival - 1) <= WorkBefore(s, k, p.arrival)
  {
    hide Drop, Work;
    k' := DropSplits(s.ready, k, pid);
    DropFacts(s.ready, pid);
    WorkDropped(s.ready[..k], pid, p.arrival, limit);
    WorkDropped(s.ready[k + 1..], pid, p.arrival - 1, limit);
  }

  lemma EventKeepsWaits(s: Sched, e: Event, k: nat, p: Proc, limit: int) returns (k': nat)
    requires Waits(s, k, p, limit) && Fair(e, p.pid, p.arrival, limit) && !e.ClockTick?
    ensures var s' := Step(s, e);
      && Waits(s', k', p, limit)
      && Earlier(s', k', p.arrival) <= Earlier(s, k, p.arrival)
      && Backlog(s', k', p.arrival) <= Backlog(s, k, p.arrival)
  {
    k' := k;
    if e.Add? {
      AppendedWork(s, k, Stamped(e.p, e.now), p.arrival);
    } else if e.Gone? && !OnCpu(s, e.pid) {
      k' := RemovalKeepsWaits(s, k, p, e.pid, limit);
    }
  }

  // ---------- the theorems ----------

  /** Once at the top, `p` is dispatched within the work of the running process
      and of the ready processes that come before it. */
  lemma {:induction false} TopPriorityIsDispatched(s: Sched, es: seq<Event>, k: nat, p: Proc, limit: int)
    requires Waits(s, k, p, limit) && p.priority == 10
    requires forall e :: e in es ==> Fair(e, p.pid, p.arrival, limit)
    requires Ticks(es) >= Backlog(s, k, p.arrival)
    ensures ReachesCpu(s, es, p.pid)
    decreases |es|
  {
    WorkNonNegative(s.ready[..k], p.arrival, limit);
    WorkNonNegative(s.ready[k + 1..], p.arrival - 1, limit);
    assert Sound(p, limit);
    assert es != [] && es[0] in es;
    var s', rest := Step(s, es[0]), es[1..];
    if es[0].ClockTick? {
      var k' := TickMakesProgress(s, k, p, limit);
      TopComesCloser(p);
      if !OnCpu(s', p.pid) {
        TopPriorityIsDispatched(s', rest, k', WaitAndAge(p), limit);
      }
    } else {
      var k' := EventKeepsWaits(s, es[0], k, p, limit);
      TopPriorityIsDispatched(s', rest, k', p, limit);
    }
  }

  /** When pids are not shared, it is `p` itself that is dispatched. */
  lemma TopPriorityItselfIsDispatched(s: Sched, es: seq<Event>, k: nat, p: Proc, limit: int)
    requires Waits(s, k, p, limit) && p.priority == 10
    requires forall e :: e in es ==> Fair(e, p.pid, p.arrival, limit)
    requires Ticks(es) >= Backlog(s, k, p.arrival)
    requires Unique(s) && PidStaysItsOwn(es, p.pid)
    ensures exists n :: 0 <= n <= |es| && RunsAs(Run(s, es[..n]), p)
  {
    TopPriorityIsDispatched(s, es, k, p, limit);
    UniqueHasNoNamesake(s, k);
    hide RunsAs, Step;
    ReachesCpuItself(s, es, p);
  }

  /** From any priority: aging lifts `p` to the top, and then its backlog runs
      out.  With `limit` bounding every remaining time in the system, `p` is on
      the CPU within 20 * (10 - priority) ticks, plus the work of the earlier
      processes, plus `limit`. */
  lemma AgingPreventsStarvation(s: Sched, es: seq<Event>, k: nat, p: Proc, limit: int)
    requires Waits(s, k, p, limit)
    requires forall e :: e in es ==> Fair(e, p.pid, p.arrival, limit)
    requires Ticks(es) >= 20 * (10 - p.priority) + Earlier(s, k, p.arrival) + limit
    ensures exists n :: 0 <= n <= |es| && OnCpu(Run(s, es[..n]), p.pid)
    ensures Unique(s) && PidStaysItsOwn(es, p.pid) ==> exists n :: 0 <= n <= |es| && RunsAs(Run(s, es[..n]), p)
  {
    assert Sound(p, limit);
    ReachesFromBelow(s, es, k, p, limit);
    ReachesCpuIsAPrefix(s, es, p.pid);
    hide RunsAs, Step;
    if Unique(s) && PidStaysItsOwn(es, p.pid) {
      UniqueHasNoNamesake(s, k);
      ReachesCpuItself(s, es, p);
    }
  }

  lemma {:induction false} ReachesFromBelow(s: Sched, es: seq<Event>, k: nat, p: Proc, limit: int)
    requires Waits(s, k, p, limit)
    requires forall e :: e in es ==> Fair(e, p.pid, p.arrival, limit)
    requires Ticks(es) >= TicksToTop(p) + Earlier(s, k, p.arrival) + limit
    ensures ReachesCpu(s, es, p.pid)
    decreases |es|
  {
    WorkNonNegative(s.ready[..k], p.arrival, limit);
    WorkNonNegative(s.ready[k + 1..], p.arrival - 1, limit);
    assert Sound(p, limit);
    TopComesCloser(p);
    if p.priority == MAX_PRIORITY {
      TopPriorityIsDispatched(s, es, k, p, limit);
    } else {
      assert es != [] && es[0] in es;
      var s', rest := Step(s, es[0]), es[1..];
      if es[0].ClockTick? {
        var k' := TickMakesProgress(s, k, p, limit);
        if !OnCpu(s', p.pid) {
          ReachesFromBelow(s', rest, k', WaitAndAge(p), limit);
        }
      } else {
        var k' := EventKeepsWaits(s, es[0], k, p, limit);
        ReachesFromBelow(s', rest, k', p, limit);
      }
    }
  }

  // ---------- running to completion ----------

  /** `p` runs at the top priority and its budget covers the work it has left. */
  predicate RunsAtTop(s: Sched, p: Proc) {
    && s.algorithm == PRIO && s.current == Some(p)
    && p.burst > 0 && p.remaining >= 1 && p.priority >= MAX_PRIORITY
    && (p.budget <= 0 || p.execTicks + p.remaining <= p.budget)
    && forall q :: q in s.ready ==> q.priority <= MAX_PRIORITY
  }

  predicate Tame(e: Event, pid: int) {
    match e
    case ClockTick => true
    case Gone(p) => p != pid
    case Add(q, _) => q.priority <= MAX_PRIORITY
    case SetAlgorithm(_) => false
    case SetQuantum(_) => true
  }

  lemma NobodyOutranks(q: seq<Proc>, priority: int)
    requires forall p :: p in q ==> p.priority <= priority
    ensures !Outranked(q, priority)
  {
    forall i | 0 <= i < |q| ensures q[i].priority <= priority { assert q[i] in q; }
  }

  lemma TopSurvivesAdvance(s: Sched, p: Proc)
    requires RunsAtTop(s, p) && p.remaining >= 2
    ensures RunsAtTop(Advance(s).s, p.(remaining := p.remaining - 1, execTicks := p.execTicks + 1))
  {
    NobodyOutranks(s.ready, p.priority);
    hide Outranked;
  }

  lemma TopKeepsCpu(s: Sched, e: Event, p: Proc)
    requires RunsAtTop(s, p) && Tame(e, p.pid)
    requires e.ClockTick? ==> p.remaining >= 2
    ensures RunsAtTop(Step(s, e),
              if e.ClockTick? then p.(remaining := p.remaining - 1, execTicks := p.execTicks + 1) else p)
  {
    hide Advance, SelectIndex, Drop;
    match e
    case ClockTick =>
      AgedMembers(s.ready);
      TopSurvivesAdvance(s.(tick := s.tick + 1, ready := AgeAll(s.ready)), p);
    case Gone(pid) => DropFacts(s.ready, pid);
    case _ =>
  }

  /** A process dispatched at the top priority keeps the CPU: after any run with
      fewer ticks than it has work left it is still running ... */
  lemma {:induction false} RunsWithoutPreemption(s: Sched, es: seq<Event>, p: Proc)
    requires RunsAtTop(s, p) && (forall e :: e in es ==> Tame(e, p.pid))
    requires Ticks(es) < p.remaining
    ensures RunsAtTop(Run(s, es), p.(remaining := p.remaining - Ticks(es), execTicks := p.execTicks + Ticks(es)))
    decreases |es|
  {
    if es != [] {
      assert es[0] in es;
      TopKeepsCpu(s, es[0], p);
      var p' := if es[0].ClockTick? then p.(remaining := p.remaining - 1, execTicks := p.execTicks + 1) else p;
      RunsWithoutPreemption(Step(s, es[0]), es[1..], p');
    }
  }

  /** ... and the tick after that completes it. */
  lemma CompletesOnTime(s: Sched, es: seq<Event>, p: Proc)
    requires RunsAtTop(s, p) && (forall e :: e in es ==> Tame(e, p.pid))
    requires Ticks(es) == p.remaining - 1
    ensures var last := Run(s, es);
      Tick(last, last.tick + 1).finished ==
        Some(p.(remaining := 0, execTicks := p.execTicks + p.remaining,
                turnaround := last.tick + 1 - p.arrival, status := Terminated))
  {
    RunsWithoutPreemption(s, es, p);
    hide Run, Tick, RunsAtTop, Tame;
    var q := p.(remaining := p.remaining - Ticks(es), execTicks := p.execTicks + Ticks(es));
    LastTick(Run(s, es), q);
  }

  lemma LastTick(s: Sched, p: Proc)
    requires RunsAtTop(s, p) && p.remaining == 1
    ensures Tick(s, s.tick + 1).finished ==
            Some(p.(remaining := 0, execTicks := p.execTicks + 1,
                    turnaround := s.tick + 1 - p.arrival, status := Terminated))
  {
    hide Dispatch, Outranked, AgeAll;
  }
}
