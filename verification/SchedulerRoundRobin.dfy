/** Round-robin bounded waiting: with quantum Q, the process at index k of the
    ready queue is on the CPU within (k + 1) * Q ticks, whatever arrives or is
    removed in the meantime. */
module SchedulerRoundRobin {
  import opened Prelude
  import opened SchedulerModel

  /** Nothing in the run reconfigures the scheduler or removes `pid`. */
  predicate Undisturbed(e: Event, pid: int) {
    match e
    case ClockTick => true
    case Add(_, _) => true
    case Gone(p) => p != pid
    case SetAlgorithm(_) => false
    case SetQuantum(_) => false
  }

  /** Ticks until the slice of the running process ends, at least one. */
  function SliceLeft(s: Sched): int {
    if s.current.None? then 1 else Max(1, s.quantum - s.quantumTicks)
  }

  /** Ticks until the process at index `k` is dispatched, at the latest. */
  function WaitBound(s: Sched, k: nat): int {
    k * s.quantum + SliceLeft(s)
  }

  predicate Waiting(s: Sched, k: nat, pid: int) {
    s.algorithm == RR && s.quantum >= 1 && s.quantumTicks >= 0 && k < |s.ready| && s.ready[k].pid == pid
  }

  /** Removing another process never moves the waiting one backwards. */
  lemma {:induction false} DropKeepsPlace(q: seq<Proc>, k: nat, other: int) returns (k': nat)
    requires k < |q| && q[k].pid != other
    ensures k' <= k && k' < |Drop(q, other)| && Drop(q, other)[k'] == q[k]
  {
    if k == 0 {
      k' := 0;
    } else {
      k' := DropKeepsPlace(q[1..], k - 1, other);
      if q[0].pid != other { k' := k' + 1; }
    }
  }

  lemma BoundMonotone(q: int, k': nat, k: nat)
    requires q >= 1 && k' <= k
    ensures k' * q <= k * q
    ensures k' < k ==> k' * q + q <= k * q
  {
    if k' < k {
      assert (k' + 1) * q <= k * q;
    }
  }

  /** Aging, executing and requeueing leave the queue ahead of `k` in place. */
  lemma BeforeDispatchKeepsPlace(s: Sched, k: nat, pid: int)
    requires Waiting(s, k, pid)
    ensures var mid := BeforeDispatch(s, s.tick + 1).s;
      && mid.quantum == s.quantum && Waiting(mid, k, pid)
      && (mid.current.Some? ==> mid.quantumTicks == s.quantumTicks + 1 < s.quantum)
  {
  }

  lemma DispatchKeepsPlace(s: Sched, k: nat, pid: int) returns (s': Sched, k': nat)
    requires Waiting(s, k, pid)
    ensures s' == Dispatch(s) && s'.quantum == s.quantum && k' <= k
    ensures s.current.Some? ==> s' == s && k' == k
    ensures s.current.None? ==>
              OnCpu(s', pid) || (Waiting(s', k', pid) && k' < k && SliceLeft(s') == s.quantum)
  {
    SelectedIsBest(RR, s.ready);
    hide SelectIndex;
    s' := Dispatch(s);
    k' := if s.current.Some? || k == 0 then k else k - 1;
  }

  /** A tick either dispatches the process or brings its bound closer by one. */
  lemma TickMakesProgress(s: Sched, k: nat, pid: int) returns (k': nat)
    requires Waiting(s, k, pid)
    ensures var s' := Step(s, ClockTick);
      && s'.quantum == s.quantum
      && (OnCpu(s', pid) || (Waiting(s', k', pid) && WaitBound(s', k') <= WaitBound(s, k) - 1))
  {
    BeforeDispatchKeepsPlace(s, k, pid);
    var mid := BeforeDispatch(s, s.tick + 1).s;
    assert mid.current.Some? ==> s.current.Some?;
    hide BeforeDispatch;
    var s';
    s', k' := DispatchKeepsPlace(mid, k, pid);
    hide Dispatch;
    assert Step(s, ClockTick) == s';
    BoundMonotone(s.quantum, k', k);
  }

  lemma EventKeepsPlace(s: Sched, e: Event, k: nat, pid: int) returns (k': nat)
    requires Waiting(s, k, pid) && Undisturbed(e, pid) && !e.ClockTick?
    ensures var s' := Step(s, e);
      && s'.quantum == s.quantum
      && Waiting(s', k', pid) && WaitBound(s', k') <= WaitBound(s, k)
  {
    k' := k;
    if e.Gone? && !(s.current.Some? && s.current.value.pid == e.pid) {
      k' := DropKeepsPlace(s.ready, k, e.pid);
    }
    BoundMonotone(s.quantum, k', k);
  }

  lemma {:induction false} ReachesWithinBound(s: Sched, es: seq<Event>, k: nat, pid: int)
    requires Waiting(s, k, pid)
    requires forall e :: e in es ==> Undisturbed(e, pid)
    requires Ticks(es) >= WaitBound(s, k)
    ensures ReachesCpu(s, es, pid)
    decreases |es|
  {
    assert k * s.quantum >= 0 by { BoundMonotone(s.quantum, 0, k); }
    assert es != [];
    var s' := Step(s, es[0]);
    if es[0].ClockTick? {
      var k' := TickMakesProgress(s, k, pid);
      if !OnCpu(s', pid) {
        ReachesWithinBound(s', es[1..], k', pid);
      }
    } else {
      var k' := EventKeepsPlace(s, es[0], k, pid);
      ReachesWithinBound(s', es[1..], k', pid);
    }
  }

  lemma ReachesSoonEnough(s: Sched, es: seq<Event>, k: nat, pid: int)
    requires s.algorithm == RR && s.quantum >= 1 && s.quantumTicks >= 0
    requires k < |s.ready| && s.ready[k].pid == pid
    requires forall e :: e in es ==> Undisturbed(e, pid)
    requires Ticks(es) >= (k + 1) * s.quantum
    ensures ReachesCpu(s, es, pid)
  {
    hide ReachesCpu, Undisturbed, Ticks;
    ReachesWithinBound(s, es, k, pid);
  }

  /** Any run of (k + 1) * Q ticks has a prefix that ends with `pid` on the CPU;
      when pids are not shared it is the process at index k itself, with all the
      work it had. */
  lemma BoundedWaiting(s: Sched, es: seq<Event>, k: nat, pid: int)
    requires s.algorithm == RR && s.quantum >= 1 && s.quantumTicks >= 0
    requires k < |s.ready| && s.ready[k].pid == pid
    requires forall e :: e in es ==> Undisturbed(e, pid)
    requires Ticks(es) >= (k + 1) * s.quantum
    ensures exists n :: 0 <= n <= |es| && OnCpu(Run(s, es[..n]), pid)
    ensures Unique(s) && PidStaysItsOwn(es, pid) ==>
              exists n :: 0 <= n <= |es| && RunsAs(Run(s, es[..n]), s.ready[k])
  {
    hide *;
    ReachesSoonEnough(s, es, k, pid);
    ReachesCpuIsAPrefix(s, es, pid);
    if Unique(s) && PidStaysItsOwn(es, pid) {
      UniqueHasNoNamesake(s, k);
      ReachesCpuItself(s, es, s.ready[k]);
    }
  }
}
