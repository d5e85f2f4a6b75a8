/** How long a process keeps the CPU: exactly a quantum under round robin, and
    until the watchdog strikes when its budget runs out. */
module SchedulerSlices {
  import opened Prelude
  import opened SchedulerModel
  import opened SchedulerRoundRobin

  /** `p` after `n` more ticks on the CPU. */
  function After(p: Proc, n: nat): Proc {
    p.(remaining := if p.burst > 0 then p.remaining - n else p.remaining, execTicks := p.execTicks + n)
  }

  /** `p` has more than `n` ticks of work and a budget for `n` more. */
  predicate BusyFor(p: Proc, n: int) {
    (p.burst > 0 ==> p.remaining > n) && (p.budget > 0 ==> p.execTicks + n <= p.budget)
  }

  lemma BusyStep(s: Sched, e: Event, p: Proc)
    requires s.algorithm != PRIO && s.current == Some(p)
    requires Undisturbed(e, p.pid)
    requires e.ClockTick? ==> BusyFor(p, 1) && (s.algorithm == RR ==> s.quantumTicks + 1 < s.quantum)
    ensures var s' := Step(s, e);
      && s'.algorithm == s.algorithm && s'.quantum == s.quantum
      && s'.current == Some(After(p, Ticks([e]))) && s'.quantumTicks == s.quantumTicks + Ticks([e])
  {
    assert Ticks([e]) == if e.ClockTick? then 1 else 0;
    hide Outranked, AgeAll, SelectIndex, Drop;
  }

  /** A tick that takes a busy process off the CPU puts it at the end of the queue. */
  lemma PreemptedTick(s: Sched, p: Proc) returns (mid: Sched)
    requires s.current == Some(p) && BusyFor(p, 1)
    requires Preempts(s.(ready := AgeAll(s.ready)), p.priority)
    ensures Step(s, ClockTick) == Dispatch(mid)
    ensures mid.algorithm == s.algorithm && mid.current == None && mid.quantumTicks == 0
    ensures mid.ready == AgeAll(s.ready) + [After(p, 1).(status := Ready)]
  {
    hide AgeAll, Dispatch, Outranked;
    mid := BeforeDispatch(s, s.tick + 1).s;
  }

  lemma UnpreemptedTick(s: Sched, p: Proc)
    requires s.current == Some(p) && BusyFor(p, 1)
    requires !Preempts(s.(ready := AgeAll(s.ready)), p.priority)
    ensures Step(s, ClockTick).current == Some(After(p, 1)) && Step(s, ClockTick).ready == AgeAll(s.ready)
  {
    hide AgeAll, Outranked;
  }

  /** A process with work left keeps the CPU while its slice lasts, and outside
      round robin and priority scheduling without limit, whatever arrives or is
      removed in the meantime. */
  lemma {:induction false} KeepsCpu(s: Sched, es: seq<Event>, p: Proc)
    requires s.algorithm != PRIO && s.current == Some(p)
    requires s.algorithm == RR ==> s.quantumTicks + Ticks(es) < s.quantum
    requires BusyFor(p, Ticks(es))
    requires forall e :: e in es ==> Undisturbed(e, p.pid)
    ensures var s' := Run(s, es);
      && s'.algorithm == s.algorithm && s'.quantum == s.quantum
      && s'.current == Some(After(p, Ticks(es))) && s'.quantumTicks == s.quantumTicks + Ticks(es)
    decreases |es|
  {
    if es != [] {
      assert es[0] in es;
      assert Ticks(es) == Ticks([es[0]]) + Ticks(es[1..]);
      BusyStep(s, es[0], p);
      hide Step, Undisturbed;
      KeepsCpu(Step(s, es[0]), es[1..], After(p, Ticks([es[0]])));
    }
  }

  /** It gives the CPU up on the tick that ends its slice, neither earlier nor
      later: the head of the queue runs and it stands at the end, or it goes on
      with a new slice when nobody else is ready. */
  lemma LeavesAfterQuantum(s: Sched, es: seq<Event>, p: Proc)
    requires s.algorithm == RR && s.current == Some(p) && s.quantumTicks == 0 && s.quantum >= 1
    requires BusyFor(p, s.quantum)
    requires forall e :: e in es ==> Undisturbed(e, p.pid)
    requires Ticks(es) == s.quantum - 1
    ensures forall n :: 0 <= n <= |es| ==> OnCpu(Run(s, es[..n]), p.pid)
    ensures var before := Run(s, es);
      var s' := Step(before, ClockTick);
      var left := After(p, s.quantum);
      && s'.quantumTicks == 0
      && (before.ready == [] ==> s'.ready == [] && s'.current == Some(left.(status := Running)))
      && (before.ready != [] ==>
            && s'.current.Some? && StillToRun(before.ready[0], s'.current.value)
            && |s'.ready| == |before.ready| && s'.ready[|s'.ready| - 1] == left.(status := Ready))
  {
    hide Tick, Dispatch, BeforeDispatch;
    forall n | 0 <= n <= |es| ensures OnCpu(Run(s, es[..n]), p.pid) { OnCpuAfterPrefix(s, es, p, n); }
    KeepsCpu(s, es, p);
    hide Step, Run, Undisturbed, Ticks;
    SliceEnds(Run(s, es), After(p, s.quantum - 1));
  }

  lemma OnCpuAfterPrefix(s: Sched, es: seq<Event>, p: Proc, n: nat)
    requires s.algorithm == RR && s.current == Some(p) && s.quantumTicks == 0
    requires BusyFor(p, s.quantum)
    requires forall e :: e in es ==> Undisturbed(e, p.pid)
    requires Ticks(es) < s.quantum && n <= |es|
    ensures OnCpu(Run(s, es[..n]), p.pid)
  {
    hide Run, Undisturbed, Step, Ticks;
    TicksOfPrefix(es, n);
    PrefixUndisturbed(es, n, p.pid);
    KeepsCpu(s, es[..n], p);
  }

  lemma SliceEnds(s: Sched, p: Proc)
    requires s.algorithm == RR && s.current == Some(p) && s.quantumTicks + 1 == s.quantum && BusyFor(p, 1)
    ensures var s' := Step(s, ClockTick);
      var left := After(p, 1);
      && s'.quantumTicks == 0
      && (s.ready == [] ==> s'.ready == [] && s'.current == Some(left.(status := Running)))
      && (s.ready != [] ==>
            && s'.current.Some? && StillToRun(s.ready[0], s'.current.value)
            && |s'.ready| == |s.ready| && s'.ready[|s'.ready| - 1] == left.(status := Ready))
  {
    var mid := PreemptedTick(s, p);
    SelectedIsBest(RR, mid.ready);
    hide SelectIndex, Step, Tick, BeforeDispatch;
    assert Without(mid.ready, 0) == mid.ready[1..];
  }

  lemma PrefixUndisturbed(es: seq<Event>, n: nat, pid: int)
    requires n <= |es| && forall e :: e in es ==> Undisturbed(e, pid)
    ensures forall e :: e in es[..n] ==> Undisturbed(e, pid)
  {
    hide Undisturbed;
    forall e | e in es[..n] ensures Undisturbed(e, pid) { assert e in es; }
  }

  lemma {:induction false} TicksOfPrefix(es: seq<Event>, n: nat)
    requires n <= |es|
    ensures Ticks(es[..n]) <= Ticks(es)
    ensures n < |es| && es[n].ClockTick? ==> Ticks(es[..n]) < Ticks(es)
  {
    if n > 0 {
      assert es[..n][1..] == es[1..][..n - 1];
      TicksOfPrefix(es[1..], n - 1);
    }
  }

  // ---------- priority preemption ----------

  /** Under priority scheduling a process with work and budget left keeps the CPU
      over a tick exactly when no ready process has aged to a higher priority;
      otherwise it goes to the end of the queue and one of the most urgent runs. */
  lemma PriorityPreemptsIff(s: Sched, p: Proc)
    requires s.algorithm == PRIO && s.current == Some(p) && BusyFor(p, 1)
    ensures var s', ran := Step(s, ClockTick), After(p, 1);
      if exists i :: 0 <= i < |s.ready| && WaitAndAge(s.ready[i]).priority > p.priority then
        && s'.current.Some? && s'.current.value.priority > p.priority
        && (forall i :: 0 <= i < |s.ready| ==> WaitAndAge(s.ready[i]).priority <= s'.current.value.priority)
        && s'.ready != [] && s'.ready[|s'.ready| - 1] == ran.(status := Ready) && |s'.ready| == |s.ready|
      else
        s'.current == Some(ran) && s'.ready == AgeAll(s.ready)
  {
    var q := AgeAll(s.ready);
    assert |q| == |s.ready| && forall i :: 0 <= i < |q| ==> q[i] == WaitAndAge(s.ready[i]);
    if i :| 0 <= i < |s.ready| && WaitAndAge(s.ready[i]).priority > p.priority {
      assert q[i].priority > p.priority;
      var mid := PreemptedTick(s, p);
      hide *;
      MostUrgentRuns(mid, q, After(p, 1).(status := Ready), i);
    } else {
      assert !Outranked(q, p.priority);
      hide *;
      UnpreemptedTick(s, p);
    }
  }

  /** Whoever is dispatched is among the most urgent, and is not a last one that is
      less urgent than somebody. */
  lemma MostUrgentRuns(s: Sched, q: seq<Proc>, last: Proc, i: nat)
    requires s.algorithm == PRIO && s.current == None && s.ready == q + [last]
    requires i < |q| && q[i].priority > last.priority
    ensures var s' := Dispatch(s);
      && s'.current.Some? && s'.current.value.priority > last.priority
      && (forall j :: 0 <= j < |q| ==> q[j].priority <= s'.current.value.priority)
      && |s'.ready| == |q| && s'.ready[|q| - 1] == last
  {
    var r := SelectIndex(PRIO, s.ready);
    SelectedIsBest(PRIO, s.ready);
    hide SelectIndex;
    assert !Prefers(PRIO, s.ready[i], s.ready[r]);
    assert forall j :: 0 <= j < |q| ==> s.ready[j] == q[j] && !Prefers(PRIO, s.ready[j], s.ready[r]);
    assert r < |q|;
  }

  // ---------- the watchdog ----------

  /** The watchdog names the running process exactly on a tick with which it has
      executed for longer than a positive budget. */
  lemma WatchdogNamesIff(s: Sched, now: int)
    ensures Tick(s, now).killed.Some? <==>
            s.current.Some? && s.current.value.budget > 0 && s.current.value.execTicks + 1 > s.current.value.budget
    ensures Tick(s, now).killed.Some? ==>
            && Tick(s, now).killed.value.pid == s.current.value.pid
            && Tick(s, now).killed.value.execTicks == s.current.value.execTicks + 1
  {
    hide Dispatch, AgeAll, Outranked;
  }

  /** A process with more work than budget is named on the tick that exceeds its
      budget and on no earlier one; the CPU is handed on. */
  lemma WatchdogStrikes(s: Sched, es: seq<Event>, p: Proc, k: nat)
    requires s.algorithm != PRIO && s.algorithm != RR && s.current == Some(p)
    requires p.budget > 0 && Ticks(es) == p.budget - p.execTicks && (p.burst > 0 ==> p.remaining > Ticks(es) + 1)
    requires forall e :: e in es ==> Undisturbed(e, p.pid)
    requires k < |es| && es[k].ClockTick?
    ensures var earlier := Run(s, es[..k]); Tick(earlier, earlier.tick + 1).killed.None?
    ensures var before := Run(s, es);
      var o := Tick(before, before.tick + 1);
      && o.killed == Some(After(p, Ticks(es) + 1))
      && (if before.ready == [] then o.s.ready == [] && o.s.current.None?
          else |o.s.ready| == |before.ready| - 1 && o.s.current.Some?)
  {
    NotNamedEarlier(s, es, p, k);
    KeepsCpu(s, es, p);
    hide Run, Undisturbed, Ticks, Tick;
    StruckTick(Run(s, es), After(p, Ticks(es)));
  }

  lemma NotNamedEarlier(s: Sched, es: seq<Event>, p: Proc, k: nat)
    requires s.algorithm != PRIO && s.algorithm != RR && s.current == Some(p)
    requires Ticks(es) <= p.budget - p.execTicks && (p.burst > 0 ==> p.remaining > Ticks(es))
    requires forall e :: e in es ==> Undisturbed(e, p.pid)
    requires k < |es| && es[k].ClockTick?
    ensures var earlier := Run(s, es[..k]); Tick(earlier, earlier.tick + 1).killed.None?
  {
    hide Run, Undisturbed, Tick, Ticks;
    TicksOfPrefix(es, k);
    PrefixUndisturbed(es, k, p.pid);
    KeepsCpu(s, es[..k], p);
    WatchdogNamesIff(Run(s, es[..k]), Run(s, es[..k]).tick + 1);
  }

  lemma StruckTick(s: Sched, p: Proc)
    requires s.algorithm != PRIO && s.algorithm != RR && s.current == Some(p)
    requires 0 < p.budget == p.execTicks && (p.burst > 0 ==> p.remaining > 1)
    ensures var o := Tick(s, s.tick + 1);
      && o.killed == Some(After(p, 1))
      && (if s.ready == [] then o.s.ready == [] && o.s.current.None?
          else |o.s.ready| == |s.ready| - 1 && o.s.current.Some?)
  {
    hide SelectIndex;
  }
}
