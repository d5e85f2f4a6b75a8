/** Time accounting over whole runs: where every tick of every process went,
    which priority it has aged to, and what its turnaround time means. */
module SchedulerAccounting {
  import opened Prelude
  import opened SchedulerModel

  /** A run observed from outside: the scheduler, each process as it was
      enqueued with the tick of its enqueueing, the completed processes, and the
      pids that were removed from the system or killed by the watchdog. */
  datatype Observed = Observed(s: Sched, entered: map<int, Entry>, completed: seq<Proc>, lost: set<int>)

  datatype Entry = Entry(p: Proc, tick: int)

  function Start(algorithm: Algorithm, quantum: int): Observed {
    Observed(Sched(algorithm, quantum, [], None, 0, 0), map[], [], {})
  }

  function Observe(o: Observed, e: Event): Observed {
    match e
    case ClockTick => Recorded(o, Tick(o.s, o.s.tick + 1))
    case Add(p, now) => o.(s := Step(o.s, e), entered := o.entered[p.pid := Entry(Stamped(p, now), o.s.tick)])
    case Gone(pid) => o.(s := Step(o.s, e), lost := if InSystem(o.s, pid) then o.lost + {pid} else o.lost)
    case _ => o.(s := Step(o.s, e))
  }

  function Recorded(o: Observed, out: Outcome): Observed {
    Observed(out.s, o.entered,
             if out.finished.Some? then o.completed + [out.finished.value] else o.completed,
             if out.killed.Some? then o.lost + {out.killed.value.pid} else o.lost)
  }

  predicate InSystem(s: Sched, pid: int) {
    OnCpu(s, pid) || Queued(s, pid)
  }

  function ObserveAll(o: Observed, es: seq<Event>): Observed
    decreases |es|
  {
    if es == [] then o else ObserveAll(Observe(o, es[0]), es[1..])
  }

  /** Processes enter with a pid of their own, never used before, and a full burst. */
  predicate LegalEvent(o: Observed, e: Event) {
    e.Add? ==> e.p.pid !in o.entered && e.p.waiting >= 0 && e.p.remaining == e.p.burst
  }

  predicate LegalRun(o: Observed, es: seq<Event>)
    decreases |es|
  {
    es == [] || (LegalEvent(o, es[0]) && LegalRun(Observe(o, es[0]), es[1..]))
  }

  // ---------- what holds of every process ----------

  /** The priority reached by aging from `p0` after waiting from `w0` to `w` ticks. */
  function AgedPriority(p0: int, w0: int, w: int): int {
    if p0 >= MAX_PRIORITY then p0
    else Min(MAX_PRIORITY, p0 + w / AGING_THRESHOLD - w0 / AGING_THRESHOLD)
  }

  /** `p` waited and executed since `e`, `age` ticks in all. */
  predicate Accounted(p: Proc, e: Entry, age: int) {
    && p.pid == e.p.pid && p.burst == e.p.burst && p.arrival == e.p.arrival && p.budget == e.p.budget
    && e.p.waiting >= 0 && p.waiting >= e.p.waiting
    && p.execTicks >= e.p.execTicks
    && (p.waiting - e.p.waiting) + (p.execTicks - e.p.execTicks) == age
    && p.priority == AgedPriority(e.p.priority, e.p.waiting, p.waiting)
    && e.p.remaining == e.p.burst
  }

  /** Still in the system: the work left is the burst less the ticks executed. */
  predicate InProgress(p: Proc, e: Entry, age: int) {
    && Accounted(p, e, age)
    && (p.burst > 0 ==> p.remaining == p.burst - (p.execTicks - e.p.execTicks) && p.remaining >= 1)
  }

  /** Completed: the whole burst was executed, and the turnaround time counts
      from the recorded arrival. */
  predicate Complete(p: Proc, e: Entry) {
    && Accounted(p, e, p.turnaround + p.arrival - e.tick)
    && UsedUp(p) && p.execTicks - e.p.execTicks == p.burst
    && p.status == Terminated
  }

  ghost predicate Inv(o: Observed) {
    && Unique(o.s)
    && (forall p :: Member(o.s, p) ==>
          p.pid in o.entered && InProgress(p, o.entered[p.pid], o.s.tick - o.entered[p.pid].tick))
    && (forall p :: p in o.completed ==> p.pid in o.entered && Complete(p, o.entered[p.pid]))
  }

  // ---------- one event ----------

  lemma WaitingIsAccounted(p: Proc, e: Entry, age: int)
    requires InProgress(p, e, age)
    ensures InProgress(WaitAndAge(p), e, age + 1)
  {
    assert p.waiting / AGING_THRESHOLD >= e.p.waiting / AGING_THRESHOLD;
  }

  lemma MemberStaysAccounted(o: Observed, p': Proc)
    requires Inv(o) && Follows(o.s, p')
    ensures p'.pid in o.entered && InProgress(p', o.entered[p'.pid], o.s.tick + 1 - o.entered[p'.pid].tick)
  {
    var s := o.s;
    if p :| p in s.ready && p' == WaitAndAge(p).(status := p'.status) {
      assert Member(s, p);
      WaitingIsAccounted(p, o.entered[p.pid], s.tick - o.entered[p.pid].tick);
    } else {
      var cp := s.current.value;
      assert Member(s, cp);
    }
  }

  lemma FinishedIsComplete(o: Observed)
    requires Inv(o) && Tick(o.s, o.s.tick + 1).finished.Some?
    ensures var p := Tick(o.s, o.s.tick + 1).finished.value;
      p.pid in o.entered && Complete(p, o.entered[p.pid])
  {
    var cp := o.s.current.value;
    assert Member(o.s, cp);
  }

  lemma TickKeepsInv(o: Observed) returns (o': Observed)
    requires Inv(o)
    ensures o' == Observe(o, ClockTick) && Inv(o')
  {
    var out := Tick(o.s, o.s.tick + 1);
    TickMembers(o.s, o.s.tick + 1);
    if out.finished.Some? { FinishedIsComplete(o); }
    o' := OutcomeKeepsInv(o, out);
  }

  lemma OutcomeKeepsInv(o: Observed, out: Outcome) returns (o': Observed)
    requires Inv(o) && Unique(out.s) && out.s.tick == o.s.tick + 1
    requires forall p' :: Member(out.s, p') ==> Follows(o.s, p')
    requires out.finished.Some? ==> var p := out.finished.value; p.pid in o.entered && Complete(p, o.entered[p.pid])
    ensures o' == Recorded(o, out) && Inv(o')
  {
    forall p' | Member(out.s, p')
      ensures p'.pid in o.entered && InProgress(p', o.entered[p'.pid], o.s.tick + 1 - o.entered[p'.pid].tick)
    {
      MemberStaysAccounted(o, p');
    }
    o' := Recorded(o, out);
  }

  lemma EventKeepsInv(o: Observed, e: Event)
    requires Inv(o) && LegalEvent(o, e)
    ensures Inv(Observe(o, e))
  {
    match e
    case ClockTick => var _ := TickKeepsInv(o);
    case Gone(pid) => DropFacts(o.s.ready, pid);
    case Add(p, now) =>
      forall m | Member(o.s, m) ensures m.pid != p.pid { }
    case _ =>
  }

  lemma {:induction false} RunKeepsInv(o: Observed, es: seq<Event>)
    requires Inv(o) && LegalRun(o, es)
    ensures Inv(ObserveAll(o, es))
    decreases |es|
  {
    if es != [] {
      EventKeepsInv(o, es[0]);
      RunKeepsInv(Observe(o, es[0]), es[1..]);
    }
  }

  // ---------- nobody is lost ----------

  /** Who entered is in the system, or completed, or was removed or killed. */
  ghost predicate Traced(o: Observed, pid: int) {
    || InSystem(o.s, pid)
    || (exists p :: p in o.completed && p.pid == pid)
    || pid in o.lost
  }

  ghost predicate AllTraced(o: Observed) {
    forall pid :: pid in o.entered ==> Traced(o, pid)
  }

  lemma RemainsInSystem(s: Sched, p: Proc)
    requires Remains(s, p)
    ensures InSystem(s, p.pid)
  {
    var p' :| Member(s, p') && p' == p.(status := p'.status);
  }

  /** What a tick may do with a process: keep it, finish it or have it killed. */
  ghost predicate Kept(out: Outcome, p: Proc) {
    || Remains(out.s, p)
    || (out.finished.Some? && out.finished.value.pid == p.pid)
    || (out.killed.Some? && out.killed.value.pid == p.pid)
  }

  lemma KeptIsTraced(o: Observed, out: Outcome, p: Proc)
    requires Kept(out, p)
    ensures Traced(Recorded(o, out), p.pid)
  {
    hide InSystem;
    if Remains(out.s, p) {
      RemainsInSystem(out.s, p);
    } else if out.finished.Some? && out.finished.value.pid == p.pid {
      assert out.finished.value in Recorded(o, out).completed;
    }
  }

  lemma TickTraces(o: Observed, pid: int)
    requires Traced(o, pid)
    ensures Traced(Observe(o, ClockTick), pid)
  {
    var s, out := o.s, Tick(o.s, o.s.tick + 1);
    TickLosesNobody(s, s.tick + 1);
    hide Tick, Remains, InSystem;
    if p :| p in o.completed && p.pid == pid {
      assert p in Recorded(o, out).completed;
    } else if pid !in o.lost {
      var p := InSystemRecord(s, pid);
      hide Traced;
      KeptIsTraced(o, out, p);
    }
  }

  /** The record of a process of the system, one tick of waiting or executing later. */
  lemma InSystemRecord(s: Sched, pid: int) returns (p: Proc)
    requires InSystem(s, pid)
    ensures p.pid == pid
    ensures (s.current.Some? && p == Ran(s.current.value)) || exists m :: m in s.ready && p == WaitAndAge(m)
  {
    if OnCpu(s, pid) {
      p := Ran(s.current.value);
    } else {
      var m :| m in s.ready && m.pid == pid;
      p := WaitAndAge(m);
    }
  }

  lemma EventTraces(o: Observed, e: Event)
    requires Inv(o) && AllTraced(o)
    ensures AllTraced(Observe(o, e))
  {
    forall pid | pid in Observe(o, e).entered ensures Traced(Observe(o, e), pid) {
      match e
      case ClockTick => TickTraces(o, pid);
      case Gone(gone) => DropFacts(o.s.ready, gone);
      case Add(p, now) =>
        var q := o.s.ready + [Stamped(p, now)];
        assert q[|o.s.ready|].pid == p.pid && forall m :: m in o.s.ready ==> m in q;
      case _ =>
    }
  }

  lemma {:induction false} RunTraces(o: Observed, es: seq<Event>)
    requires Inv(o) && LegalRun(o, es) && AllTraced(o)
    ensures AllTraced(ObserveAll(o, es))
    decreases |es|
  {
    hide Inv, AllTraced, Observe, LegalEvent;
    if es != [] {
      EventKeepsInv(o, es[0]);
      EventTraces(o, es[0]);
      RunTraces(Observe(o, es[0]), es[1..]);
    }
  }

  // ---------- the theorems ----------

  /** In every run, whoever was enqueued is queued or running, or has completed,
      or was removed or killed. */
  lemma NobodyIsLost(algorithm: Algorithm, quantum: int, es: seq<Event>, pid: int)
    requires LegalRun(Start(algorithm, quantum), es)
    requires pid in ObserveAll(Start(algorithm, quantum), es).entered
    ensures var o := ObserveAll(Start(algorithm, quantum), es);
      || InSystem(o.s, pid)
      || (exists p :: p in o.completed && p.pid == pid)
      || pid in o.lost
  {
    RunTraces(Start(algorithm, quantum), es);
  }

  /** In every reachable state a process has spent each tick since it was
      enqueued either waiting or executing, its remaining time is its burst less
      the executed ticks, and its priority is the enqueue priority plus one per
      20 ticks waited, up to 10. */
  lemma EveryTickIsAccountedFor(algorithm: Algorithm, quantum: int, es: seq<Event>, p: Proc)
    requires LegalRun(Start(algorithm, quantum), es)
    requires Member(ObserveAll(Start(algorithm, quantum), es).s, p)
    ensures var o := ObserveAll(Start(algorithm, quantum), es);
      && p.pid in o.entered
      && var e := o.entered[p.pid];
      && (p.waiting - e.p.waiting) + (p.execTicks - e.p.execTicks) == o.s.tick - e.tick
      && (p.burst > 0 ==> p.remaining == p.burst - (p.execTicks - e.p.execTicks))
      && (e.p.waiting == 0 && e.p.priority <= 10 ==> p.priority == Min(10, e.p.priority + p.waiting / 20))
  {
    RunKeepsInv(Start(algorithm, quantum), es);
    assert p.waiting / AGING_THRESHOLD >= 0;
  }

  /** The turnaround time recorded at completion is waiting time plus burst
      time exactly when the recorded arrival is the tick of the enqueueing. */
  lemma TurnaroundIsWaitingPlusBurst(algorithm: Algorithm, quantum: int, es: seq<Event>, p: Proc)
    requires LegalRun(Start(algorithm, quantum), es)
    requires p in ObserveAll(Start(algorithm, quantum), es).completed
    ensures var o := ObserveAll(Start(algorithm, quantum), es);
      && p.pid in o.entered
      && var e := o.entered[p.pid];
      && p.execTicks - e.p.execTicks == p.burst
      && (p.turnaround == (p.waiting - e.p.waiting) + p.burst <==> p.arrival == e.tick)
  {
    RunKeepsInv(Start(algorithm, quantum), es);
  }

  /** A process added after the first tick by an `add_process` without a tick: the run
      of one such process, enqueued at tick 1. */
  function AddedLate(): seq<Event> {
    [ClockTick, Add(Proc(7, 1, 1, 0, 0, 5, 0, 0, 0, New), 0), ClockTick, ClockTick]
  }

  /** It waits one tick and runs one, and yet its turnaround time is recorded as
      three ticks: the arrival still says tick 0. */
  lemma UnstampedArrivalMiscountsTurnaround()
    ensures LegalRun(Start(FCFS, 4), AddedLate())
    ensures var o := ObserveAll(Start(FCFS, 4), AddedLate());
      && |o.completed| == 1 && o.completed[0].pid == 7
      && o.entered[7].tick == 1 && o.completed[0].arrival == 0
      && o.completed[0].turnaround == 3 && o.completed[0].waiting + o.completed[0].burst == 2
  {
    var es := AddedLate();
    var p := es[1].p;
    var o0 := Start(FCFS, 4);
    var o1 := Observe(o0, ClockTick);
    var o2 := Observe(o1, es[1]);
    assert o2.s == Sched(FCFS, 4, [p.(status := Ready)], None, 1, 0);
    var o3 := Observe(o2, ClockTick);
    var c := p.(status := Running, waiting := 1);
    assert AgeAll(o2.s.ready) == [p.(status := Ready, waiting := 1)];
    assert o3.s == Sched(FCFS, 4, [], Some(c), 2, 0) by {
      assert Without([p.(status := Ready, waiting := 1)], 0) == [];
    }
    var o4 := Observe(o3, ClockTick);
    assert o4.completed == [c.(remaining := 0, execTicks := 1, turnaround := 3, status := Terminated)];
    assert es[1..][1..][1..][1..] == [];
    assert ObserveAll(o0, es) == ObserveAll(o1, es[1..]) == ObserveAll(o2, es[1..][1..])
        == ObserveAll(o3, es[1..][1..][1..]) == ObserveAll(o4, []) == o4;
    assert LegalRun(o4, []) && LegalRun(o3, es[1..][1..][1..]) && LegalRun(o2, es[1..][1..]) && LegalRun(o1, es[1..]);
  }
}
