/** What one clock tick does to the simulated CPU scheduler, as functions on
    snapshots of its state.  `SchedulerCore` proves the imperative scheduler
    against these functions. */
module SchedulerModel {
  import opened Prelude

  datatype Algorithm = FCFS | SJF | RR | PRIO | Unknown

  datatype Status = New | Ready | Running | Terminated

  /** Snapshot of the fields of a process the scheduler reads or writes. */
  datatype Proc = Proc(
    pid: int,
    burst: int,
    remaining: int,
    waiting: int,
    turnaround: int,
    priority: int,
    arrival: int,
    execTicks: int,
    budget: int,
    status: Status)

  /** Snapshot of the scheduler. */
  datatype Sched = Sched(
    algorithm: Algorithm,
    quantum: int,
    ready: seq<Proc>,
    current: Option<Proc>,
    tick: int,
    quantumTicks: int)

  /** The new state, the process that ran to completion during the tick (if
      any) and the process for which a kill was requested (if any). */
  datatype Outcome = Outcome(s: Sched, finished: Option<Proc>, killed: Option<Proc>)

  const AGING_THRESHOLD := 20
  const MAX_PRIORITY := 10

  // ---------- waiting and aging ----------

  function Waited(p: Proc): Proc {
    p.(waiting := p.waiting + 1)
  }

  function Boosted(p: Proc): Proc {
    if p.waiting > 0 && p.waiting % AGING_THRESHOLD == 0 && p.priority < MAX_PRIORITY
    then p.(priority := p.priority + 1)
    else p
  }

  /** One tick in the ready queue: one more tick waited, then possibly a boost. */
  function WaitAndAge(p: Proc): Proc {
    Boosted(Waited(p))
  }

  function AgeAll(q: seq<Proc>): seq<Proc> {
    seq(|q|, i requires 0 <= i < |q| => WaitAndAge(q[i]))
  }

  // ---------- choosing the next process ----------

  /** True when `a` has a strictly better key than `b`. */
  predicate Prefers(algo: Algorithm, a: Proc, b: Proc) {
    match algo
    case FCFS => a.arrival < b.arrival || (a.arrival == b.arrival && a.pid < b.pid)
    case SJF =>
      if a.burst > 0 && b.burst > 0 then
        a.burst < b.burst || (a.burst == b.burst && a.arrival < b.arrival)
      else if a.burst <= 0 && b.burst <= 0 then a.arrival < b.arrival
      else a.burst > 0
    case PRIO => a.priority > b.priority || (a.priority == b.priority && a.arrival < b.arrival)
    case RR => false
    case Unknown => false
  }

  /** Index of the best of the first `n` processes, the first one among equals. */
  function BestOf(algo: Algorithm, q: seq<Proc>, n: nat): (r: nat)
    requires 0 < n <= |q|
    ensures r < n
  {
    if n == 1 then 0
    else
      var i := BestOf(algo, q, n - 1);
      if Prefers(algo, q[n - 1], q[i]) then n - 1 else i
  }

  /** Index of the process to run next. */
  function SelectIndex(algo: Algorithm, q: seq<Proc>): (r: nat)
    requires q != []
    ensures r < |q|
  {
    BestOf(algo, q, |q|)
  }

  /** Nobody has a better key than the selected process, and whoever is ahead of
      it in the queue has a worse one; round robin takes the head. */
  lemma SelectedIsBest(algo: Algorithm, q: seq<Proc>)
    requires q != []
    ensures var r := SelectIndex(algo, q);
      && (forall j :: 0 <= j < |q| ==> !Prefers(algo, q[j], q[r]))
      && (algo == RR || algo == Unknown ==> r == 0)
      && (algo != RR && algo != Unknown ==> forall j :: 0 <= j < r ==> Prefers(algo, q[r], q[j]))
  {
    BestOfIsBest(algo, q, |q|);
  }

  lemma {:induction false} BestOfIsBest(algo: Algorithm, q: seq<Proc>, n: nat)
    requires 0 < n <= |q|
    ensures var r := BestOf(algo, q, n);
      && (forall j :: 0 <= j < n ==> !Prefers(algo, q[j], q[r]))
      && (algo == RR || algo == Unknown ==> r == 0)
      && (algo != RR && algo != Unknown ==> forall j :: 0 <= j < r ==> Prefers(algo, q[r], q[j]))
  {
    if n > 1 { BestOfIsBest(algo, q, n - 1); }
  }

  // ---------- one tick ----------

  predicate Outranked(q: seq<Proc>, priority: int) {
    exists i :: 0 <= i < |q| && q[i].priority > priority
  }

  function Ran(p: Proc): Proc {
    p.(remaining := if p.burst > 0 then Max(0, p.remaining - 1) else p.remaining,
       execTicks := p.execTicks + 1)
  }

  predicate UsedUp(p: Proc) {
    p.burst > 0 && p.remaining == 0
  }

  predicate OverBudget(p: Proc) {
    p.budget > 0 && p.execTicks > p.budget
  }

  predicate Preempts(s: Sched, priority: int) {
    || (s.algorithm == RR && s.quantumTicks + 1 >= s.quantum)
    || (s.algorithm == PRIO && Outranked(s.ready, priority))
  }

  /** What becomes of the running process during one tick. */
  datatype Fate = Stays | Finishes | Requeued | Killed

  function FateOf(s: Sched, cp: Proc): Fate {
    var ran := Ran(cp);
    if UsedUp(ran) then Finishes
    else if Preempts(s, cp.priority) then Requeued
    else if OverBudget(ran) then Killed
    else Stays
  }

  function RecordAfter(s: Sched, cp: Proc): Proc {
    var ran := Ran(cp);
    match FateOf(s, cp)
    case Finishes => ran.(turnaround := s.tick - cp.arrival, status := Terminated)
    case Requeued => ran.(status := Ready)
    case _ => ran
  }

  /** The running process executes for one tick and may leave the CPU. */
  function Advance(s: Sched): Outcome
    requires s.current.Some?
  {
    var cp := s.current.value;
    var fate, after := FateOf(s, cp), RecordAfter(s, cp);
    Outcome(
      s.(ready := if fate.Requeued? then s.ready + [after] else s.ready,
         current := if fate.Stays? then Some(after) else None,
         quantumTicks := if fate.Stays? then s.quantumTicks + 1 else 0),
      if fate.Finishes? then Some(after) else None,
      if OverBudget(Ran(cp)) then Some(after) else None)
  }

  /** Hand an idle CPU to the selected ready process. */
  function Dispatch(s: Sched): Sched {
    if s.current.Some? || s.ready == [] then s
    else
      var i := SelectIndex(s.algorithm, s.ready);
      s.(ready := Without(s.ready, i),
         current := Some(s.ready[i].(status := Running)),
         quantumTicks := 0)
  }

  /** The ready processes have waited and aged, the running one has executed. */
  function BeforeDispatch(s: Sched, now: int): Outcome {
    var aged := s.(tick := now, ready := AgeAll(s.ready));
    if s.current.Some? then Advance(aged) else Outcome(aged, None, None)
  }

  function Tick(s: Sched, now: int): Outcome {
    var o := BeforeDispatch(s, now);
    o.(s := Dispatch(o.s))
  }

  // ---------- what happens between ticks ----------

  /** A process as `add_process` enqueues it. */
  function Stamped(p: Proc, now: int): Proc {
    p.(arrival := if p.arrival == 0 && now != 0 then now else p.arrival, status := Ready)
  }

  function Drop(q: seq<Proc>, pid: int): seq<Proc> {
    if q == [] then []
    else if q[0].pid == pid then Drop(q[1..], pid)
    else [q[0]] + Drop(q[1..], pid)
  }

  function Remove(s: Sched, pid: int): Sched {
    if s.current.Some? && s.current.value.pid == pid then
      s.(current := None, quantumTicks := 0)
    else
      s.(ready := Drop(s.ready, pid))
  }

  datatype Event =
    | ClockTick
    | Add(p: Proc, now: int)
    | Gone(pid: int)                      // remove_process, or a death event
    | SetAlgorithm(algorithm: Algorithm)
    | SetQuantum(quantum: int)

  function Step(s: Sched, e: Event): Sched {
    match e
    case ClockTick => Tick(s, s.tick + 1).s
    case Add(p, now) => s.(ready := s.ready + [Stamped(p, now)])
    case Gone(pid) => Remove(s, pid)
    case SetAlgorithm(a) => s.(algorithm := a, quantumTicks := 0)
    case SetQuantum(q) => if q <= 0 then s else s.(quantum := q)
  }

  function Run(s: Sched, es: seq<Event>): Sched
    decreases |es|
  {
    if es == [] then s else Run(Step(s, es[0]), es[1..])
  }

  function Ticks(es: seq<Event>): nat {
    if es == [] then 0 else (if es[0].ClockTick? then 1 else 0) + Ticks(es[1..])
  }

  predicate OnCpu(s: Sched, pid: int) {
    s.current.Some? && s.current.value.pid == pid
  }

  /** The process `pid` is on the CPU now or after some prefix of `es`. */
  predicate ReachesCpu(s: Sched, es: seq<Event>, pid: int)
    decreases |es|
  {
    OnCpu(s, pid) || (es != [] && ReachesCpu(Step(s, es[0]), es[1..], pid))
  }

  /** `ReachesCpu` is the existence of a prefix of the run that ends with `pid` running. */
  lemma {:induction false} ReachesCpuIsAPrefix(s: Sched, es: seq<Event>, pid: int)
    ensures ReachesCpu(s, es, pid) <==> exists n :: 0 <= n <= |es| && OnCpu(Run(s, es[..n]), pid)
    decreases |es|
  {
    if OnCpu(s, pid) {
      assert Run(s, es[..0]) == s;
    } else if es == [] {
      forall n | 0 <= n <= |es| ensures !OnCpu(Run(s, es[..n]), pid) { assert n == 0; }
    } else {
      var s', rest := Step(s, es[0]), es[1..];
      ReachesCpuIsAPrefix(s', rest, pid);
      forall n | 0 < n <= |es| ensures Run(s, es[..n]) == Run(s', rest[..n - 1]) {
        assert es[..n][1..] == rest[..n - 1];
      }
      if ReachesCpu(s, es, pid) {
        var n :| 0 <= n <= |rest| && OnCpu(Run(s', rest[..n]), pid);
        assert OnCpu(Run(s, es[..n + 1]), pid);
      }
      if n :| 0 <= n <= |es| && OnCpu(Run(s, es[..n]), pid) {
        assert es[..0] == [];
        assert OnCpu(Run(s', rest[..n - 1]), pid);
      }
    }
  }

  // ---------- the process itself, not only its pid ----------

  /** `q` is the process `p` before it executed again: it may have waited and aged. */
  predicate StillToRun(p: Proc, q: Proc) {
    q == p.(waiting := q.waiting, priority := q.priority, status := q.status)
  }

  predicate RunsAs(s: Sched, p: Proc) {
    s.current.Some? && StillToRun(p, s.current.value)
  }

  /** Whoever is in the system under the pid of `p` is `p`. */
  predicate NoNamesake(s: Sched, p: Proc) {
    && (forall m :: m in s.ready && m.pid == p.pid ==> StillToRun(p, m))
    && (OnCpu(s, p.pid) ==> StillToRun(p, s.current.value))
  }

  /** No later arrival takes the pid. */
  predicate PidStaysItsOwn(es: seq<Event>, pid: int) {
    forall e :: e in es ==> e.Add? ==> e.p.pid != pid
  }

  lemma AgingKeepsNoNamesake(s: Sched, p: Proc)
    requires NoNamesake(s, p) && !OnCpu(s, p.pid)
    ensures var mid := BeforeDispatch(s, s.tick + 1).s; NoNamesake(mid, p) && !OnCpu(mid, p.pid)
  {
    AgedMembers(s.ready);
    var aged := s.(tick := s.tick + 1, ready := AgeAll(s.ready));
    forall m' | m' in aged.ready && m'.pid == p.pid ensures StillToRun(p, m') {
      var m :| m in s.ready && m' == WaitAndAge(m);
    }
  }

  lemma DispatchKeepsNoNamesake(s: Sched, p: Proc)
    requires NoNamesake(s, p) && !OnCpu(s, p.pid)
    ensures NoNamesake(Dispatch(s), p)
  {
    if s.current.None? && s.ready != [] {
      var i := SelectIndex(s.algorithm, s.ready);
      assert s.ready[i] in s.ready;
      forall m | m in Without(s.ready, i) ensures m in s.ready { }
    }
  }

  lemma TickKeepsNoNamesake(s: Sched, p: Proc)
    requires NoNamesake(s, p) && !OnCpu(s, p.pid)
    ensures NoNamesake(Tick(s, s.tick + 1).s, p)
  {
    AgingKeepsNoNamesake(s, p);
    hide BeforeDispatch, Dispatch, NoNamesake;
    DispatchKeepsNoNamesake(BeforeDispatch(s, s.tick + 1).s, p);
  }

  lemma StepKeepsNoNamesake(s: Sched, e: Event, p: Proc)
    requires NoNamesake(s, p) && !OnCpu(s, p.pid) && (e.Add? ==> e.p.pid != p.pid)
    ensures NoNamesake(Step(s, e), p)
  {
    hide Tick;
    match e
    case ClockTick => TickKeepsNoNamesake(s, p);
    case Gone(pid) => DropFacts(s.ready, pid);
    case Add(q, now) => assert forall m :: m in s.ready + [Stamped(q, now)] ==> m in s.ready || m == Stamped(q, now);
    case _ =>
  }

  /** When nobody else has or takes its pid, it is the process itself that gets
      the CPU, with the work it had when it was waiting. */
  lemma {:induction false} ReachesCpuItself(s: Sched, es: seq<Event>, p: Proc)
    requires NoNamesake(s, p) && PidStaysItsOwn(es, p.pid) && ReachesCpu(s, es, p.pid)
    ensures exists n :: 0 <= n <= |es| && RunsAs(Run(s, es[..n]), p)
    decreases |es|
  {
    if OnCpu(s, p.pid) {
      assert RunsAs(Run(s, es[..0]), p);
    } else {
      hide Step, StillToRun;
      assert es[0] in es;
      StepKeepsNoNamesake(s, es[0], p);
      ReachesCpuItself(Step(s, es[0]), es[1..], p);
      var n :| 0 <= n <= |es| - 1 && RunsAs(Run(Step(s, es[0]), es[1..][..n]), p);
      assert es[..n + 1][1..] == es[1..][..n];
      assert RunsAs(Run(s, es[..n + 1]), p);
    }
  }

  lemma UniqueHasNoNamesake(s: Sched, k: nat)
    requires Unique(s) && k < |s.ready|
    ensures NoNamesake(s, s.ready[k])
  {
    assert s.ready[k] in s.ready;
    forall m | m in s.ready && m.pid == s.ready[k].pid ensures m == s.ready[k] {
      var j :| 0 <= j < |s.ready| && s.ready[j] == m;
      assert j == k;
    }
  }

  // ---------- every process exactly once ----------

  predicate DistinctPids(q: seq<Proc>) {
    forall i, j :: 0 <= i < j < |q| ==> q[i].pid != q[j].pid
  }

  /** The processes in the system: the ready ones and the running one. */
  predicate Member(s: Sched, p: Proc) {
    p in s.ready || s.current == Some(p)
  }

  predicate Queued(s: Sched, pid: int) {
    exists p :: p in s.ready && p.pid == pid
  }

  /** No two processes in the system share a pid. */
  predicate Unique(s: Sched) {
    && DistinctPids(s.ready)
    && (s.current.Some? ==> forall m :: m in s.ready ==> m.pid != s.current.value.pid)
  }

  lemma {:induction false} DropFacts(q: seq<Proc>, pid: int)
    ensures forall p :: p in Drop(q, pid) <==> p in q && p.pid != pid
    ensures DistinctPids(q) ==> DistinctPids(Drop(q, pid))
  {
    if q != [] {
      DropFacts(q[1..], pid);
      assert forall p :: p in q <==> p == q[0] || p in q[1..];
      if DistinctPids(q) {
        var d := Drop(q[1..], pid);
        forall j | 0 <= j < |d| ensures q[0].pid != d[j].pid {
          assert d[j] in q[1..];
        }
      }
    }
  }

  lemma {:induction false} DropShortens(q: seq<Proc>, pid: int)
    ensures |Drop(q, pid)| <= |q|
    ensures |Drop(q, pid)| < |q| <==> exists p :: p in q && p.pid == pid
  {
    if q != [] {
      DropShortens(q[1..], pid);
      assert forall p :: p in q <==> p == q[0] || p in q[1..];
    }
  }

  lemma WithoutFacts(q: seq<Proc>, i: nat)
    requires i < |q| && DistinctPids(q)
    ensures DistinctPids(Without(q, i))
    ensures forall p :: p in Without(q, i) <==> p in q && p.pid != q[i].pid
  {
    var w := Without(q, i);
    forall p | p in w ensures p in q && p.pid != q[i].pid {
      var k :| 0 <= k < |w| && w[k] == p;
      assert p == q[if k < i then k else k + 1];
    }
    forall p | p in q && p.pid != q[i].pid ensures p in w {
      var k :| 0 <= k < |q| && q[k] == p;
      assert p == w[if k < i then k else k - 1];
    }
  }

  // ---------- where the records after a tick come from ----------

  lemma AgedMembers(q: seq<Proc>)
    ensures DistinctPids(q) ==> DistinctPids(AgeAll(q))
    ensures forall m' :: m' in AgeAll(q) ==> exists m :: m in q && m' == WaitAndAge(m)
    ensures forall m :: m in q ==> WaitAndAge(m) in AgeAll(q)
  {
    var a := AgeAll(q);
    forall m' | m' in a ensures exists m :: m in q && m' == WaitAndAge(m) {
      var k :| 0 <= k < |a| && a[k] == m';
      assert q[k] in q;
    }
    forall m | m in q ensures WaitAndAge(m) in a {
      var k :| 0 <= k < |q| && q[k] == m;
      assert a[k] == WaitAndAge(m);
    }
  }

  lemma DispatchMembers(s: Sched)
    requires Unique(s)
    ensures Unique(Dispatch(s))
    ensures forall m' :: Member(Dispatch(s), m') ==> exists m :: Member(s, m) && m' == m.(status := m'.status)
    ensures forall m' :: m' in Dispatch(s).ready ==> m' in s.ready
    ensures forall m :: m in s.ready ==> m in Dispatch(s).ready || OnCpu(Dispatch(s), m.pid)
    ensures s.current.Some? ==> Dispatch(s) == s
    ensures s.current.None? && s.ready != [] ==> Dispatch(s).current.Some?
  {
    if s.current.None? && s.ready != [] {
      var i := SelectIndex(s.algorithm, s.ready);
      WithoutFacts(s.ready, i);
      assert Member(s, s.ready[i]);
    }
  }

  lemma AdvanceMembers(s: Sched)
    requires Unique(s) && s.current.Some?
    ensures Unique(Advance(s).s)
    ensures forall m :: m in s.ready ==> m in Advance(s).s.ready
    ensures forall m' :: Member(Advance(s).s, m') ==>
              m' in s.ready || (m' == Ran(s.current.value).(status := m'.status) && !UsedUp(m'))
  {
  }

  /** `p'` is a record of `s` one tick later: it waited for the tick, or it
      executed for the tick and has work left. */
  ghost predicate Follows(s: Sched, p': Proc) {
    || (exists p :: p in s.ready && p' == WaitAndAge(p).(status := p'.status))
    || (s.current.Some? && p' == Ran(s.current.value).(status := p'.status) && !UsedUp(p'))
  }

  /** `p` is in the system, whatever its status. */
  ghost predicate Remains(s: Sched, p: Proc) {
    exists p' :: Member(s, p') && p' == p.(status := p'.status)
  }

  lemma TickOrigins(s: Sched, now: int)
    requires Unique(s)
    ensures Unique(Tick(s, now).s) && Tick(s, now).s.tick == now
    ensures forall p' :: Member(Tick(s, now).s, p') ==> Follows(s, p')
  {
    var aged := s.(tick := now, ready := AgeAll(s.ready));
    AgedMembers(s.ready);
    if s.current.Some? { AdvanceMembers(aged); }
    var mid := if s.current.Some? then Advance(aged).s else aged;
    DispatchMembers(mid);
    forall p' | Member(Dispatch(mid), p') ensures Follows(s, p') {
      var m :| Member(mid, m) && p' == m.(status := p'.status);
      if m in AgeAll(s.ready) {
        var p :| p in s.ready && m == WaitAndAge(p);
      }
    }
  }

  lemma DispatchKeeps(s: Sched, p: Proc)
    requires Member(s, p)
    ensures Remains(Dispatch(s), p)
  {
    if s.current.None? && s.ready != [] {
      var i := SelectIndex(s.algorithm, s.ready);
      var k :| 0 <= k < |s.ready| && s.ready[k] == p;
      var rest := Without(s.ready, i);
      if k == i {
        assert Member(Dispatch(s), p.(status := Running));
      } else {
        assert p == rest[if k < i then k else k - 1];
        assert Member(Dispatch(s), p);
      }
    } else {
      assert Member(Dispatch(s), p);
    }
  }

  lemma TickLosesNobody(s: Sched, now: int)
    ensures forall p :: p in s.ready ==> Remains(Tick(s, now).s, WaitAndAge(p))
    ensures s.current.Some? ==>
              var out, ran := Tick(s, now), Ran(s.current.value);
              || Remains(out.s, ran)
              || (out.finished.Some? && out.finished.value.pid == ran.pid)
              || (out.killed.Some? && out.killed.value.pid == ran.pid)
  {
    var o := BeforeDispatch(s, now);
    forall p | p in s.ready ensures Remains(Dispatch(o.s), WaitAndAge(p)) {
      WaitersStay(s, now, p);
      hide BeforeDispatch, Dispatch;
      DispatchKeeps(o.s, WaitAndAge(p));
    }
    if s.current.Some? {
      var after := RunnerAfter(s, now);
      hide BeforeDispatch, Dispatch, Ran;
      if Member(o.s, after) { DispatchKeeps(o.s, after); }
    }
  }

  lemma WaitersStay(s: Sched, now: int, p: Proc)
    requires p in s.ready
    ensures Member(BeforeDispatch(s, now).s, WaitAndAge(p))
  {
    AgedMembers(s.ready);
    hide AgeAll;
  }

  lemma RunnerAfter(s: Sched, now: int) returns (after: Proc)
    requires s.current.Some?
    ensures var o, ran := BeforeDispatch(s, now), Ran(s.current.value);
      && after == ran.(status := after.status)
      && (|| Member(o.s, after)
          || (o.finished.Some? && o.finished.value.pid == ran.pid)
          || (o.killed.Some? && o.killed.value.pid == ran.pid))
  {
    hide AgeAll, Outranked;
    var ran := Ran(s.current.value);
    after := if FateOf(s.(tick := now, ready := AgeAll(s.ready)), s.current.value).Requeued?
             then ran.(status := Ready) else ran;
  }

  /** Every process in the system after a tick either waited or executed for it;
      and every process in the system before it is still there, or has finished,
      or was handed to the watchdog. */
  lemma TickMembers(s: Sched, now: int)
    requires Unique(s)
    ensures Unique(Tick(s, now).s) && Tick(s, now).s.tick == now
    ensures forall p' :: Member(Tick(s, now).s, p') ==> Follows(s, p')
    ensures forall p :: p in s.ready ==> Remains(Tick(s, now).s, WaitAndAge(p))
    ensures s.current.Some? ==>
              var out, ran := Tick(s, now), Ran(s.current.value);
              || Remains(out.s, ran)
              || (out.finished.Some? && out.finished.value.pid == ran.pid)
              || (out.killed.Some? && out.killed.value.pid == ran.pid)
  {
    TickOrigins(s, now);
    TickLosesNobody(s, now);
  }

  /** The CPU is idle after a tick only when nothing is ready. */
  lemma IdleOnlyWhenEmpty(s: Sched, now: int)
    ensures Tick(s, now).s.current.None? ==> Tick(s, now).s.ready == []
  {
  }
}
