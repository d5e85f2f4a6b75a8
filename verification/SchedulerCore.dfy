/** The tick-driven scheduler with its mutable queue and process records,
    proved step by step against `SchedulerModel`. */
module SchedulerCore {
  import opened Prelude
  import opened SchedulerModel
  import O = SchedulerOrder

  /** One entry of the process table: the fields scheduling reads or writes. */
  class Process {
    const pid: int
    var burstTime: int
    var remainingTime: int
    var waitingTime: int
    var turnaroundTime: int
    var priority: int
    var arrivalTick: int
    var totalExecutionTicks: int
    var cpuBudget: int
    var status: Status

    constructor (pid: int, burst: int, priority: int, budget: int)
      ensures Snapshot() == Proc(pid, burst, burst, 0, 0, priority, 0, 0, budget, New)
    {
      this.pid := pid;
      burstTime, remainingTime, waitingTime, turnaroundTime := burst, burst, 0, 0;
      this.priority, arrivalTick, totalExecutionTicks, cpuBudget := priority, 0, 0, budget;
      status := New;
    }

    function Snapshot(): Proc
      reads this
    {
      Proc(pid, burstTime, remainingTime, waitingTime, turnaroundTime, priority,
           arrivalTick, totalExecutionTicks, cpuBudget, status)
    }
  }

  function Snapshots(ps: seq<Process>): (q: seq<Proc>)
    reads ps
    ensures |q| == |ps|
    ensures forall i :: 0 <= i < |ps| ==> q[i] == ps[i].Snapshot()
  {
    seq(|ps|, i requires 0 <= i < |ps| reads ps => ps[i].Snapshot())
  }

  /** The comparison of the selection keys: (arrival, pid) ascending, (burst,
      arrival) ascending with an unknown burst last, priority descending and then
      arrival ascending. */
  predicate KeyComesFirst(algorithm: Algorithm, a: Process, b: Process)
    reads a, b
    ensures KeyComesFirst(algorithm, a, b) == Prefers(algorithm, a.Snapshot(), b.Snapshot())
  {
    match algorithm
    case FCFS => Lexicographic(a.arrivalTick, a.pid, b.arrivalTick, b.pid)
    case SJF =>
      if a.burstTime > 0 && b.burstTime > 0
      then Lexicographic(a.burstTime, a.arrivalTick, b.burstTime, b.arrivalTick)
      else if a.burstTime > 0 || b.burstTime > 0 then a.burstTime > 0
      else a.arrivalTick < b.arrivalTick
    case PRIO => Lexicographic(-a.priority, a.arrivalTick, -b.priority, b.arrivalTick)
    case _ => false
  }

  predicate Lexicographic(a0: int, a1: int, b0: int, b1: int) {
    a0 < b0 || (a0 == b0 && a1 < b1)
  }

  ghost predicate Distinct(ps: seq<Process>) {
    forall i, j :: 0 <= i < j < |ps| ==> ps[i] != ps[j]
  }

  lemma DistinctAppend(ps: seq<Process>, p: Process)
    ensures Distinct(ps + [p]) <==> Distinct(ps) && p !in ps
  {
    var all := ps + [p];
    if Distinct(all) {
      forall i, j | 0 <= i < j < |ps| ensures ps[i] != ps[j] { assert all[i] != all[j]; }
      forall i | 0 <= i < |ps| ensures ps[i] != p { assert all[i] != all[|ps|]; }
    }
  }

  class Scheduler {
    var algorithm: Algorithm
    var quantum: int
    var readyQueue: seq<Process>
    var currentProcess: Process?
    var tickCount: int
    var quantumTicks: int

    /** No process is queued twice, or queued and running. */
    ghost predicate Valid()
      reads this
    {
      Distinct(readyQueue) && (currentProcess != null ==> currentProcess !in readyQueue)
    }

    /** The scheduler and the process records it may write. */
    ghost function Owned(): set<object>
      reads this
    {
      (set p: object | p in readyQueue) + {this} + (if currentProcess == null then {} else {currentProcess})
    }

    function View(): Sched
      reads this, readyQueue, currentProcess
    {
      Sched(algorithm, quantum, Snapshots(readyQueue),
            if currentProcess == null then None else Some(currentProcess.Snapshot()),
            tickCount, quantumTicks)
    }

    constructor (algorithm: Algorithm, quantum: int)
      ensures Valid() && View() == Sched(algorithm, quantum, [], None, 0, 0)
    {
      this.algorithm, this.quantum := algorithm, quantum;
      readyQueue, currentProcess, tickCount, quantumTicks := [], null, 0, 0;
    }

    method UpdateQuantum(value: int) returns (ok: bool)
      modifies this`quantum
      ensures ok == (value > 0) && quantum == if ok then value else old(quantum)
      ensures View() == Step(old(View()), Event.SetQuantum(value))
    {
      ok := value > 0;
      if ok { quantum := value; }
    }

    method UpdateAlgorithm(algo: Algorithm) returns (ok: bool)
      modifies this`algorithm, this`quantumTicks
      ensures ok == (algo != Unknown)
      ensures algorithm == (if ok then algo else old(algorithm)) && quantumTicks == if ok then 0 else old(quantumTicks)
      ensures View() == if ok then Step(old(View()), Event.SetAlgorithm(algo)) else old(View())
    {
      ok := algo != Unknown;
      if ok { algorithm, quantumTicks := algo, 0; }
    }

    method AddProcess(proc: Process, now: int)
      requires Valid()
      modifies this`readyQueue, proc
      ensures readyQueue == old(readyQueue) + [proc] && proc.Snapshot() == Stamped(old(proc.Snapshot()), now)
      ensures proc.arrivalTick == if old(proc.arrivalTick) == 0 then now else old(proc.arrivalTick)
      ensures Valid() <==> proc !in old(readyQueue) && proc != currentProcess
      ensures Valid() ==> View() == Step(old(View()), Add(old(proc.Snapshot()), now))
    {
      if proc.arrivalTick == 0 && now != 0 { proc.arrivalTick := now; }
      proc.status := Ready;
      DistinctAppend(readyQueue, proc);
      assert proc in readyQueue + [proc];
      readyQueue := readyQueue + [proc];
    }

    method RemoveProcess(pid: int) returns (found: bool)
      requires Valid()
      modifies this, currentProcess
      ensures Valid()
      ensures found <==> OnCpu(old(View()), pid) || Queued(old(View()), pid)
      ensures var running := old(currentProcess != null && currentProcess.pid == pid);
        && currentProcess == (if running then null else old(currentProcess))
        && quantumTicks == (if running then 0 else old(quantumTicks))
        && forall p :: p in readyQueue <==> p in old(readyQueue) && (p.pid != pid || running)
      ensures View() == Step(old(View()), Gone(pid))
    {
      ghost var s := View();
      if currentProcess != null && currentProcess.pid == pid {
        Preempt(false);
        found := true;
        return;
      }
      var kept := WithoutPid(readyQueue, pid);
      DropShortens(s.ready, pid);
      found := |kept| < |readyQueue|;
      readyQueue := kept;
    }

    static method WithoutPid(queue: seq<Process>, pid: int) returns (kept: seq<Process>)
      requires Distinct(queue)
      ensures Distinct(kept) && Keeps(kept, queue, pid)
      ensures Snapshots(kept) == Drop(Snapshots(queue), pid)
    {
      hide Snapshots, Drop, Keeps, Distinct;
      ghost var q := Snapshots(queue);
      kept := [];
      assert Keeps(kept, queue[..0], pid) && Distinct(kept) by { KeepsNothing(queue, pid); }
      for i := 0 to |queue|
        invariant Keeps(kept, queue[..i], pid) && Distinct(kept)
        invariant Snapshots(kept) + Drop(q[i..], pid) == Drop(q, pid)
      {
        var p := queue[i];
        KeepStep(kept, p, q, i, pid);
        KeepsMore(kept, queue, i, pid);
        if p.pid != pid { kept := kept + [p]; }
      }
      assert queue[..|queue|] == queue;
      DropNothing(q, pid);
    }

    method TickWaitingProcesses()
      requires Valid()
      modifies readyQueue
      ensures forall j :: 0 <= j < |readyQueue| ==> readyQueue[j].Snapshot() == Waited(old(readyQueue[j].Snapshot()))
      ensures currentProcess != null ==> currentProcess.Snapshot() == old(currentProcess.Snapshot())
    {
      for i := 0 to |readyQueue|
        invariant forall j :: 0 <= j < i ==> readyQueue[j].Snapshot() == Waited(old(readyQueue[j].Snapshot()))
        invariant forall j :: i <= j < |readyQueue| ==> readyQueue[j].Snapshot() == old(readyQueue[j].Snapshot())
        invariant currentProcess != null ==> currentProcess.Snapshot() == old(currentProcess.Snapshot())
      {
        readyQueue[i].waitingTime := readyQueue[i].waitingTime + 1;
      }
    }

    method ApplyAging()
      requires Valid()
      modifies readyQueue
      ensures forall j :: 0 <= j < |readyQueue| ==> readyQueue[j].Snapshot() == Boosted(old(readyQueue[j].Snapshot()))
      ensures forall j :: 0 <= j < |readyQueue| ==>
                var waited, was := old(readyQueue[j].waitingTime), old(readyQueue[j].priority);
                readyQueue[j].priority == if waited > 0 && waited % 20 == 0 && was < 10 then was + 1 else was
      ensures currentProcess != null ==> currentProcess.Snapshot() == old(currentProcess.Snapshot())
    {
      for i := 0 to |readyQueue|
        invariant forall j :: 0 <= j < i ==> readyQueue[j].Snapshot() == Boosted(old(readyQueue[j].Snapshot()))
        invariant forall j :: i <= j < |readyQueue| ==> readyQueue[j].Snapshot() == old(readyQueue[j].Snapshot())
        invariant currentProcess != null ==> currentProcess.Snapshot() == old(currentProcess.Snapshot())
      {
        var p := readyQueue[i];
        if p.waitingTime > 0 && p.waitingTime % AGING_THRESHOLD == 0 {
          if p.priority < MAX_PRIORITY { p.priority := p.priority + 1; }
        }
      }
    }

    method Preempt(reQueue: bool)
      requires Valid()
      modifies this`readyQueue, this`currentProcess, this`quantumTicks, currentProcess
      ensures Valid() && currentProcess == null
      ensures old(currentProcess) == null ==> readyQueue == old(readyQueue) && quantumTicks == old(quantumTicks)
      ensures old(currentProcess) != null ==>
                && readyQueue == old(readyQueue) + (if reQueue then [old(currentProcess)] else [])
                && quantumTicks == 0
                && old(currentProcess).Snapshot() == old(currentProcess.Snapshot()).(status := Ready)
    {
      if currentProcess == null { return; }
      currentProcess.status := Ready;
      if reQueue { readyQueue := readyQueue + [currentProcess]; }
      currentProcess, quantumTicks := null, 0;
    }

    /** The best ready process, without removing it from the queue: the earliest
        arrival, the shortest known burst or the highest priority, with the ties
        broken as the algorithm says and then by the place in the queue. */
    method SelectNext() returns (index: nat)
      requires readyQueue != []
      ensures index < |readyQueue|
      ensures algorithm == FCFS ==> forall j :: 0 <= j < |readyQueue| ==>
                var a, b := readyQueue[index], readyQueue[j];
                || a.arrivalTick < b.arrivalTick
                || (a.arrivalTick == b.arrivalTick && (a.pid < b.pid || (a.pid == b.pid && index <= j)))
      ensures algorithm == SJF ==> forall j :: 0 <= j < |readyQueue| ==>
                var a, b := readyQueue[index], readyQueue[j];
                var earlier := a.arrivalTick < b.arrivalTick || (a.arrivalTick == b.arrivalTick && index <= j);
                if a.burstTime <= 0 then b.burstTime <= 0 && earlier
                else b.burstTime <= 0 || a.burstTime < b.burstTime || (a.burstTime == b.burstTime && earlier)
      ensures algorithm == PRIO ==> forall j :: 0 <= j < |readyQueue| ==>
                var a, b := readyQueue[index], readyQueue[j];
                || a.priority > b.priority
                || (a.priority == b.priority
                    && (a.arrivalTick < b.arrivalTick || (a.arrivalTick == b.arrivalTick && index <= j)))
      ensures algorithm == RR || algorithm == Unknown ==> index == 0
      ensures index == SelectIndex(algorithm, Snapshots(readyQueue))
    {
      ghost var q := Snapshots(readyQueue);
      SelectedIsBest(algorithm, q);
      O.FirstComeIsSelected(q);
      O.ShortestIsSelected(q);
      O.HighestPriorityIsSelected(q);
      index := 0;
      if algorithm == RR || algorithm == Unknown { return; }
      for i := 1 to |readyQueue|
        invariant index < i && index == BestOf(algorithm, q, i)
      {
        if KeyComesFirst(algorithm, readyQueue[i], readyQueue[index]) { index := i; }
      }
    }

    /** One scheduling decision.  `killed` is the process the CPU budget
        watchdog asked the process manager to terminate. */
    method Schedule() returns (killed: Process?)
      requires Valid()
      modifies Owned()
      ensures Valid()
      ensures View() == Dispatch(if old(currentProcess) == null then old(View()) else Advance(old(View())).s)
      ensures old(currentProcess) != null && FateOf(old(View()), old(currentProcess.Snapshot())).Finishes? ==>
                old(currentProcess).Snapshot() == RecordAfter(old(View()), old(currentProcess.Snapshot()))
      ensures killed == if old(currentProcess) != null && OverBudget(Ran(old(currentProcess.Snapshot())))
                        then old(currentProcess) else null
    {
      killed := null;
      if currentProcess != null {
        killed := AdvanceCurrent();
      }
      DispatchNext();
    }

    /** Step 3: an idle CPU goes to the selected process. */
    method DispatchNext()
      requires Valid()
      modifies this, set p: object | p in readyQueue
      ensures Valid()
      ensures View() == Dispatch(old(View()))
    {
      if currentProcess == null && |readyQueue| > 0 {
        var i := SelectNext();
        var next := readyQueue[i];
        RemainingFacts(readyQueue, i);
        hide SelectIndex;
        readyQueue := Without(readyQueue, i);
        ghost var rest := Snapshots(readyQueue);
        next.status := Running;
        currentProcess, quantumTicks := next, 0;
        assert Snapshots(readyQueue) == rest;
      }
    }

    /** Steps 1 and 2: the running process executes for one tick. */
    method AdvanceCurrent() returns (killed: Process?)
      requires Valid() && currentProcess != null
      modifies this, currentProcess
      ensures Valid()
      ensures forall p :: p in readyQueue ==> p in old(readyQueue) || p == old(currentProcess)
      ensures currentProcess == null || currentProcess == old(currentProcess)
      ensures View() == Advance(old(View())).s
      ensures FateOf(old(View()), old(currentProcess.Snapshot())).Finishes? ==>
                currentProcess == null && old(currentProcess) !in readyQueue
      ensures old(currentProcess).Snapshot() == RecordAfter(old(View()), old(currentProcess.Snapshot()))
      ensures killed == if OverBudget(Ran(old(currentProcess.Snapshot()))) then old(currentProcess) else null
    {
      var cp := currentProcess;
      killed := Execute();
      assert Snapshots(old(readyQueue)) == old(Snapshots(readyQueue));
    }

    /** What `Advance` says, about the objects themselves. */
    method Execute() returns (killed: Process?)
      requires Valid() && currentProcess != null
      modifies this, currentProcess
      ensures Valid()
      ensures var fate := FateOf(old(View()), old(currentProcess.Snapshot()));
        && readyQueue == old(readyQueue) + (if fate.Requeued? then [old(currentProcess)] else [])
        && currentProcess == (if fate.Stays? then old(currentProcess) else null)
        && quantumTicks == (if fate.Stays? then old(quantumTicks) + 1 else 0)
      ensures algorithm == old(algorithm) && quantum == old(quantum) && tickCount == old(tickCount)
      ensures old(currentProcess).Snapshot() == RecordAfter(old(View()), old(currentProcess.Snapshot()))
      ensures killed == if OverBudget(Ran(old(currentProcess.Snapshot()))) then old(currentProcess) else null
    {
      hide Outranked, Snapshots;
      var cp := currentProcess;
      killed := null;
      if cp.burstTime > 0 {
        cp.remainingTime := Max(0, cp.remainingTime - 1);
      }
      quantumTicks := quantumTicks + 1;
      if cp.burstTime > 0 && cp.remainingTime == 0 {
        cp.turnaroundTime := tickCount - cp.arrivalTick;
        cp.status := Terminated;
        currentProcess, quantumTicks := null, 0;
      } else {
        var leave := MustLeave();
        if leave { Preempt(true); }
      }
      cp.totalExecutionTicks := cp.totalExecutionTicks + 1;
      if cp.cpuBudget > 0 && cp.totalExecutionTicks > cp.cpuBudget {
        killed := cp;
        currentProcess, quantumTicks := null, 0;
      }
    }

    /** Steps 2b and 2c: quantum expiry and priority preemption. */
    method MustLeave() returns (leave: bool)
      requires currentProcess != null
      ensures leave <==>
                || (algorithm == RR && quantumTicks >= quantum)
                || (algorithm == PRIO && Outranked(Snapshots(readyQueue), currentProcess.priority))
    {
      leave := false;
      if algorithm == RR && quantumTicks >= quantum {
        leave := true;
      } else if algorithm == PRIO && |readyQueue| > 0 {
        var best := BestPriority();
        leave := best > currentProcess.priority;
        ghost var q := Snapshots(readyQueue);
        assert forall i :: 0 <= i < |q| ==> q[i].priority == readyQueue[i].priority;
      }
    }

    /** The highest priority in the ready queue. */
    method BestPriority() returns (best: int)
      requires readyQueue != []
      ensures forall i :: 0 <= i < |readyQueue| ==> readyQueue[i].priority <= best
      ensures exists i :: 0 <= i < |readyQueue| && readyQueue[i].priority == best
    {
      best := readyQueue[0].priority;
      for i := 1 to |readyQueue|
        invariant forall j :: 0 <= j < i ==> readyQueue[j].priority <= best
        invariant exists j :: 0 <= j < i && readyQueue[j].priority == best
      {
        if readyQueue[i].priority > best { best := readyQueue[i].priority; }
      }
    }

    method OnTick(tick: int) returns (killed: Process?)
      requires Valid()
      modifies Owned()
      ensures Valid()
      ensures var o := Tick(old(View()), tick);
        && View() == o.s
        && (o.finished.Some? ==> old(currentProcess).Snapshot() == o.finished.value)
        && (killed != null <==> o.killed.Some?)
        && (killed != null ==> killed == old(currentProcess))
    {
      ghost var s := View();
      tickCount := tick;
      TickWaitingProcesses();
      ApplyAging();
      assert View() == s.(tick := tick, ready := AgeAll(s.ready));
      killed := Schedule();
    }
  }

  lemma DropStep(q: seq<Proc>, i: nat, pid: int)
    requires i < |q|
    ensures Drop(q[i..], pid) == (if q[i].pid == pid then [] else [q[i]]) + Drop(q[i + 1..], pid)
  {
    assert q[i..][1..] == q[i + 1..];
  }

  /** Keeping a process, or leaving it out, moves one step through the queue. */
  lemma KeepStep(kept: seq<Process>, p: Process, q: seq<Proc>, i: nat, pid: int)
    requires i < |q| && q[i] == p.Snapshot()
    ensures Snapshots(if p.pid == pid then kept else kept + [p]) + Drop(q[i + 1..], pid) ==
            Snapshots(kept) + Drop(q[i..], pid)
  {
    DropStep(q, i, pid);
    hide Snapshots, Drop;
  }

  /** `kept` holds exactly the processes of `queue` with another pid. */
  ghost predicate Keeps(kept: seq<Process>, queue: seq<Process>, pid: int) {
    && (forall p :: p in kept ==> p in queue && p.pid != pid)
    && (forall p :: p in queue && p.pid != pid ==> p in kept)
  }

  lemma KeepsNothing(queue: seq<Process>, pid: int)
    ensures Keeps([], queue[..0], pid) && Distinct([])
  {
  }

  lemma KeepsMore(kept: seq<Process>, queue: seq<Process>, i: nat, pid: int)
    requires Distinct(queue) && i < |queue| && Keeps(kept, queue[..i], pid) && Distinct(kept)
    ensures var p := queue[i];
      var more := if p.pid == pid then kept else kept + [p];
      Keeps(more, queue[..i + 1], pid) && Distinct(more)
  {
    assert queue[..i + 1] == queue[..i] + [queue[i]];
    assert queue[i] !in queue[..i];
    DistinctAppend(kept, queue[i]);
  }

  lemma DropNothing(q: seq<Proc>, pid: int)
    ensures q[|q|..] == [] && Drop([], pid) == []
  {
  }

  lemma RemainingFacts(ps: seq<Process>, i: nat)
    requires i < |ps| && Distinct(ps)
    ensures Distinct(Without(ps, i)) && ps[i] !in Without(ps, i)
    ensures Snapshots(Without(ps, i)) == Without(Snapshots(ps), i)
  {
    forall p | p in Without(ps, i) ensures p in ps && p != ps[i] {
      var k :| 0 <= k < |Without(ps, i)| && Without(ps, i)[k] == p;
      assert p == ps[if k < i then k else k + 1];
    }
  }
}
