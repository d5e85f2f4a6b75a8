/** Shortest-job-first is optimal: run tick by tick on a batch that is there
    from the start, it drains the batch with the least total waiting time any
    non-preemptive order of the same batch can reach. */
module SchedulerShortestFirst {
  import opened Prelude
  import opened SchedulerModel

  // ---------- the tick machine, run until it has drained a batch ----------

  /** The state after `n` ticks and the processes completed on the way. */
  function Drain(s: Sched, n: nat): (Sched, seq<Proc>)
    decreases n
  {
    if n == 0 then (s, [])
    else
      var out := Tick(s, s.tick + 1);
      var (last, rest) := Drain(out.s, n - 1);
      (last, Listed(out.finished) + rest)
  }

  function Listed(p: Option<Proc>): seq<Proc> {
    if p.Some? then [p.value] else []
  }

  function TotalBurst(q: seq<Proc>): int {
    if q == [] then 0 else q[0].burst + TotalBurst(q[1..])
  }

  /** Who completed, and how long each of them had waited. */
  function Ledger(done: seq<Proc>): seq<(int, int)> {
    if done == [] then [] else [(done[0].pid, done[0].waiting)] + Ledger(done[1..])
  }

  function Total(ledger: seq<(int, int)>): int {
    if ledger == [] then 0 else ledger[0].1 + Total(ledger[1..])
  }

  // ---------- what an order of the batch costs ----------

  /** Running `order` back to back, the first process dispatched after `elapsed`
      ticks: everyone waits for the bursts of those before it. */
  function Planned(order: seq<Proc>, elapsed: int): seq<(int, int)> {
    if order == [] then []
    else [(order[0].pid, elapsed)] + Planned(order[1..], elapsed + order[0].burst)
  }

  function Cost(order: seq<Proc>, elapsed: int): int {
    if order == [] then 0 else elapsed + Cost(order[1..], elapsed + order[0].burst)
  }

  lemma {:induction false} CostIsTotalPlanned(order: seq<Proc>, elapsed: int)
    ensures Total(Planned(order, elapsed)) == Cost(order, elapsed)
  {
    if order != [] {
      assert Planned(order, elapsed)[1..] == Planned(order[1..], elapsed + order[0].burst);
      CostIsTotalPlanned(order[1..], elapsed + order[0].burst);
    }
  }

  /** The order in which the algorithm picks the processes of a batch. */
  function DrainOrder(algo: Algorithm, q: seq<Proc>): seq<Proc>
    decreases |q|
  {
    if q == [] then []
    else
      var i := SelectIndex(algo, q);
      [q[i]] + DrainOrder(algo, Without(q, i))
  }

  predicate NonPreemptive(algo: Algorithm) {
    algo == FCFS || algo == SJF
  }

  // ---------- aging does not change the order ----------

  lemma {:induction false} BestIgnoresAging(algo: Algorithm, q: seq<Proc>, n: nat)
    requires NonPreemptive(algo) && 0 < n <= |q|
    ensures BestOf(algo, AgeAll(q), n) == BestOf(algo, q, n)
  {
    if n > 1 { BestIgnoresAging(algo, q, n - 1); }
  }

  lemma AgeWithout(q: seq<Proc>, i: nat)
    requires i < |q|
    ensures Without(AgeAll(q), i) == AgeAll(Without(q, i))
  {
  }

  lemma {:induction false} PlanIgnoresAging(algo: Algorithm, q: seq<Proc>, elapsed: int)
    requires NonPreemptive(algo)
    ensures Planned(DrainOrder(algo, AgeAll(q)), elapsed) == Planned(DrainOrder(algo, q), elapsed)
    decreases |q|
  {
    if q != [] {
      BestIgnoresAging(algo, q, |q|);
      var i := SelectIndex(algo, q);
      var rest, agedRest := DrainOrder(algo, Without(q, i)), DrainOrder(algo, AgeAll(Without(q, i)));
      AgeWithout(q, i);
      assert DrainOrder(algo, AgeAll(q)) == [WaitAndAge(q[i])] + agedRest;
      assert DrainOrder(algo, q) == [q[i]] + rest;
      PlanIgnoresAging(algo, Without(q, i), elapsed + q[i].burst);
      PlanCons(q[i], rest, elapsed);
      PlanCons(WaitAndAge(q[i]), agedRest, elapsed);
    }
  }

  lemma PlanCons(p: Proc, rest: seq<Proc>, elapsed: int)
    ensures Planned([p] + rest, elapsed) == [(p.pid, elapsed)] + Planned(rest, elapsed + p.burst)
  {
    assert ([p] + rest)[1..] == rest;
  }

  lemma {:induction false} BurstAged(q: seq<Proc>)
    ensures TotalBurst(AgeAll(q)) == TotalBurst(q)
  {
    if q != [] {
      assert AgeAll(q)[1..] == AgeAll(q[1..]);
      BurstAged(q[1..]);
    }
  }

  lemma {:induction false} BurstWithout(q: seq<Proc>, i: nat)
    requires i < |q|
    ensures TotalBurst(q) == q[i].burst + TotalBurst(Without(q, i))
  {
    if i > 0 {
      BurstWithout(q[1..], i - 1);
      assert Without(q, i) == [q[0]] + Without(q[1..], i - 1);
      assert Without(q, i)[1..] == Without(q[1..], i - 1);
    } else {
      assert Without(q, 0) == q[1..];
    }
  }

  lemma {:induction false} BurstNonNegative(q: seq<Proc>, waited: int)
    requires Untouched(q, waited)
    ensures TotalBurst(q) >= 0
  {
    if q != [] {
      assert q[0] in q;
      BurstNonNegative(q[1..], waited);
    }
  }

  // ---------- the machine follows the plan ----------

  predicate Affordable(p: Proc) {
    p.burst > 0 && p.remaining >= 1 && (p.budget <= 0 || p.execTicks + p.remaining <= p.budget)
  }

  /** Processes that have waited `waited` ticks and not run yet. */
  predicate Untouched(q: seq<Proc>, waited: int) {
    forall p :: p in q ==> Affordable(p) && p.remaining == p.burst && p.waiting == waited
  }

  /** The running process `c` still needs some ticks; the rest have not run. */
  predicate Draining(s: Sched, c: Proc, waited: int) {
    NonPreemptive(s.algorithm) && s.current == Some(c) && Affordable(c) && Untouched(s.ready, waited)
  }

  lemma UntouchedAges(q: seq<Proc>, waited: int)
    requires Untouched(q, waited)
    ensures Untouched(AgeAll(q), waited + 1)
  {
    AgedMembers(q);
  }

  /** A tick that does not complete the running process. */
  lemma KeepsRunning(s: Sched, c: Proc, waited: int, n: nat) returns (s': Sched)
    requires Draining(s, c, waited) && c.remaining > 1 && n > 0
    ensures Drain(s, n) == Drain(s', n - 1)
    ensures Draining(s', Ran(c), waited + 1) && s'.ready == AgeAll(s.ready) && s'.algorithm == s.algorithm
  {
    UntouchedAges(s.ready, waited);
    s' := Tick(s, s.tick + 1).s;
    assert Listed(None) + Drain(s', n - 1).1 == Drain(s', n - 1).1;
  }

  /** The tick that completes the running process frees the CPU for dispatching. */
  lemma Completes(s: Sched, c: Proc, waited: int) returns (free: Sched, f: Proc)
    requires Draining(s, c, waited) && c.remaining == 1
    ensures f.pid == c.pid && f.waiting == c.waiting
    ensures free.current.None? && free.ready == AgeAll(s.ready) && free.algorithm == s.algorithm
    ensures Tick(s, s.tick + 1) == Outcome(Dispatch(free), Some(f), None)
  {
    hide Dispatch;
    free := s.(tick := s.tick + 1, ready := AgeAll(s.ready), current := None, quantumTicks := 0);
    f := Tick(s, s.tick + 1).finished.value;
  }

  /** Dispatching from a batch of untouched processes. */
  lemma Dispatches(s: Sched, waited: int) returns (s': Sched, c: Proc)
    requires NonPreemptive(s.algorithm) && s.current.None? && s.ready != [] && Untouched(s.ready, waited)
    ensures s' == Dispatch(s)
    ensures Draining(s', c, waited) && s'.algorithm == s.algorithm && c.waiting == waited
    ensures c.remaining + TotalBurst(s'.ready) == TotalBurst(s.ready)
    ensures Planned(DrainOrder(s.algorithm, s.ready), waited) ==
            [(c.pid, waited)] + Planned(DrainOrder(s.algorithm, s'.ready), waited + c.remaining)
  {
    hide BestOf, SelectIndex;
    var i := SelectIndex(s.algorithm, s.ready);
    c := s.ready[i].(status := Running);
    s' := Dispatch(s);
    assert s.ready[i] in s.ready;
    BurstWithout(s.ready, i);
    PlanCons(s.ready[i], DrainOrder(s.algorithm, Without(s.ready, i)), waited);
  }

  lemma LedgerCons(p: Proc, rest: seq<Proc>)
    ensures Ledger([p] + rest) == [(p.pid, p.waiting)] + Ledger(rest)
  {
    assert ([p] + rest)[1..] == rest;
  }

  /** Draining an idle machine that holds a batch. */
  lemma {:induction false} DrainFromIdle(s: Sched, waited: int, n: nat)
    requires NonPreemptive(s.algorithm) && s.current.None? && Untouched(s.ready, waited) && n == TotalBurst(s.ready)
    ensures var (last, done) := Drain(Dispatch(s), n);
      && last.current.None? && last.ready == []
      && Ledger(done) == Planned(DrainOrder(s.algorithm, s.ready), waited)
    decreases n, 1
  {
    if s.ready != [] {
      var s', c := Dispatches(s, waited);
      DrainFollowsPlan(s', c, waited, n);
    }
  }

  lemma {:induction false} DrainFollowsPlan(s: Sched, c: Proc, waited: int, n: nat)
    requires Draining(s, c, waited) && n == c.remaining + TotalBurst(s.ready)
    ensures var (last, done) := Drain(s, n);
      && last.current.None? && last.ready == []
      && Ledger(done) == [(c.pid, c.waiting)] + Planned(DrainOrder(s.algorithm, s.ready), waited + c.remaining)
    decreases n, 0
  {
    hide Tick, Dispatch, Planned, DrainOrder, TotalBurst;
    BurstNonNegative(s.ready, waited);
    BurstAged(s.ready);
    PlanIgnoresAging(s.algorithm, s.ready, waited + c.remaining);
    if c.remaining > 1 {
      var s' := KeepsRunning(s, c, waited, n);
      DrainFollowsPlan(s', Ran(c), waited + 1, n - 1);
    } else {
      var free, f := Completes(s, c, waited);
      UntouchedAges(s.ready, waited);
      DrainFromIdle(free, waited + 1, n - 1);
      LedgerCons(f, Drain(Dispatch(free), n - 1).1);
    }
  }

  /** The first tick of an idle machine only ages the batch and dispatches from it. */
  lemma FirstTick(s: Sched, n: nat) returns (aged: Sched)
    requires s.current.None? && n > 0
    ensures aged.current.None? && aged.ready == AgeAll(s.ready) && aged.algorithm == s.algorithm
    ensures Drain(s, n) == Drain(Dispatch(aged), n - 1)
  {
    aged := s.(tick := s.tick + 1, ready := AgeAll(s.ready));
    var rest := Drain(Dispatch(aged), n - 1).1;
    assert Listed(None) + rest == rest;
  }

  /** What the first tick leaves to be done. */
  lemma AfterFirstTick(s: Sched) returns (aged: Sched)
    requires NonPreemptive(s.algorithm) && s.current.None? && Untouched(s.ready, 0)
    ensures 0 <= TotalBurst(s.ready) == TotalBurst(aged.ready)
    ensures aged.algorithm == s.algorithm && aged.current.None? && Untouched(aged.ready, 1)
    ensures Drain(s, 1 + TotalBurst(s.ready)) == Drain(Dispatch(aged), TotalBurst(s.ready))
    ensures Planned(DrainOrder(s.algorithm, aged.ready), 1) == Planned(DrainOrder(s.algorithm, s.ready), 1)
  {
    BurstNonNegative(s.ready, 0);
    BurstAged(s.ready);
    UntouchedAges(s.ready, 0);
    PlanIgnoresAging(s.algorithm, s.ready, 1);
    hide *;
    aged := FirstTick(s, 1 + TotalBurst(s.ready));
  }

  /** An idle machine given a batch completes it in the planned order, each
      process having waited one tick plus the bursts of those before it. */
  lemma BatchFollowsPlan(s: Sched)
    requires NonPreemptive(s.algorithm) && s.current.None? && Untouched(s.ready, 0)
    ensures TotalBurst(s.ready) >= 0
    ensures var (last, done) := Drain(s, 1 + TotalBurst(s.ready));
      && last.current.None? && last.ready == []
      && Ledger(done) == Planned(DrainOrder(s.algorithm, s.ready), 1)
      && Total(Ledger(done)) == Cost(DrainOrder(s.algorithm, s.ready), 1)
  {
    hide *;
    var aged := AfterFirstTick(s);
    CostIsTotalPlanned(DrainOrder(s.algorithm, s.ready), 1);
    DrainFromIdle(aged, 1, TotalBurst(s.ready));
  }

  // ---------- the exchange argument ----------

  lemma CostCons(p: Proc, rest: seq<Proc>, elapsed: int)
    ensures Cost([p] + rest, elapsed) == elapsed + Cost(rest, elapsed + p.burst)
  {
    assert ([p] + rest)[1..] == rest;
  }

  /** Moving a shortest process to the front never costs more. */
  lemma {:induction false} ShortestToFront(order: seq<Proc>, j: nat, elapsed: int)
    requires j < |order| && forall k :: 0 <= k < |order| ==> order[j].burst <= order[k].burst
    ensures Cost([order[j]] + Without(order, j), elapsed) <= Cost(order, elapsed)
  {
    var m := order[j];
    if j == 0 {
      assert [m] + Without(order, 0) == order;
    } else {
      var a, rest := order[0], order[1..];
      ShortestToFront(rest, j - 1, elapsed + a.burst);
      var w := Without(rest, j - 1);
      assert Without(order, j) == [a] + w;
      CostCons(m, w, elapsed + a.burst);
      CostCons(m, [a] + w, elapsed);
      CostCons(a, w, elapsed + m.burst);
    }
  }

  lemma MultisetWithout<T>(q: seq<T>, i: nat)
    requires i < |q|
    ensures multiset(Without(q, i)) == multiset(q) - multiset{q[i]}
  {
    assert q == q[..i] + [q[i]] + q[i + 1..];
  }

  /** The process SJF picks from a batch sits somewhere in any order of it, and
      nobody there is shorter. */
  lemma FindShortest(q: seq<Proc>, order: seq<Proc>) returns (j: nat)
    requires q != [] && multiset(q) == multiset(order)
    requires forall p :: p in q ==> p.burst > 0
    ensures j < |order| && order[j] == q[SelectIndex(SJF, q)]
    ensures forall k :: 0 <= k < |order| ==> order[j].burst <= order[k].burst
  {
    var i := SelectIndex(SJF, q);
    SelectedIsBest(SJF, q);
    hide SelectIndex;
    assert q[i] in multiset(order);
    j :| 0 <= j < |order| && order[j] == q[i];
    forall k | 0 <= k < |order| ensures order[j].burst <= order[k].burst {
      assert order[k] in multiset(q);
      var k' :| 0 <= k' < |q| && q[k'] == order[k];
      assert !Prefers(SJF, q[k'], q[i]);
      assert q[k'] in q && q[i] in q;
    }
  }

  lemma {:induction false} ShortestFirstIsCheapest(q: seq<Proc>, order: seq<Proc>, elapsed: int)
    requires multiset(q) == multiset(order)
    requires forall p :: p in q ==> p.burst > 0
    ensures Cost(DrainOrder(SJF, q), elapsed) <= Cost(order, elapsed)
    decreases |q|
  {
    if q == [] {
      assert |order| == |multiset(order)| == 0;
    } else {
      var i := SelectIndex(SJF, q);
      var j := FindShortest(q, order);
      ShortestToFront(order, j, elapsed);
      CostCons(q[i], DrainOrder(SJF, Without(q, i)), elapsed);
      CostCons(q[i], Without(order, j), elapsed);
      hide SelectIndex, Cost;
      MultisetWithout(q, i);
      MultisetWithout(order, j);
      forall p | p in Without(q, i) ensures p.burst > 0 {
        assert p in multiset(Without(q, i));
        assert p in multiset(q);
      }
      hide Without;
      ShortestFirstIsCheapest(Without(q, i), Without(order, j), elapsed + q[i].burst);
    }
  }

  // ---------- every order is one the machine can run ----------

  /** The batch with arrival ticks that make first-come-first-served run it in
      the given order. */
  function Arranged(order: seq<Proc>, tick: int): seq<Proc> {
    if order == [] then [] else [order[0].(arrival := tick)] + Arranged(order[1..], tick + 1)
  }

  lemma {:induction false} ArrangedFacts(order: seq<Proc>, tick: int)
    ensures |Arranged(order, tick)| == |order|
    ensures forall k :: 0 <= k < |order| ==> Arranged(order, tick)[k] == order[k].(arrival := tick + k)
  {
    if order != [] { ArrangedFacts(order[1..], tick + 1); }
  }

  lemma {:induction false} ArrangedIsRunInOrder(order: seq<Proc>, tick: int)
    ensures DrainOrder(FCFS, Arranged(order, tick)) == Arranged(order, tick)
  {
    if order != [] {
      var q := Arranged(order, tick);
      ArrangedFacts(order, tick);
      var i := SelectIndex(FCFS, q);
      SelectedIsBest(FCFS, q);
      assert !Prefers(FCFS, q[0], q[i]);
      assert Without(q, 0) == Arranged(order[1..], tick + 1);
      ArrangedIsRunInOrder(order[1..], tick + 1);
    }
  }

  lemma {:induction false} ArrangedCost(order: seq<Proc>, tick: int, elapsed: int)
    ensures Cost(Arranged(order, tick), elapsed) == Cost(order, elapsed)
    ensures TotalBurst(Arranged(order, tick)) == TotalBurst(order)
  {
    if order != [] { ArrangedCost(order[1..], tick + 1, elapsed + order[0].burst); }
  }

  lemma ArrangedStaysUntouched(batch: seq<Proc>, order: seq<Proc>, tick: int)
    requires Untouched(batch, 0) && multiset(batch) == multiset(order)
    ensures Untouched(Arranged(order, tick), 0)
  {
    ArrangedFacts(order, tick);
    hide Arranged;
    forall p | p in Arranged(order, tick) ensures Affordable(p) && p.remaining == p.burst && p.waiting == 0 {
      var k :| 0 <= k < |order| && Arranged(order, tick)[k] == p;
      assert order[k] in multiset(batch);
    }
  }

  // ---------- the theorem ----------

  /** Both machines drain the batch; the shortest-job-first one with no more
      total waiting time than the one that runs it in `order`, for every order. */
  lemma ShortestJobFirstIsOptimal(batch: seq<Proc>, order: seq<Proc>, quantum: int, tick: int)
    requires Untouched(batch, 0) && multiset(batch) == multiset(order)
    ensures TotalBurst(batch) >= 0 && TotalBurst(order) >= 0
    ensures
      var sjf := Drain(Sched(SJF, quantum, batch, None, tick, 0), 1 + TotalBurst(batch));
      var other := Drain(Sched(FCFS, quantum, Arranged(order, 1), None, tick, 0), 1 + TotalBurst(order));
      && sjf.0.ready == [] && sjf.0.current.None? && other.0.ready == [] && other.0.current.None?
      && Ledger(other.1) == Planned(Arranged(order, 1), 1)
      && Total(Ledger(sjf.1)) <= Total(Ledger(other.1))
  {
    hide Drain, DrainOrder, Planned, Cost, Ledger, Total, TotalBurst, Arranged;
    assert forall p :: p in batch ==> p.burst > 0;
    BatchFollowsPlan(Sched(SJF, quantum, batch, None, tick, 0));
    hide Untouched;
    AnyOrderRuns(batch, order, quantum, tick);
    ShortestFirstIsCheapest(batch, order, 1);
  }

  /** The first-come machine runs the batch in the chosen order. */
  lemma AnyOrderRuns(batch: seq<Proc>, order: seq<Proc>, quantum: int, tick: int)
    requires Untouched(batch, 0) && multiset(batch) == multiset(order)
    ensures TotalBurst(order) >= 0
    ensures var other := Drain(Sched(FCFS, quantum, Arranged(order, 1), None, tick, 0), 1 + TotalBurst(order));
      && other.0.ready == [] && other.0.current.None?
      && Ledger(other.1) == Planned(Arranged(order, 1), 1) && Total(Ledger(other.1)) == Cost(order, 1)
  {
    hide Drain, DrainOrder, Planned, Cost, Ledger, Total, TotalBurst, Arranged, Untouched;
    ArrangedStaysUntouched(batch, order, 1);
    BatchFollowsPlan(Sched(FCFS, quantum, Arranged(order, 1), None, tick, 0));
    ArrangedIsRunInOrder(order, 1);
    ArrangedCost(order, 1, 1);
  }
}
