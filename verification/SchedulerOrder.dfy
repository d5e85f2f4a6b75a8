/** The selection rules in terms of the process fields, and what the first-come
    rule means for a whole batch. */
module SchedulerOrder {
  import opened Prelude
  import opened SchedulerModel
  import opened SchedulerShortestFirst

  // ---------- one selection ----------

  /** First come, first served: earliest arrival, then lowest pid, then place in the queue. */
  lemma FirstComeIsSelected(q: seq<Proc>)
    requires q != []
    ensures var r := SelectIndex(FCFS, q);
      forall j :: 0 <= j < |q| ==>
        || q[r].arrival < q[j].arrival
        || (q[r].arrival == q[j].arrival && (q[r].pid < q[j].pid || (q[r].pid == q[j].pid && r <= j)))
  {
    SelectedIsBest(FCFS, q);
  }

  /** Shortest job first: shortest burst, an unknown burst after every known one,
      then earliest arrival, then place in the queue. */
  lemma ShortestIsSelected(q: seq<Proc>)
    requires q != []
    ensures var r := SelectIndex(SJF, q);
      forall j :: 0 <= j < |q| ==>
        var earlier := q[r].arrival < q[j].arrival || (q[r].arrival == q[j].arrival && r <= j);
        if q[r].burst <= 0 then q[j].burst <= 0 && earlier
        else q[j].burst <= 0 || q[r].burst < q[j].burst || (q[r].burst == q[j].burst && earlier)
  {
    SelectedIsBest(SJF, q);
  }

  /** Priority: highest priority, then earliest arrival, then place in the queue. */
  lemma HighestPriorityIsSelected(q: seq<Proc>)
    requires q != []
    ensures var r := SelectIndex(PRIO, q);
      forall j :: 0 <= j < |q| ==>
        || q[r].priority > q[j].priority
        || (q[r].priority == q[j].priority
            && (q[r].arrival < q[j].arrival || (q[r].arrival == q[j].arrival && r <= j)))
  {
    SelectedIsBest(PRIO, q);
  }

  // ---------- a first-come batch ----------

  /** `a` came before `b`, or at the same tick with a lower pid. */
  predicate CameBefore(a: Proc, b: Proc) {
    a.arrival < b.arrival || (a.arrival == b.arrival && a.pid < b.pid)
  }

  lemma {:induction false} DrainOrderIsPermutation(algo: Algorithm, q: seq<Proc>)
    ensures multiset(DrainOrder(algo, q)) == multiset(q)
    decreases |q|
  {
    if q != [] {
      var i := SelectIndex(algo, q);
      DrainOrderIsPermutation(algo, Without(q, i));
      MultisetWithout(q, i);
      assert q[i] in multiset(q);
      hide SelectIndex;
    }
  }

  /** Whoever is selected came before everyone left in the queue. */
  lemma SelectedCameFirst(q: seq<Proc>, p: Proc)
    requires DistinctPids(q) && q != [] && p in Without(q, SelectIndex(FCFS, q))
    ensures CameBefore(q[SelectIndex(FCFS, q)], p)
  {
    var r := SelectIndex(FCFS, q);
    FirstComeIsSelected(q);
    hide SelectIndex;
    WithoutFacts(q, r);
    hide Without;
    var k :| 0 <= k < |q| && q[k] == p;
  }

  /** Whoever stands earlier in the drain order came earlier. */
  lemma {:induction false} DrainOrderFollowsArrival(q: seq<Proc>, i: nat, j: nat)
    requires DistinctPids(q) && i < j < |DrainOrder(FCFS, q)|
    ensures CameBefore(DrainOrder(FCFS, q)[i], DrainOrder(FCFS, q)[j])
    decreases |q|
  {
    var r := SelectIndex(FCFS, q);
    var left := Without(q, r);
    var rest := DrainOrder(FCFS, left);
    assert DrainOrder(FCFS, q) == [q[r]] + rest;
    hide DrainOrder, SelectIndex, CameBefore;
    WithoutFacts(q, r);
    hide Without;
    if i > 0 {
      DrainOrderFollowsArrival(left, i - 1, j - 1);
    } else {
      DrainOrderIsPermutation(FCFS, left);
      assert rest[j - 1] in multiset(left);
      SelectedCameFirst(q, rest[j - 1]);
    }
  }

  lemma {:induction false} PlannedPids(order: seq<Proc>, elapsed: int)
    ensures |Planned(order, elapsed)| == |order|
    ensures forall k :: 0 <= k < |order| ==> Planned(order, elapsed)[k].0 == order[k].pid
  {
    if order != [] { PlannedPids(order[1..], elapsed + order[0].burst); }
  }

  /** A first-come machine completes the processes of a batch in the order of
      their arrival, those of one tick in the order of their pids. */
  lemma FirstComeCompletesFirst(s: Sched, a: Proc, b: Proc) returns (i: nat, j: nat)
    requires s.algorithm == FCFS && s.current.None? && Untouched(s.ready, 0) && DistinctPids(s.ready)
    requires a in s.ready && b in s.ready
    requires a.arrival < b.arrival || (a.arrival == b.arrival && a.pid < b.pid)
    ensures TotalBurst(s.ready) >= 0
    ensures var completed := Ledger(Drain(s, 1 + TotalBurst(s.ready)).1);
      i < j < |completed| == |s.ready| && completed[i].0 == a.pid && completed[j].0 == b.pid
  {
    var order := DrainOrder(FCFS, s.ready);
    BatchFollowsPlan(s);
    PlannedPids(order, 1);
    DrainOrderIsPermutation(FCFS, s.ready);
    assert |order| == |multiset(order)| == |s.ready|;
    assert a in multiset(order) && b in multiset(order);
    hide DrainOrder, Drain, Planned, Untouched, Ledger, TotalBurst;
    i :| 0 <= i < |order| && order[i] == a;
    j :| 0 <= j < |order| && order[j] == b;
    if j < i { DrainOrderFollowsArrival(s.ready, j, i); }
  }

  /** Processes enqueued on one tick complete in increasing pid order. */
  lemma SameTickCompletesByPid(s: Sched, tick: int, i: nat, j: nat)
    requires s.algorithm == FCFS && s.current.None? && Untouched(s.ready, 0) && DistinctPids(s.ready)
    requires forall p :: p in s.ready ==> p.arrival == tick
    requires i < j < |s.ready|
    ensures TotalBurst(s.ready) >= 0
    ensures var completed := Ledger(Drain(s, 1 + TotalBurst(s.ready)).1);
      |completed| == |s.ready| && completed[i].0 < completed[j].0
  {
    var order := DrainOrder(FCFS, s.ready);
    BatchFollowsPlan(s);
    PlannedPids(order, 1);
    DrainOrderIsPermutation(FCFS, s.ready);
    assert |order| == |multiset(order)| == |s.ready|;
    DrainOrderFollowsArrival(s.ready, i, j);
    hide DrainOrder, Drain, Planned, Untouched, Ledger, TotalBurst;
    assert order[i] in multiset(order) && order[j] in multiset(order);
    assert order[i] in s.ready && order[j] in s.ready;
  }
}
