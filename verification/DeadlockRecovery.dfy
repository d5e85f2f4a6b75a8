/** Deadlock recovery: killing a victim removes it from the wait-for graph for
    good, and repeating detection and recovery ends in a graph without cycles. */
module DeadlockRecovery {
  import opened Prelude
  import opened ResourceModel
  import opened ResourceConservation
  import opened ResourceRuns
  import G = WaitGraph

  // ---------- the wait-for graph of a manager ----------

  /** Whom `u` waits for: the other holders of the resources it waits for. */
  function WaitsOn(d: Dlm, u: int): set<int> {
    set rid, v | rid in d.resources && u in d.resources[rid].waitedBy && v in d.resources[rid].heldBy && v != u :: v
  }

  function Waiters(d: Dlm): set<int> {
    set rid, u | rid in d.resources && u in d.resources[rid].waitedBy :: u
  }

  function Holders(d: Dlm): set<int> {
    set rid, v | rid in d.resources && v in d.resources[rid].heldBy :: v
  }

  function WaitFor(d: Dlm): G.Graph {
    map u | u in Waiters(d) && WaitsOn(d, u) != {} :: WaitsOn(d, u)
  }

  /** The processes in the graph. */
  function Procs(d: Dlm): set<int> {
    Waiters(d) + Holders(d)
  }

  lemma EdgesAreWaits(d: Dlm, u: int, v: int)
    ensures G.Edge(WaitFor(d), u, v) <==>
            u != v && exists rid :: rid in d.resources && u in d.resources[rid].waitedBy && v in d.resources[rid].heldBy
    ensures G.Edge(WaitFor(d), u, v) ==> u in Procs(d) && v in Procs(d)
  {
    assert v in WaitsOn(d, u) <==>
           u != v && exists rid :: rid in d.resources && u in d.resources[rid].waitedBy && v in d.resources[rid].heldBy;
  }

  /** Every process on a cycle waits. */
  lemma CycleNodesWait(d: Dlm, c: seq<int>)
    ensures G.IsCycle(WaitFor(d), c) ==> c != [] && forall p :: p in c ==> p in Waiters(d)
  {
    if G.IsCycle(WaitFor(d), c) {
      forall i | 0 <= i < |c| ensures c[i] in Waiters(d) {
        assert G.Edge(WaitFor(d), c[i], if i + 1 < |c| then c[i + 1] else c[0]);
      }
    }
  }

  // ---------- the victim ----------

  function PriorityOf(d: Dlm, p: int): int {
    Get(d.priority, p, DEFAULT_PRIORITY)
  }

  /** `a` is a better victim than `b`: a lower priority, then a higher pid. */
  predicate BetterVictim(d: Dlm, a: int, b: int) {
    PriorityOf(d, a) < PriorityOf(d, b) || (PriorityOf(d, a) == PriorityOf(d, b) && a > b)
  }

  predicate IsVictim(d: Dlm, cycle: seq<int>, v: int) {
    v in cycle && forall p :: p in cycle ==> !BetterVictim(d, p, v)
  }

  /** Every cycle has exactly one victim: of its processes with the lowest priority
      the one with the highest pid. */
  lemma VictimIsLowest(d: Dlm, cycle: seq<int>, v: int)
    ensures IsVictim(d, cycle, v) <==>
            v in cycle &&
            forall p :: p in cycle && p != v ==>
              var lowest := if v in d.priority then d.priority[v] else 5;
              var other := if p in d.priority then d.priority[p] else 5;
              lowest < other || (lowest == other && p < v)
  {
    if IsVictim(d, cycle, v) {
      forall p | p in cycle && p != v
        ensures PriorityOf(d, v) < PriorityOf(d, p) || (PriorityOf(d, v) == PriorityOf(d, p) && p < v)
      {
        assert !BetterVictim(d, p, v);
      }
    }
  }

  // ---------- queues in any run ----------

  /** Nobody stands twice in one queue. */
  ghost predicate SingleQueues(d: Dlm) {
    forall rid :: rid in d.resources ==> Distinct(d.resources[rid].waitedBy)
  }

  /** The queue was served from the front, and nobody holds that did not hold or
      wait before. */
  ghost predicate ServedRes(r: Res, r': Res) {
    && Suffix(r'.waitedBy, r.waitedBy)
    && (forall p :: p in r'.heldBy ==> p in r.heldBy || p in r.waitedBy)
  }

  ghost predicate Served(d: Dlm, d': Dlm) {
    && d'.resources.Keys == d.resources.Keys
    && (forall rid :: rid in d.resources ==> ServedRes(d.resources[rid], d'.resources[rid]))
  }

  predicate Suffix(a: seq<int>, b: seq<int>) {
    |a| <= |b| && a == b[|b| - |a|..]
  }

  lemma {:induction false} RemoveFirstOnlyRemoves(q: seq<int>, x: int)
    ensures forall p :: p in RemoveFirst(q, x) ==> p in q
  {
    if q != [] { RemoveFirstOnlyRemoves(q[1..], x); }
  }

  lemma ReturnedServes(r: Res, v: int, last: bool)
    ensures ServedRes(r, r) && ServedRes(r, Returned(r, v, last))
  {
    RemoveFirstOnlyRemoves(r.heldBy, v);
  }

  lemma HandedOnServes(r: Res)
    requires r.waitedBy != []
    ensures ServedRes(r, Taken(Popped(r), r.waitedBy[0]))
  {
    assert Popped(r).waitedBy == r.waitedBy[1..];
  }

  lemma ServedResTwice(a: Res, b: Res, c: Res)
    requires ServedRes(a, b) && ServedRes(b, c)
    ensures ServedRes(a, c)
  {
  }

  /** What a release makes of the resource, when `last` says that it was the last unit. */
  function ReleasedRes(r: Res, v: int, last: bool): Res {
    if v !in r.heldBy then r
    else
      var back := Returned(r, v, last);
      if back.waitedBy != [] && back.available > 0 then Taken(Popped(back), back.waitedBy[0]) else back
  }

  lemma ReleaseOnResource(d: Dlm, v: int, rid: string, other: string)
    requires other in d.resources
    ensures Release(d, v, rid).resources.Keys == d.resources.Keys
    ensures Release(d, v, rid).resources[other] ==
            if other == rid then ReleasedRes(d.resources[rid], v, UnitsLeft(d.held, v, rid) <= 0)
            else d.resources[other]
  {
    hide UnitsLeft, CountedDown, Taken, Returned, Popped;
  }

  lemma ReleasedServes(r: Res, v: int, last: bool)
    ensures ServedRes(r, r) && ServedRes(r, ReleasedRes(r, v, last))
  {
    ReturnedServes(r, v, last);
    var back := Returned(r, v, last);
    hide ServedRes, Returned, Taken, Popped;
    if v in r.heldBy && back.waitedBy != [] && back.available > 0 {
      HandedOnServes(back);
      ServedResTwice(r, back, Taken(Popped(back), back.waitedBy[0]));
    }
  }

  lemma ReleaseServes(d: Dlm, v: int, rid: string)
    ensures Served(d, Release(d, v, rid))
  {
    var d', last := Release(d, v, rid), UnitsLeft(d.held, v, rid) <= 0;
    assert d'.resources.Keys == d.resources.Keys;
    forall other | other in d.resources ensures ServedRes(d.resources[other], d'.resources[other]) {
      ReleaseOnResource(d, v, rid, other);
      hide Release, ReleasedRes, ServedRes;
      ReleasedServes(d.resources[other], v, last);
    }
  }

  lemma ServedTwice(a: Dlm, b: Dlm, c: Dlm)
    requires Served(a, b) && Served(b, c)
    ensures Served(a, c)
  {
    forall rid | rid in a.resources ensures ServedRes(a.resources[rid], c.resources[rid]) {
      hide ServedRes;
      ServedResTwice(a.resources[rid], b.resources[rid], c.resources[rid]);
    }
  }

  lemma {:induction false} ReleaseEachServes(d: Dlm, v: int, order: seq<string>)
    ensures Served(d, ReleaseEach(d, v, order))
    decreases |order|
  {
    if order != [] {
      hide Release, Served;
      ReleaseServes(d, v, order[0]);
      ReleaseEachServes(Release(d, v, order[0]), v, order[1..]);
      ServedTwice(d, Release(d, v, order[0]), ReleaseEach(d, v, order));
    }
  }

  /** Whatever happens, in whatever order `release_all` walks, and however often
      a process requests the same resource. */
  lemma StepKeepsSingleQueues(d: Dlm, e: Event)
    requires SingleQueues(d)
    ensures SingleQueues(Step(d, e))
  {
    match e
    case Released(pid, rid) =>
      ReleaseServes(d, pid, rid);
      hide Release;
      forall r | r in d.resources ensures Distinct(Release(d, pid, rid).resources[r].waitedBy) {
        assert ServedRes(d.resources[r], Release(d, pid, rid).resources[r]);
      }
    case AllReleased(pid, order) => ReleaseAllShrinksQueues(d, pid, order);
    case Requested(pid, rid, priority) => hide Inherit;
    case _ =>
  }

  lemma ReleaseAllShrinksQueues(d: Dlm, v: int, order: seq<string>)
    requires SingleQueues(d)
    ensures var d' := ReleaseAll(d, v, order);
      && d'.resources.Keys == d.resources.Keys
      && SingleQueues(d')
      && (forall rid :: rid in d.resources ==> v !in d'.resources[rid].waitedBy)
      && (forall rid, p :: rid in d.resources && p in d'.resources[rid].waitedBy ==> p in d.resources[rid].waitedBy)
      && (forall rid, p :: rid in d.resources && p in d'.resources[rid].heldBy ==>
            p in d.resources[rid].heldBy || p in d.resources[rid].waitedBy)
  {
    var mid := ReleaseEach(d, v, order);
    ReleaseEachServes(d, v, order);
    hide ReleaseEach;
    forall rid | rid in d.resources
      ensures Distinct(RemoveFirst(mid.resources[rid].waitedBy, v))
      ensures forall p :: p in RemoveFirst(mid.resources[rid].waitedBy, v) ==> p != v && p in d.resources[rid].waitedBy
    {
      assert ServedRes(d.resources[rid], mid.resources[rid]);
      RemoveFirstFacts(mid.resources[rid].waitedBy, v);
    }
  }

  /** In every reachable state, also after repeated requests, nobody stands twice
      in one queue. */
  lemma {:induction false} EveryRunQueuesOnce(d: Dlm, es: seq<Event>)
    requires SingleQueues(d)
    ensures SingleQueues(Run(d, es))
    decreases |es|
  {
    hide SingleQueues, Step;
    if es != [] {
      StepKeepsSingleQueues(d, es[0]);
      EveryRunQueuesOnce(Step(d, es[0]), es[1..]);
    }
  }

  // ---------- the victim leaves ----------

  /** After recovery the victim waits for nothing, although its units may have
      been handed on; nobody starts to wait, and nobody enters the graph. */
  lemma VictimLeaves(d: Dlm, v: int, order: seq<string>)
    requires SingleQueues(d)
    ensures var d' := ReleaseAll(d, v, order);
      && SingleQueues(d')
      && Waiters(d') <= Waiters(d) - {v}
      && Procs(d') <= Procs(d)
  {
    ReleaseAllShrinksQueues(d, v, order);
    hide ReleaseAll;
  }

  /** While all units are accounted for, the victim is out of every table exactly when
      it held one unit of each of its resources and headed the queue of none of them. */
  lemma ConservedVictimLeavesIff(d: Dlm, v: int, order: seq<string>)
    requires Inv(d) && Lists(order, d, v)
    ensures v !in Procs(ReleaseAll(d, v, order)) <==> CleanHolder(d, v)
  {
    var d' := ReleaseAll(d, v, order);
    ReleaseAllFrame(d, v, order);
    forall rid | rid in d.resources
      ensures v !in d'.resources[rid].waitedBy
      ensures v in d'.resources[rid].heldBy <==>
              v in d.held && rid in d.held[v] &&
              !(d.held[v][rid] == 1 && !(d.resources[rid].waitedBy != [] && d.resources[rid].waitedBy[0] == v))
    {
      assert Conserved(CellOf(d, rid));
      ReleaseAllOnCells(d, v, order, rid);
      EraseLeavesIff(CellOf(d, rid), v);
      hide ReleaseAll, Erase, Conserved;
    }
    hide ReleaseAll;
  }

  lemma EraseLeavesIff(c: Cell, pid: int)
    requires Conserved(c)
    ensures pid !in Erase(c, pid).r.waitedBy
    ensures pid in Erase(c, pid).r.heldBy <==>
            pid in c.count && !(c.count[pid] == 1 && !(c.r.waitedBy != [] && c.r.waitedBy[0] == pid))
  {
    GiveAndPassConserves(c, pid);
    RemoveFirstFacts(GiveAndPass(c, pid).r.waitedBy, pid);
    hide GiveAndPass;
  }

  /** No cycle through the victim is left. */
  lemma VictimIsOnNoCycle(d: Dlm, v: int, order: seq<string>, c: seq<int>)
    requires SingleQueues(d) && v in c
    ensures !G.IsCycle(WaitFor(ReleaseAll(d, v, order)), c)
  {
    VictimLeaves(d, v, order);
    var d' := ReleaseAll(d, v, order);
    hide ReleaseAll;
    CycleNodesWait(d', c);
  }

  /** The death event that follows the kill changes nothing more. */
  lemma SecondReleaseAllIsIdle(d: Dlm, v: int, order: seq<string>)
    requires SingleQueues(d)
    ensures var d' := ReleaseAll(d, v, order);
      Lists([], d', v) && ReleaseAll(d', v, []) == d'
  {
    ReleaseAllShrinksQueues(d, v, order);
    var d' := ReleaseAll(d, v, order);
    assert v !in d'.held && v !in d'.priority && v !in d'.base;
    hide ReleaseEach;
    forall rid | rid in d'.resources ensures RemoveFirst(d'.resources[rid].waitedBy, v) == d'.resources[rid].waitedBy {
      RemoveFirstFacts(d'.resources[rid].waitedBy, v);
    }
  }

  // ---------- without repeated requests ----------

  ghost predicate Sound(d: Dlm) { Inv(d) && Disciplined(d) }

  /** Where nobody requests what it holds, the victim also holds nothing any more. */
  lemma DisciplinedVictimLeaves(d: Dlm, v: int, order: seq<string>)
    requires Sound(d) && Lists(order, d, v)
    ensures var d' := ReleaseAll(d, v, order);
      Sound(d') && Procs(d') <= Procs(d) - {v}
  {
    DisciplinedIsClean(d, v);
    ConservedVictimLeavesIff(d, v, order);
    VictimLeaves(d, v, order);
    LegalStepKeepsInv(d, AllReleased(v, order));
    hide ReleaseAll, Procs, Inv, Disciplined, SingleQueues;
  }

  // ---------- rounds of detection and recovery ----------

  /** One victim of each reported cycle is killed, in the reported order. */
  ghost predicate Resolves(d: Dlm, cycles: seq<seq<int>>, d': Dlm)
    decreases |cycles|
  {
    if cycles == [] then d' == d
    else exists v, order ::
      IsVictim(d, cycles[0], v) && Lists(order, d, v) && Resolves(ReleaseAll(d, v, order), cycles[1..], d')
  }

  /** One `auto_resolve`: every cycle of an exact report is resolved. */
  ghost predicate Round(d: Dlm, d': Dlm) {
    exists cycles :: G.ExactReport(WaitFor(d), cycles) && Resolves(d, cycles, d')
  }

  /** Resolving one more cycle at the end. */
  lemma {:induction false} ResolvesSnoc(d: Dlm, cycles: seq<seq<int>>, mid: Dlm, c: seq<int>, v: int,
                                      order: seq<string>)
    requires Resolves(d, cycles, mid) && IsVictim(mid, c, v) && Lists(order, mid, v)
    ensures Resolves(d, cycles + [c], ReleaseAll(mid, v, order))
    decreases |cycles|
  {
    hide ReleaseAll, Lists, IsVictim;
    var d' := ReleaseAll(mid, v, order);
    if cycles == [] {
      assert ([] + [c])[1..] == [];
      assert Resolves(d', [], d');
      assert IsVictim(d, c, v) && Lists(order, d, v) && Resolves(ReleaseAll(d, v, order), ([] + [c])[1..], d');
    } else {
      var w, o :|
        IsVictim(d, cycles[0], w) && Lists(o, d, w) && Resolves(ReleaseAll(d, w, o), cycles[1..], mid);
      ResolvesSnoc(ReleaseAll(d, w, o), cycles[1..], mid, c, v, order);
      assert (cycles + [c])[1..] == cycles[1..] + [c];
      assert IsVictim(d, (cycles + [c])[0], w) && Lists(o, d, w)
             && Resolves(ReleaseAll(d, w, o), (cycles + [c])[1..], d');
    }
  }

  lemma {:induction false} ResolvingShrinks(d: Dlm, cycles: seq<seq<int>>, d': Dlm)
    requires SingleQueues(d) && Resolves(d, cycles, d')
    ensures SingleQueues(d') && Waiters(d') <= Waiters(d) && Procs(d') <= Procs(d)
    ensures forall k :: 0 <= k < |cycles| ==> exists v :: v in cycles[k] && v !in Waiters(d')
    decreases |cycles|
  {
    if cycles != [] {
      var v, order :|
        IsVictim(d, cycles[0], v) && Lists(order, d, v) && Resolves(ReleaseAll(d, v, order), cycles[1..], d');
      VictimLeaves(d, v, order);
      ResolvingShrinks(ReleaseAll(d, v, order), cycles[1..], d');
      assert v in cycles[0] && v !in Waiters(d');
      forall k | 1 <= k < |cycles| ensures exists v :: v in cycles[k] && v !in Waiters(d') {
        assert cycles[k] == cycles[1..][k - 1];
      }
    }
  }

  /** A round that finds a cycle leaves strictly fewer waiting processes and adds
      none to the graph; one that finds none changes nothing. */
  lemma RoundShrinks(d: Dlm, d': Dlm)
    requires SingleQueues(d) && Round(d, d')
    ensures SingleQueues(d') && Procs(d') <= Procs(d)
    ensures if G.Cyclic(WaitFor(d)) then Waiters(d') < Waiters(d) else d' == d
  {
    var cycles :| G.ExactReport(WaitFor(d), cycles) && Resolves(d, cycles, d');
    hide SingleQueues, Procs, Waiters, WaitFor;
    ResolvingShrinks(d, cycles, d');
    G.ReportedIffCyclic(WaitFor(d), cycles);
    if cycles != [] {
      var v :| v in cycles[0] && v !in Waiters(d');
      assert G.SimpleCycle(WaitFor(d), cycles[0]);
      CycleNodesWait(d, cycles[0]);
    }
  }

  /** One round breaks every deadlock that stands by itself: a cycle that has no
      process in common with a different one loses a process for good. */
  lemma RoundBreaksLoneCycles(d: Dlm, d': Dlm, c: seq<int>)
    requires SingleQueues(d) && Round(d, d') && G.IsCycle(WaitFor(d), c)
    requires forall o :: G.IsCycle(WaitFor(d), o) && !(G.NodeSet(o) !! G.NodeSet(c)) ==> G.NodeSet(o) == G.NodeSet(c)
    ensures exists v :: v in c && v in Waiters(d) && v !in Waiters(d')
    ensures !G.IsCycle(WaitFor(d'), c)
  {
    var cycles :| G.ExactReport(WaitFor(d), cycles) && Resolves(d, cycles, d');
    hide SingleQueues, Waiters, WaitFor, G.ExactReport;
    ResolvingShrinks(d, cycles, d');
    var k := G.LoneCycleIsReported(WaitFor(d), cycles, c);
    var v :| v in cycles[k] && v !in Waiters(d');
    assert v in G.NodeSet(c);
    CycleNodesWait(d, c);
    CycleNodesWait(d', c);
  }

  lemma {:induction false} DisciplinedResolvingShrinks(d: Dlm, cycles: seq<seq<int>>, d': Dlm)
    requires Sound(d) && Resolves(d, cycles, d')
    ensures Sound(d') && Procs(d') <= Procs(d)
    ensures cycles != [] ==> exists v :: v in cycles[0] && v !in Procs(d')
    decreases |cycles|
  {
    if cycles != [] {
      var v, order :|
        IsVictim(d, cycles[0], v) && Lists(order, d, v) && Resolves(ReleaseAll(d, v, order), cycles[1..], d');
      DisciplinedVictimLeaves(d, v, order);
      DisciplinedResolvingShrinks(ReleaseAll(d, v, order), cycles[1..], d');
      assert v in cycles[0] && v !in Procs(d');
    }
  }

  /** Where nobody requests what it holds, a round that finds a cycle strictly
      shrinks the set of all processes in the graph. */
  lemma DisciplinedRoundShrinks(d: Dlm, d': Dlm)
    requires Sound(d) && Round(d, d')
    ensures Sound(d')
    ensures G.Cyclic(WaitFor(d)) ==> Procs(d') < Procs(d)
  {
    var cycles :| G.ExactReport(WaitFor(d), cycles) && Resolves(d, cycles, d');
    hide Sound, Procs, WaitFor;
    DisciplinedResolvingShrinks(d, cycles, d');
    G.ReportedIffCyclic(WaitFor(d), cycles);
    if cycles != [] {
      var v :| v in cycles[0] && v !in Procs(d');
      assert G.SimpleCycle(WaitFor(d), cycles[0]);
      CycleNodesWait(d, cycles[0]);
    }
  }

  lemma NoWaiterNoCycle(d: Dlm)
    requires Waiters(d) == {}
    ensures !G.Cyclic(WaitFor(d))
  {
    hide Waiters, WaitFor;
    forall c ensures !G.IsCycle(WaitFor(d), c) { CycleNodesWait(d, c); assert c != [] ==> c[0] in c; }
  }

  /** The states after successive rounds, without new requests in between. */
  ghost predicate Rounds(d: Dlm, later: seq<Dlm>)
    decreases |later|
  {
    later == [] || (Round(d, later[0]) && Rounds(later[0], later[1..]))
  }

  function Last(d: Dlm, later: seq<Dlm>): Dlm {
    if later == [] then d else later[|later| - 1]
  }

  /** As many rounds as there are waiting processes always end without a cycle,
      however the resources came to be held. */
  lemma {:induction false} RecoveryTerminates(d: Dlm, later: seq<Dlm>)
    requires SingleQueues(d) && Rounds(d, later)
    requires |later| >= |Waiters(d)|
    ensures !G.Cyclic(WaitFor(Last(d, later)))
    decreases |later|
  {
    hide SingleQueues, Round, G.Cyclic, WaitFor, Procs, Waiters;
    if later == [] {
      assert Waiters(d) == {};
      NoWaiterNoCycle(d);
    } else {
      RoundShrinks(d, later[0]);
      if G.Cyclic(WaitFor(d)) {
        SmallerSet(Waiters(later[0]), Waiters(d));
        RecoveryTerminates(later[0], later[1..]);
      } else {
        AcyclicStays(d, later);
      }
    }
  }

  lemma {:induction false} AcyclicStays(d: Dlm, later: seq<Dlm>)
    requires SingleQueues(d) && Rounds(d, later) && !G.Cyclic(WaitFor(d))
    ensures !G.Cyclic(WaitFor(Last(d, later)))
    decreases |later|
  {
    hide SingleQueues, Round, G.Cyclic, WaitFor, Procs, Waiters;
    if later != [] {
      RoundShrinks(d, later[0]);
      AcyclicStays(later[0], later[1..]);
    }
  }

  /** In particular from every state a manager can get into. */
  lemma RecoveryTerminatesAfterAnyRun(es: seq<Event>, later: seq<Dlm>)
    requires Rounds(Run(Empty(), es), later)
    requires |later| >= |Waiters(Run(Empty(), es))|
    ensures !G.Cyclic(WaitFor(Last(Run(Empty(), es), later)))
  {
    EveryRunQueuesOnce(Empty(), es);
    RecoveryTerminates(Run(Empty(), es), later);
  }
}
