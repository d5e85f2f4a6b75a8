/** The deadlock manager with its mutable resource records, proved against
    `ResourceModel`, and its detection and recovery against `DeadlockRecovery`. */
module DeadlockCore {
  import opened Prelude
  import opened ResourceModel
  import opened DeadlockRecovery
  import DeadlockDetector
  import G = WaitGraph

  class Resource {
    const total: int
    var available: int
    var heldBy: seq<int>
    var waitedBy: seq<int>

    constructor (total: int)
      ensures Snapshot() == Res(total, total, [], [])
    {
      this.total, available, heldBy, waitedBy := total, total, [], [];
    }

    function Snapshot(): Res
      reads this
    {
      Res(total, available, heldBy, waitedBy)
    }

    method Take(pid: int)
      modifies this
      ensures Snapshot() == Taken(old(Snapshot()), pid)
    {
      available := available - 1;
      if pid !in heldBy { heldBy := heldBy + [pid]; }
    }

    method Return(pid: int, last: bool)
      modifies this
      ensures Snapshot() == Returned(old(Snapshot()), pid, last)
    {
      if last { heldBy := RemoveFirst(heldBy, pid); }
      available := available + 1;
    }

    method Join(pid: int)
      modifies this
      ensures Snapshot() == Joined(old(Snapshot()), pid)
    {
      if pid !in waitedBy { waitedBy := waitedBy + [pid]; }
    }

    method Pop() returns (next: int)
      requires waitedBy != []
      modifies this
      ensures next == old(waitedBy[0]) && Snapshot() == Popped(old(Snapshot()))
    {
      next := waitedBy[0];
      waitedBy := waitedBy[1..];
    }

    method Leave(pid: int)
      modifies this
      ensures Snapshot() == Left(old(Snapshot()), pid)
    {
      waitedBy := RemoveFirst(waitedBy, pid);
    }
  }

  function Snapshots(rs: map<string, Resource>): (m: map<string, Res>)
    reads rs.Values
    ensures m.Keys == rs.Keys
  {
    map rid | rid in rs :: rs[rid].Snapshot()
  }

  ghost predicate Separate(rs: map<string, Resource>) {
    forall a, b :: a in rs && b in rs && a != b ==> rs[a] != rs[b]
  }

  class DeadlockManager {
    var resources: map<string, Resource>
    var held: map<int, map<string, int>>
    var priority: map<int, int>
    var basePriority: map<int, int>

    ghost predicate Valid()
      reads this
    {
      Separate(resources)
    }

    ghost function Owned(): set<object>
      reads this
    {
      (set r: object | r in resources.Values) + {this}
    }

    function View(): Dlm
      reads this, resources.Values
    {
      Dlm(Snapshots(resources), held, priority, basePriority)
    }

    constructor ()
      ensures Valid() && View() == Empty()
    {
      resources, held, priority, basePriority := map[], map[], map[], map[];
    }

    method Add(rid: string, total: int) returns (r: Resource)
      requires Valid()
      modifies this`resources
      ensures Valid() && rid in resources && r == resources[rid]
      ensures rid in old(resources) ==> resources == old(resources)
      ensures rid !in old(resources) ==>
                resources == old(resources)[rid := r] && fresh(r) && r.Snapshot() == Res(total, total, [], [])
      ensures View() == AddResource(old(View()), rid, total)
    {
      if rid !in resources {
        r := new Resource(total);
        resources := resources[rid := r];
      } else {
        r := resources[rid];
      }
    }

    method Remove(rid: string) returns (ok: bool)
      requires Valid()
      modifies this`resources
      ensures Valid()
      ensures ok <==> rid in old(resources) && old(resources[rid].heldBy == [] && resources[rid].waitedBy == [])
      ensures resources == if ok then old(resources) - {rid} else old(resources)
      ensures View() == RemoveResource(old(View()), rid)
    {
      ok := rid in resources && resources[rid].heldBy == [] && resources[rid].waitedBy == [];
      if ok { resources := resources - {rid}; }
    }

    /** One unit of `r` moves from the pool to `pid`. */
    method GrantUnit(pid: int, rid: string, r: Resource)
      requires Valid() && rid in resources && r == resources[rid]
      modifies r, this`held
      ensures View() == Grant(old(View()), pid, rid)
    {
      r.Take(pid);
      assert Snapshots(resources) == old(Snapshots(resources))[rid := r.Snapshot()];
      hide Snapshots;
      var mine := Get(held, pid, map[]);
      held := held[pid := mine[rid := Get(mine, rid, 0) + 1]];
    }

    method Ask(pid: int, rid: string, wanted: int) returns (granted: bool)
      requires Valid()
      modifies this`held, this`priority, this`basePriority, if rid in resources then {resources[rid]} else {}
      ensures granted <==> rid in old(View()).resources && old(View()).resources[rid].available > 0
      ensures View() == Request(old(View()), pid, rid, wanted)
    {
      if rid !in resources { return false; }
      var r := resources[rid];
      if pid !in basePriority {
        basePriority := basePriority[pid := wanted];
        priority := priority[pid := wanted];
      }
      assert View() == Register(old(View()), pid, wanted);
      granted := r.available > 0;
      if granted {
        GrantUnit(pid, rid, r);
      } else {
        JoinQueueOf(pid, rid, r, wanted);
      }
    }

    /** `pid` joins the queue, and the holders inherit its priority. */
    method JoinQueueOf(pid: int, rid: string, r: Resource, wanted: int)
      requires Valid() && rid in resources && r == resources[rid]
      modifies r, this`priority
      ensures View() == Enqueue(old(View()), pid, rid, wanted)
    {
      r.Join(pid);
      var reqPrio := Get(priority, pid, wanted);
      RaiseHolders(r.heldBy, reqPrio);
      assert Snapshots(resources) == old(Snapshots(resources))[rid := r.Snapshot()];
    }

    method RaiseHolders(holders: seq<int>, reqPrio: int)
      modifies this`priority
      ensures priority == Inherit(old(priority), holders, reqPrio)
    {
      for i := 0 to |holders|
        invariant Inherit(priority, holders[i..], reqPrio) == Inherit(old(priority), holders, reqPrio)
      {
        var h := holders[i];
        assert holders[i..][1..] == holders[i + 1..];
        if reqPrio > Get(priority, h, DEFAULT_PRIORITY) {
          priority := priority[h := reqPrio];
        }
      }
    }

    /** Gives back one unit; a waiter, if there is one, gets it at once. */
    method ReleaseOne(pid: int, rid: string) returns (ok: bool)
      requires Valid()
      modifies this`held, this`priority, if rid in resources then {resources[rid]} else {}
      ensures ok == CanRelease(old(View()), pid, rid)
      ensures View() == Release(old(View()), pid, rid)
    {
      if rid !in resources || pid !in resources[rid].heldBy { return false; }
      var r := resources[rid];
      PutBackUnit(pid, rid, r);
      if r.waitedBy != [] && r.available > 0 {
        var next := PopWaiter(rid, r);
        GrantUnit(next, rid, r);
      }
      ok := true;
    }

    method PopWaiter(rid: string, r: Resource) returns (next: int)
      requires Valid() && rid in resources && r == resources[rid] && r.waitedBy != []
      modifies r
      ensures next == old(r.waitedBy[0])
      ensures View() == old(View()).(resources := old(View()).resources[rid := Popped(old(r.Snapshot()))])
    {
      next := r.Pop();
      assert Snapshots(resources) == old(Snapshots(resources))[rid := r.Snapshot()];
    }

    method PutBackUnit(pid: int, rid: string, r: Resource)
      requires Valid() && rid in resources && r == resources[rid] && pid in r.heldBy
      modifies r, this`held, this`priority
      ensures View() == PutBack(old(View()), pid, rid)
    {
      r.Return(pid, UnitsLeft(held, pid, rid) <= 0);
      assert Snapshots(resources) == old(Snapshots(resources))[rid := r.Snapshot()];
      hide Snapshots;
      CountDown(pid, rid);
      if pid in basePriority {
        priority := priority[pid := basePriority[pid]];
      }
    }

    method CountDown(pid: int, rid: string)
      modifies this`held
      ensures held == CountedDown(old(held), pid, rid)
    {
      if pid in held {
        var mine := held[pid];
        var left := Get(mine, rid, 1) - 1;
        held := held[pid := if left <= 0 then mine - {rid} else mine[rid := left]];
      }
    }

    /** `order` is the order in which the held resources were visited, `freed`
        lists those of which a unit was released. */
    method ReleaseEverything(pid: int) returns (freed: seq<string>, ghost order: seq<string>)
      requires Valid()
      modifies Owned()
      ensures Valid() && resources == old(resources)
      ensures Lists(order, old(View()), pid) && freed == FreedBy(old(View()), pid, order)
      ensures View() == ReleaseAll(old(View()), pid, order)
    {
      freed, order := ReleaseHeld(pid);
      ghost var d := View();
      LeaveQueues(pid);
      held, priority, basePriority := held - {pid}, priority - {pid}, basePriority - {pid};
      assert View().resources == Forget(d, pid).resources;
    }

    method ReleaseHeld(pid: int) returns (freed: seq<string>, ghost order: seq<string>)
      requires Valid()
      modifies Owned()
      ensures Valid() && resources == old(resources) && basePriority == old(basePriority)
      ensures Lists(order, old(View()), pid) && freed == FreedBy(old(View()), pid, order)
      ensures View() == ReleaseEach(old(View()), pid, order)
    {
      ghost var d := View();
      var rids := if pid in held then held[pid].Keys else {};
      ghost var all := rids;
      freed, order := [], [];
      while rids != {}
        invariant rids <= all && resources == old(resources) && basePriority == old(basePriority)
        invariant forall i, j :: 0 <= i < j < |order| ==> order[i] != order[j]
        invariant forall rid :: rid in order <==> rid in all && rid !in rids
        invariant View() == ReleaseEach(d, pid, order) && freed == FreedBy(d, pid, order)
        decreases rids
      {
        hide ReleaseEach, FreedBy, Release, CanRelease;
        var rid :| rid in rids;
        rids := rids - {rid};
        ReleaseEachSnoc(d, pid, order, rid);
        var ok := ReleaseOne(pid, rid);
        order := order + [rid];
        if ok { freed := freed + [rid]; }
      }
    }

    /** The wait-for graph of the current state. */
    method BuildWaitFor() returns (g: G.Graph)
      requires Valid()
      ensures g == WaitFor(View())
    {
      g := map[];
      var rids := resources.Keys;
      while rids != {}
        invariant rids <= resources.Keys
        invariant forall u :: u in g ==> g[u] != {}
        invariant forall u, v :: G.Edge(g, u, v) <==>
          (u != v && exists rid :: rid in resources && rid !in rids
                       && u in resources[rid].waitedBy && v in resources[rid].heldBy)
        decreases rids
      {
        var rid :| rid in rids;
        rids := rids - {rid};
        g := AddEdges(g, resources[rid].waitedBy, resources[rid].heldBy);
      }
      ghost var d := View();
      forall u, v ensures G.Edge(g, u, v) <==> G.Edge(WaitFor(d), u, v) {
        EdgesAreWaits(d, u, v);
      }
      SameEdgesSameGraph(g, WaitFor(d));
    }

    /** All cycles of the wait-for graph, each once. */
    method Detect() returns (cycles: seq<seq<int>>)
      requires Valid()
      ensures G.ExactReport(WaitFor(View()), cycles)
    {
      var g := BuildWaitFor();
      cycles := DeadlockDetector.FindCycles(g);
    }

    /** The process of the cycle with the lowest priority, the highest pid among equals. */
    method ChooseVictim(cycle: seq<int>) returns (victim: int)
      requires cycle != []
      ensures victim in cycle && IsVictim(View(), cycle, victim)
      ensures forall p :: p in cycle ==>
                var lowest := if victim in priority then priority[victim] else 5;
                var other := if p in priority then priority[p] else 5;
                lowest < other || (lowest == other && victim >= p)
    {
      victim := cycle[0];
      for i := 1 to |cycle|
        invariant victim in cycle[..i]
        invariant forall p :: p in cycle[..i] ==> !BetterVictim(View(), p, victim)
      {
        var a, b := Get(priority, cycle[i], DEFAULT_PRIORITY), Get(priority, victim, DEFAULT_PRIORITY);
        if a < b || (a == b && cycle[i] > victim) { victim := cycle[i]; }
        assert cycle[..i + 1] == cycle[..i] + [cycle[i]];
      }
      assert cycle[..|cycle|] == cycle;
    }

    /** Breaks a deadlock by releasing everything its victim has. */
    method ResolveDeadlock(cycle: seq<int>) returns (victim: Option<int>, ghost order: seq<string>)
      requires Valid()
      modifies Owned()
      ensures Valid() && resources == old(resources)
      ensures if cycle == [] then victim == None && View() == old(View())
              else victim.Some? && IsVictim(old(View()), cycle, victim.value)
                   && Lists(order, old(View()), victim.value)
                   && View() == ReleaseAll(old(View()), victim.value, order)
    {
      if cycle == [] { return None, []; }
      var v := ChooseVictim(cycle);
      var freed;
      freed, order := ReleaseEverything(v);
      victim := Some(v);
    }

    method AutoResolve() returns (victims: seq<Option<int>>)
      requires Valid()
      modifies Owned()
      ensures Valid() && Round(old(View()), View())
    {
      var cycles := Detect();
      ghost var g := WaitFor(View());
      assert forall i :: 0 <= i < |cycles| ==> G.SimpleCycle(g, cycles[i]);
      victims := ResolveEach(cycles);
    }

    method ResolveEach(cycles: seq<seq<int>>) returns (victims: seq<Option<int>>)
      requires Valid() && forall i :: 0 <= i < |cycles| ==> cycles[i] != []
      modifies Owned()
      ensures Valid() && Resolves(old(View()), cycles, View())
    {
      ghost var d := View();
      victims := [];
      ghost var done := [];
      assert Resolves(d, done, d);
      hide Resolves, ReleaseAll, IsVictim, Lists;
      for i := 0 to |cycles|
        invariant Valid() && resources == old(resources) && done == cycles[..i]
        invariant Resolves(d, done, View())
      {
        ghost var mid := View();
        var v, order := ResolveDeadlock(cycles[i]);
        ResolvesSnoc(d, done, mid, cycles[i], v.value, order);
        done := done + [cycles[i]];
        victims := victims + [v];
      }
      assert done == cycles;
    }

    /** `pid` stops waiting for anything. */
    method LeaveQueues(pid: int)
      requires Valid()
      modifies set r: object | r in resources.Values
      ensures forall rid :: rid in resources ==> resources[rid].Snapshot() == Left(old(resources[rid].Snapshot()), pid)
    {
      var rids := resources.Keys;
      while rids != {}
        invariant rids <= resources.Keys
        invariant forall rid :: rid in rids ==> resources[rid].Snapshot() == old(resources[rid].Snapshot())
        invariant forall rid :: rid in resources && rid !in rids ==>
                    resources[rid].Snapshot() == Left(old(resources[rid].Snapshot()), pid)
        decreases rids
      {
        var rid :| rid in rids;
        rids := rids - {rid};
        resources[rid].Leave(pid);
      }
    }
  }

  /** Adds an edge from every waiter to every other holder. */
  method AddEdges(g: G.Graph, waiters: seq<int>, holders: seq<int>) returns (g': G.Graph)
    requires forall u :: u in g ==> g[u] != {}
    ensures forall u :: u in g' ==> g'[u] != {}
    ensures forall u, v :: G.Edge(g', u, v) <==> G.Edge(g, u, v) || (u in waiters && v in holders && u != v)
  {
    g' := g;
    for i := 0 to |waiters|
      invariant forall u :: u in g' ==> g'[u] != {}
      invariant forall u, v :: G.Edge(g', u, v) <==> G.Edge(g, u, v) || (u in waiters[..i] && v in holders && u != v)
    {
      g' := AddEdgesFrom(g', waiters[i], holders);
      assert waiters[..i + 1] == waiters[..i] + [waiters[i]];
    }
    assert waiters[..|waiters|] == waiters;
  }

  method AddEdgesFrom(g: G.Graph, waiter: int, holders: seq<int>) returns (g': G.Graph)
    requires forall u :: u in g ==> g[u] != {}
    ensures forall u :: u in g' ==> g'[u] != {}
    ensures forall u, v :: G.Edge(g', u, v) <==> G.Edge(g, u, v) || (u == waiter && v in holders && u != v)
  {
    g' := g;
    for j := 0 to |holders|
      invariant forall u :: u in g' ==> g'[u] != {}
      invariant forall u, v :: G.Edge(g', u, v) <==> G.Edge(g, u, v) || (u == waiter && v in holders[..j] && u != v)
    {
      var holder := holders[j];
      if waiter != holder {
        g' := g'[waiter := Get(g', waiter, {}) + {holder}];
      }
      assert holders[..j + 1] == holders[..j] + [holder];
    }
    assert holders[..|holders|] == holders;
  }

  /** A graph without empty entries is determined by its edges. */
  lemma SameEdgesSameGraph(a: G.Graph, b: G.Graph)
    requires forall u :: u in a ==> a[u] != {}
    requires forall u :: u in b ==> b[u] != {}
    requires forall u, v :: G.Edge(a, u, v) <==> G.Edge(b, u, v)
    ensures a == b
  {
    forall u ensures (u in a <==> u in b) && (u in a && u in b ==> a[u] == b[u]) {
      KeyHasEdge(a, u);
      KeyHasEdge(b, u);
      if u in a && u in b {
        forall v ensures v in a[u] <==> v in b[u] { assert G.Edge(a, u, v) <==> G.Edge(b, u, v); }
      }
    }
  }

  lemma KeyHasEdge(g: G.Graph, u: int)
    requires u in g ==> g[u] != {}
    ensures u in g <==> exists v :: G.Edge(g, u, v)
  {
    if u in g {
      var v := AnyOf(g[u]);
      assert G.Edge(g, u, v);
    }
  }

  lemma {:induction false} ReleaseEachSnoc(d: Dlm, pid: int, order: seq<string>, rid: string)
    ensures var mid := ReleaseEach(d, pid, order);
      && ReleaseEach(d, pid, order + [rid]) == Release(mid, pid, rid)
      && FreedBy(d, pid, order + [rid]) == FreedBy(d, pid, order) + (if CanRelease(mid, pid, rid) then [rid] else [])
    decreases |order|
  {
    hide Release, CanRelease;
    if order == [] {
      assert [] + [rid] == [rid] && [rid][1..] == [];
      assert ReleaseEach(Release(d, pid, rid), pid, []) == Release(d, pid, rid);
    } else {
      assert (order + [rid])[1..] == order[1..] + [rid];
      ReleaseEachSnoc(Release(d, pid, order[0]), pid, order[1..], rid);
    }
  }
}
