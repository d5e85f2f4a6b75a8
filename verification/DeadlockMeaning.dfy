/** What a cycle of the wait-for graph says about deadlock. */
module DeadlockMeaning {
  import opened Prelude
  import opened ResourceModel
  import opened ResourceConservation
  import opened ResourceRuns
  import opened DeadlockRecovery
  import G = WaitGraph

  // ---------- deadlock ----------

  /** `p` waits for a resource without a free unit, all of whose holders are in `s`. */
  ghost predicate StuckOn(d: Dlm, s: set<int>, p: int, rid: string) {
    rid in d.resources &&
    var r := d.resources[rid];
    p in r.waitedBy && r.available <= 0 && r.heldBy != [] && (forall h :: h in r.heldBy ==> h in s)
  }

  /** A deadlock: processes that wait for each other and for nobody else. */
  ghost predicate Stuck(d: Dlm, s: set<int>) {
    s != {} && forall p :: p in s ==> exists rid :: StuckOn(d, s, p, rid)
  }

  /** Nobody in `s` gives anything back or dies. */
  predicate Blocked(e: Event, s: set<int>) {
    match e
    case Released(pid, _) => pid !in s
    case AllReleased(pid, _) => pid !in s
    case _ => true
  }

  lemma {:induction false} OutsiderReleasesEach(d: Dlm, s: set<int>, p: int, rid: string, pid: int, order: seq<string>)
    requires StuckOn(d, s, p, rid) && pid !in s
    ensures StuckOn(ReleaseEach(d, pid, order), s, p, rid)
    decreases |order|
  {
    if order != [] {
      hide StuckOn, Release;
      OutsiderReleasesEach(Release(d, pid, order[0]), s, p, rid, pid, order[1..]);
    }
  }

  lemma {:induction false} RemoveFirstKeeps(q: seq<int>, x: int, y: int)
    requires x != y && y in q
    ensures y in RemoveFirst(q, x)
  {
    if q[0] != y { RemoveFirstKeeps(q[1..], x, y); }
  }

  lemma StaysStuckOn(d: Dlm, e: Event, s: set<int>, p: int, rid: string)
    requires StuckOn(d, s, p, rid) && p in s && Blocked(e, s)
    ensures StuckOn(Step(d, e), s, p, rid)
  {
    match e
    case Released(pid, other) =>
    case AllReleased(pid, order) =>
      OutsiderReleasesEach(d, s, p, rid, pid, order);
      hide ReleaseEach;
      RemoveFirstKeeps(ReleaseEach(d, pid, order).resources[rid].waitedBy, pid, p);
    case Requested(pid, other, priority) => hide Inherit;
    case _ =>
  }

  /** No run gets a process out of a deadlock unless one of its own processes gives
      something back, which a waiting process does not, or dies. */
  lemma {:induction false} StuckForever(d: Dlm, es: seq<Event>, s: set<int>)
    requires Stuck(d, s) && forall e :: e in es ==> Blocked(e, s)
    ensures Stuck(Run(d, es), s)
    decreases |es|
  {
    if es != [] {
      forall p | p in s ensures exists rid :: StuckOn(Step(d, es[0]), s, p, rid) {
        var rid :| StuckOn(d, s, p, rid);
        assert es[0] in es;
        StaysStuckOn(d, es[0], s, p, rid);
      }
      hide Step, StuckOn, Blocked;
      StuckForever(Step(d, es[0]), es[1..], s);
    }
  }

  // ---------- a deadlock closes a cycle ----------

  ghost predicate HasSuccessor(g: G.Graph, s: set<int>, u: int) {
    exists v :: v in s && G.Edge(g, u, v)
  }

  lemma PathGrows(g: G.Graph, path: seq<int>, next: int)
    requires path != [] && G.IsPath(g, path) && G.Edge(g, path[|path| - 1], next)
    ensures G.IsPath(g, path + [next]) && G.NodeSet(path + [next]) == G.NodeSet(path) + {next}
  {
    var longer := path + [next];
    hide G.Edge;
    forall k | 0 <= k < |longer| - 1 ensures G.Edge(g, longer[k], longer[k + 1]) {
      if k < |path| - 1 { assert G.Edge(g, path[k], path[k + 1]); }
    }
  }

  lemma PathCloses(g: G.Graph, path: seq<int>, i: nat)
    requires i < |path| && G.IsPath(g, path) && G.Edge(g, path[|path| - 1], path[i])
    ensures G.IsCycle(g, path[i..])
  {
    hide G.Edge;
    var c := path[i..];
    forall k | 0 <= k < |c| - 1 ensures G.Edge(g, c[k], c[k + 1]) {
      assert G.Edge(g, path[i + k], path[i + k + 1]);
    }
  }

  /** A path inside a set in which everybody has a successor grows until it closes. */
  lemma {:induction false} ClosedSetIsCyclic(g: G.Graph, s: set<int>, path: seq<int>)
    requires forall u :: u in s ==> HasSuccessor(g, s, u)
    requires path != [] && G.IsPath(g, path) && G.NodeSet(path) <= s
    ensures G.Cyclic(g)
    decreases s - G.NodeSet(path)
  {
    hide G.IsPath, G.IsCycle, G.Edge;
    var last := path[|path| - 1];
    assert last in G.NodeSet(path) && HasSuccessor(g, s, last);
    var next :| next in s && G.Edge(g, last, next);
    if next in path {
      var i :| 0 <= i < |path| && path[i] == next;
      PathCloses(g, path, i);
    } else {
      PathGrows(g, path, next);
      assert next !in G.NodeSet(path);
      ClosedSetIsCyclic(g, s, path + [next]);
    }
  }

  /** `p` waits for a resource that only itself holds. */
  predicate WaitsForItself(d: Dlm, p: int) {
    exists rid :: rid in d.resources && p in d.resources[rid].waitedBy && p in d.resources[rid].heldBy
                  && forall h :: h in d.resources[rid].heldBy ==> h == p
  }

  /** Every deadlock is a cycle of the wait-for graph, unless some process in it waits
      for a resource that only itself holds. */
  lemma DeadlockIsFound(d: Dlm, s: set<int>)
    requires Stuck(d, s)
    ensures G.Cyclic(WaitFor(d)) || exists p :: p in s && WaitsForItself(d, p)
  {
    hide WaitFor, StuckOn, WaitsForItself, HasSuccessor, G.Cyclic;
    if forall p :: p in s ==> !WaitsForItself(d, p) {
      EverybodyHasSuccessor(d, s);
      NonEmptyClosedSet(WaitFor(d), s);
    }
  }

  lemma NonEmptyClosedSet(g: G.Graph, s: set<int>)
    requires s != {} && forall u :: u in s ==> HasSuccessor(g, s, u)
    ensures G.Cyclic(g)
  {
    var u := AnyOf(s);
    assert G.NodeSet([u]) == {u};
    hide HasSuccessor, G.Cyclic, G.Edge;
    ClosedSetIsCyclic(g, s, [u]);
  }

  lemma EverybodyHasSuccessor(d: Dlm, s: set<int>)
    requires Stuck(d, s) && forall p :: p in s ==> !WaitsForItself(d, p)
    ensures forall p :: p in s ==> HasSuccessor(WaitFor(d), s, p)
  {
    hide StuckOn, WaitFor, WaitsForItself, HasSuccessor;
    forall p | p in s ensures HasSuccessor(WaitFor(d), s, p) {
      var rid :| StuckOn(d, s, p, rid);
      WaitsOnAnother(d, s, p, rid);
    }
  }

  lemma SoleHolder(d: Dlm, s: set<int>, p: int, rid: string)
    requires StuckOn(d, s, p, rid) && forall h :: h in d.resources[rid].heldBy ==> h == p
    ensures WaitsForItself(d, p)
  {
    var h := d.resources[rid].heldBy[0];
    assert h in d.resources[rid].heldBy;
    assert h == p;
    assert rid in d.resources && p in d.resources[rid].waitedBy && p in d.resources[rid].heldBy;
  }

  lemma WaitsOnAnother(d: Dlm, s: set<int>, p: int, rid: string)
    requires StuckOn(d, s, p, rid)
    ensures HasSuccessor(WaitFor(d), s, p) || WaitsForItself(d, p)
  {
    if v :| v in d.resources[rid].heldBy && v != p {
      EdgesAreWaits(d, p, v);
    } else {
      SoleHolder(d, s, p, rid);
    }
  }

  // ---------- when a cycle is a deadlock ----------

  ghost predicate SingleUnits(d: Dlm) {
    forall rid :: rid in d.resources ==> d.resources[rid].total <= 1
  }

  lemma {:induction false} SumCoversHolders(h: seq<int>, count: map<int, int>)
    requires forall p :: p in h ==> Get(count, p, 0) >= 1
    ensures SumHeld(h, count) >= |h|
  {
    if h != [] {
      assert h[0] in h && forall p :: p in h[1..] ==> p in h;
      SumCoversHolders(h[1..], count);
      assert Get(count, h[0], 0) >= 1;
      assert SumHeld(h, count) == Get(count, h[0], 0) + SumHeld(h[1..], count);
    }
  }

  lemma OneHolder(d: Dlm, rid: string)
    requires Inv(d) && rid in d.resources && d.resources[rid].total <= 1
    ensures |d.resources[rid].heldBy| <= 1
  {
    var c := CellOf(d, rid);
    assert Conserved(c);
    SumCoversHolders(c.r.heldBy, c.count);
  }

  lemma HeldResourceBlocks(d: Dlm, s: set<int>, p: int, rid: string, next: int)
    requires Inv(d) && SingleUnits(d) && rid in d.resources
    requires p in d.resources[rid].waitedBy && next in d.resources[rid].heldBy && next in s
    ensures StuckOn(d, s, p, rid)
  {
    assert Conserved(CellOf(d, rid));
    OneHolder(d, rid);
    hide Inv, SingleUnits, Balanced, Counts;
  }

  lemma EdgeIsStuckOn(d: Dlm, s: set<int>, p: int, next: int)
    requires Inv(d) && SingleUnits(d) && G.Edge(WaitFor(d), p, next) && next in s
    ensures exists rid :: StuckOn(d, s, p, rid)
  {
    hide Inv, SingleUnits, WaitFor, StuckOn;
    EdgesAreWaits(d, p, next);
    var rid :| rid in d.resources && p in d.resources[rid].waitedBy && next in d.resources[rid].heldBy;
    HeldResourceBlocks(d, s, p, rid, next);
  }

  /** With one unit of each resource the processes of a cycle are a deadlock. */
  lemma CycleIsDeadlock(d: Dlm, c: seq<int>)
    requires Inv(d) && SingleUnits(d) && G.IsCycle(WaitFor(d), c)
    ensures Stuck(d, G.NodeSet(c))
  {
    hide Inv, SingleUnits, WaitFor, StuckOn, G.Edge;
    var s := G.NodeSet(c);
    assert c[0] in s;
    forall p | p in s ensures exists rid :: StuckOn(d, s, p, rid) {
      var i :| 0 <= i < |c| && c[i] == p;
      var next := if i + 1 < |c| then c[i + 1] else c[0];
      assert G.Edge(WaitFor(d), c[i], next);
      EdgeIsStuckOn(d, s, p, next);
    }
  }

  /** So with one unit of each resource, and nobody requesting what it holds, the
      search finds a cycle exactly when there is a deadlock. */
  lemma SingleUnitDeadlockIff(d: Dlm)
    requires Inv(d) && Disciplined(d) && SingleUnits(d)
    ensures G.Cyclic(WaitFor(d)) <==> exists s :: Stuck(d, s)
  {
    if c :| G.IsCycle(WaitFor(d), c) {
      CycleIsDeadlock(d, c);
    }
    if s :| Stuck(d, s) {
      DeadlockIsFound(d, s);
      forall p ensures !WaitsForItself(d, p) {
        forall rid | rid in d.resources && p in d.resources[rid].heldBy ensures p !in d.resources[rid].waitedBy {
          assert OneUnitEach(CellOf(d, rid));
        }
      }
    }
  }

  // ---------- where the two differ ----------

  /** A process that requests the one unit it holds. */
  function SelfWaiter(): Dlm {
    Dlm(map["r" := Res(1, 0, [1], [1])], map[1 := map["r" := 1]], map[1 := 5], map[1 := 5])
  }

  /** It is reachable, a deadlock, and no cycle. */
  lemma SelfWaiterIsNotFound()
    ensures SelfWaiter() == Run(Empty(), [Added("r", 1), Requested(1, "r", 5), Requested(1, "r", 5)])
    ensures Stuck(SelfWaiter(), {1}) && !G.Cyclic(WaitFor(SelfWaiter()))
  {
    var d := SelfWaiter();
    SelfWaiterIsReached();
    assert StuckOn(d, {1}, 1, "r");
    forall c ensures !G.IsCycle(WaitFor(d), c) {
      assert WaitsOn(d, 1) == {};
      CycleNodesWait(d, c);
      if G.IsCycle(WaitFor(d), c) { assert c[0] in c; EdgesAreWaits(d, c[|c| - 1], c[0]); }
    }
  }

  lemma SelfWaiterIsReached()
    ensures SelfWaiter() == Run(Empty(), [Added("r", 1), Requested(1, "r", 5), Requested(1, "r", 5)])
  {
    var ask := Requested(1, "r", 5);
    var es := [Added("r", 1), ask, ask];
    var d1 := Dlm(map["r" := Res(1, 1, [], [])], map[], map[], map[]);
    var d2 := Dlm(map["r" := Res(1, 0, [1], [])], map[1 := map["r" := 1]], map[1 := 5], map[1 := 5]);
    assert Step(Empty(), es[0]) == d1;
    assert Append([], 1) == [1];
    assert Request(d1, 1, "r", 5) == Grant(Register(d1, 1, 5), 1, "r") == d2;
    assert Inherit(d2.priority, [1], 5) == d2.priority by { assert [1][1..] == []; }
    assert Request(d2, 1, "r", 5) == Enqueue(d2, 1, "r", 5) == SelfWaiter();
    hide Step;
    assert es[1..] == [ask, ask] && [ask, ask][1..] == [ask] && [ask][1..] == [];
    assert Step(d1, ask) == d2 && Step(d2, ask) == SelfWaiter();
    assert Run(Empty(), es) == Run(d1, [ask, ask]) == Run(d2, [ask]) == Run(SelfWaiter(), []);
  }

  /** Processes 1 and 2 wait for each other, but 3 holds another unit of what 2 waits for. */
  function Escape(): Dlm {
    Dlm(map["a" := Res(2, 0, [1, 3], [2]), "b" := Res(1, 0, [2], [1])],
        map[1 := map["a" := 1], 2 := map["b" := 1], 3 := map["a" := 1]],
        map[1 := 5, 2 := 5, 3 := 5], map[1 := 5, 2 := 5, 3 := 5])
  }

  /** A cycle is found, and yet no set of processes is deadlocked. */
  lemma CycleWithoutDeadlock()
    ensures G.Cyclic(WaitFor(Escape())) && forall s :: !Stuck(Escape(), s)
  {
    var d := Escape();
    EdgesAreWaits(d, 1, 2);
    EdgesAreWaits(d, 2, 1);
    assert "b" in d.resources && 1 in d.resources["b"].waitedBy && 2 in d.resources["b"].heldBy;
    assert "a" in d.resources && 2 in d.resources["a"].waitedBy && 1 in d.resources["a"].heldBy;
    assert G.IsCycle(WaitFor(d), [1, 2]);
    forall s ensures !Stuck(d, s) { NobodyStuckInEscape(s); }
  }

  lemma NobodyStuckInEscape(s: set<int>)
    ensures !Stuck(Escape(), s)
  {
    forall p, rid ensures StuckOn(Escape(), s, p, rid) ==> (p == 2 && 3 in s) || (p == 1 && 2 in s) {
    }
    hide StuckOn;
    if s != {} {
      var any := AnyOf(s);
      var free := if 3 in s then 3 else if 2 in s then 2 else any;
      assert free in s && forall rid :: !StuckOn(Escape(), s, free, rid);
    }
  }
}
