/** First come, first served: the process at position k of a waiting list gets
    its unit at exactly the (k + 1)-th unit freed. */
module ResourceHandOff {
  import opened Prelude
  import opened ResourceModel
  import opened ResourceConservation
  import opened ResourceRuns

  /** Units of `rid` that the event frees. */
  function Freed(d: Dlm, e: Event, rid: string): nat {
    match e
    case Released(pid, r) => if r == rid && CanRelease(d, pid, rid) then 1 else 0
    case AllReleased(pid, _) => if CanRelease(d, pid, rid) then 1 else 0
    case _ => 0
  }

  function FreedInRun(d: Dlm, es: seq<Event>, rid: string): nat
    decreases |es|
  {
    if es == [] then 0 else Freed(d, es[0], rid) + FreedInRun(Step(d, es[0]), es[1..], rid)
  }

  /** `pid` waits for `rid` at position `k`. */
  predicate WaitsAt(d: Dlm, rid: string, k: int, pid: int) {
    rid in d.resources && 0 <= k < |d.resources[rid].waitedBy| && d.resources[rid].waitedBy[k] == pid
  }

  /** `pid` holds `rid` and no longer waits for it. */
  predicate HasArrived(d: Dlm, rid: string, pid: int) {
    rid in d.resources && pid in d.resources[rid].heldBy && pid !in d.resources[rid].waitedBy
  }

  /** Neither the waiter at position `k` nor one ahead of it dies. */
  predicate Spares(d: Dlm, e: Event, rid: string, k: int) {
    e.AllReleased? && rid in d.resources && 0 <= k < |d.resources[rid].waitedBy| ==>
      e.pid !in d.resources[rid].waitedBy[..k + 1]
  }

  predicate SparesInRun(d: Dlm, es: seq<Event>, rid: string, k: int)
    decreases |es|
  {
    es == [] || (Spares(d, es[0], rid, k)
                 && SparesInRun(Step(d, es[0]), es[1..], rid, k - Freed(d, es[0], rid)))
  }

  // ---------- one cell ----------

  /** A unit given back to a contended cell goes to the head of the queue. */
  lemma GivenUnitIsPassedOn(c: Cell, pid: int)
    requires Conserved(c) && pid in c.count && c.r.waitedBy != []
    ensures var c' := GiveAndPass(c, pid);
      && c'.r.waitedBy == c.r.waitedBy[1..]
      && c.r.waitedBy[0] in c'.r.heldBy && c.r.waitedBy[0] !in c'.r.waitedBy
  {
  }

  /** Removing a process that is not among the first k + 1 keeps their places. */
  lemma {:induction false} RemoveBehind(q: seq<int>, k: nat, x: int)
    requires k < |q| && x !in q[..k + 1]
    ensures k < |RemoveFirst(q, x)| && RemoveFirst(q, x)[k] == q[k]
  {
    assert q[0] == q[..k + 1][0];
    if k > 0 {
      assert q[1..][..k] == q[..k + 1][1..];
      RemoveBehind(q[1..], k - 1, x);
    }
  }

  lemma EraseKeepsPlace(c: Cell, k: nat, x: int)
    requires Conserved(c) && k < |c.r.waitedBy| && x !in c.r.waitedBy[..k + 1]
    ensures x !in c.count ==> k < |Erase(c, x).r.waitedBy| && Erase(c, x).r.waitedBy[k] == c.r.waitedBy[k]
    ensures x in c.count && k > 0 ==>
              k - 1 < |Erase(c, x).r.waitedBy| && Erase(c, x).r.waitedBy[k - 1] == c.r.waitedBy[k]
    ensures x in c.count && k == 0 ==>
              c.r.waitedBy[0] in Erase(c, x).r.heldBy && c.r.waitedBy[0] !in Erase(c, x).r.waitedBy
  {
    if x in c.count {
      GivenUnitIsPassedOn(c, x);
      RemoveFirstFacts(c.r.waitedBy[1..], x);
      if k > 0 {
        var rest := c.r.waitedBy[1..];
        assert rest[..k] == c.r.waitedBy[..k + 1][1..];
        RemoveBehind(rest, k - 1, x);
      }
    } else {
      RemoveBehind(c.r.waitedBy, k, x);
    }
  }

  // ---------- one event ----------

  lemma ReleaseMovesUp(d: Dlm, p: int, r: string, rid: string, k: nat, pid: int)
    requires Inv(d) && WaitsAt(d, rid, k, pid)
    ensures var d' := Release(d, p, r);
      if r == rid && CanRelease(d, p, rid) then
        if k > 0 then WaitsAt(d', rid, k - 1, pid) else HasArrived(d', rid, pid)
      else WaitsAt(d', rid, k, pid)
  {
    var c := CellOf(d, rid);
    assert Conserved(c);
    ReleaseOnCells(d, p, r, rid);
    ReleaseFrame(d, p, r);
    hide Release, Counts;
    if r == rid && p in c.r.heldBy { GivenUnitIsPassedOn(c, p); }
  }

  lemma ReleaseAllMovesUp(d: Dlm, p: int, order: seq<string>, rid: string, k: nat, pid: int)
    requires Inv(d) && Lists(order, d, p) && WaitsAt(d, rid, k, pid)
    requires p !in d.resources[rid].waitedBy[..k + 1]
    ensures var d' := ReleaseAll(d, p, order);
      if CanRelease(d, p, rid) then
        if k > 0 then WaitsAt(d', rid, k - 1, pid) else HasArrived(d', rid, pid)
      else WaitsAt(d', rid, k, pid)
  {
    var c := CellOf(d, rid);
    assert Conserved(c);
    ReleaseAllOnCells(d, p, order, rid);
    hide ReleaseAll, Counts, Lists;
    EraseKeepsPlace(c, k, p);
    hide Erase;
  }

  lemma RequestKeepsPlace(d: Dlm, p: int, r: string, priority: int, rid: string, k: nat, pid: int)
    requires Inv(d) && WaitsAt(d, rid, k, pid)
    ensures WaitsAt(Request(d, p, r, priority), rid, k, pid)
  {
    assert Conserved(CellOf(d, rid));
    hide Inherit, CellOf, Inv;
  }

  /** One event moves the waiter up by the units it frees; at position 0 a freed
      unit makes it a holder. */
  lemma WaiterMovesUp(d: Dlm, e: Event, rid: string, k: nat, pid: int)
    requires Inv(d) && Walks(d, e) && WaitsAt(d, rid, k, pid) && Spares(d, e, rid, k)
    ensures var d' := Step(d, e);
      if Freed(d, e, rid) <= k then WaitsAt(d', rid, k - Freed(d, e, rid), pid)
      else HasArrived(d', rid, pid)
  {
    hide Inv, Release, ReleaseAll, Request;
    match e
    case Added(_, _) =>
    case Removed(_) =>
    case Requested(p, r, priority) => RequestKeepsPlace(d, p, r, priority, rid, k, pid);
    case Released(p, r) => ReleaseMovesUp(d, p, r, rid, k, pid);
    case AllReleased(p, order) => ReleaseAllMovesUp(d, p, order, rid, k, pid);
  }

  // ---------- the run ----------

  /** Over a run that loses no unit the waiter moves up by the units freed. */
  lemma {:induction false} WaiterMovesUpInRun(d: Dlm, es: seq<Event>, rid: string, k: nat, pid: int)
    requires Inv(d) && WalksInRun(d, es) && CleanDeaths(d, es)
    requires WaitsAt(d, rid, k, pid) && SparesInRun(d, es, rid, k) && FreedInRun(d, es, rid) <= k
    ensures Inv(Run(d, es)) && WaitsAt(Run(d, es), rid, k - FreedInRun(d, es, rid), pid)
    decreases |es|
  {
    hide Step, Freed, Walks, Spares, WaitsAt, Inv, CleanHolder;
    if es != [] {
      StepConservesIff(d, es[0]);
      WaiterMovesUp(d, es[0], rid, k, pid);
      WaiterMovesUpInRun(Step(d, es[0]), es[1..], rid, k - Freed(d, es[0], rid), pid);
    }
  }

  /** After k freed units the process at position k is at the head of the queue,
      and where nobody requests what it holds it is not yet a holder; the next
      freed unit is its own. */
  lemma HandOffIsFifo(d: Dlm, es: seq<Event>, last: Event, rid: string, k: nat, pid: int)
    requires Inv(d) && WalksInRun(d, es) && CleanDeaths(d, es)
    requires WaitsAt(d, rid, k, pid) && SparesInRun(d, es, rid, k) && FreedInRun(d, es, rid) == k
    requires Walks(Run(d, es), last) && Freed(Run(d, es), last, rid) == 1 && Spares(Run(d, es), last, rid, 0)
    ensures var before, after := Run(d, es), Step(Run(d, es), last);
      && WaitsAt(before, rid, 0, pid)
      && (Disciplined(before) ==> pid !in before.resources[rid].heldBy)
      && HasArrived(after, rid, pid)
  {
    WaiterMovesUpInRun(d, es, rid, k, pid);
    var before := Run(d, es);
    hide Run, Step, Freed, Spares, Inv;
    WaiterMovesUp(before, last, rid, 0, pid);
    if Disciplined(before) { assert OneUnitEach(CellOf(before, rid)); }
  }
}
