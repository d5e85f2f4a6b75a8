/** When a victim is out of every holder list, in any state whatever. */
module DeadlockVictim {
  import opened Prelude
  import opened ResourceModel
  import opened ResourceConservation
  import opened ResourceRuns
  import opened DeadlockRecovery

  // ---------- nobody twice in a list ----------

  ghost predicate SingleLists(d: Dlm) {
    forall rid :: rid in d.resources ==> Distinct(d.resources[rid].heldBy) && Distinct(d.resources[rid].waitedBy)
  }

  lemma ReleasedKeepsSingle(r: Res, v: int, last: bool)
    requires Distinct(r.heldBy) && Distinct(r.waitedBy)
    ensures Distinct(ReleasedRes(r, v, last).heldBy) && Distinct(ReleasedRes(r, v, last).waitedBy)
  {
    RemoveFirstFacts(r.heldBy, v);
  }

  lemma {:induction false} ReleaseEachKeepsSingle(d: Dlm, v: int, order: seq<string>)
    requires SingleLists(d)
    ensures SingleLists(ReleaseEach(d, v, order))
    decreases |order|
  {
    if order != [] {
      ReleaseKeepsSingle(d, v, order[0]);
      hide SingleLists, Release;
      ReleaseEachKeepsSingle(Release(d, v, order[0]), v, order[1..]);
    }
  }

  lemma ReleaseKeepsSingle(d: Dlm, v: int, rid: string)
    requires SingleLists(d)
    ensures SingleLists(Release(d, v, rid))
  {
    var d' := Release(d, v, rid);
    if d.resources != map[] { var any := AnyOf(d.resources.Keys); ReleaseOnResource(d, v, rid, any); }
    forall other | other in d'.resources
      ensures Distinct(d'.resources[other].heldBy) && Distinct(d'.resources[other].waitedBy)
    {
      ReleaseOnResource(d, v, rid, other);
      hide Release, ReleasedRes;
      ReleasedKeepsSingle(d.resources[other], v, UnitsLeft(d.held, v, rid) <= 0);
    }
  }

  lemma StepKeepsSingle(d: Dlm, e: Event)
    requires SingleLists(d)
    ensures SingleLists(Step(d, e))
  {
    hide Release, ReleaseAll, Request;
    match e
    case Released(pid, rid) => ReleaseKeepsSingle(d, pid, rid);
    case AllReleased(pid, order) => ReleaseAllKeepsSingle(d, pid, order);
    case Requested(pid, rid, priority) => RequestKeepsSingle(d, pid, rid, priority);
    case _ =>
  }

  lemma ReleaseAllKeepsSingle(d: Dlm, pid: int, order: seq<string>)
    requires SingleLists(d)
    ensures SingleLists(ReleaseAll(d, pid, order))
  {
    ReleaseEachKeepsSingle(d, pid, order);
    var mid := ReleaseEach(d, pid, order);
    hide ReleaseEach;
    forall rid | rid in mid.resources ensures Distinct(RemoveFirst(mid.resources[rid].waitedBy, pid)) {
      RemoveFirstFacts(mid.resources[rid].waitedBy, pid);
    }
  }

  lemma RequestKeepsSingle(d: Dlm, pid: int, rid: string, priority: int)
    requires SingleLists(d)
    ensures SingleLists(Request(d, pid, rid, priority))
  {
    hide Inherit;
  }

  /** In every state of every run nobody stands twice in a holder list or a queue. */
  lemma {:induction false} EveryRunListsOnce(d: Dlm, es: seq<Event>)
    requires SingleLists(d)
    ensures SingleLists(Run(d, es))
    decreases |es|
  {
    hide SingleLists, Step;
    if es != [] {
      StepKeepsSingle(d, es[0]);
      EveryRunListsOnce(Step(d, es[0]), es[1..]);
    }
  }

  // ---------- releasing everything, seen from one resource ----------

  /** A release of another resource leaves the count of this one as it was. */
  lemma OtherCountStays(d: Dlm, v: int, other: string, rid: string)
    requires other != rid
    ensures UnitsLeft(Release(d, v, other).held, v, rid) == UnitsLeft(d.held, v, rid)
  {
    if CanRelease(d, v, other) {
      var back := PutBack(d, v, other);
      assert UnitsLeft(back.held, v, rid) == UnitsLeft(d.held, v, rid);
      hide CountedDown, PutBack;
    }
  }

  lemma {:induction false} ReleaseEachOnResource(d: Dlm, v: int, order: seq<string>, rid: string)
    requires rid in d.resources && forall i, j :: 0 <= i < j < |order| ==> order[i] != order[j]
    ensures rid in ReleaseEach(d, v, order).resources
    ensures ReleaseEach(d, v, order).resources[rid] ==
            if rid in order then ReleasedRes(d.resources[rid], v, UnitsLeft(d.held, v, rid) <= 0) else d.resources[rid]
    decreases |order|
  {
    if order != [] {
      ReleaseOnResource(d, v, order[0], rid);
      if order[0] != rid { OtherCountStays(d, v, order[0], rid); }
      hide Release, ReleasedRes, UnitsLeft;
      ReleaseEachOnResource(Release(d, v, order[0]), v, order[1..], rid);
      assert rid in order <==> rid == order[0] || rid in order[1..];
    }
  }

  /** The resource is released in full and not handed straight back. */
  predicate LetsGo(d: Dlm, v: int, rid: string)
    requires rid in d.resources
  {
    var r := d.resources[rid];
    && v in d.held && rid in d.held[v] && d.held[v][rid] <= 1
    && !(r.waitedBy != [] && r.waitedBy[0] == v && r.available >= 0)
  }

  lemma ReleasedHolder(r: Res, v: int, last: bool)
    requires Distinct(r.heldBy) && v in r.heldBy
    ensures v in ReleasedRes(r, v, last).heldBy <==>
            !last || (r.waitedBy != [] && r.waitedBy[0] == v && r.available >= 0)
  {
    RemoveFirstFacts(r.heldBy, v);
  }

  /** In any state: the victim appears in no holder list or queue any more exactly
      when it lets go of every resource it is listed for. */
  lemma VictimLeavesTablesIff(d: Dlm, v: int, order: seq<string>)
    requires SingleLists(d) && Lists(order, d, v)
    ensures v !in Procs(ReleaseAll(d, v, order)) <==>
            forall rid | rid in d.resources && v in d.resources[rid].heldBy :: LetsGo(d, v, rid)
  {
    var d' := ReleaseAll(d, v, order);
    ReleaseAllShrinksQueues(d, v, order);
    forall rid | rid in d.resources
      ensures v in d'.resources[rid].heldBy <==> v in d.resources[rid].heldBy && !LetsGo(d, v, rid)
    {
      ReleaseEachOnResource(d, v, order, rid);
      var r := d.resources[rid];
      assert d'.resources[rid].heldBy == ReleaseEach(d, v, order).resources[rid].heldBy;
      hide ReleaseEach, ReleaseAll;
      if v in r.heldBy { ReleasedHolder(r, v, UnitsLeft(d.held, v, rid) <= 0); }
    }
    hide ReleaseAll, LetsGo;
  }

  /** Where a unit was lost before, a process can be listed as a holder of nothing it
      could give back, and stays listed. */
  lemma LostUnitKeepsItsHolder()
    ensures var d := ReleaseAll(DoubleHolder(), 1, ["printer"]);
      CleanHolder(d, 1) && Lists([], d, 1) && 1 in Procs(ReleaseAll(d, 1, []))
  {
    DoubleRequestLosesUnit();
    var d := ReleaseAll(DoubleHolder(), 1, ["printer"]);
    assert d.resources == map["printer" := Res(2, 1, [1], [])] && d.held == map[];
    hide ReleaseAll;
    EmptyOrder(d);
  }

  lemma EmptyOrder(d: Dlm)
    requires "printer" in d.resources
    ensures "printer" in ReleaseAll(d, 1, []).resources
    ensures ReleaseAll(d, 1, []).resources["printer"].heldBy == d.resources["printer"].heldBy
  {
  }
}
