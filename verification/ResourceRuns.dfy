/** Runs of the resource manager: conservation in every reachable state, when
    `release_all` breaks it, and FIFO hand-off. */
module ResourceRuns {
  import opened Prelude
  import opened ResourceModel
  import opened ResourceConservation

  datatype Event =
    | Added(rid: string, total: int)
    | Removed(rid: string)
    | Requested(pid: int, rid: string, priority: int)
    | Released(pid: int, rid: string)
    | AllReleased(pid: int, order: seq<string>)   // a death event, or recovery

  function Step(d: Dlm, e: Event): Dlm {
    match e
    case Added(rid, total) => AddResource(d, rid, total)
    case Removed(rid) => RemoveResource(d, rid)
    case Requested(pid, rid, priority) => Request(d, pid, rid, priority)
    case Released(pid, rid) => Release(d, pid, rid)
    case AllReleased(pid, order) => ReleaseAll(d, pid, order)
  }

  function Run(d: Dlm, es: seq<Event>): Dlm
    decreases |es|
  {
    if es == [] then d else Run(Step(d, es[0]), es[1..])
  }

  /** Processes request only what they do not hold; `release_all` walks over
      exactly the resources the process holds. */
  ghost predicate Legal(d: Dlm, e: Event) {
    match e
    case Requested(pid, rid, _) => !CanRelease(d, pid, rid)
    case AllReleased(pid, order) => Lists(order, d, pid)
    case _ => true
  }

  ghost predicate LegalRun(d: Dlm, es: seq<Event>)
    decreases |es|
  {
    es == [] || (Legal(d, es[0]) && LegalRun(Step(d, es[0]), es[1..]))
  }

  // ---------- what the operations leave alone ----------

  lemma GrantFrame(d: Dlm, pid: int, rid: string)
    requires rid in d.resources
    ensures var d' := Grant(d, pid, rid);
      && d'.resources.Keys == d.resources.Keys && d'.priority == d.priority && d'.base == d.base
      && (HeldKnown(d) ==> HeldKnown(d'))
  {
  }

  lemma PutBackFrame(d: Dlm, pid: int, rid: string)
    requires CanRelease(d, pid, rid)
    ensures var d' := PutBack(d, pid, rid);
      && d'.resources.Keys == d.resources.Keys && d'.base == d.base
      && (HeldKnown(d) ==> HeldKnown(d'))
      && (PrioritiesSound(d) ==> PrioritiesSound(d'))
      && d'.priority - {pid} == d.priority - {pid}
  {
  }

  lemma ReleaseFrame(d: Dlm, pid: int, rid: string)
    ensures var d' := Release(d, pid, rid);
      && d'.resources.Keys == d.resources.Keys && d'.base == d.base
      && (HeldKnown(d) ==> HeldKnown(d'))
      && (PrioritiesSound(d) ==> PrioritiesSound(d'))
      && d'.priority - {pid} == d.priority - {pid}
  {
    if CanRelease(d, pid, rid) {
      PutBackFrame(d, pid, rid);
      var mid := PutBack(d, pid, rid);
      var r := mid.resources[rid];
      hide PutBack, HeldKnown;
      if r.waitedBy != [] && r.available > 0 {
        var popped := mid.(resources := mid.resources[rid := r.(waitedBy := r.waitedBy[1..])]);
        assert HeldKnown(mid) ==> HeldKnown(popped) by { KnownDependsOnKeys(mid, popped); }
        GrantFrame(popped, r.waitedBy[0], rid);
      }
    }
  }

  lemma KnownDependsOnKeys(a: Dlm, b: Dlm)
    requires a.held == b.held && a.resources.Keys == b.resources.Keys
    ensures HeldKnown(a) == HeldKnown(b)
  {
  }

  // ---------- one event ----------

  lemma ReleaseKeepsInv(d: Dlm, pid: int, rid: string)
    requires Inv(d)
    ensures Inv(Release(d, pid, rid))
    ensures Disciplined(d) ==> Disciplined(Release(d, pid, rid))
  {
    var d' := Release(d, pid, rid);
    ReleaseFrame(d, pid, rid);
    forall other | other in d'.resources
      ensures Conserved(CellOf(d', other)) && (Disciplined(d) ==> OneUnitEach(CellOf(d', other)))
    {
      ReleaseOnCells(d, pid, rid, other);
      hide Release;
      assert Conserved(CellOf(d, other));
      if other == rid { GiveAndPassConserves(CellOf(d, rid), pid); }
    }
  }

  lemma {:induction false} InheritOnlyRaises(priority: map<int, int>, holders: seq<int>, wanted: int)
    ensures var p' := Inherit(priority, holders, wanted);
      forall p :: p in priority ==> p in p' && p'[p] >= priority[p]
    decreases |holders|
  {
    if holders != [] {
      var h := holders[0];
      var next := if wanted > Get(priority, h, DEFAULT_PRIORITY) then priority[h := wanted] else priority;
      assert forall p :: p in priority ==> p in next && next[p] >= priority[p];
      InheritOnlyRaises(next, holders[1..], wanted);
      assert Inherit(priority, holders, wanted) == Inherit(next, holders[1..], wanted);
    }
  }

  /** Exactly the holders are lifted, and none beyond the waiter's priority. */
  lemma {:induction false} HoldersInherit(priority: map<int, int>, holders: seq<int>, wanted: int, p: int)
    ensures var before := Get(priority, p, 5);
      Get(Inherit(priority, holders, wanted), p, 5) ==
      if p in holders then Max(before, wanted) else before
    decreases |holders|
  {
    if holders != [] {
      var h := holders[0];
      HoldersInherit(if wanted > Get(priority, h, DEFAULT_PRIORITY) then priority[h := wanted] else priority,
                     holders[1..], wanted, p);
    }
  }

  /** A request that has to wait leaves no holder of the resource below the
      requester's own priority. */
  lemma NoInversionAfterBlocking(d: Dlm, pid: int, rid: string, priority: int, holder: int)
    requires rid in d.resources && d.resources[rid].available <= 0 && holder in d.resources[rid].heldBy
    requires pid in d.base ==> pid in d.priority
    ensures var d' := Request(d, pid, rid, priority);
      && pid in d'.resources[rid].waitedBy
      && Get(d'.priority, holder, DEFAULT_PRIORITY) >= Get(d'.priority, pid, DEFAULT_PRIORITY)
  {
    hide Inherit;
    var known := Register(d, pid, priority);
    var wanted := Get(known.priority, pid, priority);
    HoldersInherit(known.priority, d.resources[rid].heldBy, wanted, holder);
    HoldersInherit(known.priority, d.resources[rid].heldBy, wanted, pid);
  }

  /** A release puts the releaser back to its own priority, even when it is handed
      the unit again, and changes nobody else's. */
  lemma ReleaseRestoresPriority(d: Dlm, pid: int, rid: string, other: int)
    requires rid in d.resources && pid in d.resources[rid].heldBy && pid in d.base
    ensures var d' := Release(d, pid, rid);
      && d'.base == d.base
      && pid in d'.priority && d'.priority[pid] == d.base[pid]
      && (other != pid ==> Get(d'.priority, other, DEFAULT_PRIORITY) == Get(d.priority, other, DEFAULT_PRIORITY))
  {
    hide Taken, Returned, Popped, CountedDown;
  }

  /** So what was inherited for another resource is lost: the holder of that one is
      below a process waiting for it exactly when its own priority is. */
  lemma ReleaseLosesInheritanceIff(d: Dlm, pid: int, rid: string, kept: string, waiter: int)
    requires rid in d.resources && pid in d.resources[rid].heldBy && pid in d.base
    requires kept in d.resources && kept != rid && pid in d.resources[kept].heldBy
    requires waiter in d.resources[kept].waitedBy && waiter != pid
    ensures var d' := Release(d, pid, rid);
      && pid in d'.resources[kept].heldBy && waiter in d'.resources[kept].waitedBy
      && (Get(d'.priority, pid, DEFAULT_PRIORITY) < Get(d'.priority, waiter, DEFAULT_PRIORITY) <==>
          d.base[pid] < Get(d.priority, waiter, DEFAULT_PRIORITY))
  {
    ReleaseRestoresPriority(d, pid, rid, waiter);
    hide Taken, Returned, Popped, CountedDown;
  }

  lemma RequestKeepsInv(d: Dlm, pid: int, rid: string, priority: int)
    requires Inv(d)
    ensures Inv(Request(d, pid, rid, priority))
    ensures Disciplined(d) && !CanRelease(d, pid, rid) ==> Disciplined(Request(d, pid, rid, priority))
  {
    if rid in d.resources {
      var known := Register(d, pid, priority);
      assert forall other :: other in d.resources ==> CellOf(known, other) == CellOf(d, other);
      assert Conserved(CellOf(d, rid));
      assert HeldKnown(known) by { KnownDependsOnKeys(d, known); }
      if d.resources[rid].available > 0 {
        GrantKeepsInv(known, pid, rid);
      } else {
        EnqueueKeepsInv(known, pid, rid, priority);
      }
    }
  }

  lemma GrantKeepsInv(d: Dlm, pid: int, rid: string)
    requires Inv(d) && rid in d.resources && d.resources[rid].available > 0
    ensures Inv(Grant(d, pid, rid))
    ensures Disciplined(d) && !CanRelease(d, pid, rid) ==> Disciplined(Grant(d, pid, rid))
  {
    hide Conserved, OneUnitEach, Counts, Take, HeldKnown, PrioritiesSound;
    var d' := Grant(d, pid, rid);
    GrantFrame(d, pid, rid);
    SoundDependsOnPriorities(d, d');
    forall other | other in d'.resources
      ensures Conserved(CellOf(d', other))
      ensures Disciplined(d) && !CanRelease(d, pid, rid) ==> OneUnitEach(CellOf(d', other))
    {
      GrantOnCells(d, pid, rid, other);
      assert Conserved(CellOf(d, other));
      hide Grant;
      if other == rid { TakeFreeUnit(CellOf(d, rid), pid); }
    }
  }

  lemma SoundDependsOnPriorities(a: Dlm, b: Dlm)
    requires a.priority == b.priority && a.base == b.base
    ensures PrioritiesSound(a) == PrioritiesSound(b)
  {
  }

  lemma EnqueueKeepsInv(d: Dlm, pid: int, rid: string, priority: int)
    requires Inv(d) && rid in d.resources && d.resources[rid].available <= 0
    ensures Inv(Enqueue(d, pid, rid, priority))
    ensures Disciplined(d) && !CanRelease(d, pid, rid) ==> Disciplined(Enqueue(d, pid, rid, priority))
  {
    hide Conserved, OneUnitEach, HeldKnown;
    var d' := Enqueue(d, pid, rid, priority);
    InheritOnlyRaises(d.priority, d.resources[rid].heldBy, Get(d.priority, pid, priority));
    hide Inherit;
    KnownDependsOnKeys(d, d');
    forall other | other in d'.resources
      ensures Conserved(CellOf(d', other))
      ensures Disciplined(d) && !CanRelease(d, pid, rid) ==> OneUnitEach(CellOf(d', other))
    {
      assert Counts(d', other) == Counts(d, other);
      hide Counts;
      assert Conserved(CellOf(d, other));
      if other == rid { JoinQueue(CellOf(d, rid), pid); }
    }
  }

  lemma AddKeepsInv(d: Dlm, rid: string, total: int)
    requires Inv(d)
    ensures Inv(AddResource(d, rid, total))
    ensures Disciplined(d) ==> Disciplined(AddResource(d, rid, total))
  {
    var d' := AddResource(d, rid, total);
    if d' != d {
      forall pid | pid in d.held ensures rid !in d.held[pid] { }
      assert Counts(d', rid).Keys == {};
      forall other | other in d.resources ensures CellOf(d', other) == CellOf(d, other) { }
      assert Conserved(CellOf(d', rid)) && OneUnitEach(CellOf(d', rid));
      hide CellOf;
    }
  }

  lemma RemoveKeepsInv(d: Dlm, rid: string)
    requires Inv(d)
    ensures Inv(RemoveResource(d, rid))
    ensures Disciplined(d) ==> Disciplined(RemoveResource(d, rid))
  {
    var d' := RemoveResource(d, rid);
    forall other | other in d'.resources ensures CellOf(d', other) == CellOf(d, other) { }
    if d' != d {
      assert Conserved(CellOf(d, rid));
      forall pid | pid in d.held ensures rid !in d.held[pid] { assert pid !in Counts(d, rid); }
      hide CellOf;
    }
  }

  // ---------- releasing everything, resource by resource ----------

  lemma {:induction false} ReleaseEachKeepsInv(d: Dlm, pid: int, order: seq<string>)
    requires Inv(d)
    ensures var d' := ReleaseEach(d, pid, order);
      && Inv(d') && (Disciplined(d) ==> Disciplined(d'))
      && d'.resources.Keys == d.resources.Keys && d'.base == d.base
      && d'.priority - {pid} == d.priority - {pid}
    decreases |order|
  {
    if order != [] {
      ReleaseKeepsInv(d, pid, order[0]);
      ReleaseFrame(d, pid, order[0]);
      hide Release, Inv, Disciplined;
      ReleaseEachKeepsInv(Release(d, pid, order[0]), pid, order[1..]);
    }
  }

  lemma {:induction false} ReleaseEachOnCells(d: Dlm, pid: int, order: seq<string>, rid: string)
    requires Inv(d) && rid in d.resources
    requires forall i, j :: 0 <= i < j < |order| ==> order[i] != order[j]
    ensures rid in ReleaseEach(d, pid, order).resources
    ensures CellOf(ReleaseEach(d, pid, order), rid) ==
            if rid in order then GiveAndPass(CellOf(d, rid), pid) else CellOf(d, rid)
    decreases |order|
  {
    if order != [] {
      ReleaseKeepsInv(d, pid, order[0]);
      ReleaseFrame(d, pid, order[0]);
      ReleaseOnCells(d, pid, order[0], rid);
      hide Release, Inv, GiveAndPass, CellOf;
      ReleaseEachOnCells(Release(d, pid, order[0]), pid, order[1..], rid);
      assert rid in order <==> rid == order[0] || rid in order[1..];
    }
  }

  lemma StaysReleasable(d: Dlm, pid: int, first: string, rid: string)
    requires Inv(d) && first != rid && CanRelease(d, pid, rid)
    ensures CanRelease(Release(d, pid, first), pid, rid)
  {
    ReleaseFrame(d, pid, first);
    ReleaseOnCells(d, pid, first, rid);
  }

  /** In a conserved state everything `release_all` visits is released. */
  lemma {:induction false} OrderIsFreed(d: Dlm, pid: int, order: seq<string>)
    requires Inv(d)
    requires forall i, j :: 0 <= i < j < |order| ==> order[i] != order[j]
    requires forall rid :: rid in order ==> CanRelease(d, pid, rid)
    ensures FreedBy(d, pid, order) == order
    decreases |order|
  {
    hide Inv, Release, CanRelease;
    if order != [] {
      var d' := Release(d, pid, order[0]);
      ReleaseKeepsInv(d, pid, order[0]);
      forall rid | rid in order[1..] ensures CanRelease(d', pid, rid) {
        StaysReleasable(d, pid, order[0], rid);
      }
      OrderIsFreed(d', pid, order[1..]);
      assert order == [order[0]] + order[1..];
    }
  }

  /** `release_all` frees a unit of every resource the process holds. */
  lemma EverythingHeldIsFreed(d: Dlm, pid: int, order: seq<string>)
    requires Inv(d) && Lists(order, d, pid)
    ensures FreedBy(d, pid, order) == order
  {
    forall rid | rid in order ensures CanRelease(d, pid, rid) {
      assert rid in d.resources;
      assert Conserved(CellOf(d, rid));
      assert pid in Counts(d, rid);
    }
    OrderIsFreed(d, pid, order);
  }

  lemma ForgetOnCells(d: Dlm, pid: int, rid: string)
    requires rid in d.resources
    ensures var c := CellOf(d, rid);
      CellOf(Forget(d, pid), rid) == Cell(c.r.(waitedBy := RemoveFirst(c.r.waitedBy, pid)), c.count - {pid})
  {
  }

  lemma ReleaseAllOnCells(d: Dlm, pid: int, order: seq<string>, rid: string)
    requires Inv(d) && rid in d.resources && Lists(order, d, pid)
    ensures rid in ReleaseAll(d, pid, order).resources
    ensures CellOf(ReleaseAll(d, pid, order), rid) == Erase(CellOf(d, rid), pid)
  {
    ReleaseEachOnCells(d, pid, order, rid);
    var mid := ReleaseEach(d, pid, order);
    ForgetOnCells(mid, pid, rid);
    hide ReleaseEach, Inv, Counts, Forget, Lists;
  }

  /** `release_all` keeps every unit accounted for, and the process out of every
      resource, exactly when the process held one unit of each of its resources
      and was not the first to wait for one of them. */
  predicate CleanHolder(d: Dlm, pid: int) {
    forall rid :: rid in d.resources && pid in d.held && rid in d.held[pid] ==>
      && d.held[pid][rid] == 1
      && !(d.resources[rid].waitedBy != [] && d.resources[rid].waitedBy[0] == pid)
  }

  lemma ReleaseAllConservesIff(d: Dlm, pid: int, order: seq<string>)
    requires Inv(d) && Lists(order, d, pid)
    ensures Inv(ReleaseAll(d, pid, order)) <==> CleanHolder(d, pid)
  {
    var d' := ReleaseAll(d, pid, order);
    ReleaseAllFrame(d, pid, order);
    forall rid | rid in d.resources
      ensures Conserved(CellOf(d', rid)) <==>
              (pid in d.held && rid in d.held[pid] ==>
                 && d.held[pid][rid] == 1
                 && !(d.resources[rid].waitedBy != [] && d.resources[rid].waitedBy[0] == pid))
    {
      assert Conserved(CellOf(d, rid));
      ReleaseAllOnCells(d, pid, order, rid);
      EraseConservesIff(CellOf(d, rid), pid);
      hide ReleaseAll, Erase, Conserved;
    }
    hide ReleaseAll, Conserved, CellOf, HeldKnown, PrioritiesSound;
  }

  lemma ReleaseAllFrame(d: Dlm, pid: int, order: seq<string>)
    requires Inv(d) && Lists(order, d, pid)
    ensures var d' := ReleaseAll(d, pid, order);
      && d'.resources.Keys == d.resources.Keys && d'.base == d.base - {pid} && d'.priority == d.priority - {pid}
      && HeldKnown(d') && PrioritiesSound(d')
      && pid !in d'.held
  {
    ReleaseEachKeepsInv(d, pid, order);
    hide ReleaseEach, AllConserved, Lists;
    var mid := ReleaseEach(d, pid, order);
    ForgetFrame(mid, pid);
    hide Forget, HeldKnown, PrioritiesSound;
    assert mid.priority - {pid} == d.priority - {pid} && mid.base == d.base;
  }

  lemma ForgetFrame(d: Dlm, pid: int)
    requires HeldKnown(d) && PrioritiesSound(d)
    ensures var d' := Forget(d, pid);
      && d'.resources.Keys == d.resources.Keys && d'.base == d.base - {pid} && d'.priority == d.priority - {pid}
      && HeldKnown(d') && PrioritiesSound(d')
      && pid !in d'.held
  {
  }

  /** A disciplined process is always a clean holder. */
  lemma DisciplinedIsClean(d: Dlm, pid: int)
    requires Inv(d) && Disciplined(d)
    ensures CleanHolder(d, pid)
  {
    forall rid | rid in d.resources && pid in d.held && rid in d.held[pid]
      ensures d.held[pid][rid] == 1
      ensures !(d.resources[rid].waitedBy != [] && d.resources[rid].waitedBy[0] == pid)
    {
      assert Conserved(CellOf(d, rid)) && OneUnitEach(CellOf(d, rid));
      assert pid in Counts(d, rid);
    }
  }

  lemma ReleaseAllKeepsDiscipline(d: Dlm, pid: int, order: seq<string>)
    requires Inv(d) && Disciplined(d) && Lists(order, d, pid)
    ensures Disciplined(ReleaseAll(d, pid, order))
  {
    var d' := ReleaseAll(d, pid, order);
    ReleaseAllFrame(d, pid, order);
    forall rid | rid in d'.resources ensures OneUnitEach(CellOf(d', rid)) {
      assert Conserved(CellOf(d, rid)) && OneUnitEach(CellOf(d, rid));
      ReleaseAllOnCells(d, pid, order, rid);
      EraseConservesIff(CellOf(d, rid), pid);
      hide ReleaseAll, Erase, OneUnitEach;
    }
  }

  // ---------- the run ----------

  lemma LegalStepKeepsInv(d: Dlm, e: Event)
    requires Inv(d) && Disciplined(d) && Legal(d, e)
    ensures Inv(Step(d, e)) && Disciplined(Step(d, e))
  {
    match e
    case Added(rid, total) => AddKeepsInv(d, rid, total);
    case Removed(rid) => RemoveKeepsInv(d, rid);
    case Requested(pid, rid, priority) => RequestKeepsInv(d, pid, rid, priority);
    case Released(pid, rid) => ReleaseKeepsInv(d, pid, rid);
    case AllReleased(pid, order) =>
      DisciplinedIsClean(d, pid);
      ReleaseAllConservesIff(d, pid, order);
      ReleaseAllKeepsDiscipline(d, pid, order);
  }

  /** In every reachable state of a legal run no unit is lost, the holders are
      the counted ones, nobody waits for a free unit, no process both holds and
      waits, and no effective priority is below its base priority. */
  lemma {:induction false} EveryRunConserves(d: Dlm, es: seq<Event>)
    requires Inv(d) && Disciplined(d) && LegalRun(d, es)
    ensures Inv(Run(d, es)) && Disciplined(Run(d, es))
    decreases |es|
  {
    if es != [] {
      LegalStepKeepsInv(d, es[0]);
      EveryRunConserves(Step(d, es[0]), es[1..]);
    }
  }

  // ---------- any run, repeated requests included ----------

  /** `release_all` walks over exactly the resources the process holds. */
  ghost predicate Walks(d: Dlm, e: Event) {
    e.AllReleased? ==> Lists(e.order, d, e.pid)
  }

  ghost predicate WalksInRun(d: Dlm, es: seq<Event>)
    decreases |es|
  {
    es == [] || (Walks(d, es[0]) && WalksInRun(Step(d, es[0]), es[1..]))
  }

  /** Whoever dies is a clean holder at that moment. */
  predicate CleanDeaths(d: Dlm, es: seq<Event>)
    decreases |es|
  {
    es == [] || ((es[0].AllReleased? ==> CleanHolder(d, es[0].pid)) && CleanDeaths(Step(d, es[0]), es[1..]))
  }

  /** Units are accounted for in every state of the run. */
  ghost predicate AlwaysConserved(d: Dlm, es: seq<Event>)
    decreases |es|
  {
    Inv(d) && (es == [] || AlwaysConserved(Step(d, es[0]), es[1..]))
  }

  lemma StepConservesIff(d: Dlm, e: Event)
    requires Inv(d) && Walks(d, e)
    ensures Inv(Step(d, e)) <==> (e.AllReleased? ==> CleanHolder(d, e.pid))
  {
    hide Inv;
    match e
    case Added(rid, total) => AddKeepsInv(d, rid, total);
    case Removed(rid) => RemoveKeepsInv(d, rid);
    case Requested(pid, rid, priority) => RequestKeepsInv(d, pid, rid, priority);
    case Released(pid, rid) => ReleaseKeepsInv(d, pid, rid);
    case AllReleased(pid, order) => ReleaseAllConservesIff(d, pid, order);
  }

  /** A run, with any requests whatever, keeps every unit accounted for throughout
      exactly when whoever dies holds one unit of each of its resources and heads
      the queue of none of them. */
  lemma {:induction false} RunConservesIff(d: Dlm, es: seq<Event>)
    requires Inv(d) && WalksInRun(d, es)
    ensures AlwaysConserved(d, es) <==> CleanDeaths(d, es)
    decreases |es|
  {
    hide Inv, Step, CleanHolder, Walks;
    if es != [] {
      StepConservesIff(d, es[0]);
      if Inv(Step(d, es[0])) { RunConservesIff(Step(d, es[0]), es[1..]); }
    }
  }

  lemma {:induction false} AlwaysMeansEveryPrefix(d: Dlm, es: seq<Event>)
    ensures AlwaysConserved(d, es) <==> forall n :: 0 <= n <= |es| ==> Inv(Run(d, es[..n]))
    decreases |es|
  {
    hide Inv, Step;
    assert es[..0] == [] && Run(d, es[..0]) == d;
    if es != [] {
      var next, rest := Step(d, es[0]), es[1..];
      AlwaysMeansEveryPrefix(next, rest);
      forall n | 0 < n <= |es| ensures Run(d, es[..n]) == Run(next, rest[..n - 1]) {
        assert es[..n][1..] == rest[..n - 1];
      }
      forall n | 0 <= n <= |rest| ensures Run(next, rest[..n]) == Run(d, es[..n + 1]) {
        assert es[..n + 1][1..] == rest[..n];
      }
    }
  }

  // ---------- a process's own priority ----------

  lemma StepKeepsBase(d: Dlm, e: Event, p: int)
    requires p in d.base && (e.AllReleased? ==> e.pid != p)
    ensures var d' := Step(d, e); p in d'.base && d'.base[p] == d.base[p]
  {
    hide Inherit, Returned, Taken, Popped, Joined, CountedDown;
    match e
    case AllReleased(pid, order) =>
      ReleaseEachKeepsBase(d, pid, order);
    case _ =>
  }

  lemma {:induction false} ReleaseEachKeepsBase(d: Dlm, pid: int, order: seq<string>)
    ensures ReleaseEach(d, pid, order).base == d.base
    decreases |order|
  {
    if order != [] {
      ReleaseEachKeepsBase(Release(d, pid, order[0]), pid, order[1..]);
      hide Returned, Taken, Popped, CountedDown;
    }
  }

  /** The first request that names a known resource fixes a process's own priority
      until it dies, whatever it asks for later. */
  lemma {:induction false} BaseStays(d: Dlm, es: seq<Event>, p: int)
    requires p in d.base && forall e :: e in es ==> e.AllReleased? ==> e.pid != p
    ensures p in Run(d, es).base && Run(d, es).base[p] == d.base[p]
    decreases |es|
  {
    hide Step;
    if es != [] {
      assert es[0] in es;
      StepKeepsBase(d, es[0], p);
      BaseStays(Step(d, es[0]), es[1..], p);
    }
  }

  lemma FirstRequestFixesBase(d: Dlm, p: int, rid: string, priority: int, es: seq<Event>)
    requires p !in d.base && rid in d.resources && forall e :: e in es ==> e.AllReleased? ==> e.pid != p
    ensures var d' := Run(d, [Requested(p, rid, priority)] + es);
      p in d'.base && d'.base[p] == priority
  {
    var d1 := Step(d, Requested(p, rid, priority));
    assert d1.base == d.base[p := priority];
    assert ([Requested(p, rid, priority)] + es)[1..] == es;
    hide Step;
    BaseStays(d1, es, p);
  }

  lemma EmptyManagerIsSound()
    ensures Inv(Empty()) && Disciplined(Empty())
  {
  }

  /** One process, two units of one resource. */
  function DoubleHolder(): Dlm {
    Dlm(map["printer" := Res(2, 0, [1], [])], map[1 := map["printer" := 2]], map[1 := 5], map[1 := 5])
  }

  lemma DoubleHolderIsReachable()
    ensures Inv(DoubleHolder())
    ensures DoubleHolder() ==
            Request(Request(AddResource(Empty(), "printer", 2), 1, "printer", 5), 1, "printer", 5)
  {
    var d1 := Dlm(map["printer" := Res(2, 2, [], [])], map[], map[], map[]);
    var one, two := map["printer" := 1], map["printer" := 2];
    var d2 := Dlm(map["printer" := Res(2, 1, [1], [])], map[1 := one], map[1 := 5], map[1 := 5]);
    var d3 := DoubleHolder();
    assert AddResource(Empty(), "printer", 2) == d1;
    assert Append([], 1) == [1] && Append([1], 1) == [1];
    assert one["printer" := 2] == two && map[1 := one][1 := two] == map[1 := two];
    assert Request(d1, 1, "printer", 5) == Grant(Register(d1, 1, 5), 1, "printer") == d2;
    assert Request(d2, 1, "printer", 5) == Grant(d2, 1, "printer") == d3;
    hide Grant, Register;
    AddKeepsInv(Empty(), "printer", 2);
    RequestKeepsInv(d1, 1, "printer", 5);
    RequestKeepsInv(d2, 1, "printer", 5);
  }

  /** One process with a priority of 1 that holds two locks. */
  function TwoLocks(): Dlm {
    Dlm(map["a" := Res(1, 0, [1], []), "b" := Res(1, 0, [1], [])],
        map[1 := map["a" := 1, "b" := 1]], map[1 := 1], map[1 := 1])
  }

  lemma TwoLocksIsReachable()
    ensures TwoLocks() ==
            Request(Request(AddResource(AddResource(Empty(), "a", 1), "b", 1), 1, "a", 1), 1, "b", 1)
  {
    assert "a"[0] != "b"[0];
    assert Append([], 1) == [1];
    var a0, a1 := Res(1, 1, [], []), Res(1, 0, [1], []);
    var free := Dlm(map["a" := a0, "b" := a0], map[], map[], map[]);
    assert AddResource(AddResource(Empty(), "a", 1), "b", 1) == free;
    var one := Dlm(map["a" := a1, "b" := a0], map[1 := map["a" := 1]], map[1 := 1], map[1 := 1]);
    assert Request(free, 1, "a", 1) == Grant(Register(free, 1, 1), 1, "a") == one by {
      assert free.resources["a" := a1] == one.resources;
    }
    var both, held := map["a" := 1, "b" := 1], TwoLocks();
    assert Request(one, 1, "b", 1) == Grant(one, 1, "b") == held by {
      assert map["a" := 1]["b" := 1] == both && one.held[1 := both] == held.held;
      assert one.resources["b" := a1] == held.resources;
    }
  }

  /** When 2 waits for one of them with priority 9, 1 is lifted to it; when 1 lets go
      of the other it drops below 2, which still waits. */
  lemma InheritanceIsLost()
    ensures
      var blocked := Request(TwoLocks(), 2, "a", 9);
      var after := Release(blocked, 1, "b");
      && blocked.priority == map[1 := 9, 2 := 9]
      && after.priority == map[1 := 1, 2 := 9]
      && after.resources["a"] == Res(1, 0, [1], [2])
  {
    assert "a"[0] != "b"[0];
    var blocked := Request(TwoLocks(), 2, "a", 9);
    assert Joined(Res(1, 0, [1], []), 2) == Res(1, 0, [1], [2]) by { assert Append([], 2) == [2]; }
    assert blocked.priority == map[1 := 9, 2 := 9];
    ReleaseRestoresPriority(blocked, 1, "b", 2);
  }

  /** When that process dies, one of its two units is lost for good: nobody
      holds it and it is not available. */
  lemma DoubleRequestLosesUnit()
    ensures var d := ReleaseAll(DoubleHolder(), 1, ["printer"]);
      && Lists(["printer"], DoubleHolder(), 1)
      && d.held == map[] && d.resources == map["printer" := Res(2, 1, [1], [])]
  {
    var d := DoubleHolder();
    assert ["printer"][0] == "printer";
    assert d.held[1]["printer" := 1] == map["printer" := 1];
    var d' := PutBack(d, 1, "printer");
    assert d'.resources == map["printer" := Res(2, 1, [1], [])];
    assert ReleaseEach(d, 1, ["printer"]) == Release(d, 1, "printer") == d' by {
      assert ["printer"][1..] == [];
    }
    assert RemoveFirst([], 1) == [];
    assert Forget(d', 1).resources == d'.resources;
  }
}
