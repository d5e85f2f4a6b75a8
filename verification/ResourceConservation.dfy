/** Conservation of resource units over whole runs, and when it fails. */
module ResourceConservation {
  import opened Prelude
  import opened ResourceModel

  // ---------- the operations on one cell ----------

  function Take(c: Cell, pid: int): Cell {
    Cell(c.r.(available := c.r.available - 1, heldBy := Append(c.r.heldBy, pid)),
         c.count[pid := Get(c.count, pid, 0) + 1])
  }

  function Give(c: Cell, pid: int): Cell
    requires pid in c.count
  {
    var left := c.count[pid] - 1;
    Cell(c.r.(available := c.r.available + 1,
              heldBy := if left <= 0 then RemoveFirst(c.r.heldBy, pid) else c.r.heldBy),
         if left <= 0 then c.count - {pid} else c.count[pid := left])
  }

  function Pass(c: Cell): Cell {
    if c.r.waitedBy != [] && c.r.available > 0
    then Take(c.(r := c.r.(waitedBy := c.r.waitedBy[1..])), c.r.waitedBy[0])
    else c
  }

  function GiveAndPass(c: Cell, pid: int): Cell {
    if pid in c.count then Pass(Give(c, pid)) else c
  }

  /** What `release_all` leaves of a cell. */
  function Erase(c: Cell, pid: int): Cell {
    var g := GiveAndPass(c, pid);
    Cell(g.r.(waitedBy := RemoveFirst(g.r.waitedBy, pid)), g.count - {pid})
  }

  lemma GrantOnCells(d: Dlm, pid: int, rid: string, other: string)
    requires rid in d.resources && other in d.resources
    ensures CellOf(Grant(d, pid, rid), other) == if other == rid then Take(CellOf(d, rid), pid) else CellOf(d, other)
  {
  }

  lemma PutBackOnCells(d: Dlm, pid: int, rid: string, other: string)
    requires CanRelease(d, pid, rid) && other in d.resources && pid in Counts(d, rid)
    ensures CellOf(PutBack(d, pid, rid), other) == if other == rid then Give(CellOf(d, rid), pid) else CellOf(d, other)
  {
  }

  lemma HandOffOnCells(d: Dlm, rid: string, other: string)
    requires rid in d.resources && other in d.resources
    ensures CellOf(HandOff(d, rid), other) == if other == rid then Pass(CellOf(d, rid)) else CellOf(d, other)
  {
    var r := d.resources[rid];
    if r.waitedBy != [] && r.available > 0 {
      var popped := d.(resources := d.resources[rid := r.(waitedBy := r.waitedBy[1..])]);
      GrantOnCells(popped, r.waitedBy[0], rid, other);
      assert Counts(popped, other) == Counts(d, other);
    }
  }

  lemma ReleaseOnCells(d: Dlm, pid: int, rid: string, other: string)
    requires Inv(d) && other in d.resources
    ensures CellOf(Release(d, pid, rid), other) ==
            if other == rid then GiveAndPass(CellOf(d, rid), pid) else CellOf(d, other)
  {
    if rid in d.resources { assert Conserved(CellOf(d, rid)); }
    if CanRelease(d, pid, rid) {
      PutBackOnCells(d, pid, rid, other);
      HandOffOnCells(PutBack(d, pid, rid), rid, other);
      PutBackOnCells(d, pid, rid, rid);
    }
  }

  // ---------- sums over holders ----------

  lemma {:induction false} SumAppend(h: seq<int>, p: int, count: map<int, int>)
    ensures SumHeld(h + [p], count) == SumHeld(h, count) + Get(count, p, 0)
  {
    if h != [] {
      assert (h + [p])[1..] == h[1..] + [p];
      SumAppend(h[1..], p, count);
    } else {
      assert h + [p] == [p] && [p][1..] == [];
    }
  }

  lemma {:induction false} SumUnaffected(h: seq<int>, a: map<int, int>, b: map<int, int>)
    requires forall p :: p in h ==> Get(a, p, 0) == Get(b, p, 0)
    ensures SumHeld(h, a) == SumHeld(h, b)
  {
    if h != [] {
      assert Get(a, h[0], 0) == Get(b, h[0], 0);
      SumUnaffected(h[1..], a, b);
    }
  }

  /** Changing the count of one distinct holder changes the sum by as much. */
  lemma {:induction false} SumChanged(h: seq<int>, a: map<int, int>, b: map<int, int>, pid: int)
    requires Distinct(h) && pid in h
    requires forall p :: p != pid ==> Get(a, p, 0) == Get(b, p, 0)
    ensures SumHeld(h, b) == SumHeld(h, a) + Get(b, pid, 0) - Get(a, pid, 0)
  {
    if h[0] == pid {
      assert forall p :: p in h[1..] ==> p != pid;
      SumUnaffected(h[1..], a, b);
    } else {
      SumChanged(h[1..], a, b, pid);
    }
  }

  lemma {:induction false} RemoveFirstFacts(q: seq<int>, x: int)
    requires Distinct(q)
    ensures Distinct(RemoveFirst(q, x))
    ensures forall p :: p in RemoveFirst(q, x) <==> p in q && p != x
    ensures x !in q ==> RemoveFirst(q, x) == q
  {
    if q != [] {
      assert forall p :: p in q <==> p == q[0] || p in q[1..];
      assert q[0] !in q[1..];
      if q[0] != x {
        RemoveFirstFacts(q[1..], x);
        var rest := RemoveFirst(q[1..], x);
        assert forall p :: p in RemoveFirst(q, x) <==> p == q[0] || p in rest;
      }
    }
  }

  lemma {:induction false} SumRemoved(h: seq<int>, count: map<int, int>, pid: int)
    requires Distinct(h) && pid in h
    ensures SumHeld(RemoveFirst(h, pid), count - {pid}) == SumHeld(h, count) - Get(count, pid, 0)
  {
    if h[0] == pid {
      assert forall p :: p in h[1..] ==> p != pid;
      SumUnaffected(h[1..], count - {pid}, count);
    } else {
      SumRemoved(h[1..], count, pid);
      var rest := RemoveFirst(h[1..], pid);
      assert RemoveFirst(h, pid) == [h[0]] + rest && ([h[0]] + rest)[1..] == rest;
    }
  }

  // ---------- one cell ----------

  lemma TakeKeepsBalance(c: Cell, pid: int)
    requires Balanced(c) && c.r.available > 0
    ensures Balanced(Take(c, pid))
  {
    var c' := Take(c, pid);
    if pid in c.r.heldBy {
      SumChanged(c.r.heldBy, c.count, c'.count, pid);
    } else {
      SumAppend(c.r.heldBy, pid, c'.count);
      SumUnaffected(c.r.heldBy, c.count, c'.count);
    }
  }

  lemma GiveKeepsBalance(c: Cell, pid: int)
    requires Balanced(c) && pid in c.count
    ensures Balanced(Give(c, pid))
  {
    var c' := Give(c, pid);
    if c.count[pid] == 1 {
      SumRemoved(c.r.heldBy, c.count, pid);
      RemoveFirstFacts(c.r.heldBy, pid);
    } else {
      SumChanged(c.r.heldBy, c.count, c'.count, pid);
    }
  }

  /** A free unit taken by a process that did not hold one. */
  lemma TakeFreeUnit(c: Cell, pid: int)
    requires Conserved(c) && c.r.available > 0
    ensures Conserved(Take(c, pid))
    ensures OneUnitEach(c) && pid !in c.r.heldBy ==> OneUnitEach(Take(c, pid))
  {
    TakeKeepsBalance(c, pid);
  }

  /** A process that does not hold a unit joins the queue. */
  lemma JoinQueue(c: Cell, pid: int)
    requires Conserved(c) && c.r.available <= 0
    ensures var c' := c.(r := c.r.(waitedBy := Append(c.r.waitedBy, pid)));
      Conserved(c') && (OneUnitEach(c) && pid !in c.r.heldBy ==> OneUnitEach(c'))
  {
  }

  lemma {:induction false} SumPositive(h: seq<int>, count: map<int, int>, pid: int)
    requires pid in h && forall p :: p in h ==> Get(count, p, 0) >= 1
    ensures SumHeld(h, count) >= 1
  {
    SumNonNegative(h[1..], count);
    if h[0] != pid { SumPositive(h[1..], count, pid); }
  }

  lemma {:induction false} SumNonNegative(h: seq<int>, count: map<int, int>)
    requires forall p :: p in h ==> Get(count, p, 0) >= 1
    ensures SumHeld(h, count) >= 0
  {
    if h != [] {
      assert Get(count, h[0], 0) >= 1;
      SumNonNegative(h[1..], count);
    }
  }

  lemma GiveAndPassConserves(c: Cell, pid: int)
    requires Conserved(c)
    ensures Conserved(GiveAndPass(c, pid))
    ensures OneUnitEach(c) ==> OneUnitEach(GiveAndPass(c, pid))
    ensures pid in c.count && (c.count[pid] > 1 || (c.r.waitedBy != [] && c.r.waitedBy[0] == pid))
            <==> pid in GiveAndPass(c, pid).count
  {
    if pid in c.count {
      GiveKeepsBalance(c, pid);
      RemoveFirstFacts(c.r.heldBy, pid);
      var g := Give(c, pid);
      if g.r.waitedBy != [] {
        var popped := g.(r := g.r.(waitedBy := g.r.waitedBy[1..]));
        TakeKeepsBalance(popped, g.r.waitedBy[0]);
      }
    }
  }

  /** Erasing a process keeps the cell conserved exactly when it held no more
      than one unit and was not about to be handed its own unit back. */
  lemma EraseConservesIff(c: Cell, pid: int)
    requires Conserved(c)
    ensures Conserved(Erase(c, pid)) <==>
            (pid in c.count ==> c.count[pid] == 1 && !(c.r.waitedBy != [] && c.r.waitedBy[0] == pid))
    ensures OneUnitEach(c) ==> Conserved(Erase(c, pid)) && OneUnitEach(Erase(c, pid))
    ensures Conserved(Erase(c, pid)) ==> pid !in Erase(c, pid).r.heldBy && pid !in Erase(c, pid).r.waitedBy
  {
    var g := GiveAndPass(c, pid);
    GiveAndPassConserves(c, pid);
    RemoveFirstFacts(g.r.waitedBy, pid);
    if pid !in g.count {
      assert g.count - {pid} == g.count;
    }
  }
}
