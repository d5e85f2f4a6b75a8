/** Resources with FIFO hand-off and priority inheritance, as functions on
    snapshots of the deadlock manager.  `DeadlockCore` proves the imperative
    manager against these functions. */
module ResourceModel {
  import opened Prelude

  datatype Res = Res(total: int, available: int, heldBy: seq<int>, waitedBy: seq<int>)

  /** `held` counts the units each process has of each resource. */
  datatype Dlm = Dlm(
    resources: map<string, Res>,
    held: map<int, map<string, int>>,
    priority: map<int, int>,
    base: map<int, int>)

  const DEFAULT_PRIORITY := 5

  function Empty(): Dlm {
    Dlm(map[], map[], map[], map[])
  }

  function Get<K, V>(m: map<K, V>, k: K, default: V): V {
    if k in m then m[k] else default
  }

  function Append(q: seq<int>, x: int): seq<int> {
    if x in q then q else q + [x]
  }

  /** `q` without the first occurrence of `x`. */
  function RemoveFirst(q: seq<int>, x: int): seq<int> {
    if q == [] then []
    else if q[0] == x then q[1..]
    else [q[0]] + RemoveFirst(q[1..], x)
  }

  // ---------- operations ----------

  function AddResource(d: Dlm, rid: string, total: int): Dlm {
    if rid in d.resources then d else d.(resources := d.resources[rid := Res(total, total, [], [])])
  }

  function RemoveResource(d: Dlm, rid: string): Dlm {
    if rid in d.resources && d.resources[rid].heldBy == [] && d.resources[rid].waitedBy == []
    then d.(resources := d.resources - {rid})
    else d
  }

  // What the operations do to the resource itself.

  function Taken(r: Res, pid: int): Res {
    r.(available := r.available - 1, heldBy := Append(r.heldBy, pid))
  }

  function Returned(r: Res, pid: int, last: bool): Res {
    r.(available := r.available + 1, heldBy := if last then RemoveFirst(r.heldBy, pid) else r.heldBy)
  }

  function Joined(r: Res, pid: int): Res {
    r.(waitedBy := Append(r.waitedBy, pid))
  }

  function Popped(r: Res): Res
    requires r.waitedBy != []
  {
    r.(waitedBy := r.waitedBy[1..])
  }

  function Left(r: Res, pid: int): Res {
    r.(waitedBy := RemoveFirst(r.waitedBy, pid))
  }

  /** One unit of `rid` moves from the pool to `pid`. */
  function Grant(d: Dlm, pid: int, rid: string): Dlm
    requires rid in d.resources
  {
    var mine := Get(d.held, pid, map[]);
    d.(resources := d.resources[rid := Taken(d.resources[rid], pid)],
       held := d.held[pid := mine[rid := Get(mine, rid, 0) + 1]])
  }

  /** Every holder is lifted to the priority of the process that waits for it. */
  function Inherit(priority: map<int, int>, holders: seq<int>, wanted: int): map<int, int>
    decreases |holders|
  {
    if holders == [] then priority
    else
      var h := holders[0];
      Inherit(if wanted > Get(priority, h, DEFAULT_PRIORITY) then priority[h := wanted] else priority,
              holders[1..], wanted)
  }

  function Register(d: Dlm, pid: int, priority: int): Dlm {
    if pid in d.base then d
    else d.(base := d.base[pid := priority], priority := d.priority[pid := priority])
  }

  function Enqueue(d: Dlm, pid: int, rid: string, priority: int): Dlm
    requires rid in d.resources
  {
    var r := d.resources[rid];
    d.(resources := d.resources[rid := Joined(r, pid)],
       priority := Inherit(d.priority, r.heldBy, Get(d.priority, pid, priority)))
  }

  function Request(d: Dlm, pid: int, rid: string, priority: int): Dlm {
    if rid !in d.resources then d
    else
      var known := Register(d, pid, priority);
      if d.resources[rid].available > 0 then Grant(known, pid, rid) else Enqueue(known, pid, rid, priority)
  }

  predicate CanRelease(d: Dlm, pid: int, rid: string) {
    rid in d.resources && pid in d.resources[rid].heldBy
  }

  function UnitsLeft(held: map<int, map<string, int>>, pid: int, rid: string): int {
    Get(Get(held, pid, map[]), rid, 1) - 1
  }

  function CountedDown(held: map<int, map<string, int>>, pid: int, rid: string): map<int, map<string, int>> {
    var left := UnitsLeft(held, pid, rid);
    if pid !in held then held
    else held[pid := if left <= 0 then held[pid] - {rid} else held[pid][rid := left]]
  }

  /** One unit of `rid` goes back from `pid` to the pool. */
  function PutBack(d: Dlm, pid: int, rid: string): Dlm
    requires CanRelease(d, pid, rid)
  {
    d.(resources := d.resources[rid := Returned(d.resources[rid], pid, UnitsLeft(d.held, pid, rid) <= 0)],
       held := CountedDown(d.held, pid, rid),
       priority := if pid in d.base then d.priority[pid := d.base[pid]] else d.priority)
  }

  /** A free unit goes to the process that waited longest. */
  function HandOff(d: Dlm, rid: string): Dlm
    requires rid in d.resources
  {
    var r := d.resources[rid];
    if r.waitedBy != [] && r.available > 0 then
      Grant(d.(resources := d.resources[rid := Popped(r)]), r.waitedBy[0], rid)
    else d
  }

  function Release(d: Dlm, pid: int, rid: string): Dlm {
    if CanRelease(d, pid, rid) then HandOff(PutBack(d, pid, rid), rid) else d
  }

  /** One unit of each listed resource is released, in the listed order. */
  function ReleaseEach(d: Dlm, pid: int, order: seq<string>): Dlm
    decreases |order|
  {
    if order == [] then d else ReleaseEach(Release(d, pid, order[0]), pid, order[1..])
  }

  /** The listed resources of which a unit is actually released. */
  function FreedBy(d: Dlm, pid: int, order: seq<string>): seq<string>
    decreases |order|
  {
    if order == [] then []
    else (if CanRelease(d, pid, order[0]) then [order[0]] else [])
         + FreedBy(Release(d, pid, order[0]), pid, order[1..])
  }

  function Forget(d: Dlm, pid: int): Dlm {
    Dlm(map rid | rid in d.resources :: Left(d.resources[rid], pid),
        d.held - {pid}, d.priority - {pid}, d.base - {pid})
  }

  /** `order` lists the resources `pid` holds, each once, in some order. */
  ghost predicate Lists(order: seq<string>, d: Dlm, pid: int) {
    && (forall i, j :: 0 <= i < j < |order| ==> order[i] != order[j])
    && (forall rid :: rid in order <==> pid in d.held && rid in d.held[pid])
  }

  function ReleaseAll(d: Dlm, pid: int, order: seq<string>): Dlm {
    Forget(ReleaseEach(d, pid, order), pid)
  }

  // ---------- one resource and who holds how much of it ----------

  /** A resource with the unit counts of its holders. */
  datatype Cell = Cell(r: Res, count: map<int, int>)

  function Counts(d: Dlm, rid: string): map<int, int> {
    map pid | pid in d.held && rid in d.held[pid] :: d.held[pid][rid]
  }

  function CellOf(d: Dlm, rid: string): Cell
    requires rid in d.resources
  {
    Cell(d.resources[rid], Counts(d, rid))
  }

  function SumHeld(holders: seq<int>, count: map<int, int>): int {
    if holders == [] then 0 else Get(count, holders[0], 0) + SumHeld(holders[1..], count)
  }

  predicate Distinct(q: seq<int>) {
    forall i, j :: 0 <= i < j < |q| ==> q[i] != q[j]
  }

  /** The holders listed are the holders counted, and every unit is free or held. */
  ghost predicate Balanced(c: Cell) {
    && Distinct(c.r.heldBy) && Distinct(c.r.waitedBy)
    && (forall p :: p in c.r.heldBy <==> p in c.count)
    && (forall p :: p in c.count ==> c.count[p] >= 1)
    && c.r.available + SumHeld(c.r.heldBy, c.count) == c.r.total
    && (c.r.total >= 0 || c.r.heldBy != [] ==> c.r.available >= 0)
  }

  /** No unit is lost or invented, and nobody waits while a unit is free. */
  ghost predicate Conserved(c: Cell) {
    Balanced(c) && (c.r.waitedBy != [] ==> c.r.available <= 0)
  }

  /** Every process waits for or holds a resource, never both, and holds one unit. */
  ghost predicate OneUnitEach(c: Cell) {
    && (forall p :: p in c.count ==> c.count[p] == 1)
    && (forall p :: p in c.r.heldBy ==> p !in c.r.waitedBy)
  }

  ghost predicate PrioritiesSound(d: Dlm) {
    forall p :: p in d.base ==> p in d.priority && d.priority[p] >= d.base[p]
  }

  /** Units are counted for existing resources only. */
  ghost predicate HeldKnown(d: Dlm) {
    forall pid, rid :: pid in d.held && rid in d.held[pid] ==> rid in d.resources
  }

  ghost predicate AllConserved(d: Dlm) {
    forall rid :: rid in d.resources ==> Conserved(CellOf(d, rid))
  }

  ghost predicate Inv(d: Dlm) {
    AllConserved(d) && HeldKnown(d) && PrioritiesSound(d)
  }

  ghost predicate Disciplined(d: Dlm) {
    forall rid :: rid in d.resources ==> OneUnitEach(CellOf(d, rid))
  }
}
