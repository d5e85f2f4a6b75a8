/** The RAM allocator as functions on snapshots of its block list.
    `MemoryCore` proves the imperative manager against these functions. */
module MemoryModel {
  import opened Prelude

  datatype Block = Block(start: int, size: int, pid: Option<int>, tag: string, secure: bool)

  datatype Policy = FirstFit | BestFit | WorstFit

  datatype Mem = Mem(total: int, policy: Policy, blocks: seq<Block>, locked: bool)

  const FREE := "free"

  function Hole(start: int, size: int): Block {
    Block(start, size, None, FREE, false)
  }

  function Init(total: int, policy: Policy): Mem {
    Mem(total, policy, [Hole(0, total)], true)
  }

  // ---------- choosing a free block ----------

  predicate Fits(b: Block, size: int) {
    b.pid.None? && b.size >= size
  }

  predicate Better(policy: Policy, a: Block, b: Block) {
    match policy
    case FirstFit => false
    case BestFit => a.size < b.size
    case WorstFit => a.size > b.size
  }

  /** The preferred free block among the first `n`, the first one among equals. */
  function FindFree(policy: Policy, bs: seq<Block>, n: nat, size: int): (r: Option<nat>)
    requires n <= |bs|
    ensures r.Some? ==> r.value < n && Fits(bs[r.value], size)
  {
    if n == 0 then None
    else
      var i := FindFree(policy, bs, n - 1, size);
      if !Fits(bs[n - 1], size) then i
      else if i.None? || Better(policy, bs[n - 1], bs[i.value]) then Some(n - 1)
      else i
  }

  // ---------- operations ----------

  function Usage(bs: seq<Block>, pid: int): int {
    if bs == [] then 0 else (if bs[0].pid == Some(pid) then bs[0].size else 0) + Usage(bs[1..], pid)
  }

  function TotalFree(bs: seq<Block>): int {
    if bs == [] then 0 else (if bs[0].pid.None? then bs[0].size else 0) + TotalFree(bs[1..])
  }

  function Quota(m: Mem): int { m.total / 4 }

  predicate Permitted(m: Mem, pid: int, size: int, secure: bool) {
    Usage(m.blocks, pid) + size <= Quota(m) && !(secure && m.locked)
  }

  /** The blocks that replace the chosen one. */
  function Carved(chosen: Block, taken: Block): seq<Block> {
    if chosen.size - taken.size > 0
    then [taken, Hole(chosen.start + taken.size, chosen.size - taken.size)]
    else [taken]
  }

  function Allocate(m: Mem, pid: int, size: int, tag: string, secure: bool): (Mem, Option<Block>) {
    var i := FindFree(m.policy, m.blocks, |m.blocks|, size);
    if !Permitted(m, pid, size, secure) || i.None? then (m, None)
    else
      var chosen := m.blocks[i.value];
      var taken := Block(chosen.start, size, Some(pid), tag, secure);
      (m.(blocks := m.blocks[..i.value] + Carved(chosen, taken) + m.blocks[i.value + 1..]), Some(taken))
  }

  /** Adjacent free blocks become one. */
  function Coalesce(bs: seq<Block>): seq<Block>
    decreases |bs|
  {
    if |bs| < 2 then bs
    else if bs[0].pid.None? && bs[1].pid.None? then
      Coalesce([Hole(bs[0].start, bs[0].size + bs[1].size)] + bs[2..])
    else [bs[0]] + Coalesce(bs[1..])
  }

  function Freed(b: Block): Block {
    b.(pid := None, tag := FREE, secure := false)
  }

  function FreeOwned(bs: seq<Block>, pid: int): seq<Block> {
    seq(|bs|, i requires 0 <= i < |bs| => if bs[i].pid == Some(pid) then Freed(bs[i]) else bs[i])
  }

  function Deallocate(m: Mem, pid: int): Mem {
    var freed := FreeOwned(m.blocks, pid);
    m.(blocks := if Usage(m.blocks, pid) > 0 then Coalesce(freed) else freed)
  }

  predicate SecretBlock(b: Block) {
    b.secure && b.pid.Some?
  }

  predicate HasSecret(bs: seq<Block>) {
    exists i :: 0 <= i < |bs| && SecretBlock(bs[i])
  }

  function FreeSecret(bs: seq<Block>): seq<Block> {
    seq(|bs|, i requires 0 <= i < |bs| => if SecretBlock(bs[i]) then Freed(bs[i]) else bs[i])
  }

  function Lock(m: Mem): Mem {
    if m.locked then m
    else
      var freed := FreeSecret(m.blocks);
      m.(locked := true, blocks := if HasSecret(m.blocks) then Coalesce(freed) else freed)
  }

  function Unlock(m: Mem): Mem { m.(locked := false) }

  /** The allocated blocks, packed from `cursor` on. */
  function Packed(bs: seq<Block>, cursor: int): seq<Block> {
    if bs == [] then []
    else if bs[0].pid.None? then Packed(bs[1..], cursor)
    else [bs[0].(start := cursor)] + Packed(bs[1..], cursor + bs[0].size)
  }

  function Used(bs: seq<Block>): int {
    if bs == [] then 0 else (if bs[0].pid.Some? then bs[0].size else 0) + Used(bs[1..])
  }

  predicate HasHole(bs: seq<Block>) {
    exists i :: 0 <= i < |bs| && bs[i].pid.None?
  }

  function Compact(m: Mem): Mem {
    if !HasHole(m.blocks) then m
    else
      var cursor := Used(m.blocks);
      m.(blocks := Packed(m.blocks, 0) + (if cursor < m.total then [Hole(cursor, m.total - cursor)] else []))
  }

  // ---------- what a good block list is ----------

  /** The blocks cover [lo, hi) without gap or overlap, none of them empty. */
  predicate Tiles(bs: seq<Block>, lo: int, hi: int) {
    if bs == [] then lo == hi
    else bs[0].start == lo && bs[0].size > 0 && Tiles(bs[1..], lo + bs[0].size, hi)
  }

  predicate Merged(bs: seq<Block>) {
    forall i :: 0 <= i < |bs| - 1 ==> !(bs[i].pid.None? && bs[i + 1].pid.None?)
  }

  ghost predicate WithinQuota(m: Mem) {
    forall pid: int :: Usage(m.blocks, pid) <= Quota(m)
  }

  predicate Gated(m: Mem) {
    m.locked ==> !HasSecret(m.blocks)
  }

  ghost predicate Inv(m: Mem) {
    Tiles(m.blocks, 0, m.total) && Merged(m.blocks) && WithinQuota(m) && Gated(m)
  }

  /** Who owns the address `a`. */
  function Owner(bs: seq<Block>, a: int): Option<int> {
    if bs == [] then None
    else if bs[0].start <= a < bs[0].start + bs[0].size then bs[0].pid
    else Owner(bs[1..], a)
  }

  /** Whether the address `a` belongs to an allocated secure block. */
  predicate SecretAt(bs: seq<Block>, a: int) {
    if bs == [] then false
    else if bs[0].start <= a < bs[0].start + bs[0].size then SecretBlock(bs[0])
    else SecretAt(bs[1..], a)
  }
}
