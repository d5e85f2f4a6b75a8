/** Compaction, and the invariant of the memory manager over whole runs. */
module MemoryRuns {
  import opened Prelude
  import opened MemoryModel
  import opened MemoryOwnership

  // ---------- compaction ----------

  /** Everything about a block but its place. */
  function Contents(b: Block): Block { b.(start := 0) }

  /** The allocated blocks in order, without their places. */
  function Allocated(bs: seq<Block>): seq<Block> {
    if bs == [] then []
    else (if bs[0].pid.Some? then [Contents(bs[0])] else []) + Allocated(bs[1..])
  }

  lemma {:induction false} AllocatedConcat(a: seq<Block>, b: seq<Block>)
    ensures Allocated(a + b) == Allocated(a) + Allocated(b)
  {
    if a == [] {
      assert a + b == b;
    } else {
      var head := if a[0].pid.Some? then [Contents(a[0])] else [];
      AllocatedConcat(a[1..], b);
      assert Allocated(a + b) == head + Allocated(a[1..] + b) by { assert (a + b)[1..] == a[1..] + b; }
      assert Allocated(a) == head + Allocated(a[1..]);
      hide Allocated;
      assert head + (Allocated(a[1..]) + Allocated(b)) == (head + Allocated(a[1..])) + Allocated(b);
    }
  }

  lemma {:induction false} FreePlusUsed(bs: seq<Block>, lo: int, hi: int)
    requires Tiles(bs, lo, hi)
    ensures TotalFree(bs) >= 0 && Used(bs) >= 0 && TotalFree(bs) + Used(bs) == hi - lo
    ensures HasHole(bs) <==> TotalFree(bs) > 0
  {
    if bs != [] {
      FreePlusUsed(bs[1..], lo + bs[0].size, hi);
    }
  }

  lemma {:induction false} PackedKeeps(bs: seq<Block>, lo: int, hi: int, cursor: int, pid: int)
    requires Tiles(bs, lo, hi)
    ensures var p := Packed(bs, cursor);
      && Tiles(p, cursor, cursor + Used(bs))
      && Allocated(p) == Allocated(bs)
      && (forall i :: 0 <= i < |p| ==> p[i].pid.Some?)
      && Usage(p, pid) == Usage(bs, pid) && TotalFree(p) == 0
      && HasSecret(p) == HasSecret(bs)
  {
    if bs != [] {
      SecretInHeadOrTail(bs);
      if bs[0].pid.None? {
        PackedKeeps(bs[1..], lo + bs[0].size, hi, cursor, pid);
      } else {
        PackedKeeps(bs[1..], lo + bs[0].size, hi, cursor + bs[0].size, pid);
        var p := Packed(bs, cursor);
        assert p[1..] == Packed(bs[1..], cursor + bs[0].size);
        SecretInHeadOrTail(p);
      }
    }
  }

  /** Compaction keeps the allocated blocks in order, leaves at most one hole, at
      the end and of the total free size, and keeps the list sound. */
  lemma CompactionKeepsOrder(m: Mem, pid: int)
    requires Inv(m)
    ensures var m' := Compact(m);
      && Inv(m')
      && Allocated(m'.blocks) == Allocated(m.blocks)
      && TotalFree(m'.blocks) == TotalFree(m.blocks) && Usage(m'.blocks, pid) == Usage(m.blocks, pid)
      && (forall i :: 0 <= i < |m'.blocks| - 1 ==> m'.blocks[i].pid.Some?)
      && (TotalFree(m.blocks) > 0 ==> m'.blocks != [] && Fits(m'.blocks[|m'.blocks| - 1], TotalFree(m.blocks)))
  {
    FreePlusUsed(m.blocks, 0, m.total);
    if HasHole(m.blocks) {
      var packed := Packed(m.blocks, 0);
      var cursor := Used(m.blocks);
      var hole := Hole(cursor, m.total - cursor);
      assert Compact(m).blocks == packed + [hole];
      PackedKeeps(m.blocks, 0, m.total, 0, pid);
      AllocatedConcat(packed, [hole]);
      assert [hole][1..] == [];
      TilesJoin(packed, [hole], 0, cursor, m.total);
      SecretConcat(packed, [hole]);
      UsageConcat(packed, [hole], pid);
      forall q: int ensures Usage(packed + [hole], q) <= Quota(m) {
        PackedKeeps(m.blocks, 0, m.total, 0, q);
        UsageConcat(packed, [hole], q);
        assert Usage(m.blocks, q) <= Quota(m);
      }
    } else {
      forall i | 0 <= i < |m.blocks| - 1 ensures m.blocks[i].pid.Some? { }
    }
  }

  /** After compaction fragmentation is no reason for failure any more: under
      every policy a request succeeds exactly when it is permitted and no larger
      than the total free size. */
  lemma CompactionDefragments(m: Mem, policy: Policy, pid: int, size: int, tag: string, secure: bool)
    requires Inv(m) && size > 0
    ensures Allocate(Compact(m).(policy := policy), pid, size, tag, secure).1.Some? <==>
            Permitted(m, pid, size, secure) && size <= TotalFree(m.blocks)
  {
    var m' := Compact(m).(policy := policy);
    CompactionKeepsOrder(m, pid);
    FreePlusUsed(m.blocks, 0, m.total);
    AllocateSucceedsIff(m', pid, size, tag, secure);
    if j :| 0 <= j < |m'.blocks| && Fits(m'.blocks[j], size) {
      FreeCoversBlock(m'.blocks, 0, m.total, j);
    }
  }

  lemma {:induction false} FreeCoversBlock(bs: seq<Block>, lo: int, hi: int, j: nat)
    requires Tiles(bs, lo, hi) && j < |bs| && bs[j].pid.None?
    ensures bs[j].size <= TotalFree(bs)
  {
    FreePlusUsed(bs[1..], lo + bs[0].size, hi);
    if j > 0 { FreeCoversBlock(bs[1..], lo + bs[0].size, hi, j - 1); }
  }

  // ---------- runs ----------

  datatype Event =
    | Requested(pid: int, size: int, tag: string, secure: bool)
    | Deallocated(pid: int)
    | Compacted
    | Locked
    | Unlocked
    | PolicySet(policy: Policy)

  function Step(m: Mem, e: Event): Mem {
    match e
    case Requested(pid, size, tag, secure) => Allocate(m, pid, size, tag, secure).0
    case Deallocated(pid) => Deallocate(m, pid)
    case Compacted => Compact(m)
    case Locked => Lock(m)
    case Unlocked => Unlock(m)
    case PolicySet(p) => m.(policy := p)
  }

  function Run(m: Mem, es: seq<Event>): Mem
    decreases |es|
  {
    if es == [] then m else Run(Step(m, es[0]), es[1..])
  }

  lemma InitIsSoundIff(total: int, policy: Policy)
    ensures Inv(Init(total, policy)) <==> total > 0
  {
    var m := Init(total, policy);
    assert m.blocks[1..] == [];
    assert Tiles(m.blocks, 0, total) <==> total > 0;
    forall q: int ensures Usage(m.blocks, q) == 0 { }
    assert m.blocks[0].pid.None?;
  }

  /** A request for nothing is granted by every policy on a fresh memory, and puts
      a block of size zero into the list. */
  lemma NothingIsAllocated(total: int, policy: Policy, pid: int, tag: string)
    requires total > 0
    ensures Inv(Init(total, policy))
    ensures var (m, b) := Allocate(Init(total, policy), pid, 0, tag, false);
      && b == Some(Block(0, 0, Some(pid), tag, false))
      && m.blocks == [Block(0, 0, Some(pid), tag, false), Hole(0, total)]
      && !Inv(m)
  {
    var m := Init(total, policy);
    assert FindFree(policy, m.blocks, 1, 0) == Some(0) by { assert FindFree(policy, m.blocks, 0, 0) == None; }
    assert Usage(m.blocks, pid) == 0 by { assert m.blocks[1..] == []; }
    InitIsSoundIff(total, policy);
    AllocateKeepsInvIff(m, pid, 0, tag, false);
  }

  lemma StepKeepsInv(m: Mem, e: Event)
    requires Inv(m) && (e.Requested? ==> e.size > 0)
    ensures Inv(Step(m, e))
  {
    match e
    case Requested(pid, size, tag, secure) =>
      AllocateSucceedsIff(m, pid, size, tag, secure);
      if Allocate(m, pid, size, tag, secure).1.Some? { AllocateKeepsInvIff(m, pid, size, tag, secure); }
    case Deallocated(pid) => DeallocateFreesExactly(m, pid, 0);
    case Compacted => CompactionKeepsOrder(m, 0);
    case Locked => LockFreesExactly(m, 0);
    case Unlocked => assert forall q: int :: Usage(Unlock(m).blocks, q) == Usage(m.blocks, q);
    case PolicySet(p) => assert forall q: int :: Usage(m.(policy := p).blocks, q) == Usage(m.blocks, q);
  }

  /** In every reachable state the blocks cover the memory exactly, no two free
      blocks touch, nobody is over quota, and no secure block is allocated while
      the secure region is locked. */
  lemma {:induction false} EveryRunIsSound(m: Mem, es: seq<Event>)
    requires Inv(m) && forall e :: e in es ==> e.Requested? ==> e.size > 0
    ensures Inv(Run(m, es))
    decreases |es|
  {
    if es != [] {
      assert es[0] in es;
      StepKeepsInv(m, es[0]);
      EveryRunIsSound(Step(m, es[0]), es[1..]);
    }
  }

  // ---------- the secure gate ----------

  /** The vault was unlocked in the run and not locked since. */
  predicate LeftOpen(es: seq<Event>) {
    exists k :: 0 <= k < |es| && es[k].Unlocked? && forall j :: k < j < |es| ==> !es[j].Locked?
  }

  lemma {:induction false} GateFollowsEvents(m: Mem, es: seq<Event>)
    ensures var m' := Run(m, es);
      && m'.total == m.total
      && (!m'.locked <==> LeftOpen(es) || (!m.locked && forall j :: 0 <= j < |es| ==> !es[j].Locked?))
    decreases |es|
  {
    if es != [] {
      var m1, rest := Step(m, es[0]), es[1..];
      assert m1.total == m.total;
      assert m1.locked == if es[0].Locked? then true else if es[0].Unlocked? then false else m.locked;
      hide Step;
      GateFollowsEvents(m1, rest);
      if LeftOpen(es) {
        var k :| 0 <= k < |es| && es[k].Unlocked? && forall j :: k < j < |es| ==> !es[j].Locked?;
        if k > 0 { assert rest[k - 1].Unlocked?; }
      }
      if LeftOpen(rest) {
        var k :| 0 <= k < |rest| && rest[k].Unlocked? && forall j :: k < j < |rest| ==> !rest[j].Locked?;
        assert es[k + 1].Unlocked? && forall j :: k + 1 < j < |es| ==> es[j] == rest[j - 1];
      }
      assert forall j :: 1 <= j < |es| ==> es[j] == rest[j - 1];
    }
  }

  /** After any run from the start, a secure request is granted exactly when the
      vault was left open, the pid stays within a quarter of the memory, and some
      free block is large enough. */
  lemma SecureGrantIff(total: int, policy: Policy, es: seq<Event>, pid: int, size: int, tag: string)
    ensures var m := Run(Init(total, policy), es);
      Allocate(m, pid, size, tag, true).1.Some? <==>
        && LeftOpen(es)
        && Usage(m.blocks, pid) + size <= total / 4
        && exists j :: 0 <= j < |m.blocks| && m.blocks[j].pid == None && m.blocks[j].size >= size
  {
    GateFollowsEvents(Init(total, policy), es);
    hide Run, Allocate;
    AllocateSucceedsIff(Run(Init(total, policy), es), pid, size, tag, true);
  }

  // ---------- nothing is left behind in a free block ----------

  /** Free blocks carry the free label and no secure flag. */
  predicate HolesAreBlank(bs: seq<Block>) {
    forall i :: 0 <= i < |bs| && bs[i].pid == None ==> bs[i].tag == "free" && !bs[i].secure
  }

  lemma {:induction false} CoalesceKeepsBlank(bs: seq<Block>)
    requires HolesAreBlank(bs)
    ensures HolesAreBlank(Coalesce(bs))
    decreases |bs|
  {
    if |bs| >= 2 {
      if bs[0].pid.None? && bs[1].pid.None? {
        CoalesceKeepsBlank([Hole(bs[0].start, bs[0].size + bs[1].size)] + bs[2..]);
      } else {
        CoalesceKeepsBlank(bs[1..]);
      }
    }
  }

  lemma {:induction false} PackedHasNoHole(bs: seq<Block>, cursor: int)
    ensures forall i :: 0 <= i < |Packed(bs, cursor)| ==> Packed(bs, cursor)[i].pid.Some?
  {
    if bs != [] { PackedHasNoHole(bs[1..], if bs[0].pid.None? then cursor else cursor + bs[0].size); }
  }

  lemma StepKeepsBlank(m: Mem, e: Event)
    requires HolesAreBlank(m.blocks)
    ensures HolesAreBlank(Step(m, e).blocks)
  {
    hide Coalesce, Packed, FindFree, Usage, Used, HasSecret;
    match e
    case Deallocated(pid) => CoalesceKeepsBlank(FreeOwned(m.blocks, pid));
    case Locked => CoalesceKeepsBlank(FreeSecret(m.blocks));
    case Compacted => PackedHasNoHole(m.blocks, 0);
    case _ =>
  }

  /** In every reachable state a free block has lost the label and the secure flag
      of whoever had it. */
  lemma {:induction false} EveryRunBlanksHoles(m: Mem, es: seq<Event>)
    requires HolesAreBlank(m.blocks)
    ensures HolesAreBlank(Run(m, es).blocks)
    decreases |es|
  {
    hide Step, HolesAreBlank;
    if es != [] {
      StepKeepsBlank(m, es[0]);
      EveryRunBlanksHoles(Step(m, es[0]), es[1..]);
    }
  }
}
