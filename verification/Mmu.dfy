/** Frame allocation and address translation: no two logical addresses share a
    physical one. */
module Mmu {
  import opened Prelude

  const PAGE_SIZE := 64

  datatype Entry = Entry(page: int, frame: int, present: bool, dirty: bool)

  /** Owner of each frame, and the page table of each process. */
  datatype State = State(frames: seq<Option<int>>, tables: map<int, map<int, Entry>>)

  function Init(total: nat): State {
    State(seq(total, _ => None), map[])
  }

  function TableOf(s: State, pid: int): map<int, Entry> {
    if pid in s.tables then s.tables[pid] else map[]
  }

  // ---------- operations ----------

  function MapPage(s: State, pid: int, page: int, frame: int): State {
    State(
      if 0 <= frame < |s.frames| then s.frames[frame := Some(pid)] else s.frames,
      s.tables[pid := TableOf(s, pid)[page := Entry(page, frame, true, false)]])
  }

  /** Indices of the free frames below `n`, in order. */
  function FreeBelow(frames: seq<Option<int>>, n: nat): seq<int>
    requires n <= |frames|
  {
    if n == 0 then []
    else FreeBelow(frames, n - 1) + (if frames[n - 1].None? then [n - 1] else [])
  }

  /** A prefix as Python slices it: a negative count drops from the end. */
  function Prefix(q: seq<int>, n: int): seq<int> {
    if n >= 0 then q[..Min(n, |q|)] else q[..Max(0, |q| + n)]
  }

  /** Maps the pages page, page + 1, ... to the listed frames. */
  function MapPages(s: State, pid: int, page: int, frames: seq<int>): State
    decreases |frames|
  {
    if frames == [] then s else MapPages(MapPage(s, pid, page, frames[0]), pid, page + 1, frames[1..])
  }

  function Taken(s: State, count: int): seq<int> {
    var free := FreeBelow(s.frames, |s.frames|);
    if |free| < count then [] else Prefix(free, count)
  }

  function AllocateFrames(s: State, pid: int, count: int): State {
    MapPages(s, pid, 0, Taken(s, count))
  }

  function FreeFrames(s: State, pid: int): State {
    State(seq(|s.frames|, i requires 0 <= i < |s.frames| => if s.frames[i] == Some(pid) then None else s.frames[i]),
          s.tables - {pid})
  }

  function Translate(s: State, pid: int, logical: int): Option<int> {
    var page := logical / PAGE_SIZE;
    var table := TableOf(s, pid);
    if page in table && table[page].present then Some(table[page].frame * PAGE_SIZE + logical % PAGE_SIZE)
    else None
  }

  // ---------- isolation ----------

  predicate Mapped(s: State, pid: int, page: int, frame: int) {
    pid in s.tables && page in s.tables[pid] && s.tables[pid][page].frame == frame && s.tables[pid][page].present
  }

  /** Every mapped frame exists and belongs to the process it is mapped for. */
  ghost predicate OwnedByMapper(s: State) {
    forall pid, page :: pid in s.tables && page in s.tables[pid] ==>
      var f := s.tables[pid][page].frame; 0 <= f < |s.frames| && s.frames[f] == Some(pid)
  }

  /** No frame is mapped twice. */
  ghost predicate MappedOnce(s: State) {
    forall p1, g1, p2, g2 | p1 in s.tables && g1 in s.tables[p1] && p2 in s.tables && g2 in s.tables[p2] ::
      s.tables[p1][g1].frame == s.tables[p2][g2].frame ==> p1 == p2 && g1 == g2
  }

  ghost predicate Isolated(s: State) {
    OwnedByMapper(s) && MappedOnce(s)
  }

  /** `map` keeps the processes isolated exactly when the frame exists and no
      other page of any process is mapped to it. */
  lemma MapPageIsolatesIff(s: State, pid: int, page: int, frame: int)
    requires Isolated(s)
    ensures Isolated(MapPage(s, pid, page, frame)) <==>
            0 <= frame < |s.frames|
            && forall q, g | q in s.tables && g in s.tables[q] && s.tables[q][g].frame == frame :: q == pid && g == page
  {
    var s' := MapPage(s, pid, page, frame);
    assert pid in s'.tables && page in s'.tables[pid] && s'.tables[pid][page].frame == frame;
    forall q, g | q in s.tables && g in s.tables[q] && !(q == pid && g == page)
      ensures q in s'.tables && g in s'.tables[q] && s'.tables[q][g] == s.tables[q][g]
    {
    }
    forall q, g | q in s'.tables && g in s'.tables[q] && !(q == pid && g == page)
      ensures q in s.tables && g in s.tables[q] && s'.tables[q][g] == s.tables[q][g]
    {
    }
  }

  lemma {:induction false} FreeBelowFacts(frames: seq<Option<int>>, n: nat)
    requires n <= |frames|
    ensures forall i :: 0 <= i < |FreeBelow(frames, n)| ==>
              0 <= FreeBelow(frames, n)[i] < n && frames[FreeBelow(frames, n)[i]].None?
    ensures forall i, j :: 0 <= i < j < |FreeBelow(frames, n)| ==> FreeBelow(frames, n)[i] < FreeBelow(frames, n)[j]
    ensures forall f :: 0 <= f < n && frames[f].None? ==> f in FreeBelow(frames, n)
  {
    if n > 0 { FreeBelowFacts(frames, n - 1); }
  }

  /** Mapping distinct free frames keeps the processes isolated. */
  lemma {:induction false} MapPagesIsolates(s: State, pid: int, page: int, frames: seq<int>)
    requires Isolated(s)
    requires forall i :: 0 <= i < |frames| ==> 0 <= frames[i] < |s.frames| && s.frames[frames[i]].None?
    requires forall i, j :: 0 <= i < j < |frames| ==> frames[i] != frames[j]
    ensures Isolated(MapPages(s, pid, page, frames))
    ensures |MapPages(s, pid, page, frames).frames| == |s.frames|
    decreases |frames|
  {
    if frames != [] {
      MapPageIsolatesIff(s, pid, page, frames[0]);
      MapPagesIsolates(MapPage(s, pid, page, frames[0]), pid, page + 1, frames[1..]);
    }
  }

  datatype Event = Allocated(pid: int, count: int) | Freed(pid: int)

  function Step(s: State, e: Event): State {
    match e
    case Allocated(pid, count) => AllocateFrames(s, pid, count)
    case Freed(pid) => FreeFrames(s, pid)
  }

  function Run(s: State, es: seq<Event>): State
    decreases |es|
  {
    if es == [] then s else Run(Step(s, es[0]), es[1..])
  }

  /** The frames an allocation takes are free and distinct. */
  lemma TakenIsFree(s: State, count: int)
    ensures var taken := Taken(s, count);
      && (forall i :: 0 <= i < |taken| ==> 0 <= taken[i] < |s.frames| && s.frames[taken[i]].None?)
      && (forall i, j :: 0 <= i < j < |taken| ==> taken[i] != taken[j])
  {
    FreeListIsFree(s);
    hide FreeBelow;
    assert Taken(s, count) == FreeList(s)[..|Taken(s, count)|];
  }

  lemma FreeListIsFree(s: State)
    ensures forall i :: 0 <= i < |FreeList(s)| ==> 0 <= FreeList(s)[i] < |s.frames| && s.frames[FreeList(s)[i]].None?
    ensures forall i, j :: 0 <= i < j < |FreeList(s)| ==> FreeList(s)[i] < FreeList(s)[j]
  {
    FreeBelowFacts(s.frames, |s.frames|);
  }

  lemma StepIsolates(s: State, e: Event)
    requires Isolated(s)
    ensures Isolated(Step(s, e))
  {
    match e
    case Allocated(pid, count) =>
      hide Taken, MapPages, Isolated;
      TakenIsFree(s, count);
      MapPagesIsolates(s, pid, 0, Taken(s, count));
    case Freed(pid) =>
  }

  lemma {:induction false} EveryRunIsolates(s: State, es: seq<Event>)
    requires Isolated(s)
    ensures Isolated(Run(s, es))
    decreases |es|
  {
    if es != [] {
      StepIsolates(s, es[0]);
      EveryRunIsolates(Step(s, es[0]), es[1..]);
    }
  }

  /** In every reachable state two logical addresses, of one process or of two,
      never translate to the same physical address, and translations stay inside
      the physical memory. */
  lemma TranslationIsInjective(total: nat, es: seq<Event>, p1: int, a1: int, p2: int, a2: int)
    ensures var s := Run(Init(total), es);
      && (Translate(s, p1, a1).Some? ==> 0 <= Translate(s, p1, a1).value < |s.frames| * PAGE_SIZE)
      && (Translate(s, p1, a1).Some? && Translate(s, p1, a1) == Translate(s, p2, a2) ==> p1 == p2 && a1 == a2)
  {
    EveryRunIsolates(Init(total), es);
    var s := Run(Init(total), es);
    hide Run;
    if Translate(s, p1, a1).Some? {
      var f1 := TableOf(s, p1)[a1 / PAGE_SIZE].frame;
      assert 0 <= f1 < |s.frames|;
      if Translate(s, p1, a1) == Translate(s, p2, a2) {
        var f2 := TableOf(s, p2)[a2 / PAGE_SIZE].frame;
      }
    }
  }

  function FreeList(s: State): seq<int> {
    FreeBelow(s.frames, |s.frames|)
  }

  /** How many of the first `n` frames the process owns. */
  function OwnedBelow(frames: seq<Option<int>>, n: nat, pid: int): nat
    requires n <= |frames|
  {
    if n == 0 then 0 else OwnedBelow(frames, n - 1, pid) + (if frames[n - 1] == Some(pid) then 1 else 0)
  }

  lemma {:induction false} FreeListGrows(s: State, pid: int, n: nat)
    requires n <= |s.frames|
    ensures |FreeBelow(FreeFrames(s, pid).frames, n)| == |FreeBelow(s.frames, n)| + OwnedBelow(s.frames, n, pid)
  {
    if n > 0 { FreeListGrows(s, pid, n - 1); }
  }

  /** `free_frames` adds every frame the process owned, mapped or not, to the free
      list, and takes nothing from anybody else. */
  lemma FreeReturnsEverything(s: State, pid: int)
    ensures var s' := Run(s, [Freed(pid)]);
      && |s'.frames| == |s.frames|
      && |FreeList(s')| == |FreeList(s)| + OwnedBelow(s.frames, |s.frames|, pid)
      && (forall f :: f in FreeList(s') <==> f in FreeList(s) || (0 <= f < |s.frames| && s.frames[f] == Some(pid)))
      && (forall f :: 0 <= f < |s.frames| && s.frames[f] != Some(pid) ==> s'.frames[f] == s.frames[f])
      && pid !in s'.tables
      && forall q :: q != pid ==> TableOf(s', q) == TableOf(s, q)
  {
    var s' := FreeFrames(s, pid);
    assert Run(s, [Freed(pid)]) == s';
    FreeListGrows(s, pid, |s.frames|);
    FreeBelowFacts(s.frames, |s.frames|);
    FreeBelowFacts(s'.frames, |s.frames|);
    hide FreeBelow;
  }

  /** Afterwards exactly the requests for no more than the free frames and the
      process's own together can be met. */
  lemma FreedFramesCanBeTakenIff(s: State, pid: int, count: nat)
    ensures |Taken(FreeFrames(s, pid), count)| == count <==>
            count <= |FreeList(s)| + OwnedBelow(s.frames, |s.frames|, pid)
  {
    FreeListGrows(s, pid, |s.frames|);
    hide FreeBelow;
  }

  lemma {:induction false} FreeUndoesMapping(s: State, pid: int, page: int, frames: seq<int>)
    requires forall i :: 0 <= i < |frames| ==> 0 <= frames[i] < |s.frames|
    requires forall i :: 0 <= i < |frames| ==> s.frames[frames[i]] in {None, Some(pid)}
    ensures FreeFrames(MapPages(s, pid, page, frames), pid) == FreeFrames(s, pid)
    decreases |frames|
  {
    if frames != [] {
      var next := MapPage(s, pid, page, frames[0]);
      FreeUndoesMapping(next, pid, page + 1, frames[1..]);
      assert FreeFrames(next, pid).frames == FreeFrames(s, pid).frames;
      assert next.tables - {pid} == s.tables - {pid};
    }
  }

  /** Freeing after an allocation is freeing without it: nothing of it is left. */
  lemma FreeUndoesAllocation(s: State, pid: int, count: int)
    ensures FreeFrames(AllocateFrames(s, pid, count), pid) == FreeFrames(s, pid)
  {
    TakenIsFree(s, count);
    hide Taken, FreeFrames, MapPages;
    FreeUndoesMapping(s, pid, 0, Taken(s, count));
  }

  lemma {:induction false} MapPagesMaps(s: State, pid: int, page: int, frames: seq<int>, k: nat)
    requires k < |frames|
    ensures Mapped(MapPages(s, pid, page, frames), pid, page + k, frames[k])
    decreases |frames|
  {
    if k > 0 {
      MapPagesMaps(MapPage(s, pid, page, frames[0]), pid, page + 1, frames[1..], k - 1);
    } else {
      MapPagesKeeps(MapPage(s, pid, page, frames[0]), pid, page + 1, frames[1..], page, frames[0]);
    }
  }

  lemma {:induction false} MapPagesKeeps(s: State, pid: int, page: int, frames: seq<int>, lower: int, f: int)
    requires lower < page && Mapped(s, pid, lower, f)
    ensures Mapped(MapPages(s, pid, page, frames), pid, lower, f)
    decreases |frames|
  {
    if frames != [] {
      MapPagesKeeps(MapPage(s, pid, page, frames[0]), pid, page + 1, frames[1..], lower, f);
    }
  }

  /** An allocation of `count` pages that succeeds maps the pages 0 .. count - 1,
      each to a frame of its own that was free. */
  lemma AllocationIsContiguous(s: State, pid: int, count: nat, k: nat)
    requires k < count <= |FreeBelow(s.frames, |s.frames|)|
    ensures var taken := Taken(s, count);
      && |taken| == count && 0 <= taken[k] < |s.frames| && s.frames[taken[k]].None?
      && Mapped(AllocateFrames(s, pid, count), pid, k, taken[k])
  {
    FreeBelowFacts(s.frames, |s.frames|);
    MapPagesMaps(s, pid, 0, Taken(s, count), k);
  }

  lemma {:induction false} MapPagesOwns(s: State, pid: int, page: int, frames: seq<int>, f: int)
    requires 0 <= f < |s.frames|
    ensures var s' := MapPages(s, pid, page, frames);
      && |s'.frames| == |s.frames|
      && s'.frames[f] == (if f in frames then Some(pid) else s.frames[f])
      && forall q :: q != pid ==> TableOf(s', q) == TableOf(s, q)
    decreases |frames|
  {
    if frames != [] {
      var next := MapPage(s, pid, page, frames[0]);
      assert forall q :: q != pid ==> TableOf(next, q) == TableOf(s, q);
      MapPagesOwns(next, pid, page + 1, frames[1..], f);
    }
  }

  /** An allocation is all or nothing: a request for more than what is free changes
      nothing, and any other takes as many frames as it asks for, the lowest that
      are free, from nobody. A negative count asks for all but that many. */
  lemma AllocationIsAllOrNothing(s: State, pid: int, count: int, f: int)
    requires 0 <= f < |s.frames|
    ensures var taken, s' := Taken(s, count), AllocateFrames(s, pid, count);
      if count > |FreeList(s)| then taken == [] && s' == s
      else
        && |taken| == (if count >= 0 then count else Max(0, |FreeList(s)| + count))
        && |s'.frames| == |s.frames|
        && (f in taken ==> s.frames[f] == None && s'.frames[f] == Some(pid))
        && (f !in taken ==> s'.frames[f] == s.frames[f])
        && (s.frames[f] == None && f !in taken ==> forall t :: t in taken ==> t < f)
        && forall q :: q != pid ==> TableOf(s', q) == TableOf(s, q)
  {
    var free, taken := FreeList(s), Taken(s, count);
    FreeBelowFacts(s.frames, |s.frames|);
    hide FreeBelow;
    MapPagesOwns(s, pid, 0, taken, f);
    hide MapPages, MapPage;
    if count <= |free| && s.frames[f] == None && f !in taken {
      var k :| 0 <= k < |free| && free[k] == f;
      assert taken == free[..|taken|];
      assert f in free[..k + 1];
      assert k + 1 > |taken|;
    }
  }

  /** The addresses of the pages just allocated translate to the same offsets of
      the frames taken. */
  lemma AllocatedAddressesTranslate(s: State, pid: int, count: nat, k: nat, offset: nat)
    requires k < count <= |FreeList(s)| && offset < 64
    ensures |Taken(s, count)| == count
    ensures Translate(Run(s, [Allocated(pid, count)]), pid, k * 64 + offset) ==
            Some(Taken(s, count)[k] * 64 + offset)
  {
    hide AllocateFrames, Taken, FreeBelow;
    assert Run(s, [Allocated(pid, count)]) == AllocateFrames(s, pid, count);
    AllocationIsContiguous(s, pid, count, k);
    var logical := k * PAGE_SIZE + offset;
    assert logical / PAGE_SIZE == k && logical % PAGE_SIZE == offset;
  }

  // ---------- the unit itself ----------

  class Unit {
    const totalFrames: nat
    var frames: seq<Option<int>>
    var pageTables: map<int, map<int, Entry>>

    ghost predicate Valid()
      reads this
    {
      |frames| == totalFrames
    }

    function View(): State
      reads this
    {
      State(frames, pageTables)
    }

    constructor (total: nat)
      ensures Valid() && View() == Init(total)
    {
      totalFrames := total;
      frames := seq(total, _ => None);
      pageTables := map[];
    }

    method Map(pid: int, page: int, frame: int)
      requires Valid()
      modifies this
      ensures Valid() && View() == MapPage(old(View()), pid, page, frame)
    {
      if pid !in pageTables { pageTables := pageTables[pid := map[]]; }
      pageTables := pageTables[pid := pageTables[pid][page := Entry(page, frame, true, false)]];
      if 0 <= frame < totalFrames { frames := frames[frame := Some(pid)]; }
      assert View().tables == MapPage(old(View()), pid, page, frame).tables;
    }

    method TranslateAddress(pid: int, logical: int) returns (physical: Option<int>)
      ensures physical == Translate(View(), pid, logical)
    {
      var page, offset := logical / PAGE_SIZE, logical % PAGE_SIZE;
      if pid !in pageTables || page !in pageTables[pid] || !pageTables[pid][page].present {
        return None;
      }
      physical := Some(pageTables[pid][page].frame * PAGE_SIZE + offset);
    }

    method Allocate(pid: int, count: int) returns (taken: seq<int>)
      requires Valid()
      modifies this
      ensures Valid() && taken == Taken(old(View()), count)
      ensures View() == AllocateFrames(old(View()), pid, count)
    {
      var free: seq<int> := [];
      for i := 0 to |frames|
        invariant free == FreeBelow(frames, i)
      {
        if frames[i] == None { free := free + [i]; }
      }
      if |free| < count { return []; }
      taken := Prefix(free, count);
      ghost var s := View();
      for k := 0 to |taken|
        invariant Valid()
        invariant MapPages(View(), pid, k, taken[k..]) == MapPages(s, pid, 0, taken)
      {
        assert taken[k..][1..] == taken[k + 1..];
        Map(pid, k, taken[k]);
      }
    }

    method Free(pid: int)
      requires Valid()
      modifies this
      ensures Valid() && View() == FreeFrames(old(View()), pid)
    {
      frames := seq(|frames|, i requires 0 <= i < |frames| reads this =>
                      if frames[i] == Some(pid) then None else frames[i]);
      pageTables := pageTables - {pid};
    }
  }
}
