/** The memory manager with its mutable block records and block list, proved
    against `MemoryModel`. */
module MemoryCore {
  import opened Prelude
  import opened MemoryModel

  class MemoryBlock {
    var start: int
    const size: int
    var pid: Option<int>
    var tag: string
    var isSecure: bool

    constructor (start: int, size: int, pid: Option<int>, tag: string, isSecure: bool)
      ensures Snapshot() == Block(start, size, pid, tag, isSecure)
    {
      this.start, this.size, this.pid, this.tag, this.isSecure := start, size, pid, tag, isSecure;
    }

    function Snapshot(): Block
      reads this
    {
      Block(start, size, pid, tag, isSecure)
    }

    method Release()
      modifies this
      ensures Snapshot() == Freed(old(Snapshot()))
    {
      pid, tag, isSecure := None, FREE, false;
    }
  }

  function Snapshots(bs: seq<MemoryBlock>): (q: seq<Block>)
    reads bs
    ensures |q| == |bs|
  {
    seq(|bs|, i requires 0 <= i < |bs| reads bs => bs[i].Snapshot())
  }

  ghost predicate Distinct(bs: seq<MemoryBlock>) {
    forall i, j :: 0 <= i < j < |bs| ==> bs[i] != bs[j]
  }

  class MemoryManager {
    const total: int
    var policy: Policy
    var blocks: seq<MemoryBlock>
    var secureLocked: bool

    ghost predicate Valid()
      reads this
    {
      Distinct(blocks)
    }

    ghost function Owned(): set<object>
      reads this
    {
      (set b: object | b in blocks) + {this}
    }

    function View(): Mem
      reads this, blocks
    {
      Mem(total, policy, Snapshots(blocks), secureLocked)
    }

    constructor (total: int, policy: Policy)
      ensures Valid() && View() == Init(total, policy)
    {
      this.total, this.policy, secureLocked := total, policy, true;
      var hole := new MemoryBlock(0, total, None, FREE, false);
      blocks := [hole];
    }

    method SetPolicy(p: Policy)
      modifies this`policy
      ensures View() == old(View()).(policy := p)
    {
      policy := p;
    }

    /** Index of the free block the policy chooses for a request. */
    method FindFreeBlock(size: int) returns (r: Option<nat>)
      ensures r == FindFree(policy, Snapshots(blocks), |blocks|, size)
    {
      r := None;
      for i := 0 to |blocks|
        invariant r == FindFree(policy, Snapshots(blocks), i, size)
      {
        var b := blocks[i];
        if b.pid == None && b.size >= size {
          if r == None
             || (policy == BestFit && b.size < blocks[r.value].size)
             || (policy == WorstFit && b.size > blocks[r.value].size) {
            r := Some(i);
          }
        }
      }
    }

    method UsageOf(pid: int) returns (sum: int)
      ensures sum == Usage(Snapshots(blocks), pid)
    {
      sum := 0;
      ghost var q := Snapshots(blocks);
      for i := 0 to |blocks|
        invariant sum + Usage(q[i..], pid) == Usage(q, pid)
      {
        assert q[i..][1..] == q[i + 1..];
        if blocks[i].pid == Some(pid) { sum := sum + blocks[i].size; }
      }
    }

    method Request(pid: int, size: int, tag: string, isSecure: bool) returns (got: MemoryBlock?)
      requires Valid()
      modifies this`blocks
      ensures Valid()
      ensures View() == Allocate(old(View()), pid, size, tag, isSecure).0
      ensures got != null <==> Allocate(old(View()), pid, size, tag, isSecure).1.Some?
      ensures got != null ==> fresh(got) && got in blocks
      ensures got != null ==> got.Snapshot() == Block(got.start, size, Some(pid), tag, isSecure)
      ensures got != null ==> Some(got.Snapshot()) == Allocate(old(View()), pid, size, tag, isSecure).1
    {
      var usage := UsageOf(pid);
      if usage + size > total / 4 { return null; }
      if isSecure && secureLocked { return null; }
      var index := FindFreeBlock(size);
      if index == None { return null; }
      got := Carve(index.value, pid, size, tag, isSecure);
    }

    /** Splits the chosen free block. */
    method Carve(i: nat, pid: int, size: int, tag: string, isSecure: bool) returns (got: MemoryBlock)
      requires Valid() && i < |blocks|
      modifies this`blocks
      ensures Valid() && fresh(got) && got in blocks
      ensures got.Snapshot() == Block(old(blocks[i].start), size, Some(pid), tag, isSecure)
      ensures Snapshots(blocks) == old(Snapshots(blocks)[..i])
                + Carved(old(Snapshots(blocks)[i]), got.Snapshot()) + old(Snapshots(blocks)[i + 1..])
    {
      ghost var q := Snapshots(blocks);
      var before, after := blocks[..i], blocks[i + 1..];
      var middle := Split(blocks[i], pid, size, tag, isSecure);
      got := middle[0];
      SnapshotsJoin(before, middle, after);
      assert Snapshots(before) == q[..i] && Snapshots(after) == q[i + 1..];
      hide Snapshots;
      blocks := before + middle + after;
      assert got == blocks[i];
    }

    /** The block records that replace `chosen`. */
    static method Split(chosen: MemoryBlock, pid: int, size: int, tag: string, isSecure: bool)
      returns (middle: seq<MemoryBlock>)
      ensures fresh(middle) && middle != [] && Distinct(middle)
      ensures middle[0].Snapshot() == Block(chosen.start, size, Some(pid), tag, isSecure)
      ensures Snapshots(middle) == Carved(chosen.Snapshot(), middle[0].Snapshot())
    {
      var taken := new MemoryBlock(chosen.start, size, Some(pid), tag, isSecure);
      middle := [taken];
      var remainder := chosen.size - size;
      if remainder > 0 {
        var hole := new MemoryBlock(chosen.start + size, remainder, None, FREE, false);
        middle := [taken, hole];
      }
    }

    method ReleaseAll(pid: int) returns (freed: int)
      requires Valid()
      modifies Owned()
      ensures Valid()
      ensures View() == Deallocate(old(View()), pid)
      ensures freed == Usage(old(View()).blocks, pid)
    {
      freed := UsageOf(pid);
      FreeBlocksOf(pid);
      if freed > 0 { CoalesceBlocks(); }
    }

    method FreeBlocksOf(pid: int)
      requires Valid()
      modifies set b: object | b in blocks
      ensures Snapshots(blocks) == FreeOwned(old(Snapshots(blocks)), pid)
    {
      for i := 0 to |blocks|
        invariant forall j :: 0 <= j < i ==> blocks[j].Snapshot() == FreeOwned(old(Snapshots(blocks)), pid)[j]
        invariant forall j :: i <= j < |blocks| ==> blocks[j].Snapshot() == old(Snapshots(blocks))[j]
      {
        if blocks[i].pid == Some(pid) { blocks[i].Release(); }
      }
    }

    /** Merges adjacent free blocks in place. */
    method CoalesceBlocks()
      requires Valid()
      modifies this`blocks
      ensures Valid()
      ensures Snapshots(blocks) == Coalesce(old(Snapshots(blocks)))
    {
      ghost var all := Snapshots(blocks);
      var i := 0;
      while i < |blocks| - 1
        invariant 0 <= i <= |blocks|
        invariant Valid()
        invariant Snapshots(blocks)[..i] + Coalesce(Snapshots(blocks)[i..]) == Coalesce(all)
        decreases |blocks| - i
      {
        ghost var q := Snapshots(blocks);
        var curr, next := blocks[i], blocks[i + 1];
        if curr.pid == None && next.pid == None {
          hide Coalesce, Snapshots;
          MergeAt(i);
        } else {
          CoalesceSkips(q, i);
          i := i + 1;
        }
      }
    }

    method MergeAt(i: nat)
      requires Valid() && i + 1 < |blocks| && blocks[i].pid == None && blocks[i + 1].pid == None
      modifies this`blocks
      ensures Valid() && |blocks| == |old(blocks)| - 1
      ensures Snapshots(blocks)[..i] == old(Snapshots(blocks)[..i])
      ensures Coalesce(Snapshots(blocks)[i..]) == Coalesce(old(Snapshots(blocks)[i..]))
    {
      var curr, next := blocks[i], blocks[i + 1];
      ghost var q := Snapshots(blocks);
      var merged := new MemoryBlock(curr.start, curr.size + next.size, None, FREE, false);
      blocks := blocks[..i] + [merged] + blocks[i + 2..];
      assert Snapshots(blocks)[i..] == [Hole(curr.start, curr.size + next.size)] + q[i..][2..];
    }

    /** Moves the allocated blocks together; returns the size of the holes. */
    method CompactBlocks() returns (recovered: int)
      requires Valid()
      modifies Owned()
      ensures Valid()
      ensures View() == Compact(old(View()))
      ensures recovered == TotalFree(old(View()).blocks)
    {
      var holes;
      recovered, holes := SumHoles();
      if holes == 0 { return; }
      var newBlocks, cursor := Pack();
      if cursor < total {
        var hole := new MemoryBlock(cursor, total - cursor, None, FREE, false);
        SnapshotsJoin(newBlocks, [hole], []);
        newBlocks := newBlocks + [hole];
      }
      blocks := newBlocks;
    }

    method SumHoles() returns (sum: int, holes: nat)
      ensures sum == TotalFree(Snapshots(blocks)) && (holes > 0 <==> HasHole(Snapshots(blocks)))
      ensures holes == 0 ==> sum == 0
    {
      sum, holes := 0, 0;
      ghost var q := Snapshots(blocks);
      for i := 0 to |blocks|
        invariant sum + TotalFree(q[i..]) == TotalFree(q)
        invariant holes > 0 <==> exists j :: 0 <= j < i && q[j].pid.None?
        invariant holes == 0 ==> sum == 0
      {
        assert q[i..][1..] == q[i + 1..];
        if blocks[i].pid == None {
          assert q[i].pid.None?;
          sum, holes := sum + blocks[i].size, holes + 1;
        }
      }
    }

    /** Gives every allocated block its new place. */
    method Pack() returns (newBlocks: seq<MemoryBlock>, cursor: int)
      requires Valid()
      modifies set b: object | b in blocks
      ensures Snapshots(newBlocks) == Packed(old(Snapshots(blocks)), 0) && cursor == Used(old(Snapshots(blocks)))
      ensures Distinct(newBlocks) && forall b :: b in newBlocks ==> b in blocks
    {
      newBlocks, cursor := [], 0;
      ghost var q := Snapshots(blocks);
      for i := 0 to |blocks|
        invariant Distinct(newBlocks) && forall b :: b in newBlocks ==> b in blocks[..i]
        invariant forall j :: i <= j < |blocks| ==> blocks[j].Snapshot() == q[j]
        invariant Snapshots(newBlocks) + Packed(q[i..], cursor) == Packed(q, 0)
        invariant cursor + Used(q[i..]) == Used(q)
      {
        var b := blocks[i];
        assert q[i..][1..] == q[i + 1..];
        assert Packed(q[i..], cursor) == if q[i].pid.None? then Packed(q[i + 1..], cursor)
          else [q[i].(start := cursor)] + Packed(q[i + 1..], cursor + q[i].size);
        assert Used(q[i..]) == (if q[i].pid.Some? then q[i].size else 0) + Used(q[i + 1..]);
        hide Packed, Used;
        assert b !in blocks[..i];
        if b.pid != None {
          newBlocks := AppendAt(newBlocks, b, cursor);
          cursor := cursor + b.size;
        }
      }
    }

    static method AppendAt(placed: seq<MemoryBlock>, b: MemoryBlock, cursor: int) returns (r: seq<MemoryBlock>)
      requires b !in placed
      modifies b
      ensures r == placed + [b] && b.Snapshot() == old(b.Snapshot()).(start := cursor)
      ensures Snapshots(r) == old(Snapshots(placed)) + [b.Snapshot()]
    {
      b.start := cursor;
      r := placed + [b];
    }

    method UnlockSecureRegions()
      modifies this`secureLocked
      ensures View() == Unlock(old(View()))
    {
      if secureLocked { secureLocked := false; }
    }

    method LockSecureRegions()
      requires Valid()
      modifies Owned()
      ensures Valid()
      ensures View() == Lock(old(View()))
    {
      if !secureLocked {
        secureLocked := true;
        var freed := FreeSecretBlocks();
        if freed > 0 { CoalesceBlocks(); }
      }
    }

    method FreeSecretBlocks() returns (freed: nat)
      requires Valid()
      modifies set b: object | b in blocks
      ensures Snapshots(blocks) == FreeSecret(old(Snapshots(blocks)))
      ensures freed > 0 <==> HasSecret(old(Snapshots(blocks)))
    {
      freed := 0;
      for i := 0 to |blocks|
        invariant forall j :: 0 <= j < i ==> blocks[j].Snapshot() == FreeSecret(old(Snapshots(blocks)))[j]
        invariant forall j :: i <= j < |blocks| ==> blocks[j].Snapshot() == old(Snapshots(blocks))[j]
        invariant freed > 0 <==> exists j :: 0 <= j < i && SecretBlock(old(Snapshots(blocks))[j])
      {
        if blocks[i].isSecure && blocks[i].pid != None {
          assert SecretBlock(old(Snapshots(blocks))[i]);
          blocks[i].Release();
          freed := freed + 1;
        }
      }
    }
  }

  lemma CoalesceSkips(q: seq<Block>, i: nat)
    requires i + 1 < |q| && !(q[i].pid.None? && q[i + 1].pid.None?)
    ensures q[..i] + Coalesce(q[i..]) == q[..i + 1] + Coalesce(q[i + 1..])
  {
    assert q[i..][1..] == q[i + 1..];
  }

  lemma SnapshotsJoin(a: seq<MemoryBlock>, b: seq<MemoryBlock>, c: seq<MemoryBlock>)
    ensures Snapshots(a + b + c) == Snapshots(a) + Snapshots(b) + Snapshots(c)
    ensures Snapshots(a + b) == Snapshots(a) + Snapshots(b)
  {
  }
}
