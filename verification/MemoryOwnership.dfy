/** What the memory operations do to every single address, and the invariant of
    the block list in every reachable state. */
module MemoryOwnership {
  import opened Prelude
  import opened MemoryModel

  // ---------- splitting a block list in two ----------

  lemma {:induction false} TilesConcat(a: seq<Block>, b: seq<Block>, lo: int, hi: int) returns (mid: int)
    requires Tiles(a + b, lo, hi)
    ensures Tiles(a, lo, mid) && Tiles(b, mid, hi)
  {
    if a == [] {
      mid := lo;
      assert a + b == b;
    } else {
      assert (a + b)[1..] == a[1..] + b;
      mid := TilesConcat(a[1..], b, lo + a[0].size, hi);
    }
  }

  lemma {:induction false} TilesJoin(a: seq<Block>, b: seq<Block>, lo: int, mid: int, hi: int)
    requires Tiles(a, lo, mid) && Tiles(b, mid, hi)
    ensures Tiles(a + b, lo, hi)
  {
    if a == [] {
      assert a + b == b;
    } else {
      assert (a + b)[1..] == a[1..] + b;
      TilesJoin(a[1..], b, lo + a[0].size, mid, hi);
    }
  }

  lemma {:induction false} TilesBounds(bs: seq<Block>, lo: int, hi: int)
    requires Tiles(bs, lo, hi)
    ensures lo <= hi && (bs != [] ==> lo < hi)
    ensures forall a :: !(lo <= a < hi) ==> Owner(bs, a) == None && !SecretAt(bs, a)
  {
    if bs != [] { TilesBounds(bs[1..], lo + bs[0].size, hi); }
  }

  lemma {:induction false} OwnerConcat(a: seq<Block>, b: seq<Block>, lo: int, mid: int, hi: int, addr: int)
    requires Tiles(a, lo, mid) && Tiles(b, mid, hi)
    ensures Owner(a + b, addr) == if addr < mid then Owner(a, addr) else Owner(b, addr)
    ensures SecretAt(a + b, addr) == if addr < mid then SecretAt(a, addr) else SecretAt(b, addr)
  {
    TilesBounds(a, lo, mid);
    TilesBounds(b, mid, hi);
    if a == [] {
      assert a + b == b;
    } else {
      assert (a + b)[1..] == a[1..] + b;
      TilesBounds(a[1..], lo + a[0].size, mid);
      OwnerConcat(a[1..], b, lo + a[0].size, mid, hi, addr);
    }
  }

  lemma {:induction false} UsageConcat(a: seq<Block>, b: seq<Block>, pid: int)
    ensures Usage(a + b, pid) == Usage(a, pid) + Usage(b, pid)
    ensures TotalFree(a + b) == TotalFree(a) + TotalFree(b)
  {
    if a == [] {
      assert a + b == b;
    } else {
      assert (a + b)[1..] == a[1..] + b;
      UsageConcat(a[1..], b, pid);
    }
  }

  // ---------- choosing a block ----------

  /** A free block is found exactly when one is large enough, and the policy
      decides which. */
  lemma {:induction false} FindFreeFollowsPolicy(policy: Policy, bs: seq<Block>, n: nat, size: int)
    requires n <= |bs|
    ensures var r := FindFree(policy, bs, n, size);
      && (r.Some? <==> exists j :: 0 <= j < n && Fits(bs[j], size))
      && (r.Some? ==> forall j :: 0 <= j < n && Fits(bs[j], size) ==>
            && !Better(policy, bs[j], bs[r.value])
            && (j < r.value ==> policy != FirstFit && Better(policy, bs[r.value], bs[j])))
  {
    if n > 0 { FindFreeFollowsPolicy(policy, bs, n - 1, size); }
  }

  /** The policies in sizes: the first sufficient free block, the first of the
      smallest sufficient ones, the first of the largest. */
  lemma ChosenBySize(policy: Policy, bs: seq<Block>, size: int, j: nat)
    requires j < |bs| && bs[j].pid == None && bs[j].size >= size
    ensures var r := FindFree(policy, bs, |bs|, size);
      && r.Some? && bs[r.value].pid == None && bs[r.value].size >= size
      && (policy == FirstFit ==> r.value <= j)
      && (policy == BestFit ==> bs[r.value].size < bs[j].size || (bs[r.value].size == bs[j].size && r.value <= j))
      && (policy == WorstFit ==> bs[r.value].size > bs[j].size || (bs[r.value].size == bs[j].size && r.value <= j))
  {
    FindFreeFollowsPolicy(policy, bs, |bs|, size);
    assert Fits(bs[j], size);
  }

  // ---------- allocation ----------

  /** Allocation succeeds exactly when quota and secure gate permit it and some
      free block is large enough; a refused request changes nothing. */
  lemma AllocateSucceedsIff(m: Mem, pid: int, size: int, tag: string, secure: bool)
    ensures var (m', b) := Allocate(m, pid, size, tag, secure);
      && (b.Some? <==>
            && Usage(m.blocks, pid) + size <= m.total / 4
            && !(secure && m.locked)
            && exists j :: 0 <= j < |m.blocks| && m.blocks[j].pid == None && m.blocks[j].size >= size)
      && (b.None? ==> m' == m)
  {
    FindFreeFollowsPolicy(m.policy, m.blocks, |m.blocks|, size);
    forall j | 0 <= j < |m.blocks| && m.blocks[j].pid == None && m.blocks[j].size >= size
      ensures Fits(m.blocks[j], size)
    {
    }
  }

  /** The block list around the block at index `i`. */
  lemma Around(bs: seq<Block>, i: nat)
    requires i < |bs|
    ensures bs == bs[..i] + ([bs[i]] + bs[i + 1..])
  {
  }

  lemma CarvedTiles(chosen: Block, taken: Block)
    requires chosen.size > 0 && taken.start == chosen.start && 0 < taken.size <= chosen.size
    ensures Tiles(Carved(chosen, taken), chosen.start, chosen.start + chosen.size)
  {
    var rest := chosen.size - taken.size;
    if rest > 0 {
      var hole := Hole(chosen.start + taken.size, rest);
      assert [taken, hole][1..] == [hole] && [hole][1..] == [];
    } else {
      assert [taken][1..] == [];
    }
  }

  /** Exactly the returned addresses change owner: they were free and now belong to
      `pid`, as secret as the request asked for. */
  lemma AllocateTakesExactly(m: Mem, pid: int, size: int, tag: string, secure: bool, addr: int)
    requires Tiles(m.blocks, 0, m.total) && size > 0
    requires Allocate(m, pid, size, tag, secure).1.Some?
    ensures var (m', b) := Allocate(m, pid, size, tag, secure);
      && b.value == Block(b.value.start, size, Some(pid), tag, secure) && b.value in m'.blocks
      && 0 <= b.value.start && b.value.start + size <= m.total
      && Tiles(m'.blocks, 0, m.total)
      && if b.value.start <= addr < b.value.start + size
         then Owner(m.blocks, addr) == None && Owner(m'.blocks, addr) == Some(pid)
              && SecretAt(m'.blocks, addr) == secure
         else Owner(m'.blocks, addr) == Owner(m.blocks, addr) && SecretAt(m'.blocks, addr) == SecretAt(m.blocks, addr)
  {
    var i := FindFree(m.policy, m.blocks, |m.blocks|, size).value;
    var before, chosen, after := m.blocks[..i], m.blocks[i], m.blocks[i + 1..];
    var taken := Block(chosen.start, size, Some(pid), tag, secure);
    var carved := Carved(chosen, taken);
    Around(m.blocks, i);
    assert before + carved + after == before + (carved + after);
    assert carved[0] == taken && (before + carved + after)[|before|] == taken;
    hide FindFree, Carved, Tiles, Owner, SecretAt;
    CarvingKeepsOthers(before, chosen, after, taken, m.total, addr);
  }

  /** Replacing a free block by a taken one of at most its size touches no other address. */
  lemma CarvingKeepsOthers(before: seq<Block>, chosen: Block, after: seq<Block>, taken: Block, total: int, addr: int)
    requires Tiles(before + ([chosen] + after), 0, total) && chosen.pid.None?
    requires taken.start == chosen.start && 0 < taken.size <= chosen.size && taken.pid.Some?
    ensures 0 <= taken.start && taken.start + taken.size <= total
    ensures Tiles(before + (Carved(chosen, taken) + after), 0, total)
    ensures var bs, bs' := before + ([chosen] + after), before + (Carved(chosen, taken) + after);
      if taken.start <= addr < taken.start + taken.size
      then Owner(bs, addr) == None && Owner(bs', addr) == taken.pid && SecretAt(bs', addr) == taken.secure
      else Owner(bs', addr) == Owner(bs, addr) && SecretAt(bs', addr) == SecretAt(bs, addr)
  {
    var lo := TilesConcat(before, [chosen] + after, 0, total);
    var hi := TilesConcat([chosen], after, lo, total);
    assert hi == lo + chosen.size && chosen.start == lo && chosen.size > 0;
    hide Tiles, Owner, SecretAt;
    CarvedTiles(chosen, taken);
    CarvedOwner(chosen, taken, addr);
    hide Carved;
    ReplaceOwner(before, [chosen], after, lo, hi, total, addr);
    ReplaceOwner(before, Carved(chosen, taken), after, lo, hi, total, addr);
    TilesBounds(before, 0, lo);
    TilesBounds(after, hi, total);
  }

  lemma ReplaceOwner(before: seq<Block>, mid: seq<Block>, after: seq<Block>, lo: int, hi: int, total: int, addr: int)
    requires Tiles(before, 0, lo) && Tiles(mid, lo, hi) && Tiles(after, hi, total)
    ensures Tiles(before + (mid + after), 0, total)
    ensures Owner(before + (mid + after), addr) ==
            if addr < lo then Owner(before, addr) else if addr < hi then Owner(mid, addr) else Owner(after, addr)
    ensures SecretAt(before + (mid + after), addr) ==
            if addr < lo then SecretAt(before, addr)
            else if addr < hi then SecretAt(mid, addr)
            else SecretAt(after, addr)
  {
    TilesJoin(mid, after, lo, hi, total);
    TilesJoin(before, mid + after, 0, lo, total);
    OwnerConcat(mid, after, lo, hi, total, addr);
    OwnerConcat(before, mid + after, 0, lo, total, addr);
  }

  lemma CarvedOwner(chosen: Block, taken: Block, addr: int)
    requires chosen.pid.None? && taken.start == chosen.start && 0 < taken.size <= chosen.size
    ensures Owner([chosen], addr) == None
    ensures Owner(Carved(chosen, taken), addr) ==
            if taken.start <= addr < taken.start + taken.size then taken.pid else None
    ensures !SecretAt([chosen], addr)
    ensures SecretAt(Carved(chosen, taken), addr) <==>
            taken.start <= addr < taken.start + taken.size && SecretBlock(taken)
  {
    var rest := chosen.size - taken.size;
    if rest > 0 {
      var hole := Hole(chosen.start + taken.size, rest);
      assert [taken, hole][1..] == [hole] && [hole][1..] == [];
    } else {
      assert [taken][1..] == [];
    }
    assert [chosen][1..] == [];
  }

  lemma SecretInHeadOrTail(bs: seq<Block>)
    ensures HasSecret(bs) <==> bs != [] && (SecretBlock(bs[0]) || HasSecret(bs[1..]))
  {
    if bs != [] && HasSecret(bs) {
      var i :| 0 <= i < |bs| && SecretBlock(bs[i]);
      if i > 0 { assert SecretBlock(bs[1..][i - 1]); }
    }
    if bs != [] && HasSecret(bs[1..]) {
      var i :| 0 <= i < |bs[1..]| && SecretBlock(bs[1..][i]);
      assert SecretBlock(bs[i + 1]);
    }
  }

  lemma SecretConcat(a: seq<Block>, b: seq<Block>)
    ensures HasSecret(a + b) <==> HasSecret(a) || HasSecret(b)
  {
    var all := a + b;
    if HasSecret(all) {
      var i :| 0 <= i < |all| && SecretBlock(all[i]);
      if i >= |a| { assert SecretBlock(b[i - |a|]); } else { assert SecretBlock(a[i]); }
    }
    if HasSecret(a) {
      var i :| 0 <= i < |a| && SecretBlock(a[i]);
      assert SecretBlock(all[i]);
    }
    if HasSecret(b) {
      var i :| 0 <= i < |b| && SecretBlock(b[i]);
      assert SecretBlock(all[|a| + i]);
    }
  }

  /** A successful allocation keeps the block list sound exactly when it asked
      for at least one unit. */
  lemma AllocateKeepsInvIff(m: Mem, pid: int, size: int, tag: string, secure: bool)
    requires Inv(m) && Allocate(m, pid, size, tag, secure).1.Some?
    ensures Inv(Allocate(m, pid, size, tag, secure).0) <==> size > 0
  {
    var i := FindFree(m.policy, m.blocks, |m.blocks|, size).value;
    var before, chosen, after := m.blocks[..i], m.blocks[i], m.blocks[i + 1..];
    var taken := Block(chosen.start, size, Some(pid), tag, secure);
    var m' := Allocate(m, pid, size, tag, secure).0;
    Around(m.blocks, i);
    assert m'.blocks == before + (Carved(chosen, taken) + after);
    if size > 0 {
      AllocateTakesExactly(m, pid, size, tag, secure, 0);
      hide Tiles, FindFree, Usage, Merged, HasSecret, Carved;
      MergedAfterCarving(m.blocks, i, taken);
      forall q: int ensures Usage(m'.blocks, q) <= Quota(m) { UsageAfterCarving(m.blocks, i, taken, q); }
      SecretsAfterCarving(m.blocks, i, taken);
    } else {
      hide FindFree, Usage, Merged;
      NonPositiveDoesNotTile(before, Carved(chosen, taken) + after, 0, m.total);
    }
  }

  lemma {:induction false} NonPositiveDoesNotTile(a: seq<Block>, b: seq<Block>, lo: int, hi: int)
    requires b != [] && b[0].size <= 0
    ensures !Tiles(a + b, lo, hi)
  {
    if a == [] {
      assert a + b == b;
    } else {
      assert (a + b)[1..] == a[1..] + b;
      NonPositiveDoesNotTile(a[1..], b, lo + a[0].size, hi);
    }
  }

  lemma MergedAfterCarving(bs: seq<Block>, i: nat, taken: Block)
    requires Merged(bs) && i < |bs| && bs[i].pid.None? && taken.pid.Some?
    ensures Merged(bs[..i] + (Carved(bs[i], taken) + bs[i + 1..]))
  {
    var carved := Carved(bs[i], taken);
    var out := bs[..i] + (carved + bs[i + 1..]);
    forall k | 0 <= k < |out| - 1 ensures !(out[k].pid.None? && out[k + 1].pid.None?) {
      if k + 1 < i {
        assert out[k] == bs[k] && out[k + 1] == bs[k + 1];
      } else if k >= i + |carved| {
        var j := k - |carved| + 1;
        assert out[k] == bs[j] && out[k + 1] == bs[j + 1];
      } else if k == i + |carved| - 1 {
        assert out[k + 1] == bs[i + 1];
        assert !(bs[i].pid.None? && bs[i + 1].pid.None?);
      }
    }
  }

  lemma UsageAfterCarving(bs: seq<Block>, i: nat, taken: Block, q: int)
    requires i < |bs| && bs[i].pid.None? && taken.pid.Some?
    ensures Usage(bs[..i] + (Carved(bs[i], taken) + bs[i + 1..]), q) ==
            Usage(bs, q) + (if taken.pid == Some(q) then taken.size else 0)
  {
    var before, chosen, after := bs[..i], bs[i], bs[i + 1..];
    var carved := Carved(chosen, taken);
    Around(bs, i);
    UsageConcat(before, [chosen] + after, q);
    UsageConcat([chosen], after, q);
    UsageConcat(before, carved + after, q);
    UsageConcat(carved, after, q);
    assert Usage([chosen], q) == 0 by { assert [chosen][1..] == []; }
    CarvedUsage(chosen, taken, q);
  }

  lemma SecretsAfterCarving(bs: seq<Block>, i: nat, taken: Block)
    requires i < |bs| && bs[i].pid.None? && taken.pid.Some?
    ensures HasSecret(bs[..i] + (Carved(bs[i], taken) + bs[i + 1..])) <==> HasSecret(bs) || taken.secure
  {
    var before, chosen, after := bs[..i], bs[i], bs[i + 1..];
    var carved := Carved(chosen, taken);
    assert HasSecret(carved) <==> taken.secure by { assert SecretBlock(carved[0]) <==> taken.secure; }
    assert !HasSecret([chosen]);
    Around(bs, i);
    hide HasSecret, Carved;
    SecretConcat(before, carved + after);
    SecretConcat(carved, after);
    SecretConcat(before, [chosen] + after);
    SecretConcat([chosen], after);
  }

  lemma CarvedUsage(chosen: Block, taken: Block, q: int)
    requires taken.pid.Some?
    ensures Usage(Carved(chosen, taken), q) == if taken.pid == Some(q) then taken.size else 0
  {
    if chosen.size - taken.size > 0 {
      var hole := Hole(chosen.start + taken.size, chosen.size - taken.size);
      assert [taken, hole][1..] == [hole] && [hole][1..] == [];
      assert Usage([hole], q) == 0;
    } else {
      assert [taken][1..] == [];
    }
  }

  // ---------- coalescing ----------

  lemma {:induction false} CoalesceHead(bs: seq<Block>)
    requires bs != []
    ensures Coalesce(bs) != [] && (Coalesce(bs)[0].pid.None? <==> bs[0].pid.None?)
    decreases |bs|
  {
    if |bs| >= 2 && bs[0].pid.None? && bs[1].pid.None? {
      CoalesceHead([Hole(bs[0].start, bs[0].size + bs[1].size)] + bs[2..]);
    }
  }

  /** No two free blocks are left next to each other. */
  lemma {:induction false} CoalesceMerges(bs: seq<Block>)
    ensures Merged(Coalesce(bs))
    decreases |bs|
  {
    if |bs| >= 2 {
      if bs[0].pid.None? && bs[1].pid.None? {
        CoalesceMerges([Hole(bs[0].start, bs[0].size + bs[1].size)] + bs[2..]);
      } else {
        CoalesceMerges(bs[1..]);
        CoalesceHead(bs[1..]);
        var rest := Coalesce(bs[1..]);
        forall k | 0 <= k < |rest| ensures !(([bs[0]] + rest)[k].pid.None? && ([bs[0]] + rest)[k + 1].pid.None?) {
          if k > 0 { assert !(rest[k - 1].pid.None? && rest[k - 1 + 1].pid.None?); }
        }
      }
    }
  }

  /** Coalescing changes neither the extent of the list, nor the owner of any
      address, nor what anyone uses or what is free. */
  lemma {:induction false} CoalesceKeeps(bs: seq<Block>, lo: int, hi: int, addr: int, pid: int)
    requires Tiles(bs, lo, hi)
    ensures Tiles(Coalesce(bs), lo, hi)
    ensures Owner(Coalesce(bs), addr) == Owner(bs, addr) && SecretAt(Coalesce(bs), addr) == SecretAt(bs, addr)
    ensures Usage(Coalesce(bs), pid) == Usage(bs, pid) && TotalFree(Coalesce(bs)) == TotalFree(bs)
    ensures HasSecret(Coalesce(bs)) == HasSecret(bs)
    decreases |bs|
  {
    if |bs| >= 2 {
      SecretInHeadOrTail(bs);
      SecretInHeadOrTail(bs[1..]);
      if bs[0].pid.None? && bs[1].pid.None? {
        var joined := [Hole(bs[0].start, bs[0].size + bs[1].size)] + bs[2..];
        assert joined[1..] == bs[2..] && bs[1..][1..] == bs[2..];
        SecretInHeadOrTail(joined);
        CoalesceKeeps(joined, lo, hi, addr, pid);
      } else {
        CoalesceKeeps(bs[1..], lo + bs[0].size, hi, addr, pid);
        var out := [bs[0]] + Coalesce(bs[1..]);
        assert out[1..] == Coalesce(bs[1..]);
        SecretInHeadOrTail(out);
      }
    }
  }

  // ---------- freeing ----------

  /** Freeing the blocks of `pid` frees exactly its addresses. */
  lemma {:induction false} FreeOwnedKeeps(bs: seq<Block>, pid: int, lo: int, hi: int, addr: int, q: int)
    requires Tiles(bs, lo, hi)
    ensures var out := FreeOwned(bs, pid);
      && Tiles(out, lo, hi)
      && Owner(out, addr) == (if Owner(bs, addr) == Some(pid) then None else Owner(bs, addr))
      && Usage(out, q) == (if q == pid then 0 else Usage(bs, q))
      && (!HasSecret(bs) ==> !HasSecret(out))
      && (Usage(bs, pid) == 0 ==> out == bs)
      && Usage(bs, pid) >= 0
  {
    if bs != [] {
      var out := FreeOwned(bs, pid);
      assert out[1..] == FreeOwned(bs[1..], pid);
      FreeOwnedKeeps(bs[1..], pid, lo + bs[0].size, hi, addr, q);
      SecretInHeadOrTail(bs);
      SecretInHeadOrTail(out);
    }
  }

  lemma {:induction false} FreeSecretKeeps(bs: seq<Block>, lo: int, hi: int, addr: int, q: int)
    requires Tiles(bs, lo, hi)
    ensures var out := FreeSecret(bs);
      && Tiles(out, lo, hi)
      && Owner(out, addr) == (if SecretAt(bs, addr) then None else Owner(bs, addr))
      && 0 <= Usage(out, q) <= Usage(bs, q)
      && !HasSecret(out)
      && (!HasSecret(bs) ==> out == bs)
  {
    if bs != [] {
      var out := FreeSecret(bs);
      assert out[1..] == FreeSecret(bs[1..]);
      FreeSecretKeeps(bs[1..], lo + bs[0].size, hi, addr, q);
      SecretInHeadOrTail(bs);
      SecretInHeadOrTail(out);
    }
  }

  /** `deallocate` frees exactly the addresses `pid` owned and keeps the list sound. */
  lemma DeallocateFreesExactly(m: Mem, pid: int, addr: int)
    requires Inv(m)
    ensures var m' := Deallocate(m, pid);
      && Inv(m')
      && Owner(m'.blocks, addr) == (if Owner(m.blocks, addr) == Some(pid) then None else Owner(m.blocks, addr))
      && Usage(m'.blocks, pid) == 0
  {
    var freed := FreeOwned(m.blocks, pid);
    FreeOwnedKeeps(m.blocks, pid, 0, m.total, addr, pid);
    CoalesceKeeps(freed, 0, m.total, addr, pid);
    CoalesceMerges(freed);
    forall q: int ensures Usage(Deallocate(m, pid).blocks, q) <= Quota(m) {
      FreeOwnedKeeps(m.blocks, pid, 0, m.total, addr, q);
      CoalesceKeeps(freed, 0, m.total, addr, q);
      assert Usage(m.blocks, q) <= Quota(m);
      assert Usage(m.blocks, pid) <= Quota(m);
    }
  }

  /** Locking frees exactly the addresses of secure blocks and keeps the list sound. */
  lemma LockFreesExactly(m: Mem, addr: int)
    requires Inv(m)
    ensures var m' := Lock(m);
      && Inv(m')
      && m'.locked && m'.total == m.total && m'.policy == m.policy
      && !HasSecret(m'.blocks)
      && Owner(m'.blocks, addr) == (if !m.locked && SecretAt(m.blocks, addr) then None else Owner(m.blocks, addr))
  {
    if !m.locked {
      var freed := FreeSecret(m.blocks);
      FreeSecretKeeps(m.blocks, 0, m.total, addr, 0);
      CoalesceKeeps(freed, 0, m.total, addr, 0);
      CoalesceMerges(freed);
      forall q: int ensures Usage(Lock(m).blocks, q) <= Quota(m) {
        FreeSecretKeeps(m.blocks, 0, m.total, addr, q);
        CoalesceKeeps(freed, 0, m.total, addr, q);
        assert Usage(m.blocks, q) <= Quota(m);
      }
    }
  }

  /** What was allocated as secure is taken back by the next lock, and nothing else is. */
  lemma LockTakesBackSecrets(m: Mem, pid: int, size: int, tag: string, secure: bool, addr: int)
    requires Inv(m) && size > 0 && Allocate(m, pid, size, tag, secure).1.Some?
    ensures var (m', b) := Allocate(m, pid, size, tag, secure);
      b.value.start <= addr < b.value.start + size ==>
        Owner(Lock(m').blocks, addr) == if secure then None else Some(pid)
  {
    AllocateTakesExactly(m, pid, size, tag, secure, addr);
    AllocateKeepsInvIff(m, pid, size, tag, secure);
    LockFreesExactly(Allocate(m, pid, size, tag, secure).0, addr);
    hide Lock, FindFree, Owner, SecretAt, Inv;
  }
}
