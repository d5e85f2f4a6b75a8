/** What moving and copying do to the rest of the tree and to the disk usage. */
module VfsMoves {
  import opened Prelude
  import opened PathResolver
  import opened VfsModel

  /** Neither path lies on the way to the other, nor are they the same. */
  predicate Apart(p: seq<string>, q: seq<string>) {
    !(p <= q) && !(q <= p)
  }

  // ---------- setting a path ----------

  lemma {:induction false} SetHolds(e: Entries, p: seq<string>, v: Node, made: nat -> Meta, rest: seq<string>)
    requires p != []
    ensures NodeAt(Dir(SetNode(e, p, v, made)), p + rest) == NodeAt(v, rest)
    decreases |p|
  {
    assert (p + rest)[1..] == p[1..] + rest;
    if |p| == 1 {
      LookupPut(e, p[0], v, p[0]);
      assert p[1..] + rest == rest;
    } else {
      var below := Below(e, p[0], made(|p|));
      SetHolds(below, p[1..], v, made, rest);
      LookupPut(e, p[0], Dir(SetNode(below, p[1..], v, made)), p[0]);
    }
  }

  lemma {:induction false} SetOpensTheWay(e: Entries, p: seq<string>, v: Node, made: nat -> Meta, i: nat)
    requires i < |p|
    ensures IsDir(SetNode(e, p, v, made), p[..i])
    decreases |p|
  {
    if i > 0 {
      var below := Below(e, p[0], made(|p|));
      SetOpensTheWay(below, p[1..], v, made, i - 1);
      LookupPut(e, p[0], Dir(SetNode(below, p[1..], v, made)), p[0]);
      assert p[..i][1..] == p[1..][..i - 1];
    }
  }

  lemma ParentBelow(e: Entries, p: seq<string>)
    requires |p| > 1 && IsDir(e, p[..|p| - 1])
    ensures Lookup(e, p[0]).Some? && Lookup(e, p[0]).value.Dir?
    ensures IsDir(Lookup(e, p[0]).value.entries, p[1..][..|p| - 2])
  {
    var front := p[..|p| - 1];
    assert front[1..] == p[1..][..|p| - 2];
    assert NodeAt(Dir(e), front) == NodeAt(Lookup(e, p[0]).value, front[1..]);
  }

  lemma NothingBelowAFile(e: Entries, p: seq<string>)
    requires |p| > 1 && !(Lookup(e, p[0]).Some? && Lookup(e, p[0]).value.Dir?)
    ensures NodeAt(Dir(e), p) == None
  {
    if Lookup(e, p[0]).Some? {
      var child := Lookup(e, p[0]).value;
      assert NodeAt(child, p[1..]) == None;
    }
  }

  lemma BareHoldsNothing(record: Meta, q: seq<string>)
    requires q != [] && Counted(q)
    ensures NodeAt(Dir(Cons(META, File(record), Nil)), q) == None
  {
    assert q[0] in q;
    assert Lookup(Nil, q[0]) == None;
  }

  /** Nothing apart from the path changes; directories created on the way bring
      only their own record. */
  lemma {:induction false} SetElsewhere(e: Entries, p: seq<string>, v: Node, made: nat -> Meta, q: seq<string>)
    requires p != [] && Apart(p, q)
    requires IsDir(e, p[..|p| - 1]) || Counted(q)
    ensures NodeAt(Dir(SetNode(e, p, v, made)), q) == NodeAt(Dir(e), q)
    decreases |p|
  {
    if |p| == 1 {
      LookupPut(e, p[0], v, q[0]);
    } else {
      var below := Below(e, p[0], made(|p|));
      LookupPut(e, p[0], Dir(SetNode(below, p[1..], v, made)), q[0]);
      if p[0] == q[0] {
        if IsDir(e, p[..|p| - 1]) { ParentBelow(e, p); }
        SetElsewhere(below, p[1..], v, made, q[1..]);
        if !(Lookup(e, p[0]).Some? && Lookup(e, p[0]).value.Dir?) {
          NothingBelowAFile(e, q);
          BareHoldsNothing(made(|p|), q[1..]);
        }
      }
    }
  }

  // ---------- deleting a path ----------

  lemma {:induction false} DelHolds(e: Entries, p: seq<string>, rest: seq<string>)
    requires p != [] && SoundEntries(e)
    ensures NodeAt(Dir(DelNode(e, p)), p + rest) == None
    decreases |p|
  {
    assert (p + rest)[1..] == p[1..] + rest;
    if |p| == 1 {
      LookupDrop(e, p[0], p[0]);
    } else {
      match Lookup(e, p[0])
      case Some(Dir(below)) =>
        LookupSound(e, p[0]);
        DelHolds(below, p[1..], rest);
        LookupPut(e, p[0], Dir(DelNode(below, p[1..])), p[0]);
      case _ =>
    }
  }

  /** A directory above the path keeps everything but what lies at the path. */
  lemma {:induction false} DelAbove(e: Entries, p: seq<string>, i: nat)
    requires i < |p|
    ensures NodeAt(Dir(DelNode(e, p)), p[..i]) ==
            match NodeAt(Dir(e), p[..i])
            case Some(Dir(x)) => Some(Dir(DelNode(x, p[i..])))
            case other => other
    decreases |p|
  {
    if i == 0 {
      assert p[0..] == p;
    } else {
      match Lookup(e, p[0])
      case Some(Dir(below)) =>
        DelAbove(below, p[1..], i - 1);
        LookupPut(e, p[0], Dir(DelNode(below, p[1..])), p[0]);
        assert p[..i][1..] == p[1..][..i - 1] && p[1..][i - 1..] == p[i..];
      case _ =>
    }
  }

  lemma {:induction false} DelElsewhere(e: Entries, p: seq<string>, q: seq<string>)
    requires p != [] && Apart(p, q) && SoundEntries(e)
    ensures NodeAt(Dir(DelNode(e, p)), q) == NodeAt(Dir(e), q)
    decreases |p|
  {
    if |p| == 1 {
      LookupDrop(e, p[0], q[0]);
    } else {
      match Lookup(e, p[0])
      case Some(Dir(below)) =>
        LookupPut(e, p[0], Dir(DelNode(below, p[1..])), q[0]);
        LookupSound(e, p[0]);
        if p[0] == q[0] {
          DelElsewhere(below, p[1..], q[1..]);
        }
      case _ =>
    }
  }

  /** Deleting is idle exactly when there is nothing at the path. */
  lemma {:induction false} DelIsIdleIff(e: Entries, p: seq<string>)
    requires p != []
    ensures DelNode(e, p) == e <==> NodeAt(Dir(e), p) == None
    decreases |p|
  {
    if |p| == 1 {
      DropSame(e, p[0]);
    } else {
      match Lookup(e, p[0])
      case Some(Dir(below)) =>
        DelIsIdleIff(below, p[1..]);
        PutSame(e, p[0], Dir(DelNode(below, p[1..])));
      case _ =>
    }
  }

  // ---------- the move ----------

  lemma PlacedIsSound(e: Entries, src: seq<string>, dst: seq<string>, made: nat -> Meta)
    requires src != [] && dst != [] && NodeAt(Dir(e), src).Some? && SoundEntries(e)
    ensures SoundEntries(SetNode(e, dst, NodeAt(Dir(e), src).value, made))
    ensures SoundEntries(Relocated(e, src, dst, made))
  {
    NodeAtSound(Dir(e), src);
    SetNodeSound(e, dst, NodeAt(Dir(e), src).value, made);
    DelNodeSound(SetNode(e, dst, NodeAt(Dir(e), src).value, made), src);
  }

  /** Setting `dst` leaves `q` alone, if they are apart: its directory exists, or `q`
      is not the record of one that has to be created. */
  predicate FreeOf(e: Entries, dst: seq<string>, q: seq<string>)
    requires dst != []
  {
    IsDir(e, dst[..|dst| - 1]) || Counted(q)
  }

  /** A move to a place apart from the source carries the whole subtree over,
      leaves nothing behind, and touches no other path but those on the way to the
      destination. */
  lemma MoveFrame(e: Entries, src: seq<string>, dst: seq<string>, made: nat -> Meta, q: seq<string>)
    requires src != [] && dst != [] && NodeAt(Dir(e), src).Some? && SoundEntries(e)
    requires Apart(src, dst)
    ensures NodeAt(Dir(Relocated(e, src, dst, made)), dst + q) == NodeAt(Dir(e), src + q)
    ensures NodeAt(Dir(Relocated(e, src, dst, made)), src + q) == None
    ensures Apart(q, src) && Apart(q, dst) && FreeOf(e, dst, q) ==>
      NodeAt(Dir(Relocated(e, src, dst, made)), q) == NodeAt(Dir(e), q)
  {
    var n := NodeAt(Dir(e), src).value;
    var placed := SetNode(e, dst, n, made);
    PlacedIsSound(e, src, dst, made);
    DelElsewhere(placed, src, dst + q);
    SetHolds(e, dst, n, made, q);
    NodeAtJoin(Dir(e), src, q);
    DelHolds(placed, src, q);
    if Apart(q, src) && Apart(q, dst) && FreeOf(e, dst, q) {
      DelElsewhere(placed, src, q);
      SetElsewhere(e, dst, n, made, q);
    }
  }

  /** Every place on the way to the destination is a directory afterwards, also where
      a file stood: that file is gone. */
  lemma MoveReplacesFilesOnTheWay(e: Entries, src: seq<string>, dst: seq<string>, made: nat -> Meta, i: nat)
    requires src != [] && NodeAt(Dir(e), src).Some? && i < |dst| && !(src <= dst[..i])
    ensures IsDir(Relocated(e, src, dst, made), dst[..i])
  {
    var n := NodeAt(Dir(e), src).value;
    var placed := SetNode(e, dst, n, made);
    SetOpensTheWay(e, dst, n, made, i);
    DelKeepsDirectory(placed, src, dst[..i]);
  }

  lemma {:induction false} DelKeepsDirectory(e: Entries, p: seq<string>, q: seq<string>)
    requires p != [] && IsDir(e, q) && !(p <= q)
    ensures IsDir(DelNode(e, p), q)
    decreases |p|
  {
    if q != [] {
      if |p| == 1 {
        LookupDropOther(e, p[0], q[0]);
      } else {
        match Lookup(e, p[0])
        case Some(Dir(below)) =>
          LookupPut(e, p[0], Dir(DelNode(below, p[1..])), q[0]);
          if p[0] == q[0] {
            DelKeepsDirectory(below, p[1..], q[1..]);
          }
        case _ =>
      }
    }
  }

  lemma {:induction false} LookupDropOther(e: Entries, name: string, other: string)
    ensures other != name ==> Lookup(Drop(e, name), other) == Lookup(e, other)
  {
    if e.Cons? { LookupDropOther(e.rest, name, other); }
  }

  /** The destination holds the source subtree after a move, wherever it points,
      unless it lies at or below the source, or above it with something at the
      source's place in the moved subtree. */
  lemma MoveDeliversIff(e: Entries, src: seq<string>, dst: seq<string>, made: nat -> Meta)
    requires src != [] && dst != [] && NodeAt(Dir(e), src).Some? && SoundEntries(e)
    ensures var n := NodeAt(Dir(e), src).value;
      NodeAt(Dir(Relocated(e, src, dst, made)), dst) == Some(n) <==>
      !(src <= dst) && !(dst <= src && NodeAt(n, src[|dst|..]).Some?)
  {
    var n := NodeAt(Dir(e), src).value;
    var placed := SetNode(e, dst, n, made);
    PlacedIsSound(e, src, dst, made);
    SetHolds(e, dst, n, made, []);
    assert dst + [] == dst;
    if src <= dst {
      DelHolds(placed, src, dst[|src|..]);
      assert src + dst[|src|..] == dst;
    } else if dst <= src {
      DelAbove(placed, src, |dst|);
      assert src[..|dst|] == dst;
      if n.Dir? { DelIsIdleIff(n.entries, src[|dst|..]); }
    } else {
      DelElsewhere(placed, src, dst);
    }
  }

  // ---------- disk usage ----------

  lemma {:induction false} SizePut(e: Entries, name: string, node: Node)
    ensures SizeOf(Put(e, name, node)) ==
            SizeOf(e) + if name == META then 0
                        else Size(node) - (match Lookup(e, name) case None => 0 case Some(was) => Size(was))
  {
    if e.Cons? { SizePut(e.rest, name, node); }
  }

  lemma {:induction false} SizeDrop(e: Entries, name: string)
    ensures SizeOf(Drop(e, name)) ==
            SizeOf(e) - if name == META then 0
                        else (match Lookup(e, name) case None => 0 case Some(was) => Size(was))
  {
    if e.Cons? { SizeDrop(e.rest, name); }
  }

  /** The counted bytes of the file that stands on the way to the path, if one does. */
  function BlockedBytes(e: Entries, p: seq<string>): nat
    decreases |p|
  {
    if |p| <= 1 || p[0] == META then 0
    else
      match Lookup(e, p[0])
      case None => 0
      case Some(File(meta)) => Bytes(meta.content)
      case Some(Dir(below)) => BlockedBytes(below, p[1..])
  }

  lemma {:induction false} NothingBlocks(e: Entries, p: seq<string>)
    requires p != [] && IsDir(e, p[..|p| - 1])
    ensures BlockedBytes(e, p) == 0
    decreases |p|
  {
    if |p| > 1 {
      ParentBelow(e, p);
      NothingBlocks(Lookup(e, p[0]).value.entries, p[1..]);
    }
  }

  /** Setting a path adds the new size, and frees what it overwrites and the file on
      the way that it replaces by a directory. */
  lemma {:induction false} SetSize(e: Entries, p: seq<string>, v: Node, made: nat -> Meta)
    requires p != []
    ensures SizeOf(SetNode(e, p, v, made)) ==
            SizeOf(e) - BlockedBytes(e, p) + if Counted(p) then Size(v) - SizeAt(e, p) else 0
    decreases |p|
  {
    if |p| == 1 {
      SizePut(e, p[0], v);
      NodeAtOne(e, p);
    } else {
      var below := Below(e, p[0], made(|p|));
      SetSize(below, p[1..], v, made);
      SizePut(e, p[0], Dir(SetNode(below, p[1..], v, made)));
      if !(Lookup(e, p[0]).Some? && Lookup(e, p[0]).value.Dir?) {
        NothingBelowAFile(e, p);
        BareSizes(made(|p|), p[1..]);
      }
    }
  }

  /** A bare directory holds nothing that counts. */
  lemma BareSizes(record: Meta, p: seq<string>)
    requires p != []
    ensures var bare := Cons(META, File(record), Nil);
      SizeOf(bare) == 0 && BlockedBytes(bare, p) == 0 && (Counted(p) ==> SizeAt(bare, p) == 0)
  {
    if Counted(p) { BareHoldsNothing(record, p); }
    if p[0] != META { assert Lookup(Cons(META, File(record), Nil), p[0]) == Lookup(Nil, p[0]) == None; }
  }

  lemma {:induction false} DelSize(e: Entries, p: seq<string>)
    requires p != []
    ensures SizeOf(DelNode(e, p)) == SizeOf(e) - if Counted(p) then SizeAt(e, p) else 0
    decreases |p|
  {
    if |p| == 1 {
      SizeDrop(e, p[0]);
      NodeAtOne(e, p);
    } else {
      match Lookup(e, p[0])
      case Some(Dir(below)) =>
        DelSize(below, p[1..]);
        SizePut(e, p[0], Dir(DelNode(below, p[1..])));
      case _ => NothingBelowAFile(e, p);
    }
  }

  lemma MoveSize(e: Entries, src: seq<string>, dst: seq<string>, made: nat -> Meta)
    requires src != [] && dst != [] && NodeAt(Dir(e), src).Some? && SoundEntries(e)
    requires Apart(src, dst) && FreeOf(e, dst, src)
    ensures SizeOf(Relocated(e, src, dst, made)) ==
            SizeOf(e) - BlockedBytes(e, dst)
            + (if Counted(dst) then SizeAt(e, src) - SizeAt(e, dst) else 0)
            - (if Counted(src) then SizeAt(e, src) else 0)
  {
    var n := NodeAt(Dir(e), src).value;
    SetSize(e, dst, n, made);
    SetElsewhere(e, dst, n, made, src);
    DelSize(SetNode(e, dst, n, made), src);
  }

  /** Moving into an empty slot leaves the root's disk usage as it was exactly
      when the two places are both counted or both not, or nothing is moved. */
  lemma MoveConservesIff(e: Entries, src: seq<string>, dst: seq<string>, made: nat -> Meta)
    requires src != [] && dst != [] && NodeAt(Dir(e), src).Some? && SoundEntries(e)
    requires Apart(src, dst) && IsDir(e, dst[..|dst| - 1]) && NodeAt(Dir(e), dst) == None
    ensures SizeOf(Relocated(e, src, dst, made)) == SizeOf(e) <==>
            (Counted(src) <==> Counted(dst)) || SizeAt(e, src) == 0
  {
    MoveSize(e, src, dst, made);
    NothingBlocks(e, dst);
  }

  /** A file of one byte moved to the name of the root's own record: `du` no longer
      sees it. */
  lemma MoveToRecordLosesUsage(meta: Meta, made: nat -> Meta)
    requires meta.content == "x"
    ensures var e := Cons("a", File(meta), Nil);
      && Apart(["a"], [META]) && SizeOf(e) == 1
      && SizeOf(Relocated(e, ["a"], [META], made)) == 0
  {
    var e := Cons("a", File(meta), Nil);
    NodeAtOne(e, ["a"]);
    NodeAtOne(e, [META]);
    assert |"a"| != |META| && ["a"][0] == "a" && [META][0] == META;
    assert Bytes("x") == 1 by { assert "x"[1..] == ""; }
    assert !Counted([META]) && Counted(["a"]);
    assert IsDir(e, [META][..0]);
    MoveSize(e, ["a"], [META], made);
    NothingBlocks(e, [META]);
  }

  /** Between counted places a move costs exactly what it overwrites and the file on
      the way to its destination. */
  lemma MoveFreesWhatItOverwrites(e: Entries, src: seq<string>, dst: seq<string>, made: nat -> Meta)
    requires src != [] && dst != [] && NodeAt(Dir(e), src).Some? && SoundEntries(e)
    requires Apart(src, dst) && Counted(src) && Counted(dst)
    ensures SizeOf(Relocated(e, src, dst, made)) == SizeOf(e) - SizeAt(e, dst) - BlockedBytes(e, dst)
  {
    MoveSize(e, src, dst, made);
  }

  /** Copying into an empty slot adds the source's size, also into its own subtree,
      less the file on the way. */
  lemma CopyGrows(e: Entries, src: seq<string>, dst: seq<string>, made: nat -> Meta)
    requires dst != [] && NodeAt(Dir(e), src).Some? && NodeAt(Dir(e), dst) == None && Counted(dst)
    ensures SizeOf(SetNode(e, dst, NodeAt(Dir(e), src).value, made)) ==
            SizeOf(e) + SizeAt(e, src) - BlockedBytes(e, dst)
    ensures IsDir(e, dst[..|dst| - 1]) ==> BlockedBytes(e, dst) == 0
  {
    SetSize(e, dst, NodeAt(Dir(e), src).value, made);
    if IsDir(e, dst[..|dst| - 1]) { NothingBlocks(e, dst); }
  }

  // ---------- the two commands ----------

  /** A move that reports an error leaves the tree alone, except when the source
      is the root and it got as far as the deletion. */
  lemma FailedMoveChangesNothingIff(e: Entries, cwd: seq<string>, src: seq<string>, dst: seq<string>,
                                    isRoot: bool, made: nat -> Meta)
    requires SoundEntries(e) && Moved(e, cwd, src, dst, isRoot, made).1 != Done
    ensures Moved(e, cwd, src, dst, isRoot, made).0 == e <==>
            !(src == [] && !IsDir(e, dst) && MayWriteTo(dst, cwd, isRoot))
  {
    if src == [] && !IsDir(e, dst) && MayWriteTo(dst, cwd, isRoot) {
      SetOpensTheWay(e, dst, Dir(e), made, 0);
      SetHolds(e, dst, Dir(e), made, []);
      assert dst + [] == dst;
    }
  }

  /** Moving the root to a new name fails, and leaves the name behind. */
  lemma FailedRootMoveChangesTree(made: nat -> Meta)
    ensures Moved(Nil, [], [], ["a"], false, made) == (Cons("a", Dir(Nil), Nil), IndexFault)
  {
    NodeAtOne(Nil, ["a"]);
  }

  /** Whatever `mv` resolves its destination to: after a successful call the subtree
      is there, unless that place is at or below the source, or above it with
      something at the source's place in the moved subtree. */
  lemma MoveCommandDeliversIff(e: Entries, cwd: seq<string>, src: seq<string>, dst: seq<string>,
                               isRoot: bool, made: nat -> Meta)
    requires SoundEntries(e) && Moved(e, cwd, src, dst, isRoot, made).1 == Done
    ensures var n := NodeAt(Dir(e), src).value;
      var final := Target(e, src, dst).value;
      NodeAt(Dir(Moved(e, cwd, src, dst, isRoot, made).0), final) == Some(n) <==>
      !(src <= final) && !(final <= src && NodeAt(n, src[|final|..]).Some?)
  {
    MoveDeliversIff(e, src, Target(e, src, dst).value, made);
  }

  /** Moving something onto itself reports success and deletes it. */
  lemma MoveOntoItselfDeletes(e: Entries, cwd: seq<string>, src: seq<string>, dst: seq<string>,
                              isRoot: bool, made: nat -> Meta)
    requires SoundEntries(e) && src != [] && NodeAt(Dir(e), src).Some? && Target(e, src, dst) == Some(src)
    requires MayWriteTo(src, cwd, isRoot)
    ensures var (after, status) := Moved(e, cwd, src, dst, isRoot, made);
      status == Done && NodeAt(Dir(after), src) == None
  {
    PlacedIsSound(e, src, src, made);
    DelHolds(SetNode(e, src, NodeAt(Dir(e), src).value, made), src, []);
    assert src + [] == src;
  }

  /** One file, and the call that renames it to its own name. */
  lemma RenameToOwnNameLosesFile(meta: Meta, made: nat -> Meta)
    ensures Moved(Cons("a", File(meta), Nil), [], ["a"], ["a"], false, made) == (Nil, Done)
  {
    var e := Cons("a", File(meta), Nil);
    NodeAtOne(e, ["a"]);
    assert Put(e, "a", File(meta)) == e && Drop(e, "a") == Nil;
  }

  /** `mv` lands under the destination itself or, when that is a directory, under
      the source's last name inside it: the subtree is there, gone from its old
      place, and nothing apart from both changed. */
  lemma MoveLands(e: Entries, cwd: seq<string>, src: seq<string>, dst: seq<string>, isRoot: bool,
                  made: nat -> Meta, q: seq<string>)
    requires SoundEntries(e) && src != [] && NodeAt(Dir(e), src).Some?
    requires Apart(src, if IsDir(e, dst) then dst + [src[|src| - 1]] else dst)
    ensures var final := if IsDir(e, dst) then dst + [src[|src| - 1]] else dst;
      var (after, status) := Moved(e, cwd, src, dst, isRoot, made);
      && status == (if MayWriteTo(final, cwd, isRoot) then Done else Denied)
      && (status == Done ==>
            && NodeAt(Dir(after), final + q) == NodeAt(Dir(e), src + q)
            && NodeAt(Dir(after), src + q) == None
            && (Apart(q, src) && Apart(q, final) && FreeOf(e, final, q) ==>
                  NodeAt(Dir(after), q) == NodeAt(Dir(e), q)))
  {
    var final := if IsDir(e, dst) then dst + [src[|src| - 1]] else dst;
    hide NodeAt, MayWriteTo, Relocated, Apart, FreeOf;
    MoveFrame(e, src, final, made, q);
  }

  /** `cp` lands in the same place; the source and everything else apart from it stay. */
  lemma CopyLands(e: Entries, cwd: seq<string>, src: seq<string>, dst: seq<string>,
                  recursive: bool, isRoot: bool, made: nat -> Meta, q: seq<string>)
    requires NodeAt(Dir(e), src).Some? && (src == [] ==> !IsDir(e, dst))
    ensures var final := if IsDir(e, dst) then dst + [src[|src| - 1]] else dst;
      var (after, status) := Copied(e, cwd, src, dst, recursive, isRoot, made);
      && status == (if IsDir(e, src) && !recursive then IsADirectory
                    else if MayWriteTo(final, cwd, isRoot) then Done else Denied)
      && (status == Done ==>
            && NodeAt(Dir(after), final + q) == NodeAt(Dir(e), src + q)
            && (Apart(final, q) && FreeOf(e, final, q) ==> NodeAt(Dir(after), q) == NodeAt(Dir(e), q)))
  {
    var final := if IsDir(e, dst) then dst + [src[|src| - 1]] else dst;
    var n := NodeAt(Dir(e), src).value;
    hide NodeAt, MayWriteTo, SetNode, Apart;
    SetHolds(e, final, n, made, q);
    NodeAtJoin(Dir(e), src, q);
    if Apart(final, q) && FreeOf(e, final, q) { SetElsewhere(e, final, n, made, q); }
  }

  /** How both commands end. What is checked is the destination's directory, and for
      a destination at the top level the current directory in its place: `proc` is
      closed to everybody, the other system directories to everybody but root. */
  lemma CommandsDecide(e: Entries, cwd: seq<string>, src: seq<string>, dst: seq<string>, recursive: bool,
                       isRoot: bool, made: nat -> Meta)
    requires src != []
    ensures var target := if IsDir(e, dst) then dst + [src[|src| - 1]] else dst;
      target != [] &&
      var checked := if |target| == 1 then cwd else target[..|target| - 1];
      var closed := checked != [] &&
        (checked[0] == "proc" || (!isRoot && checked[0] in {"etc", "bin", "dev", "var"}));
      var moved, copied := Moved(e, cwd, src, dst, isRoot, made).1, Copied(e, cwd, src, dst, recursive, isRoot, made).1;
      match NodeAt(Dir(e), src)
      case None => moved == NotFound && copied == NotFound
      case Some(n) =>
        && moved == (if closed then Denied else Done)
        && copied == (if n.Dir? && !recursive then IsADirectory else if closed then Denied else Done)
  {
    hide SetNode, Relocated;
    var target := if IsDir(e, dst) then dst + [src[|src| - 1]] else dst;
    assert target != [] by { assert dst == [] ==> IsDir(e, dst); }
    hide NodeAt;
    assert |target| == 1 <==> target[..|target| - 1] == [];
  }

  /** A file in the way of `mv a b/c` is replaced by a directory, and the call
      reports success. */
  lemma MoveDestroysFileOnTheWay(a: Meta, b: Meta, made: nat -> Meta)
    ensures var e := Cons("a", File(a), Cons("b", File(b), Nil));
      Moved(e, [], ["a"], ["b", "c"], false, made) ==
      (Cons("b", Dir(Cons(META, File(made(2)), Cons("c", File(a), Nil))), Nil), Done)
  {
    var e := Cons("a", File(a), Cons("b", File(b), Nil));
    NodeAtOne(e, ["a"]);
    assert "a"[0] != "b"[0];
    assert ["b", "c"][1..] == ["c"] && ["b", "c"][..1] == ["b"];
    assert Lookup(e, "b") == Lookup(e.rest, "b") == Some(File(b));
    NothingBelowAFile(e, ["b", "c"]);
    assert |"c"| != |META| && |"b"| == 1 && forall top :: top in PROTECTED || top == "proc" ==> |top| > 1;
    var inner, c := Cons(META, File(made(2)), Nil), Cons("c", File(a), Nil);
    assert SetNode(inner, ["c"], File(a), made) == Put(inner, "c", File(a)) == Cons(META, File(made(2)), c);
    var b' := Dir(Cons(META, File(made(2)), c));
    assert SetNode(e, ["b", "c"], File(a), made) == Put(e, "b", b') == Cons("a", File(a), Cons("b", b', Nil));
    assert DelNode(Cons("a", File(a), Cons("b", b', Nil)), ["a"]) == Cons("b", b', Nil);
  }

  lemma OtherTopLevelsStay(e: Entries, p: seq<string>, v: Node, made: nat -> Meta, q: seq<string>)
    requires p != [] && q != [] && p[0] != q[0]
    ensures NodeAt(Dir(SetNode(e, p, v, made)), q) == NodeAt(Dir(e), q)
  {
    if |p| == 1 {
      LookupPut(e, p[0], v, q[0]);
    } else {
      LookupPut(e, p[0], Dir(SetNode(Below(e, p[0], made(|p|)), p[1..], v, made)), q[0]);
    }
  }

  /** The caller may not write below `top`. */
  predicate Forbidden(top: string, isRoot: bool) {
    top == "proc" || (!isRoot && top in PROTECTED)
  }

  /** Everything under this top-level name reads as before. */
  ghost predicate SameUnder(top: string, e: Entries, after: Entries) {
    forall q | q != [] && q[0] == top :: NodeAt(Dir(after), q) == NodeAt(Dir(e), q)
  }

  lemma SetKeepsForbiddenIff(e: Entries, target: seq<string>, v: Node, made: nat -> Meta, cwd: seq<string>,
                             isRoot: bool, top: string)
    requires target != [] && MayWriteTo(target, cwd, isRoot) && Forbidden(top, isRoot)
    ensures SameUnder(top, e, SetNode(e, target, v, made)) <==> (target == [top] ==> Lookup(e, top) == Some(v))
  {
    var after := SetNode(e, target, v, made);
    if target == [top] {
      NodeAtOne(e, [top]);
      SetHolds(e, [top], v, made, []);
      assert [top] + [] == [top];
      if Lookup(e, top) == Some(v) { PutSame(e, top, v); }
    } else {
      hide NodeAt, SetNode;
      assert target[0] != top by {
        if |target| == 1 { assert target == [target[0]]; } else { assert target[..|target| - 1][0] == target[0]; }
      }
      forall q | q != [] && q[0] == top ensures NodeAt(Dir(after), q) == NodeAt(Dir(e), q) {
        OtherTopLevelsStay(e, target, v, made, q);
      }
    }
  }

  /** A copy leaves a forbidden directory as it was exactly when it does not land on
      the directory's own name, or lands there with what is there already: for a
      destination at the top level the current directory is checked instead. */
  lemma CopyLeavesProtectedAloneIff(e: Entries, cwd: seq<string>, src: seq<string>, dst: seq<string>, recursive: bool,
                                    isRoot: bool, made: nat -> Meta, top: string)
    requires Copied(e, cwd, src, dst, recursive, isRoot, made).1 == Done && Forbidden(top, isRoot)
    ensures SameUnder(top, e, Copied(e, cwd, src, dst, recursive, isRoot, made).0) <==>
            (Target(e, src, dst).value == [top] ==> Lookup(e, top) == NodeAt(Dir(e), src))
  {
    hide SetNode, MayWriteTo, SameUnder;
    SetKeepsForbiddenIff(e, Target(e, src, dst).value, NodeAt(Dir(e), src).value, made, cwd, isRoot, top);
  }

  lemma DelKeepsForbiddenIff(e: Entries, src: seq<string>, top: string)
    requires SoundEntries(e) && src != [] && NodeAt(Dir(e), src).Some?
    ensures SameUnder(top, e, DelNode(e, src)) <==> src[0] != top
  {
    hide NodeAt, DelNode;
    if src[0] != top {
      forall q | q != [] && q[0] == top ensures NodeAt(Dir(DelNode(e, src)), q) == NodeAt(Dir(e), q) {
        DelElsewhere(e, src, q);
      }
    } else {
      DelHolds(e, src, []);
      assert src + [] == src;
    }
  }

  /** A move does so exactly when, besides, the source is not in that directory: the
      source is not checked at all. */
  lemma MoveLeavesProtectedAloneIff(e: Entries, cwd: seq<string>, src: seq<string>, dst: seq<string>,
                                    isRoot: bool, made: nat -> Meta, top: string)
    requires SoundEntries(e) && Moved(e, cwd, src, dst, isRoot, made).1 == Done && Forbidden(top, isRoot)
    ensures SameUnder(top, e, Moved(e, cwd, src, dst, isRoot, made).0) <==>
            src[0] != top && (Target(e, src, dst).value == [top] ==> Lookup(e, top) == NodeAt(Dir(e), src))
  {
    var final, n := Target(e, src, dst).value, NodeAt(Dir(e), src).value;
    var placed := SetNode(e, final, n, made);
    PlacedIsSound(e, src, final, made);
    if src[0] == top {
      DelHolds(placed, src, []);
      assert src + [] == src;
    } else {
      SetKeepsForbiddenIff(e, final, n, made, cwd, isRoot, top);
      hide NodeAt, SetNode, DelNode, MayWriteTo, Target;
      forall q | q != [] && q[0] == top ensures NodeAt(Dir(DelNode(placed, src)), q) == NodeAt(Dir(placed), q) {
        DelElsewhere(placed, src, q);
      }
    }
  }

  /** A system with a password file, and a user's own directory called "etc". */
  function EtcTree(passwd: Meta): Entries {
    Cons("etc", Dir(Cons("passwd", File(passwd), Nil)),
    Cons("home", Dir(Cons("user", Dir(Cons("etc", Dir(Nil), Nil)), Nil)), Nil))
  }

  lemma EtcTreePaths(passwd: Meta)
    ensures var e := EtcTree(passwd);
      && NodeAt(Dir(e), ["etc", "passwd"]) == Some(File(passwd))
      && NodeAt(Dir(e), ["home", "user", "etc"]) == Some(Dir(Nil))
      && NodeAt(Dir(e), ["home", "user"]) == Some(Dir(Cons("etc", Dir(Nil), Nil)))
  {
    var e := EtcTree(passwd);
    assert "etc"[0] != "home"[0];
    assert Lookup(e, "home") == Lookup(e.rest, "home") == Some(e.rest.node);
    assert ["etc", "passwd"][1..] == ["passwd"] && ["passwd"][1..] == [];
    assert ["home", "user", "etc"][1..] == ["user", "etc"] && ["user", "etc"][1..] == ["etc"] && ["etc"][1..] == [];
    assert ["home", "user"][1..] == ["user"] && ["user"][1..] == [];
    var user := e.rest.node.entries.node;
    assert NodeAt(user, ["etc"]) == Some(Dir(Nil));
    assert NodeAt(e.rest.node, ["user", "etc"]) == NodeAt(user, ["etc"]);
    assert NodeAt(e.rest.node, ["user"]) == NodeAt(user, []) == Some(user);
  }

  /** From the home directory, copying that directory to the root replaces the
      system's, root rights or not. */
  lemma CopyReplacesEtc(passwd: Meta, isRoot: bool, made: nat -> Meta)
    ensures var (after, status) :=
        Copied(EtcTree(passwd), ["home", "user"], ["home", "user", "etc"], [], true, isRoot, made);
      status == Done && Lookup(after, "etc") == Some(Dir(Nil))
  {
    EtcTreePaths(passwd);
    hide NodeAt;
    var e := EtcTree(passwd);
    assert IsDir(e, []) by { NodeAtRoot(e); }
    assert Target(e, ["home", "user", "etc"], []) == Some(["etc"]) by { assert [] + ["etc"] == ["etc"]; }
    assert ["etc"][..0] == [];
    assert "home" !in PROTECTED && "home" != "proc";
    LookupPut(e, "etc", Dir(Nil), "etc");
  }

  lemma NodeAtRoot(e: Entries)
    ensures NodeAt(Dir(e), []) == Some(Dir(e))
  {
  }

  /** And a move takes the password file out of the system's directory. */
  lemma MoveTakesFromEtc(passwd: Meta, made: nat -> Meta)
    ensures var (after, status) :=
        Moved(EtcTree(passwd), ["home", "user"], ["etc", "passwd"], ["home", "user"], false, made);
      && status == Done
      && NodeAt(Dir(after), ["etc", "passwd"]) == None
      && NodeAt(Dir(after), ["home", "user", "passwd"]) == Some(File(passwd))
  {
    var e, src, dst, final := EtcTree(passwd), ["etc", "passwd"], ["home", "user"], ["home", "user", "passwd"];
    EtcTreePaths(passwd);
    assert SoundEntries(e) by { EtcTreeIsSound(passwd); }
    assert dst + ["passwd"] == final;
    assert src[0][0] != final[0][0];
    assert final[..|final| - 1] == dst;
    hide NodeAt, Relocated;
    MoveLands(e, dst, src, dst, false, made, []);
    assert final + [] == final && src + [] == src;
  }

  lemma EtcTreeIsSound(passwd: Meta)
    ensures SoundEntries(EtcTree(passwd))
  {
    var e := EtcTree(passwd);
    assert "etc"[0] != "home"[0];
    assert Lookup(e.rest, "etc") == None;
    var home := e.rest.node.entries;
    assert SoundEntries(home.node.entries) && SoundEntries(home) && SoundEntries(e.node.entries);
  }

  /** Whatever is moved or copied, names stay distinct. */
  lemma CommandsKeepSound(e: Entries, cwd: seq<string>, src: seq<string>, dst: seq<string>, recursive: bool,
                          isRoot: bool, made: nat -> Meta)
    requires SoundEntries(e)
    ensures SoundEntries(Copied(e, cwd, src, dst, recursive, isRoot, made).0)
    ensures SoundEntries(Moved(e, cwd, src, dst, isRoot, made).0)
  {
    NodeAtSound(Dir(e), src);
    var target := Target(e, src, dst);
    if NodeAt(Dir(e), src).Some? && target.Some? {
      SetNodeSound(e, target.value, NodeAt(Dir(e), src).value, made);
      if src != [] { DelNodeSound(SetNode(e, target.value, NodeAt(Dir(e), src).value, made), src); }
    }
  }
}
