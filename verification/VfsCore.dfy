/** The filesystem object: the commands that change its tree in place. */
module VfsCore {
  import opened Prelude
  import opened PathResolver
  import opened VfsModel
  import opened VfsMoves
  import opened VfsFind
  import opened VfsPersistence

  /** Walks down the tree segment by segment. */
  method FindNode(root: Node, parts: seq<string>) returns (found: Option<Node>)
    ensures found == NodeAt(root, parts)
  {
    var node := root;
    for i := 0 to |parts|
      invariant NodeAt(node, parts[i..]) == NodeAt(root, parts)
    {
      assert parts[i..][1..] == parts[i + 1..];
      if node.File? { return None; }
      match Lookup(node.entries, parts[i]) {
        case None => return None;
        case Some(child) => node := child;
      }
    }
    return Some(node);
  }

  // ---------- assigning through a cursor ----------

  /** Assignment of one key in the directory that the path's front names. */
  function Assign(e: Entries, p: seq<string>, v: Node): Entries
    requires p != []
    decreases |p|
  {
    if |p| == 1 then Put(e, p[0], v)
    else
      match Lookup(e, p[0])
      case Some(Dir(below)) => Put(e, p[0], Dir(Assign(below, p[1..], v)))
      case _ => e
  }

  function Bare(record: Meta): Node {
    Dir(Cons(META, File(record), Nil))
  }

  /** Creating the first missing directory ahead of time does not change the outcome. */
  lemma {:induction false} CreateAhead(e: Entries, p: seq<string>, i: nat, v: Node, made: nat -> Meta)
    requires i + 1 < |p| && IsDir(e, p[..i]) && !IsDir(e, p[..i + 1])
    ensures SetNode(Assign(e, p[..i + 1], Bare(made(|p| - i))), p, v, made) == SetNode(e, p, v, made)
    ensures IsDir(Assign(e, p[..i + 1], Bare(made(|p| - i))), p[..i + 1])
    decreases |p|
  {
    var bare := Bare(made(|p| - i));
    var next := Assign(e, p[..i + 1], bare);
    if i == 0 {
      assert p[..1][0] == p[0] && |p[..1]| == 1;
      NodeAtOne(e, p[..1]);
      LookupPut(e, p[0], bare, p[0]);
      PutPut(e, p[0], bare, Dir(SetNode(Below(e, p[0], made(|p|)), p[1..], v, made)));
      NodeAtOne(next, p[..1]);
    } else {
      assert p[..i + 1][1..] == p[1..][..i];
      assert p[..i][1..] == p[1..][..i - 1];
      assert NodeAt(Dir(e), p[..i]) == NodeAt(Lookup(e, p[0]).value, p[1..][..i - 1]);
      var below := Lookup(e, p[0]).value.entries;
      assert NodeAt(Dir(e), p[..i + 1]) == NodeAt(Dir(below), p[1..][..i]);
      CreateAhead(below, p[1..], i - 1, v, made);
      var inner := Assign(below, p[1..][..i], bare);
      assert next == Put(e, p[0], Dir(inner));
      LookupPut(e, p[0], Dir(inner), p[0]);
      PutPut(e, p[0], Dir(inner), Dir(SetNode(below, p[1..], v, made)));
      assert NodeAt(Dir(next), p[..i + 1]) == NodeAt(Dir(inner), p[1..][..i]);
    }
  }

  lemma {:induction false} AssignIsSet(e: Entries, p: seq<string>, v: Node, made: nat -> Meta)
    requires p != [] && IsDir(e, p[..|p| - 1])
    ensures Assign(e, p, v) == SetNode(e, p, v, made)
    decreases |p|
  {
    if |p| > 1 {
      ParentBelow(e, p);
      AssignIsSet(Lookup(e, p[0]).value.entries, p[1..], v, made);
    }
  }

  /** The tree with the directory at `front` replaced by one of these entries. */
  function WithDirectory(e: Entries, front: seq<string>, entries: Entries): Entries {
    if front == [] then entries else Assign(e, front, Dir(entries))
  }

  /** Deleting a key from the directory the cursor is at is deleting the path. */
  lemma {:induction false} DropAtCursor(e: Entries, front: seq<string>, last: string, there: Entries)
    requires NodeAt(Dir(e), front) == Some(Dir(there))
    ensures WithDirectory(e, front, Drop(there, last)) == DelNode(e, front + [last])
    decreases |front|
  {
    if front != [] {
      var below := Lookup(e, front[0]).value;
      DropAtCursor(below.entries, front[1..], last, there);
      assert (front + [last])[1..] == front[1..] + [last];
    }
  }

  lemma DirAbove(e: Entries, p: seq<string>, i: nat)
    requires i < |p| && !IsDir(e, p[..i])
    ensures NodeAt(Dir(e), p) == None
  {
    NodeAtJoin(Dir(e), p[..i], p[i..]);
    assert p[..i] + p[i..] == p;
  }

  lemma ChildAt(e: Entries, p: seq<string>, i: nat, node: Node)
    requires i < |p| && NodeAt(Dir(e), p[..i]) == Some(node)
    ensures NodeAt(Dir(e), p[..i + 1]) == if node.File? then None else Lookup(node.entries, p[i])
  {
    NodeAtJoin(Dir(e), p[..i], [p[i]]);
    assert p[..i + 1] == p[..i] + [p[i]];
    if node.Dir? { NodeAtOne(node.entries, [p[i]]); }
  }

  class VirtualFS {
    var tree: Entries
    var cwd: seq<string>

    constructor (tree: Entries)
      ensures this.tree == tree && cwd == HOME
    {
      this.tree, cwd := tree, HOME;
    }

    method SetAt(parts: seq<string>, value: Node, made: nat -> Meta)
      requires parts != []
      modifies this`tree
      ensures tree == SetNode(old(tree), parts, value, made)
    {
      assert parts[..0] == [];
      for i := 0 to |parts| - 1
        invariant IsDir(tree, parts[..i])
        invariant SetNode(tree, parts, value, made) == SetNode(old(tree), parts, value, made)
      {
        var there := FindNode(Dir(tree), parts[..i + 1]);
        if !(there.Some? && there.value.Dir?) {
          CreateAhead(tree, parts, i, value, made);
          tree := Assign(tree, parts[..i + 1], Bare(made(|parts| - i)));
        }
      }
      AssignIsSet(tree, parts, value, made);
      tree := Assign(tree, parts, value);
    }

    /** Walks down to the directory of the last segment and deletes the key there;
        a step that is missing, or no directory, ends the walk. */
    method DeleteAt(parts: seq<string>)
      requires parts != []
      modifies this`tree
      ensures tree == DelNode(old(tree), parts)
    {
      DelIsIdleIff(tree, parts);
      var node := Dir(tree);
      var n := |parts| - 1;
      assert parts[..0] == [] && parts == parts[..n] + [parts[n]];
      for i := 0 to n
        invariant NodeAt(Dir(tree), parts[..i]) == Some(node)
        invariant tree == old(tree)
      {
        ChildAt(tree, parts, i, node);
        if node.File? {
          DirAbove(tree, parts, i);
          return;
        }
        match Lookup(node.entries, parts[i]) {
          case None =>
            DirAbove(tree, parts, i + 1);
            return;
          case Some(child) => node := child;
        }
      }
      ChildAt(tree, parts, n, node);
      assert parts[..n + 1] == parts;
      if node.Dir? && Lookup(node.entries, parts[n]).Some? {
        DropAtCursor(tree, parts[..n], parts[n], node.entries);
        tree := WithDirectory(tree, parts[..n], Drop(node.entries, parts[n]));
      }
    }

    /** An existing directory receives the source under the source's last name. */
    method Destination(srcParts: seq<string>, dstParts: seq<string>) returns (target: Option<seq<string>>)
      ensures target == Target(tree, srcParts, dstParts)
      ensures target.Some? ==> target.value != []
    {
      var dstNode := FindNode(Dir(tree), dstParts);
      if dstNode.Some? && dstNode.value.Dir? {
        if srcParts == [] { return None; }
        return Some(dstParts + [srcParts[|srcParts| - 1]]);
      }
      target := Some(dstParts);
    }

    /** Copies a file or directory; an error leaves everything as it was. */
    method Copy(src: string, dst: string, recursive: bool, isRoot: bool, made: nat -> Meta) returns (status: Status)
      modifies this`tree
      ensures (tree, status) == Copied(old(tree), cwd, Resolve(src, cwd), Resolve(dst, cwd), recursive, isRoot, made)
      ensures status != Done ==> tree == old(tree)
    {
      hide Resolve, NodeAt, SetNode, DelNode, MayWriteTo, Target;
      var srcParts := ResolvePath(src, cwd);
      var dstParts := ResolvePath(dst, cwd);
      var srcNode := FindNode(Dir(tree), srcParts);
      if srcNode.None? { return NotFound; }
      if srcNode.value.Dir? && !recursive { return IsADirectory; }
      var target := Destination(srcParts, dstParts);
      if target.None? { return IndexFault; }
      if !MayWriteTo(target.value, cwd, isRoot) { return Denied; }
      SetAt(target.value, srcNode.value, made);
      status := Done;
    }

    /** Moves or renames; an error leaves everything as it was unless the source is
        the root. */
    method Move(src: string, dst: string, isRoot: bool, made: nat -> Meta) returns (status: Status)
      modifies this`tree
      ensures (tree, status) == Moved(old(tree), cwd, Resolve(src, cwd), Resolve(dst, cwd), isRoot, made)
      ensures status != Done && Resolve(src, cwd) != [] ==> tree == old(tree)
    {
      hide Resolve, NodeAt, SetNode, DelNode, MayWriteTo, Target;
      var srcParts := ResolvePath(src, cwd);
      var dstParts := ResolvePath(dst, cwd);
      var srcNode := FindNode(Dir(tree), srcParts);
      if srcNode.None? { return NotFound; }
      var target := Destination(srcParts, dstParts);
      if target.None? { return IndexFault; }
      if !MayWriteTo(target.value, cwd, isRoot) { return Denied; }
      SetAt(target.value, srcNode.value, made);
      if srcParts == [] { return IndexFault; }
      DeleteAt(srcParts);
      status := Done;
    }

    /** `None` stands for the error on a path that does not exist. */
    method Usage(path: string) returns (bytes: Option<nat>)
      ensures var n := NodeAt(Dir(tree), Resolve(path, cwd));
              bytes == if n.None? then None else Some(Size(n.value))
    {
      var parts := ResolvePath(path, cwd);
      var node := FindNode(Dir(tree), parts);
      bytes := if node.None? then None else Some(Size(node.value));
    }

    method Find(path: string, q: Query) returns (results: seq<string>)
      ensures var n := NodeAt(Dir(tree), Resolve(path, cwd));
              results == if n.Some? && n.value.Dir? then Texts(Found(n.value.entries, Resolve(path, cwd), q)) else []
    {
      var parts := ResolvePath(path, cwd);
      var node := FindNode(Dir(tree), parts);
      results := [];
      if node.Some? && node.value.Dir? {
        results := Walk(node.value.entries, parts, q, results);
        assert [] + Texts(Found(node.value.entries, parts, q)) == Texts(Found(node.value.entries, parts, q));
      }
    }

    /** Appends what lies below a directory to the results so far. */
    static method Walk(entries: Entries, at: seq<string>, q: Query, sofar: seq<string>) returns (results: seq<string>)
      ensures results == sofar + Texts(Found(entries, at, q))
      decreases entries
    {
      results := sofar;
      var left := entries;
      while left.Cons?
        invariant left == entries || left < entries
        invariant results + Texts(Found(left, at, q)) == sofar + Texts(Found(entries, at, q))
        decreases left
      {
        ghost var before := results;
        results := Visit(left.name, left.node, at + [left.name], q, results);
        WalkStep(left, at, q, before);
        left := left.rest;
      }
    }

    static method Visit(name: string, child: Node, here: seq<string>, q: Query, sofar: seq<string>)
      returns (results: seq<string>)
      ensures results == sofar + Texts(Hits(name, child, here, q))
      decreases child
    {
      hide Wanted, Hidden, Hits, Found, Texts, Pwd;
      HitsTexts(name, child, here, q);
      results := sofar;
      if name == META || Hidden(child, q.isRoot) { return; }
      if Wanted(q, name, child) { results := results + [Pwd(here)]; }
      if child.Dir? { results := Walk(child.entries, here, q, results); }
    }

    method Save() returns (saved: Json)
      ensures saved == Saved(tree)
    {
      saved := Serialize(Dir(Kept(tree)));
    }

    /** Merges a saved value into the tree; anything unreadable is ignored whole. */
    method Load(saved: Json, blank: Meta)
      modifies this`tree
      ensures tree == Loaded(old(tree), saved, blank)
    {
      var node := Deserialize(saved, blank);
      if node.None? || node.value.File? { return; }
      var left := node.value.entries;
      while left.Cons?
        invariant Merged(tree, left) == Merged(old(tree), node.value.entries)
        decreases left
      {
        tree := Put(tree, left.name, left.node);
        left := left.rest;
      }
    }
  }

  lemma WalkStep(left: Entries, at: seq<string>, q: Query, sofar: seq<string>)
    requires left.Cons?
    ensures sofar + Texts(Found(left, at, q)) ==
            sofar + Texts(Hits(left.name, left.node, at + [left.name], q)) + Texts(Found(left.rest, at, q))
  {
  }

  lemma HitsTexts(name: string, n: Node, here: seq<string>, q: Query)
    ensures Texts(Hits(name, n, here, q)) ==
      if name == META || Hidden(n, q.isRoot) then []
      else (if Wanted(q, name, n) then [Pwd(here)] else []) + (if n.Dir? then Texts(Found(n.entries, here, q)) else [])
  {
    hide Wanted, Hidden, Found, Pwd;
    if name != META && !Hidden(n, q.isRoot) {
      var own := if Wanted(q, name, n) then [here] else [];
      assert Texts(own) == if Wanted(q, name, n) then [Pwd(here)] else [];
      if n.Dir? {
      } else {
        assert own + [] == own;
      }
    }
  }
}
