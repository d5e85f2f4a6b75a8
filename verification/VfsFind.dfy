/** What `find` lists, and how it agrees with `du`. */
module VfsFind {
  import opened Prelude
  import opened PathResolver
  import opened VfsModel

  datatype Kind = Files | Directories | Both

  /** `matches` stands for the shell pattern on names. */
  datatype Query = Query(isRoot: bool, kind: Kind, matches: string -> bool)

  predicate Hidden(n: Node, isRoot: bool) {
    !isRoot &&
    match n
    case File(meta) => !meta.readable
    case Dir(e) =>
      match Lookup(e, META)
      case Some(File(meta)) => !meta.readable
      case _ => false
  }

  predicate Wanted(q: Query, name: string, n: Node) {
    q.matches(name) && (n.Dir? ==> q.kind != Files) && (n.File? ==> q.kind != Directories)
  }

  /** The paths listed below a directory at `at`, in walking order. */
  function Found(e: Entries, at: seq<string>, q: Query): seq<seq<string>>
    decreases e
  {
    match e
    case Nil => []
    case Cons(k, n, r) => Hits(k, n, at + [k], q) + Found(r, at, q)
  }

  function Hits(name: string, n: Node, here: seq<string>, q: Query): seq<seq<string>>
    decreases n
  {
    if name == META || Hidden(n, q.isRoot) then []
    else
      (if Wanted(q, name, n) then [here] else []) +
      (match n case File(_) => [] case Dir(e) => Found(e, here, q))
  }

  function Texts(paths: seq<seq<string>>): seq<string> {
    seq(|paths|, i requires 0 <= i < |paths| => Pwd(paths[i]))
  }

  // ---------- exactly which paths ----------

  /** A path leads to a wanted node past nothing hidden and no directory record. */
  predicate Listed(e: Entries, rest: seq<string>, q: Query)
    decreases |rest|
  {
    rest != [] && rest[0] != META &&
    match Lookup(e, rest[0])
    case None => false
    case Some(n) =>
      && !Hidden(n, q.isRoot)
      && (if |rest| == 1 then Wanted(q, rest[0], n) else n.Dir? && Listed(n.entries, rest[1..], q))
  }

  lemma {:induction false} ListedMeans(e: Entries, rest: seq<string>, q: Query)
    requires rest != []
    ensures Listed(e, rest, q) <==>
      && Counted(rest)
      && NodeAt(Dir(e), rest).Some?
      && Wanted(q, rest[|rest| - 1], NodeAt(Dir(e), rest).value)
      && (forall i | 0 < i <= |rest| ::
            NodeAt(Dir(e), rest[..i]).Some? && !Hidden(NodeAt(Dir(e), rest[..i]).value, q.isRoot))
    decreases |rest|
  {
    assert rest == [rest[0]] + rest[1..];
    assert rest[..1] == [rest[0]] && [rest[0]][1..] == [];
    assert NodeAt(Dir(e), rest[..1]) == Lookup(e, rest[0]);
    if |rest| == 1 {
      assert rest[..1] == rest;
    } else if Lookup(e, rest[0]).Some? && Lookup(e, rest[0]).value.Dir? {
      var below := Lookup(e, rest[0]).value;
      ListedMeans(below.entries, rest[1..], q);
      forall i | 0 < i < |rest|
        ensures NodeAt(Dir(e), rest[..i + 1]) == NodeAt(below, rest[1..][..i])
      {
        assert rest[..i + 1][1..] == rest[1..][..i];
      }
      assert forall i | 1 < i <= |rest| :: NodeAt(Dir(e), rest[..i]) == NodeAt(below, rest[1..][..i - 1]) by {
        forall i | 1 < i <= |rest|
          ensures NodeAt(Dir(e), rest[..i]) == NodeAt(below, rest[1..][..i - 1])
        {
          assert rest[..(i - 1) + 1] == rest[..i];
        }
      }
    }
  }

  /** What a walk reports about one entry. */
  predicate ListedUnder(name: string, n: Node, rest: seq<string>, q: Query) {
    && rest != [] && rest[0] == name && name != META && !Hidden(n, q.isRoot)
    && (if |rest| == 1 then Wanted(q, name, n) else n.Dir? && Listed(n.entries, rest[1..], q))
  }

  lemma {:induction false} FoundExact(e: Entries, at: seq<string>, q: Query, path: seq<string>)
    requires SoundEntries(e)
    ensures path in Found(e, at, q) <==> at <= path && Listed(e, path[|at|..], q)
    decreases e
  {
    match e
    case Nil =>
      if at <= path && path[|at|..] != [] { assert Lookup(Nil, path[|at|..][0]) == None; }
    case Cons(k, n, r) =>
      HitsExact(k, n, at, q, path);
      FoundExact(r, at, q, path);
      if at <= path && path != at {
        var rest := path[|at|..];
        if rest[0] == k { assert !Listed(r, rest, q); }
      }
  }

  lemma {:induction false} HitsExact(name: string, n: Node, at: seq<string>, q: Query, path: seq<string>)
    requires Sound(n)
    ensures path in Hits(name, n, at + [name], q) <==> at <= path && ListedUnder(name, n, path[|at|..], q)
    decreases n
  {
    var here := at + [name];
    if name != META && !Hidden(n, q.isRoot) {
      if n.Dir? { FoundExact(n.entries, here, q, path); }
      if at <= path && path != at {
        assert here <= path <==> path[|at|] == name;
        if here <= path { assert path[|at|..][1..] == path[|here|..]; }
        assert |path| == |here| && here <= path ==> path == here;
      }
    }
  }

  /** `find` reports a path below its start exactly when it names a node of the
      wanted kind with a matching name and, for anyone but root, no file and no
      directory record met on the way is unreadable. */
  lemma FindIsExact(e: Entries, at: seq<string>, q: Query, rest: seq<string>)
    requires SoundEntries(e) && rest != []
    ensures at + rest in Found(e, at, q) <==>
      && (forall i | 0 <= i < |rest| :: rest[i] != "_meta")
      && q.matches(rest[|rest| - 1])
      && (match NodeAt(Dir(e), rest)
          case None => false
          case Some(File(_)) => q.kind == Files || q.kind == Both
          case Some(Dir(_)) => q.kind == Directories || q.kind == Both)
      && (q.isRoot || forall i | 0 < i <= |rest| ::
            match NodeAt(Dir(e), rest[..i])
            case None => false
            case Some(File(meta)) => meta.readable
            case Some(Dir(below)) =>
              match Lookup(below, "_meta")
              case Some(File(record)) => record.readable
              case _ => true)
  {
    FoundExact(e, at, q, at + rest);
    assert (at + rest)[|at|..] == rest;
    ListedMeans(e, rest, q);
    assert rest[..|rest|] == rest;
    forall i | 0 < i <= |rest| && NodeAt(Dir(e), rest).Some? ensures NodeAt(Dir(e), rest[..i]).Some? {
      PrefixExists(Dir(e), rest, i);
    }
  }

  lemma {:induction false} PrefixExists(n: Node, p: seq<string>, i: nat)
    requires i <= |p| && NodeAt(n, p).Some?
    ensures NodeAt(n, p[..i]).Some?
    decreases |p|
  {
    if i > 0 {
      assert p[..i][1..] == p[1..][..i - 1];
      PrefixExists(Lookup(n.entries, p[0]).value, p[1..], i - 1);
    }
  }

  // ---------- agreement with du ----------

  const ALL_FILES := Query(true, Files, (name: string) => true)

  ghost predicate CleanNode(n: Node) {
    n.Dir? ==> CleanEntries(n.entries)
  }

  ghost predicate CleanEntries(e: Entries) {
    match e
    case Nil => true
    case Cons(k, n, r) => CleanName(k) && CleanNode(n) && CleanEntries(r)
  }

  /** The sizes of what lies at these paths. */
  function TotalAt(tree: Entries, paths: seq<seq<string>>): nat {
    if paths == [] then 0 else SizeAt(tree, paths[0]) + TotalAt(tree, paths[1..])
  }

  /** The sizes of what these texts name, each resolved anew. */
  function TotalSize(tree: Entries, cwd: seq<string>, names: seq<string>): nat {
    if names == [] then 0 else SizeAt(tree, Resolve(names[0], cwd)) + TotalSize(tree, cwd, names[1..])
  }

  lemma {:induction false} TotalAtConcat(tree: Entries, a: seq<seq<string>>, b: seq<seq<string>>)
    ensures TotalAt(tree, a + b) == TotalAt(tree, a) + TotalAt(tree, b)
  {
    if a == [] {
      assert a + b == b;
    } else {
      assert (a + b)[1..] == a[1..] + b;
      TotalAtConcat(tree, a[1..], b);
    }
  }

  /** The directory at `at` still has every entry of the part being walked. */
  ghost predicate Shows(tree: Entries, at: seq<string>, part: Entries) {
    IsDir(tree, at) &&
    forall k :: Lookup(part, k).Some? ==> Lookup(NodeAt(Dir(tree), at).value.entries, k) == Lookup(part, k)
  }

  lemma {:induction false} FoundCoversSize(tree: Entries, at: seq<string>, part: Entries)
    requires SoundEntries(part) && Shows(tree, at, part)
    ensures TotalAt(tree, Found(part, at, ALL_FILES)) == SizeOf(part)
    decreases part
  {
    match part
    case Nil =>
    case Cons(k, n, r) =>
      assert Shows(tree, at, r) by {
        forall j | Lookup(r, j).Some? ensures Lookup(part, j) == Lookup(r, j) { assert j != k; }
      }
      FoundCoversSize(tree, at, r);
      TotalAtConcat(tree, Hits(k, n, at + [k], ALL_FILES), Found(r, at, ALL_FILES));
      assert Lookup(part, k) == Some(n);
      HitsCoverSize(tree, at, k, n);
  }

  lemma {:induction false} HitsCoverSize(tree: Entries, at: seq<string>, name: string, n: Node)
    requires Sound(n) && IsDir(tree, at)
    requires Lookup(NodeAt(Dir(tree), at).value.entries, name) == Some(n)
    ensures TotalAt(tree, Hits(name, n, at + [name], ALL_FILES)) == if name == META then 0 else Size(n)
    decreases n
  {
    var here := at + [name];
    NodeAtJoin(Dir(tree), at, [name]);
    NodeAtOne(NodeAt(Dir(tree), at).value.entries, [name]);
    if name != META {
      match n
      case Dir(e) =>
        assert Hits(name, n, here, ALL_FILES) == Found(e, here, ALL_FILES);
        FoundCoversSize(tree, here, e);
      case File(_) =>
        assert Hits(name, n, here, ALL_FILES) == [here] && [here][1..] == [];
    }
  }

  /** What root's `find` lists among the files at a path: below it, if it is a
      directory. */
  function FilesBelow(n: Node, at: seq<string>): seq<seq<string>> {
    if n.Dir? then Found(n.entries, at, ALL_FILES) else []
  }

  /** `du` of a path is the sum of the sizes of the files that root's `find`
      reaches there, whatever their names, exactly when the path is a directory or
      an empty file. */
  lemma FindCoversDuIff(tree: Entries, at: seq<string>)
    requires SoundEntries(tree) && NodeAt(Dir(tree), at).Some?
    ensures var n := NodeAt(Dir(tree), at).value;
      TotalAt(tree, FilesBelow(n, at)) == Size(n) <==> n.Dir? || Size(n) == 0
  {
    var n := NodeAt(Dir(tree), at).value;
    if n.Dir? {
      NodeAtSound(Dir(tree), at);
      FoundCoversSize(tree, at, n.entries);
    }
  }

  // ---------- the same through the listed texts ----------

  lemma {:induction false} FoundAreClean(e: Entries, at: seq<string>, q: Query)
    requires CleanEntries(e) && Clean(at)
    ensures forall p :: p in Found(e, at, q) ==> Clean(p)
    decreases e
  {
    match e
    case Nil =>
    case Cons(k, n, r) =>
      HitsAreClean(k, n, at, q);
      FoundAreClean(r, at, q);
  }

  lemma {:induction false} HitsAreClean(name: string, n: Node, at: seq<string>, q: Query)
    requires CleanName(name) && CleanNode(n) && Clean(at)
    ensures forall p :: p in Hits(name, n, at + [name], q) ==> Clean(p)
    decreases n
  {
    if n.Dir? { FoundAreClean(n.entries, at + [name], q); }
  }

  lemma {:induction false} CleanTextsLeadBack(tree: Entries, cwd: seq<string>, paths: seq<seq<string>>)
    requires forall p :: p in paths ==> Clean(p)
    ensures TotalSize(tree, cwd, Texts(paths)) == TotalAt(tree, paths)
  {
    if paths != [] {
      ResolveInvertsPwd(paths[0], cwd);
      assert Texts(paths)[1..] == Texts(paths[1..]);
      CleanTextsLeadBack(tree, cwd, paths[1..]);
    }
  }

  /** In a tree whose names can be written in a path, the same holds with every
      listed text resolved anew, from whatever directory. */
  lemma FindAgreesWithDuIff(tree: Entries, cwd: seq<string>, at: seq<string>)
    requires SoundEntries(tree) && CleanEntries(tree) && Clean(at) && NodeAt(Dir(tree), at).Some?
    ensures var n := NodeAt(Dir(tree), at).value;
      TotalSize(tree, cwd, Texts(FilesBelow(n, at))) == Size(n) <==> n.Dir? || Size(n) == 0
  {
    var n := NodeAt(Dir(tree), at).value;
    FindCoversDuIff(tree, at);
    NodeAtClean(Dir(tree), at);
    if n.Dir? { FoundAreClean(n.entries, at, ALL_FILES); }
    CleanTextsLeadBack(tree, cwd, FilesBelow(n, at));
  }

  /** A listed text leads back to the node it was listed for exactly when all the
      names on the way are clean. */
  lemma ListedTextLeadsBackIff(e: Entries, at: seq<string>, q: Query, cwd: seq<string>, i: nat)
    requires i < |Found(e, at, q)|
    ensures Resolve(Texts(Found(e, at, q))[i], cwd) == Found(e, at, q)[i] <==> Clean(Found(e, at, q)[i])
  {
    ResolveInvertsPwdIff(Found(e, at, q)[i], cwd);
  }

  /** A root directory with one file whose name contains a slash, as writing a file
      of that name makes it. */
  function SlashName(record: Meta): Entries {
    Cons("a/b", File(record.(content := "x")), Nil)
  }

  /** Its one byte is counted by `du`, but the text `find` prints for it names
      nothing. */
  lemma SlashNameIsNotFoundAgain(record: Meta, cwd: seq<string>)
    ensures SoundEntries(SlashName(record)) && SizeOf(SlashName(record)) == 1
    ensures Texts(Found(SlashName(record), [], ALL_FILES)) == ["/a/b"]
    ensures TotalSize(SlashName(record), cwd, ["/a/b"]) == 0
  {
    var tree := SlashName(record);
    var n := tree.node;
    assert Bytes("x") == 1 by { assert "x"[1..] == ""; }
    assert |"a/b"| != |META|;
    assert Wanted(ALL_FILES, "a/b", n);
    var here := [] + ["a/b"];
    assert here == ["a/b"] && [here] + [] == [here];
    assert Hits("a/b", n, here, ALL_FILES) == [here];
    assert Found(tree, [], ALL_FILES) == [here] + [] == [["a/b"]];
    assert Pwd(["a/b"]) == "/a/b";
    assert Pwd(["a", "b"]) == "/a/b" by { assert ["a", "b"][1..] == ["b"]; }
    assert Clean(["a", "b"]);
    ResolveInvertsPwd(["a", "b"], cwd);
    assert Lookup(tree, "a") == None;
    assert SizeAt(tree, ["a", "b"]) == 0;
    assert ["/a/b"][1..] == [];
  }

  lemma {:induction false} NodeAtClean(n: Node, p: seq<string>)
    requires CleanNode(n)
    ensures NodeAt(n, p).Some? ==> CleanNode(NodeAt(n, p).value)
    decreases |p|
  {
    if p != [] && n.Dir? && Lookup(n.entries, p[0]).Some? {
      LookupClean(n.entries, p[0]);
      NodeAtClean(Lookup(n.entries, p[0]).value, p[1..]);
    }
  }

  lemma {:induction false} LookupClean(e: Entries, name: string)
    requires CleanEntries(e)
    ensures Lookup(e, name).Some? ==> CleanNode(Lookup(e, name).value)
  {
    if e.Cons? { LookupClean(e.rest, name); }
  }

  // ---------- names stay clean ----------

  lemma {:induction false} PutClean(e: Entries, name: string, node: Node)
    requires CleanEntries(e) && CleanName(name) && CleanNode(node)
    ensures CleanEntries(Put(e, name, node))
  {
    if e.Cons? { PutClean(e.rest, name, node); }
  }

  lemma {:induction false} DropClean(e: Entries, name: string)
    requires CleanEntries(e)
    ensures CleanEntries(Drop(e, name))
  {
    if e.Cons? { DropClean(e.rest, name); }
  }

  lemma {:induction false} SetNodeClean(e: Entries, p: seq<string>, v: Node, made: nat -> Meta)
    requires p != [] && Clean(p) && CleanEntries(e) && CleanNode(v)
    ensures CleanEntries(SetNode(e, p, v, made))
    decreases |p|
  {
    assert CleanName(p[0]);
    if |p| == 1 {
      PutClean(e, p[0], v);
    } else {
      LookupClean(e, p[0]);
      var below := Below(e, p[0], made(|p|));
      SetNodeClean(below, p[1..], v, made);
      PutClean(e, p[0], Dir(SetNode(below, p[1..], v, made)));
    }
  }

  lemma {:induction false} DelNodeClean(e: Entries, p: seq<string>)
    requires p != [] && Clean(p) && CleanEntries(e)
    ensures CleanEntries(DelNode(e, p))
    decreases |p|
  {
    assert CleanName(p[0]);
    if |p| == 1 {
      DropClean(e, p[0]);
    } else {
      LookupClean(e, p[0]);
      match Lookup(e, p[0])
      case Some(Dir(below)) =>
        DelNodeClean(below, p[1..]);
        PutClean(e, p[0], Dir(DelNode(below, p[1..])));
      case _ =>
    }
  }

  /** Whatever the arguments, moving and copying keep every name usable in a path. */
  lemma CommandsKeepClean(e: Entries, cwd: seq<string>, src: string, dst: string, recursive: bool,
                          isRoot: bool, made: nat -> Meta)
    requires CleanEntries(e) && Clean(cwd)
    ensures CleanEntries(Copied(e, cwd, Resolve(src, cwd), Resolve(dst, cwd), recursive, isRoot, made).0)
    ensures CleanEntries(Moved(e, cwd, Resolve(src, cwd), Resolve(dst, cwd), isRoot, made).0)
  {
    hide Resolve;
    ResolveIsClean(src, cwd);
    ResolveIsClean(dst, cwd);
    var s, d := Resolve(src, cwd), Resolve(dst, cwd);
    NodeAtClean(Dir(e), s);
    var target := Target(e, s, d);
    if NodeAt(Dir(e), s).Some? && target.Some? {
      var n := NodeAt(Dir(e), s).value;
      SetNodeClean(e, target.value, n, made);
      if s != [] { DelNodeClean(SetNode(e, target.value, n, made), s); }
    }
  }
}
