/** The virtual filesystem's tree: nested insertion-ordered dictionaries whose
    leaves are file records, and what reading, setting and deleting a path does. */
module VfsModel {
  import opened Prelude
  import opened PathResolver

  /** A file record; a directory keeps one for itself under the name "_meta". */
  datatype Meta = Meta(content: string, owner: string, readable: bool, mode: int, group: string,
                       symlink: Option<string>, inode: int, nlink: int, created: real, modified: real)

  datatype Node = File(meta: Meta) | Dir(entries: Entries)

  /** The entries of one directory, in insertion order. */
  datatype Entries = Nil | Cons(name: string, node: Node, rest: Entries)

  const META := "_meta"

  // ---------- one directory ----------

  function Lookup(e: Entries, name: string): Option<Node> {
    match e
    case Nil => None
    case Cons(k, n, r) => if k == name then Some(n) else Lookup(r, name)
  }

  /** Assigning to a key keeps its position; a new key goes to the end. */
  function Put(e: Entries, name: string, node: Node): Entries {
    match e
    case Nil => Cons(name, node, Nil)
    case Cons(k, n, r) => if k == name then Cons(k, node, r) else Cons(k, n, Put(r, name, node))
  }

  function Drop(e: Entries, name: string): Entries {
    match e
    case Nil => Nil
    case Cons(k, n, r) => if k == name then r else Cons(k, n, Drop(r, name))
  }

  /** No directory holds the same name twice. */
  ghost predicate Sound(n: Node) {
    n.Dir? ==> SoundEntries(n.entries)
  }

  ghost predicate SoundEntries(e: Entries) {
    match e
    case Nil => true
    case Cons(k, n, r) => Lookup(r, k) == None && Sound(n) && SoundEntries(r)
  }

  lemma {:induction false} LookupPut(e: Entries, name: string, node: Node, other: string)
    ensures Lookup(Put(e, name, node), other) == if other == name then Some(node) else Lookup(e, other)
  {
    if e.Cons? { LookupPut(e.rest, name, node, other); }
  }

  lemma {:induction false} LookupDrop(e: Entries, name: string, other: string)
    requires SoundEntries(e)
    ensures Lookup(Drop(e, name), other) == if other == name then None else Lookup(e, other)
  {
    if e.Cons? { LookupDrop(e.rest, name, other); }
  }

  lemma {:induction false} LookupSound(e: Entries, name: string)
    requires SoundEntries(e)
    ensures Lookup(e, name).Some? ==> Sound(Lookup(e, name).value)
  {
    if e.Cons? { LookupSound(e.rest, name); }
  }

  lemma {:induction false} PutSound(e: Entries, name: string, node: Node)
    requires SoundEntries(e) && Sound(node)
    ensures SoundEntries(Put(e, name, node))
  {
    if e.Cons? {
      LookupPut(e.rest, name, node, e.name);
      PutSound(e.rest, name, node);
    }
  }

  lemma {:induction false} DropSound(e: Entries, name: string)
    requires SoundEntries(e)
    ensures SoundEntries(Drop(e, name))
  {
    if e.Cons? {
      LookupDrop(e.rest, name, e.name);
      DropSound(e.rest, name);
    }
  }

  lemma {:induction false} PutPut(e: Entries, name: string, a: Node, b: Node)
    ensures Put(Put(e, name, a), name, b) == Put(e, name, b)
  {
    if e.Cons? { PutPut(e.rest, name, a, b); }
  }

  /** Assigning an entry its own value changes nothing, and only that does. */
  lemma {:induction false} PutSame(e: Entries, name: string, node: Node)
    ensures Put(e, name, node) == e <==> Lookup(e, name) == Some(node)
  {
    if e.Cons? { PutSame(e.rest, name, node); }
  }

  function Length(e: Entries): nat {
    match e
    case Nil => 0
    case Cons(_, _, r) => 1 + Length(r)
  }

  lemma {:induction false} DropSame(e: Entries, name: string)
    ensures Length(Drop(e, name)) == Length(e) - (if Lookup(e, name).Some? then 1 else 0)
    ensures Drop(e, name) == e <==> Lookup(e, name) == None
  {
    if e.Cons? { DropSame(e.rest, name); }
  }

  // ---------- whole paths ----------

  function NodeAt(n: Node, p: seq<string>): Option<Node>
    decreases |p|
  {
    if p == [] then Some(n)
    else if n.File? then None
    else
      match Lookup(n.entries, p[0])
      case None => None
      case Some(child) => NodeAt(child, p[1..])
  }

  predicate IsDir(e: Entries, p: seq<string>) {
    var n := NodeAt(Dir(e), p);
    n.Some? && n.value.Dir?
  }

  /** The entries below `name`, or those of the bare directory that `_set_node` creates. */
  function Below(e: Entries, name: string, record: Meta): Entries {
    match Lookup(e, name)
    case Some(Dir(below)) => below
    case _ => Cons(META, File(record), Nil)
  }

  /** `made` supplies the record of each directory created on the way, by the
      number of path segments still to go. */
  function SetNode(e: Entries, p: seq<string>, v: Node, made: nat -> Meta): Entries
    requires p != []
    decreases |p|
  {
    if |p| == 1 then Put(e, p[0], v)
    else Put(e, p[0], Dir(SetNode(Below(e, p[0], made(|p|)), p[1..], v, made)))
  }

  function DelNode(e: Entries, p: seq<string>): Entries
    requires p != []
    decreases |p|
  {
    if |p| == 1 then Drop(e, p[0])
    else
      match Lookup(e, p[0])
      case Some(Dir(below)) => Put(e, p[0], Dir(DelNode(below, p[1..])))
      case _ => e
  }

  lemma {:induction false} SetNodeSound(e: Entries, p: seq<string>, v: Node, made: nat -> Meta)
    requires p != [] && SoundEntries(e) && Sound(v)
    ensures SoundEntries(SetNode(e, p, v, made))
    decreases |p|
  {
    if |p| == 1 {
      PutSound(e, p[0], v);
    } else {
      LookupSound(e, p[0]);
      var below := Below(e, p[0], made(|p|));
      SetNodeSound(below, p[1..], v, made);
      PutSound(e, p[0], Dir(SetNode(below, p[1..], v, made)));
    }
  }

  lemma {:induction false} DelNodeSound(e: Entries, p: seq<string>)
    requires p != [] && SoundEntries(e)
    ensures SoundEntries(DelNode(e, p))
    decreases |p|
  {
    if |p| == 1 {
      DropSound(e, p[0]);
    } else {
      LookupSound(e, p[0]);
      match Lookup(e, p[0])
      case Some(Dir(below)) =>
        DelNodeSound(below, p[1..]);
        PutSound(e, p[0], Dir(DelNode(below, p[1..])));
      case _ =>
    }
  }

  lemma {:induction false} NodeAtSound(n: Node, p: seq<string>)
    requires Sound(n)
    ensures NodeAt(n, p).Some? ==> Sound(NodeAt(n, p).value)
    decreases |p|
  {
    if p != [] && n.Dir? && Lookup(n.entries, p[0]).Some? {
      LookupSound(n.entries, p[0]);
      NodeAtSound(Lookup(n.entries, p[0]).value, p[1..]);
    }
  }

  lemma {:induction false} NodeAtJoin(n: Node, p: seq<string>, q: seq<string>)
    ensures NodeAt(n, p + q) == match NodeAt(n, p) case None => None case Some(m) => NodeAt(m, q)
    decreases |p|
  {
    if p == [] {
      assert p + q == q;
    } else {
      assert (p + q)[1..] == p[1..] + q;
      if n.Dir? && Lookup(n.entries, p[0]).Some? { NodeAtJoin(Lookup(n.entries, p[0]).value, p[1..], q); }
    }
  }

  lemma NodeAtOne(e: Entries, p: seq<string>)
    requires |p| == 1
    ensures NodeAt(Dir(e), p) == Lookup(e, p[0])
  {
    assert p[1..] == [];
  }

  // ---------- moving and copying ----------

  datatype Status = Done | NotFound | IsADirectory | Denied | IndexFault

  const PROTECTED := {"etc", "bin", "dev", "proc", "var"}

  /** An empty directory list stands for the root, which the check lets pass. */
  predicate Writable(dir: seq<string>, isRoot: bool) {
    dir == [] || (dir[0] != "proc" && (isRoot || dir[0] !in PROTECTED))
  }

  predicate MayWriteTo(dst: seq<string>, cwd: seq<string>, isRoot: bool)
    requires dst != []
  {
    var parent := dst[..|dst| - 1];
    Writable(if parent == [] then cwd else parent, isRoot)
  }

  /** A destination that is a directory receives the source under its own last
      name; the root has no last name. */
  function Target(e: Entries, src: seq<string>, dst: seq<string>): Option<seq<string>> {
    if !IsDir(e, dst) then Some(dst)
    else if src == [] then None
    else Some(dst + [src[|src| - 1]])
  }

  /** What `cp` does with already resolved paths. */
  function Copied(e: Entries, cwd: seq<string>, src: seq<string>, dst: seq<string>, recursive: bool,
                  isRoot: bool, made: nat -> Meta): (Entries, Status)
  {
    match NodeAt(Dir(e), src)
    case None => (e, NotFound)
    case Some(n) =>
      if n.Dir? && !recursive then (e, IsADirectory)
      else
        match Target(e, src, dst)
        case None => (e, IndexFault)
        case Some(target) =>
          if !MayWriteTo(target, cwd, isRoot) then (e, Denied)
          else (SetNode(e, target, n, made), Done)
  }

  /** Setting the destination to the source's node, then deleting the source. */
  function Relocated(e: Entries, src: seq<string>, dst: seq<string>, made: nat -> Meta): Entries
    requires src != [] && dst != [] && NodeAt(Dir(e), src).Some?
  {
    DelNode(SetNode(e, dst, NodeAt(Dir(e), src).value, made), src)
  }

  /** What `mv` does with already resolved paths. Moving the root itself sets
      the destination before the deletion fails. */
  function Moved(e: Entries, cwd: seq<string>, src: seq<string>, dst: seq<string>, isRoot: bool,
                 made: nat -> Meta): (Entries, Status)
  {
    match NodeAt(Dir(e), src)
    case None => (e, NotFound)
    case Some(n) =>
      match Target(e, src, dst)
      case None => (e, IndexFault)
      case Some(target) =>
        if !MayWriteTo(target, cwd, isRoot) then (e, Denied)
        else if src == [] then (SetNode(e, target, n, made), IndexFault)
        else (Relocated(e, src, target, made), Done)
  }

  // ---------- sizes ----------

  function Utf8Length(c: char): nat {
    if c < '\U{80}' then 1 else if c < '\U{800}' then 2 else if c < '\U{10000}' then 3 else 4
  }

  /** The encoding of a code point in RFC 3629, section 3. */
  function Utf8(n: nat): seq<nat> {
    var m := n / 0x40;
    var l := m / 0x40;
    if n < 0x80 then [n]
    else if n < 0x800 then [0xC0 + m, 0x80 + n % 0x40]
    else if n < 0x10000 then [0xE0 + l, 0x80 + m % 0x40, 0x80 + n % 0x40]
    else [0xF0 + l / 0x40, 0x80 + l % 0x40, 0x80 + m % 0x40, 0x80 + n % 0x40]
  }

  /** The code point a sequence of octets stands for: the first octet says how many
      there are, each later one carries six bits. */
  function Decoded(b: seq<nat>): Option<nat> {
    if !(forall i :: 1 <= i < |b| ==> 0x80 <= b[i] < 0xC0) then None
    else if |b| == 1 && b[0] < 0x80 then Some(b[0])
    else if |b| == 2 && 0xC0 <= b[0] < 0xE0 then Some((b[0] - 0xC0) * 0x40 + (b[1] - 0x80))
    else if |b| == 3 && 0xE0 <= b[0] < 0xF0 then
      Some((b[0] - 0xE0) * 0x1000 + (b[1] - 0x80) * 0x40 + (b[2] - 0x80))
    else if |b| == 4 && 0xF0 <= b[0] < 0xF8 then
      Some((b[0] - 0xF0) * 0x40000 + (b[1] - 0x80) * 0x1000 + (b[2] - 0x80) * 0x40 + (b[3] - 0x80))
    else None
  }

  lemma Utf8Decodes(n: nat)
    requires n < 0x110000
    ensures Decoded(Utf8(n)) == Some(n)
  {
    var m := n / 0x40;
    var l := m / 0x40;
    assert n == m * 0x40 + n % 0x40 && m == l * 0x40 + m % 0x40 && l == l / 0x40 * 0x40 + l % 0x40;
  }

  lemma ShortSequences(b: seq<nat>)
    requires Decoded(b).Some?
    ensures 1 <= |b| <= 4
    ensures |b| == 1 ==> Decoded(b).value < 0x80
    ensures |b| == 2 ==> Decoded(b).value < 0x800
    ensures |b| == 3 ==> Decoded(b).value < 0x10000
  {
  }

  /** A character takes as many octets as the shortest sequence that decodes to it. */
  lemma Utf8LengthIsShortest(c: char, b: seq<nat>)
    ensures Decoded(Utf8(c as int)) == Some(c as int) && |Utf8(c as int)| == Utf8Length(c)
    ensures Decoded(b) == Some(c as int) ==> |b| >= Utf8Length(c)
  {
    Utf8Decodes(c as int);
    hide Decoded;
    if Decoded(b) == Some(c as int) { ShortSequences(b); }
  }

  function Bytes(content: string): nat {
    if content == "" then 0 else Utf8Length(content[0]) + Bytes(content[1..])
  }

  predicate Ascii(content: string) {
    forall i :: 0 <= i < |content| ==> content[i] < '\U{80}'
  }

  /** A text takes one byte per character exactly when all of it is ASCII, and
      never more than four. */
  lemma {:induction false} BytesAreLengthIff(content: string)
    ensures |content| <= Bytes(content) <= 4 * |content|
    ensures Bytes(content) == |content| <==> Ascii(content)
  {
    if content != "" {
      var rest := content[1..];
      BytesAreLengthIff(rest);
      assert forall i :: 0 < i < |content| ==> content[i] == rest[i - 1];
      assert Ascii(content) <==> content[0] < '\U{80}' && Ascii(rest) by {
        assert forall i :: 0 <= i < |rest| ==> rest[i] == content[i + 1];
      }
    }
  }

  /** `du`: the bytes of every file, directory records left out. */
  function Size(n: Node): nat {
    match n
    case File(meta) => Bytes(meta.content)
    case Dir(e) => SizeOf(e)
  }

  function SizeOf(e: Entries): nat {
    match e
    case Nil => 0
    case Cons(k, n, r) => (if k == META then 0 else Size(n)) + SizeOf(r)
  }

  function SizeAt(e: Entries, p: seq<string>): nat {
    match NodeAt(Dir(e), p)
    case None => 0
    case Some(n) => Size(n)
  }

  /** Whether what lies at this path is seen by `du` of the root. */
  predicate Counted(p: seq<string>) {
    META !in p
  }
}
