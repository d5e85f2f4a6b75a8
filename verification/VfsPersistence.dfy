/** Saving the tree as a JSON value and loading it back. */
module VfsPersistence {
  import opened Prelude
  import opened VfsModel

  datatype Json =
    | JNull
    | JBool(flag: bool)
    | JInt(number: int)
    | JReal(decimal: real)
    | JStr(text: string)
    | JObj(fields: Fields)

  datatype Fields = NoField | Field(key: string, value: Json, more: Fields)

  const TYPE := "__type__"

  // ---------- writing ----------

  function MetaFields(m: Meta): Fields {
    Field(TYPE, JStr("Meta"),
    Field("content", JStr(m.content),
    Field("owner", JStr(m.owner),
    Field("readable", JBool(m.readable),
    Field("mode", JInt(m.mode),
    Field("group", JStr(m.group),
    Field("symlink", match m.symlink { case None => JNull case Some(t) => JStr(t) },
    Field("inode", JInt(m.inode),
    Field("nlink", JInt(m.nlink),
    Field("created", JReal(m.created),
    Field("modified", JReal(m.modified), NoField)))))))))))
  }

  function Serialize(n: Node): Json
    decreases n
  {
    match n
    case File(m) => JObj(MetaFields(m))
    case Dir(e) => JObj(SerializeEntries(e))
  }

  function SerializeEntries(e: Entries): Fields
    decreases e
  {
    match e
    case Nil => NoField
    case Cons(k, n, r) => Field(k, Serialize(n), SerializeEntries(r))
  }

  // ---------- reading ----------

  function Get(f: Fields, key: string): Option<Json> {
    match f
    case NoField => None
    case Field(k, v, more) => if k == key then Some(v) else Get(more, key)
  }

  /** The record an object stands for; `None` where a required key is missing or
      no value of the field's type. `blank` supplies what may be missing. */
  function ReadMeta(f: Fields, blank: Meta): Option<Meta> {
    match (Get(f, "content"), Get(f, "owner"), Get(f, "readable"), Get(f, "mode"), Get(f, "group"), Get(f, "symlink"))
    case (Some(JStr(content)), Some(JStr(owner)), Some(JBool(readable)),
          Some(JInt(mode)), Some(JStr(group)), Some(link)) =>
      if !link.JNull? && !link.JStr? then None
      else
        Some(Meta(content, owner, readable, mode, group, if link.JNull? then None else Some(link.text),
                  (match Get(f, "inode") case Some(JInt(i)) => i case _ => blank.inode),
                  (match Get(f, "nlink") case Some(JInt(i)) => i case _ => 1),
                  (match Get(f, "created") case Some(JReal(t)) => t case _ => blank.created),
                  (match Get(f, "modified") case Some(JReal(t)) => t case _ => blank.modified)))
    case _ => None
  }

  function Deserialize(j: Json, blank: Meta): Option<Node>
    decreases j
  {
    if !j.JObj? then None
    else if Get(j.fields, TYPE) == Some(JStr("Meta")) then
      (match ReadMeta(j.fields, blank) case None => None case Some(m) => Some(File(m)))
    else
      match DeserializeFields(j.fields, blank)
      case None => None
      case Some(e) => Some(Dir(e))
  }

  function DeserializeFields(f: Fields, blank: Meta): Option<Entries>
    decreases f
  {
    match f
    case NoField => Some(Nil)
    case Field(k, v, more) =>
      match (Deserialize(v, blank), DeserializeFields(more, blank))
      case (Some(n), Some(e)) => Some(Cons(k, n, e))
      case _ => None
  }

  // ---------- the round trip ----------

  /** A directory's own child called "__type__" is an object, never the text that
      marks a record. */
  lemma {:induction false} NoDirectoryLooksLikeARecord(e: Entries)
    ensures Get(SerializeEntries(e), TYPE) != Some(JStr("Meta"))
  {
    if e.Cons? { NoDirectoryLooksLikeARecord(e.rest); }
  }

  lemma MetaRoundTrip(m: Meta, blank: Meta)
    ensures ReadMeta(MetaFields(m), blank) == Some(m)
  {
    var f := MetaFields(m);
    var f1 := f.more;
    var f4 := f1.more.more.more;
    var f7 := f4.more.more.more;
    forall k | k != TYPE ensures Get(f, k) == Get(f1, k) {}
    forall k | k !in {"content", "owner", "readable"} ensures Get(f1, k) == Get(f4, k) { StepThrice(f1, k); }
    forall k | k !in {"mode", "group", "symlink"} ensures Get(f4, k) == Get(f7, k) { StepThrice(f4, k); }
    StepThrice(f1, "content");
    StepThrice(f1, "owner");
    StepThrice(f1, "readable");
    StepThrice(f4, "mode");
    StepThrice(f4, "group");
    StepThrice(f4, "symlink");
    StepThrice(f7, "inode");
    StepThrice(f7, "nlink");
    StepThrice(f7, "created");
    StepThrice(f7, "modified");
  }

  lemma StepThrice(f: Fields, key: string)
    requires f.Field? && f.more.Field? && f.more.more.Field?
    ensures Get(f, key) ==
            if key == f.key then Some(f.value)
            else if key == f.more.key then Some(f.more.value)
            else if key == f.more.more.key then Some(f.more.more.value)
            else Get(f.more.more.more, key)
  {
    var third := f.more.more;
    assert Get(third, key) == if key == third.key then Some(third.value) else Get(third.more, key);
  }

  /** A record saved before records had a number, a link count and times is read
      with one link, and with the number and the times of a new record. */
  lemma OlderRecordReads(f: Fields, m: Meta, blank: Meta)
    requires Get(f, "__type__") == Some(JStr("Meta"))
    requires Get(f, "content") == Some(JStr(m.content)) && Get(f, "owner") == Some(JStr(m.owner))
    requires Get(f, "readable") == Some(JBool(m.readable)) && Get(f, "mode") == Some(JInt(m.mode))
    requires Get(f, "group") == Some(JStr(m.group))
    requires Get(f, "symlink") == Some(if m.symlink.None? then JNull else JStr(m.symlink.value))
    requires forall key :: key in {"inode", "nlink", "created", "modified"} ==> Get(f, key) == None
    ensures Deserialize(JObj(f), blank) ==
            Some(File(m.(inode := blank.inode, nlink := 1, created := blank.created, modified := blank.modified)))
  {
    hide Get;
    assert Get(f, "inode") == Get(f, "nlink") == Get(f, "created") == Get(f, "modified") == None;
  }

  /** Reading back what was written gives the same tree, whatever its names. */
  lemma {:induction false} RoundTrip(n: Node, blank: Meta)
    ensures Deserialize(Serialize(n), blank) == Some(n)
    decreases n
  {
    match n
    case File(m) => MetaRoundTrip(m, blank);
    case Dir(e) =>
      NoDirectoryLooksLikeARecord(e);
      RoundTripEntries(e, blank);
  }

  lemma {:induction false} RoundTripEntries(e: Entries, blank: Meta)
    ensures DeserializeFields(SerializeEntries(e), blank) == Some(e)
    decreases e
  {
    if e.Cons? {
      RoundTrip(e.node, blank);
      RoundTripEntries(e.rest, blank);
    }
  }

  // ---------- save and load ----------

  predicate Persisted(name: string) {
    name != "proc" && name != "sys"
  }

  function Kept(e: Entries): Entries {
    match e
    case Nil => Nil
    case Cons(k, n, r) => if Persisted(k) then Cons(k, n, Kept(r)) else Kept(r)
  }

  function Saved(e: Entries): Json {
    Serialize(Dir(Kept(e)))
  }

  /** Assigning every loaded top-level entry over the present tree. */
  function Merged(tree: Entries, loaded: Entries): Entries
    decreases loaded
  {
    match loaded
    case Nil => tree
    case Cons(k, n, r) => Merged(Put(tree, k, n), r)
  }

  /** A value that is no directory leaves the tree as it was. */
  function Loaded(tree: Entries, j: Json, blank: Meta): Entries {
    match Deserialize(j, blank)
    case Some(Dir(e)) => Merged(tree, e)
    case _ => tree
  }

  lemma {:induction false} LookupKept(e: Entries, name: string)
    ensures Lookup(Kept(e), name) == if Persisted(name) then Lookup(e, name) else None
  {
    if e.Cons? { LookupKept(e.rest, name); }
  }

  lemma {:induction false} KeptIsSound(e: Entries)
    requires SoundEntries(e)
    ensures SoundEntries(Kept(e))
  {
    if e.Cons? {
      KeptIsSound(e.rest);
      LookupKept(e.rest, e.name);
    }
  }

  lemma {:induction false} LookupMerged(tree: Entries, loaded: Entries, name: string)
    requires SoundEntries(loaded)
    ensures Lookup(Merged(tree, loaded), name) ==
            if Lookup(loaded, name).Some? then Lookup(loaded, name) else Lookup(tree, name)
    decreases loaded
  {
    if loaded.Cons? {
      LookupMerged(Put(tree, loaded.name, loaded.node), loaded.rest, name);
      LookupPut(tree, loaded.name, loaded.node, name);
    }
  }

  /** After loading what another tree saved, each persisted top-level name reads as
      saved, and the virtual directories and unsaved names as before. */
  lemma LoadRestores(saved: Entries, tree: Entries, blank: Meta, name: string)
    requires SoundEntries(saved)
    ensures Lookup(Loaded(tree, Saved(saved), blank), name) ==
            if Persisted(name) && Lookup(saved, name).Some? then Lookup(saved, name) else Lookup(tree, name)
  {
    RoundTrip(Dir(Kept(saved)), blank);
    KeptIsSound(saved);
    LookupMerged(tree, Kept(saved), name);
    LookupKept(saved, name);
  }

  lemma {:induction false} MergeOfOwnEntriesIsIdle(tree: Entries, part: Entries)
    requires forall k :: Lookup(part, k).Some? ==> Lookup(tree, k) == Lookup(part, k)
    requires SoundEntries(part)
    ensures Merged(tree, part) == tree
    decreases part
  {
    if part.Cons? {
      assert Lookup(part, part.name) == Some(part.node);
      PutSame(tree, part.name, part.node);
      forall k | Lookup(part.rest, k).Some?
        ensures Lookup(tree, k) == Lookup(part.rest, k)
      {
        assert Lookup(part, k) == Lookup(part.rest, k);
      }
      MergeOfOwnEntriesIsIdle(tree, part.rest);
    }
  }

  /** Loading straight after saving changes nothing at all, not even the order. */
  lemma SaveThenLoadIsIdle(tree: Entries, blank: Meta)
    requires SoundEntries(tree)
    ensures Loaded(tree, Saved(tree), blank) == tree
  {
    RoundTrip(Dir(Kept(tree)), blank);
    KeptIsSound(tree);
    forall k | Lookup(Kept(tree), k).Some?
      ensures Lookup(tree, k) == Lookup(Kept(tree), k)
    {
      LookupKept(tree, k);
    }
    MergeOfOwnEntriesIsIdle(tree, Kept(tree));
  }
}
