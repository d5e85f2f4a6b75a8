/** Path strings of the virtual filesystem and the segment lists they stand for. */
module PathResolver {

  const HOME := ["home", "user"]

  // ---------- strings and segments ----------

  function Split(s: string): (r: seq<string>)
    ensures r != []
  {
    if s == "" then [""]
    else
      var rest := Split(s[1..]);
      if s[0] == '/' then [""] + rest else [[s[0]] + rest[0]] + rest[1..]
  }

  function Join(segs: seq<string>): string {
    if segs == [] then ""
    else if |segs| == 1 then segs[0]
    else segs[0] + "/" + Join(segs[1..])
  }

  predicate CleanName(seg: string) {
    seg != "" && seg != "." && seg != ".." && '/' !in seg
  }

  predicate Clean(parts: seq<string>) {
    forall i :: 0 <= i < |parts| ==> CleanName(parts[i])
  }

  // ---------- the resolver ----------

  function Enter(parts: seq<string>, seg: string): seq<string> {
    if seg == "" || seg == "." then parts
    else if seg == ".." then (if parts == [] then parts else parts[..|parts| - 1])
    else parts + [seg]
  }

  function Walk(parts: seq<string>, segs: seq<string>): seq<string>
    decreases |segs|
  {
    if segs == [] then parts else Walk(Enter(parts, segs[0]), segs[1..])
  }

  predicate Absolute(path: string) {
    path != "" && path[0] == '/'
  }

  function Resolve(path: string, cwd: seq<string>): seq<string> {
    if path == "~" then HOME
    else Walk(if Absolute(path) then [] else cwd, Split(path))
  }

  function Pwd(cwd: seq<string>): string {
    if cwd == [] then "/" else "/" + Join(cwd)
  }

  const HOME_PATH := "/home/user"

  function CwdDisplay(cwd: seq<string>): string {
    var full := Pwd(cwd);
    if full == HOME_PATH then "~"
    else if HOME_PATH + "/" <= full then "~" + full[|HOME_PATH|..]
    else full
  }

  method ResolvePath(path: string, cwd: seq<string>) returns (parts: seq<string>)
    ensures parts == Resolve(path, cwd)
  {
    if path == "~" { return HOME; }
    parts := if Absolute(path) then [] else cwd;
    var segments := Split(path);
    ghost var start := parts;
    for i := 0 to |segments|
      invariant Walk(parts, segments[i..]) == Walk(start, segments)
    {
      var seg := segments[i];
      assert segments[i..][1..] == segments[i + 1..];
      if seg == "" || seg == "." { continue; }
      if seg == ".." {
        if parts != [] { parts := parts[..|parts| - 1]; }
      } else {
        parts := parts + [seg];
      }
    }
  }

  // ---------- splitting and joining ----------

  lemma {:induction false} SplitHasNoSlash(s: string)
    ensures forall i :: 0 <= i < |Split(s)| ==> '/' !in Split(s)[i]
  {
    if s != "" { SplitHasNoSlash(s[1..]); }
  }

  /** One step of `Split`. */
  lemma SplitStep(c: char, s: string)
    ensures Split([c] + s) == if c == '/' then [""] + Split(s) else [[c] + Split(s)[0]] + Split(s)[1..]
  {
    assert ([c] + s)[1..] == s;
  }

  lemma SplitStepConcat(c: char, t: string, b: string)
    requires Split(t + "/" + b) == Split(t) + Split(b)
    ensures Split([c] + (t + "/" + b)) == Split([c] + t) + Split(b)
  {
    hide Split;
    SplitStep(c, t);
    SplitStep(c, t + "/" + b);
    var front, back := Split(t), Split(b);
    assert (front + back)[1..] == front[1..] + back;
    if c == '/' {
      assert [""] + (front + back) == ([""] + front) + back;
    } else {
      var first := [c] + front[0];
      assert [first] + (front[1..] + back) == ([first] + front[1..]) + back;
    }
  }

  /** Splitting a joined text splits its two halves. */
  lemma {:induction false} SplitConcat(a: string, b: string)
    ensures Split(a + "/" + b) == Split(a) + Split(b)
  {
    if a == "" {
      SplitStep('/', b);
      assert a + "/" + b == ['/'] + b;
    } else {
      hide Split;
      SplitConcat(a[1..], b);
      SplitStepConcat(a[0], a[1..], b);
      assert a == [a[0]] + a[1..];
      assert a + "/" + b == [a[0]] + (a[1..] + "/" + b);
    }
  }

  lemma {:induction false} SplitPlain(seg: string)
    requires '/' !in seg
    ensures Split(seg) == [seg]
  {
    if seg != "" {
      SplitPlain(seg[1..]);
      assert [seg[0]] + seg[1..] == seg;
    }
  }

  lemma {:induction false} SplitJoin(segs: seq<string>)
    requires segs != [] && forall i :: 0 <= i < |segs| ==> '/' !in segs[i]
    ensures Split(Join(segs)) == segs
  {
    SplitPlain(segs[0]);
    if |segs| > 1 {
      SplitJoin(segs[1..]);
      SplitConcat(segs[0], Join(segs[1..]));
    }
  }

  // ---------- walking ----------

  lemma {:induction false} WalkConcat(parts: seq<string>, a: seq<string>, b: seq<string>)
    ensures Walk(parts, a + b) == Walk(Walk(parts, a), b)
    decreases |a|
  {
    if a == [] {
      assert a + b == b;
    } else {
      assert (a + b)[1..] == a[1..] + b;
      WalkConcat(Enter(parts, a[0]), a[1..], b);
    }
  }

  lemma {:induction false} WalkClean(parts: seq<string>, segs: seq<string>)
    requires Clean(segs)
    ensures Walk(parts, segs) == parts + segs
    decreases |segs|
  {
    if segs != [] {
      assert CleanName(segs[0]);
      WalkClean(parts + [segs[0]], segs[1..]);
    }
  }

  lemma {:induction false} WalkStaysClean(parts: seq<string>, segs: seq<string>)
    requires Clean(parts) && forall i :: 0 <= i < |segs| ==> '/' !in segs[i]
    ensures Clean(Walk(parts, segs))
    decreases |segs|
  {
    if segs != [] { WalkStaysClean(Enter(parts, segs[0]), segs[1..]); }
  }

  // ---------- the laws ----------

  /** Whatever the path, resolving it from a clean directory gives clean segments. */
  lemma ResolveIsClean(path: string, cwd: seq<string>)
    requires Clean(cwd)
    ensures Clean(Resolve(path, cwd))
  {
    SplitHasNoSlash(path);
    WalkStaysClean(if Absolute(path) then [] else cwd, Split(path));
  }

  lemma SplitPwd(parts: seq<string>)
    requires Clean(parts) && parts != []
    ensures Split(Pwd(parts)) == [""] + parts
  {
    SplitJoin(parts);
    assert Pwd(parts)[1..] == Join(parts);
  }

  /** The printed form of a clean path resolves to it from anywhere. */
  lemma ResolveInvertsPwd(parts: seq<string>, cwd: seq<string>)
    requires Clean(parts)
    ensures Resolve(Pwd(parts), cwd) == parts
  {
    if parts == [] {
      assert "/"[1..] == "" && Split("/") == ["", ""];
      assert Walk([], ["", ""]) == Walk([], [""]) == Walk([], []) by {
        assert ["", ""][1..] == [""] && [""][1..] == [];
      }
    } else {
      SplitPwd(parts);
      assert ([""] + parts)[1..] == parts;
      WalkClean([], parts);
    }
  }

  /** The printed form of a path leads back to it exactly when its names are clean. */
  lemma ResolveInvertsPwdIff(parts: seq<string>, cwd: seq<string>)
    ensures Resolve(Pwd(parts), cwd) == parts <==> Clean(parts)
  {
    if Clean(parts) { ResolveInvertsPwd(parts, cwd); }
    assert Resolve(Pwd(parts), cwd) == Resolve(Pwd(parts), []);
    ResolveIsClean(Pwd(parts), []);
  }

  /** Resolving a joined path is resolving its parts one after the other. */
  lemma ResolveComposes(a: string, b: string, cwd: seq<string>)
    requires a != "" && a != "~" && b != "~" && !Absolute(b)
    ensures Resolve(a + "/" + b, cwd) == Resolve(b, Resolve(a, cwd))
  {
    SplitConcat(a, b);
    assert (a + "/" + b)[0] == a[0];
    assert '/' in a + "/" + b && '/' !in "~" by { assert (a + "/" + b)[|a|] == '/'; }
    WalkConcat(if Absolute(a) then [] else cwd, Split(a), Split(b));
  }

  // ---------- what the segments mean ----------

  lemma WalkOne(parts: seq<string>, seg: string)
    ensures Walk(parts, [seg]) == Enter(parts, seg)
  {
    assert [seg][1..] == [];
  }

  /** A path of one segment: two dots go up and stay at the root, one dot and the
      empty path stay, any other name but the tilde goes down. */
  lemma SingleSegments(cwd: seq<string>, name: string)
    requires CleanName(name)
    ensures Resolve("..", cwd + [name]) == cwd && Resolve("..", []) == []
    ensures Resolve(".", cwd) == cwd && Resolve("", cwd) == cwd && Resolve("/", cwd) == []
    ensures name != "~" ==> Resolve(name, cwd) == cwd + [name]
  {
    ResolveInvertsPwd([], cwd);
    SplitPlain("..");
    SplitPlain(".");
    SplitPlain(name);
    WalkOne(cwd + [name], "..");
    WalkOne([], "..");
    WalkOne(cwd, ".");
    WalkOne(cwd, "");
    WalkOne(cwd, name);
    assert name[0] in name;
  }

  lemma ResolveAppends(a: string, seg: string, cwd: seq<string>)
    requires a != "" && a != "~" && '/' !in seg
    ensures Resolve(a + "/" + seg, cwd) == Enter(Resolve(a, cwd), seg)
    ensures a + "/" + seg != "" && a + "/" + seg != "~"
  {
    SplitConcat(a, seg);
    SplitPlain(seg);
    assert (a + "/" + seg)[0] == a[0] && (a + "/" + seg)[|a|] == '/';
    var from := if Absolute(a) then [] else cwd;
    WalkConcat(from, Split(a), [seg]);
    WalkOne(Walk(from, Split(a)), seg);
  }

  /** What follows a path goes on from where it leads: a name down, two dots behind a
      name back, an empty segment or one dot nowhere. */
  lemma LaterSegments(a: string, name: string, cwd: seq<string>)
    requires a != "" && a != "~" && CleanName(name)
    ensures Resolve(a + "/" + name, cwd) == Resolve(a, cwd) + [name]
    ensures Resolve(a + "/" + name + "/..", cwd) == Resolve(a, cwd)
    ensures Resolve(a + "/", cwd) == Resolve(a, cwd) && Resolve(a + "/.", cwd) == Resolve(a, cwd)
  {
    ResolveAppends(a, name, cwd);
    ResolveAppends(a + "/" + name, "..", cwd);
    ResolveAppends(a, "", cwd);
    ResolveAppends(a, ".", cwd);
    assert a + "/" + name + "/.." == a + "/" + name + "/" + "..";
    assert a + "/." == a + "/" + "." && a + "/" == a + "/" + "";
  }

  /** The path that goes up `k` directories. */
  function Ups(k: nat): string
    requires k > 0
  {
    if k == 1 then ".." else Ups(k - 1) + "/.."
  }

  /** It leads `k` directories up and no further than to the root. */
  lemma {:induction false} UpsGoUp(k: nat, cwd: seq<string>)
    requires k > 0
    ensures Ups(k) != "" && Ups(k) != "~"
    ensures Resolve(Ups(k), cwd) == if k <= |cwd| then cwd[..|cwd| - k] else []
  {
    if k == 1 {
      SplitPlain("..");
      WalkOne(cwd, "..");
    } else {
      UpsGoUp(k - 1, cwd);
      ResolveAppends(Ups(k - 1), "..", cwd);
      assert Ups(k) == Ups(k - 1) + "/" + "..";
    }
  }

  lemma JoinIsRelative(segs: seq<string>)
    requires Clean(segs) && segs != []
    ensures Join(segs) != "" && !Absolute(Join(segs))
  {
    assert CleanName(segs[0]);
    assert Join(segs)[0] == segs[0][0];
    assert segs[0][0] in segs[0];
  }

  lemma TildeSegments(rest: seq<string>)
    requires Clean(rest) && rest != []
    ensures Split("~/" + Join(rest)) == ["~"] + rest
  {
    SplitJoin(rest);
    SplitPlain("~");
    SplitConcat("~", Join(rest));
    assert "~/" + Join(rest) == "~" + "/" + Join(rest);
  }

  /** The tilde stands for the home directory only when it is the whole path. */
  lemma TildeIsNoPrefix(rest: seq<string>, cwd: seq<string>)
    requires Clean(rest) && rest != []
    ensures Resolve("~/" + Join(rest), cwd) == cwd + ["~"] + rest
    ensures Resolve(Join(rest), Resolve("~", cwd)) == if Join(rest) == "~" then HOME else HOME + rest
  {
    hide Split, Join, Walk;
    TildeSegments(rest);
    WalkClean(cwd, ["~"] + rest);
    assert cwd + (["~"] + rest) == cwd + ["~"] + rest;
    JoinIsRelative(rest);
    SplitJoin(rest);
    WalkClean(HOME, rest);
    assert ("~/" + Join(rest))[0] == '~' && |"~/" + Join(rest)| > 1;
  }

  predicate UnderHome(cwd: seq<string>) {
    |cwd| > 2 && cwd[..2] == HOME
  }

  lemma SplitHome()
    ensures Split(HOME_PATH) == [""] + HOME
  {
    assert Clean(HOME);
    assert HOME[1..] == ["user"];
    assert Join(HOME) == "home" + "/" + Join(["user"]) == "home/user";
    assert Pwd(HOME) == HOME_PATH;
    SplitPwd(HOME);
  }

  /** A path text that goes on after the home prefix names something below home. */
  lemma PrefixGivesHome(cwd: seq<string>, rest: string)
    requires Clean(cwd) && cwd != [] && Pwd(cwd) == HOME_PATH + "/" + rest
    ensures cwd == HOME + Split(rest)
  {
    hide Split, Pwd;
    SplitHome();
    SplitPwd(cwd);
    SplitConcat(HOME_PATH, rest);
    assert cwd == ([""] + cwd)[1..] == ([""] + HOME + Split(rest))[1..] == HOME + Split(rest);
  }

  lemma PwdBelowHome(cwd: seq<string>)
    requires UnderHome(cwd)
    ensures Pwd(cwd) == HOME_PATH + "/" + Join(cwd[2..])
  {
    var tail := cwd[2..];
    assert cwd == ["home"] + (["user"] + tail);
    assert Join(["user"] + tail) == "user" + "/" + Join(tail) by { assert (["user"] + tail)[1..] == tail; }
    assert Join(cwd) == "home" + "/" + Join(["user"] + tail) by { assert cwd[1..] == ["user"] + tail; }
  }

  lemma HomeIsHome(cwd: seq<string>)
    requires Clean(cwd)
    ensures Pwd(cwd) == HOME_PATH <==> cwd == HOME
  {
    hide Split;
    SplitHome();
    if cwd == [] {
      assert |Pwd(cwd)| == 1;
    } else {
      SplitPwd(cwd);
      if Pwd(cwd) == HOME_PATH { assert cwd == ([""] + cwd)[1..] == ([""] + HOME)[1..]; }
      if cwd == HOME { assert Join(HOME) == "home" + "/" + Join(["user"]) by { assert HOME[1..] == ["user"]; } }
    }
  }

  /** The displayed path starts with the home prefix exactly below home. */
  lemma PrefixMeansUnderHome(cwd: seq<string>)
    requires Clean(cwd)
    ensures HOME_PATH + "/" <= Pwd(cwd) <==> UnderHome(cwd)
  {
    hide Split, Join;
    var full := Pwd(cwd);
    if HOME_PATH + "/" <= full {
      assert cwd != [];
      var rest := full[|HOME_PATH| + 1..];
      assert full == HOME_PATH + "/" + rest;
      PrefixGivesHome(cwd, rest);
      assert cwd[..2] == HOME;
    }
    if UnderHome(cwd) { PwdBelowHome(cwd); }
  }

  lemma DisplayBelowHome(cwd: seq<string>)
    requires Clean(cwd) && UnderHome(cwd)
    ensures CwdDisplay(cwd) == "~/" + Join(cwd[2..])
  {
    hide Split, Join, Pwd;
    PrefixMeansUnderHome(cwd);
    PwdBelowHome(cwd);
    HomeIsHome(cwd);
    assert cwd != HOME;
    assert (HOME_PATH + "/" + Join(cwd[2..]))[|HOME_PATH|..] == "/" + Join(cwd[2..]);
  }

  /** The prompt shows the home directory as a tilde, shortens what lies below it,
      and prints every other directory in full. */
  lemma DisplayedPath(cwd: seq<string>)
    requires Clean(cwd)
    ensures CwdDisplay(cwd) ==
            if cwd == ["home", "user"] then "~"
            else if |cwd| > 2 && cwd[0] == "home" && cwd[1] == "user" then "~/" + Join(cwd[2..])
            else if cwd == [] then "/"
            else "/" + Join(cwd)
  {
    assert Pwd(cwd) == if cwd == [] then "/" else "/" + Join(cwd);
    hide Split, Join, Pwd;
    BelowHomeInParts(cwd);
    HomeIsHome(cwd);
    PrefixMeansUnderHome(cwd);
    if UnderHome(cwd) { DisplayBelowHome(cwd); }
    hide UnderHome;
  }

  lemma BelowHomeInParts(cwd: seq<string>)
    ensures UnderHome(cwd) <==> |cwd| > 2 && cwd[0] == "home" && cwd[1] == "user"
  {
    if |cwd| > 2 { assert cwd[..2] == [cwd[0], cwd[1]]; }
  }

  lemma TildeIsNotHome(from: seq<string>, rest: seq<string>, cwd: seq<string>)
    requires UnderHome(cwd) && rest == cwd[2..]
    ensures from + ["~"] + rest != cwd
  {
    var back := from + ["~"] + rest;
    assert |back| == |cwd| ==> |from| == 1 && back[1] == "~";
    assert cwd[..2][1] == cwd[1] == "user";
  }

  /** The prompt's path leads back to the directory exactly when the directory
      is not strictly below home. */
  lemma DisplayRoundTripIff(cwd: seq<string>, from: seq<string>)
    requires Clean(cwd)
    ensures Resolve(CwdDisplay(cwd), from) == cwd <==> !UnderHome(cwd)
  {
    hide Split, Join, Walk, Pwd;
    PrefixMeansUnderHome(cwd);
    HomeIsHome(cwd);
    ResolveInvertsPwd(cwd, from);
    if UnderHome(cwd) {
      var rest := cwd[2..];
      assert Clean(rest);
      DisplayBelowHome(cwd);
      TildeIsNoPrefix(rest, from);
      TildeIsNotHome(from, rest, cwd);
    }
  }

  /** In the documents directory the prompt shows a path that, entered at the root,
      names something else. */
  lemma DisplayedDocumentsLeadAstray()
    ensures CwdDisplay(HOME + ["docs"]) == "~/docs" && Resolve("~/docs", []) == ["~", "docs"]
  {
    var cwd := HOME + ["docs"];
    assert cwd[2..] == ["docs"] && cwd[..2] == HOME;
    assert Clean(cwd) && Clean(["docs"]);
    DisplayBelowHome(cwd);
    assert Join(["docs"]) == "docs" && "~/" + "docs" == "~/docs";
    TildeIsNoPrefix(["docs"], []);
  }
}
