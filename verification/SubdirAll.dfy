/** dirutil.MkSubdirAll: creating missing directories below a top-level directory, but never that
    directory itself, which may be missing because it is not mounted. */
module SubdirAll {

  /** osi.IsPathSeparator */
  type Separator = char -> bool

  // ---- Paths ----

  /** Without trailing separators. */
  function Trim(sep: Separator, s: string): (r: string)
    ensures r <= s && (r == "" || !sep(r[|r| - 1]))
  {
    if s != "" && sep(s[|s| - 1]) then Trim(sep, s[..|s| - 1]) else s
  }

  /** Where the last component of a path without trailing separators starts. */
  function LastStart(sep: Separator, s: string): (k: nat)
    ensures k <= |s| && (k == 0 || sep(s[k - 1]))
    ensures forall i :: k <= i < |s| ==> !sep(s[i])
  {
    if s != "" && !sep(s[|s| - 1]) then LastStart(sep, s[..|s| - 1]) else |s|
  }

  function Parent(sep: Separator, s: string): (p: string)
    ensures |p| <= |s| && (s != "" ==> |p| < |s|)
  {
    var t := Trim(sep, s);
    Trim(sep, t[..LastStart(sep, t)])
  }

  /** The names along a path; repeated separators do not count. */
  function Components(sep: Separator, s: string): seq<string>
    decreases |s|
  {
    var t := Trim(sep, s);
    if t == "" then [] else Components(sep, Parent(sep, s)) + [t[LastStart(sep, t)..]]
  }

  lemma {:induction false} TrimIsLast(sep: Separator, s: string, n: nat)
    requires n <= |s| && (n == 0 || !sep(s[n - 1])) && forall i :: n <= i < |s| ==> sep(s[i])
    ensures Trim(sep, s) == s[..n]
    decreases |s|
  {
    if n < |s| {
      TrimIsLast(sep, s[..|s| - 1], n);
    }
  }

  /** Trimming never goes below a part that ends in a name. */
  lemma {:induction false} TrimKeeps(sep: Separator, s: string, n: nat)
    requires n <= |s| && (n == 0 || !sep(s[n - 1]))
    ensures n <= |Trim(sep, s)|
    decreases |s|
  {
    if s != "" && sep(s[|s| - 1]) {
      TrimKeeps(sep, s[..|s| - 1], n);
    }
  }

  lemma {:induction false} TrimTwice(sep: Separator, s: string)
    ensures Trim(sep, Trim(sep, s)) == Trim(sep, s)
  {}

  /** s is strictly below top, by its text; both without trailing separators. */
  ghost predicate Below(sep: Separator, top: string, s: string) {
    |s| > |top| && top <= s && (top == "" || sep(s[|top|]))
  }

  /** The parent of a path below top is top or below it. */
  lemma {:induction false} ParentBelow(sep: Separator, top: string, s: string)
    requires Below(sep, top, s) && Trim(sep, s) == s && Trim(sep, top) == top
    ensures var p := Parent(sep, s); Trim(sep, p) == p && (p == top || Below(sep, top, p))
  {
    var k := LastStart(sep, s);
    TrimTwice(sep, s[..k]);
    TrimKeeps(sep, s[..k], |top|);
  }

  /** The first path, going up from s, whose text is no longer than that of top. */
  function Stop(sep: Separator, top: string, s: string): (p: string)
    ensures |p| <= |top|
    decreases |s|
  {
    if |s| <= |top| then s else Stop(sep, top, Parent(sep, s))
  }

  /** Where the text of s continues that of top, that is top itself. */
  lemma {:induction false} StopIsTop(sep: Separator, top: string, s: string)
    requires Below(sep, top, s) && Trim(sep, s) == s && Trim(sep, top) == top
    ensures Stop(sep, top, s) == top
    decreases |s|
  {
    ParentBelow(sep, top, s);
    if Parent(sep, s) != top {
      StopIsTop(sep, top, Parent(sep, s));
    }
  }

  // ---- Directories ----

  /** A directory, by whether its path is absolute and by its names. */
  datatype Dir = Dir(rooted: bool, names: seq<string>)

  function DirOf(sep: Separator, s: string): Dir {
    Dir(s != "" && sep(s[0]), Components(sep, s))
  }

  function Up(d: Dir): Dir
    requires d.names != []
  {
    Dir(d.rooted, d.names[..|d.names| - 1])
  }

  /** The root, the current directory and, with any directory, its parent. */
  ghost predicate Closed(dirs: set<Dir>) {
    && (forall b :: Dir(b, []) in dirs)
    && (forall d :: d in dirs && d.names != [] ==> Up(d) in dirs)
  }

  lemma {:induction false} AncestorsExist(dirs: set<Dir>, d: Dir, k: nat)
    requires Closed(dirs) && d in dirs && k <= |d.names|
    ensures Dir(d.rooted, d.names[..k]) in dirs
    decreases |d.names| - k
  {
    if k < |d.names| {
      AncestorsExist(dirs, d, k + 1);
      assert Up(Dir(d.rooted, d.names[..k + 1])) == Dir(d.rooted, d.names[..k]);
    } else {
      assert d.names[..k] == d.names;
    }
  }

  /** A path that is not empty once trimmed has a name, and its parent's path is that of its parent
      directory, or empty. */
  lemma {:induction false} ParentDir(sep: Separator, s: string)
    requires Trim(sep, s) == s && s != ""
    ensures var d, p := DirOf(sep, s), Parent(sep, s);
            d.names != [] && Trim(sep, p) == p && (if |d.names| == 1 then p == "" else DirOf(sep, p) == Up(d))
  {
    var p := Parent(sep, s);
    TrimTwice(sep, s[..LastStart(sep, s)]);
    assert Components(sep, s) == Components(sep, p) + [s[LastStart(sep, s)..]];
    assert p <= s;
  }

  /** The names of a path begin with those of the path it stops at. */
  lemma {:induction false} StopNames(sep: Separator, top: string, s: string)
    requires Trim(sep, s) == s && |s| > |top|
    ensures var a, b := Components(sep, Stop(sep, top, s)), Components(sep, s); a <= b && |a| < |b|
    decreases |s|
  {
    var p := Parent(sep, s);
    ParentDir(sep, s);
    if |p| > |top| {
      StopNames(sep, top, p);
    }
  }

  /** Where the parent of s exists, so does the directory it stops at. */
  lemma {:induction false} StopExists(sep: Separator, top: string, s: string, dirs: set<Dir>)
    requires Closed(dirs) && Trim(sep, s) == s && |s| > |top|
    requires DirOf(sep, s).names != [] && Up(DirOf(sep, s)) in dirs
    ensures DirOf(sep, Stop(sep, top, s)) in dirs
    decreases |s|
  {
    var p := Parent(sep, s);
    ParentDir(sep, s);
    if |p| > |top| {
      ParentDir(sep, p);
      StopExists(sep, top, p, dirs);
    }
  }

  /** Only directories strictly below from, down to sub, have been added. */
  ghost predicate AddedBetween(before: set<Dir>, after: set<Dir>, from: Dir, sub: Dir) {
    && before <= after
    && forall d :: d in after && d !in before ==>
         d.rooted == sub.rooted && from.names <= d.names <= sub.names && from.names != d.names
  }

  lemma {:induction false} AddedMore(before: set<Dir>, after: set<Dir>, from: Dir, sub: Dir)
    requires sub.names != [] && from.names <= sub.names && from.names != sub.names
    requires before == after || AddedBetween(before, after, from, Up(sub))
    ensures AddedBetween(before, after, from, sub) && AddedBetween(before, after + {sub}, from, sub)
  {}

  datatype MkdirResult = Created | AlreadyExists | ParentMissing | OtherError
  datatype Result = Success | TopLevelDirectoryNotFound | UnexpectedError

  /** The directory that must exist for anything to be made, the same for a path and its parent. */
  ghost function Base(sep: Separator, topLevelDir: string, subDir: string): Dir {
    DirOf(sep, Stop(sep, Trim(sep, topLevelDir), Trim(sep, subDir)))
  }

  lemma {:induction false} BaseOfParent(sep: Separator, topLevelDir: string, subDir: string)
    requires |Trim(sep, subDir)| > |Trim(sep, topLevelDir)|
    ensures var top, sub := Trim(sep, topLevelDir), Trim(sep, subDir);
            var p := Parent(sep, sub);
            && Trim(sep, top) == top && Trim(sep, sub) == sub && Trim(sep, p) == p && |p| < |subDir|
            && Base(sep, top, p) == Base(sep, topLevelDir, subDir)
            && (|p| <= |top| ==> Base(sep, topLevelDir, subDir) == DirOf(sep, p))
  {
    TrimTwice(sep, topLevelDir);
    TrimTwice(sep, subDir);
    ParentDir(sep, Trim(sep, subDir));
  }

  /** What holds of a path that is longer than the top-level directory. */
  lemma {:induction false} Position(sep: Separator, topLevelDir: string, subDir: string, dirs: set<Dir>)
    requires Closed(dirs) && |Trim(sep, subDir)| > |Trim(sep, topLevelDir)|
    ensures var base, d := Base(sep, topLevelDir, subDir), DirOf(sep, Trim(sep, subDir));
            && d.names != [] && base.names <= d.names && base.names != d.names
            && (Up(d) in dirs ==> base in dirs)
            && (Up(d) !in dirs ==> DirOf(sep, Parent(sep, Trim(sep, subDir))) == Up(d))
  {
    var top, sub := Trim(sep, topLevelDir), Trim(sep, subDir);
    var d := DirOf(sep, sub);
    TrimTwice(sep, subDir);
    ParentDir(sep, sub);
    StopNames(sep, top, sub);
    assert |d.names| == 1 ==> Up(d) == Dir(d.rooted, []);
    if Up(d) in dirs {
      StopExists(sep, top, sub, dirs);
    }
  }

  /** Some missing directory would be refused. */
  ghost predicate MayRefuse(refuses: Dir -> bool, dirs: set<Dir>) {
    exists d :: d !in dirs && refuses(d)
  }

  /** The top-level directory t is missing and subDir below it, but the directory it stops at exists. */
  ghost predicate SkipsTop(sep: Separator, dirs: set<Dir>, topLevelDir: string, subDir: string, t: Dir) {
    var d := DirOf(sep, Trim(sep, subDir));
    && Closed(dirs) && t !in dirs && Base(sep, topLevelDir, subDir) in dirs
    && |Trim(sep, subDir)| > |Trim(sep, topLevelDir)|
    && t == DirOf(sep, Trim(sep, topLevelDir)) && t.rooted == d.rooted && t.names <= d.names
  }

  class FileSystem {
    const sep: Separator
    const refuses: Dir -> bool // directories that cannot be made for some other reason
    var dirs: set<Dir>

    constructor (sep: Separator, refuses: Dir -> bool, dirs: set<Dir>)
      requires Closed(dirs)
      ensures this.sep == sep && this.refuses == refuses && this.dirs == dirs
    {
      this.sep, this.refuses, this.dirs := sep, refuses, dirs;
    }

    /** The operating system's mkdir. */
    method Mkdir(path: string) returns (r: MkdirResult)
      requires Closed(dirs) && Components(sep, path) != []
      modifies this
      ensures Closed(dirs)
      ensures var d := DirOf(sep, path);
              && (r == ParentMissing <==> Up(d) !in old(dirs))
              && (r == AlreadyExists ==> d in old(dirs))
              && (r == OtherError ==> MayRefuse(refuses, old(dirs)))
              && dirs == if r == Created then old(dirs) + {d} else old(dirs)
    {
      var d := DirOf(sep, path);
      if Up(d) !in dirs {
        return ParentMissing;
      }
      if d in dirs {
        return AlreadyExists;
      }
      if refuses(d) {
        return OtherError;
      }
      dirs := dirs + {d};
      return Created;
    }

    method TrimTrailingSeparator(s: string) returns (r: string)
      ensures r == Trim(sep, s)
    {
      var p := |s|;
      while p > 0 && sep(s[p - 1])
        invariant 0 <= p <= |s| && forall i :: p <= i < |s| ==> sep(s[i])
      {
        p := p - 1;
      }
      TrimIsLast(sep, s, p);
      return s[..p];
    }

    method GetParent(s: string) returns (r: string)
      ensures r == Parent(sep, s)
    {
      var t := TrimTrailingSeparator(s);
      var p := |t|;
      while p > 0 && !sep(t[p - 1])
        invariant 0 <= p <= |t| && forall i :: p <= i < |t| ==> !sep(t[i])
      {
        p := p - 1;
      }
      LastStartIs(sep, t, p);
      r := TrimTrailingSeparator(t[..p]);
    }

    /** For all inputs: refused without effect exactly if subDir is no longer than the top-level
        directory or the first directory above it that is not is missing; otherwise only directories
        strictly below that one are made, down to subDir, which on success exists. */
    method MkSubdirAll(topLevelDir: string, subDir: string) returns (r: Result)
      requires Closed(dirs)
      modifies this
      ensures Closed(dirs)
      ensures r == TopLevelDirectoryNotFound <==>
                |Trim(sep, subDir)| <= |Trim(sep, topLevelDir)| || Base(sep, topLevelDir, subDir) !in old(dirs)
      ensures r == TopLevelDirectoryNotFound ==> dirs == old(dirs)
      ensures AddedBetween(old(dirs), dirs, Base(sep, topLevelDir, subDir), DirOf(sep, Trim(sep, subDir)))
      ensures r == Success ==> DirOf(sep, Trim(sep, subDir)) in dirs
      ensures r == UnexpectedError ==> MayRefuse(refuses, old(dirs))
      decreases |subDir|, 1
    {
      var top := TrimTrailingSeparator(topLevelDir);
      var sub := TrimTrailingSeparator(subDir);
      if |sub| <= |top| {
        return TopLevelDirectoryNotFound;
      }
      ghost var base, d := Base(sep, topLevelDir, subDir), DirOf(sep, sub);
      Position(sep, topLevelDir, subDir, dirs);
      BaseOfParent(sep, topLevelDir, subDir);
      AddedMore(dirs, dirs, base, d);
      var err := Mkdir(sub);
      if err == ParentMissing {
        r := MkWithParent(top, sub, base, d);
      } else {
        r := if err == OtherError then UnexpectedError else Success;
      }
    }

    /** The case of a missing parent, which comes first. */
    method MkWithParent(top: string, sub: string, ghost base: Dir, ghost d: Dir) returns (r: Result)
      requires Closed(dirs) && d == DirOf(sep, sub) && d.names != []
      requires Trim(sep, top) == top && Trim(sep, sub) == sub && |sub| > |top|
      requires Up(d) !in dirs && base.names <= d.names && base.names != d.names
      requires var p := Parent(sep, sub);
               && Trim(sep, p) == p && |p| < |sub| && DirOf(sep, p) == Up(d)
               && base == if |p| <= |top| then Up(d) else Base(sep, top, p)
      modifies this
      ensures Closed(dirs)
      ensures r == TopLevelDirectoryNotFound <==> base !in old(dirs)
      ensures r == TopLevelDirectoryNotFound ==> dirs == old(dirs)
      ensures AddedBetween(old(dirs), dirs, base, d)
      ensures r == Success ==> d in dirs
      ensures r == UnexpectedError ==> MayRefuse(refuses, old(dirs))
      decreases |sub|, 0
    {
      var parent := GetParent(sub);
      r := MkSubdirAll(top, parent);
      AddedMore(old(dirs), dirs, base, d);
      if r == Success {
        var err := Mkdir(sub);
        r := if err == Created || err == AlreadyExists then Success else UnexpectedError;
      }
    }

    /** If the text of subDir continues that of the top-level directory, it is refused exactly if that
        directory is missing, and only directories strictly below it are ever made. */
    method MkBelowTop(topLevelDir: string, subDir: string) returns (r: Result)
      requires Closed(dirs) && Below(sep, Trim(sep, topLevelDir), Trim(sep, subDir))
      modifies this
      ensures Closed(dirs)
      ensures r == TopLevelDirectoryNotFound <==> DirOf(sep, Trim(sep, topLevelDir)) !in old(dirs)
      ensures r == TopLevelDirectoryNotFound ==> dirs == old(dirs)
      ensures AddedBetween(old(dirs), dirs, DirOf(sep, Trim(sep, topLevelDir)), DirOf(sep, Trim(sep, subDir)))
      ensures r == Success ==> DirOf(sep, Trim(sep, subDir)) in dirs
    {
      TrimTwice(sep, topLevelDir);
      TrimTwice(sep, subDir);
      StopIsTop(sep, Trim(sep, topLevelDir), Trim(sep, subDir));
      r := MkSubdirAll(topLevelDir, subDir);
    }

    /** But if the path stops at an existing directory above a missing top-level directory t, that is
        made again. */
    method RecreatesTop(topLevelDir: string, subDir: string, ghost t: Dir) returns (r: Result)
      requires SkipsTop(sep, dirs, topLevelDir, subDir, t) && forall d :: !refuses(d)
      modifies this
      ensures Closed(dirs) && r == Success && t in dirs
    {
      r := MkSubdirAll(topLevelDir, subDir);
      ghost var d := DirOf(sep, Trim(sep, subDir));
      AncestorsExist(dirs, d, |t.names|);
      assert d.names[..|t.names|] == t.names;
    }
  }

  predicate Name(sep: Separator, s: string) {
    s != "" && forall i :: 0 <= i < |s| ==> !sep(s[i])
  }

  lemma {:induction false} TrimSeparators(sep: Separator, s: string, seps: string)
    requires forall i :: 0 <= i < |seps| ==> sep(seps[i])
    ensures Trim(sep, s + seps) == Trim(sep, s)
    decreases |seps|
  {
    if seps == "" {
      assert s + seps == s;
    } else {
      var n := |seps| - 1;
      assert (s + seps)[..|s + seps| - 1] == s + seps[..n];
      TrimSeparators(sep, s, seps[..n]);
    }
  }

  lemma {:induction false} LastStartIs(sep: Separator, s: string, k: nat)
    requires k <= |s| && (k == 0 || sep(s[k - 1])) && forall i :: k <= i < |s| ==> !sep(s[i])
    ensures LastStart(sep, s) == k
  {}

  /** One more name, after any number of separators. */
  lemma {:induction false} ComponentsStep(sep: Separator, s: string, seps: string, name: string)
    requires seps != "" && (forall i :: 0 <= i < |seps| ==> sep(seps[i])) && Name(sep, name)
    ensures Components(sep, s + seps + name) == Components(sep, s) + [name]
  {
    var x, k := s + seps + name, |s| + |seps|;
    assert x[|x| - 1] == name[|name| - 1] && x[k - 1] == seps[|seps| - 1];
    LastStartIs(sep, x, k);
    assert x[..k] == s + seps && x[k..] == name;
    TrimSeparators(sep, s, seps);
    TrimTwice(sep, s);
    assert Components(sep, Trim(sep, s)) == Components(sep, s);
  }

  lemma {:induction false} ParentStep(sep: Separator, s: string, seps: string, name: string)
    requires Trim(sep, s) == s && seps != "" && (forall i :: 0 <= i < |seps| ==> sep(seps[i])) && Name(sep, name)
    ensures Trim(sep, s + seps + name) == s + seps + name && Parent(sep, s + seps + name) == s
  {
    var x, k := s + seps + name, |s| + |seps|;
    assert x[|x| - 1] == name[|name| - 1] && x[k - 1] == seps[|seps| - 1];
    LastStartIs(sep, x, k);
    assert x[..k] == s + seps;
    TrimSeparators(sep, s, seps);
  }

  /** A doubled separator is enough: s//x/y stops at s although s/x is the top-level directory. */
  lemma {:induction false} DoubledSeparator(sep: Separator, s: string, slash: char, x: string, y: string)
    requires Trim(sep, s) == s && sep(slash) && Name(sep, x) && Name(sep, y)
    ensures var top, mid := s + [slash] + x, s + [slash, slash] + x;
            var sub := mid + [slash] + y;
            && Trim(sep, top) == top && Trim(sep, sub) == sub && Base(sep, top, sub) == DirOf(sep, s)
            && DirOf(sep, top).names == DirOf(sep, s).names + [x]
            && DirOf(sep, sub).names == DirOf(sep, s).names + [x, y]
            && DirOf(sep, sub).rooted == DirOf(sep, top).rooted
  {
    var top, mid := s + [slash] + x, s + [slash, slash] + x;
    var sub := mid + [slash] + y;
    ParentStep(sep, s, [slash], x);
    ParentStep(sep, s, [slash, slash], x);
    ParentStep(sep, mid, [slash], y);
    ComponentsStep(sep, s, [slash], x);
    ComponentsStep(sep, s, [slash, slash], x);
    ComponentsStep(sep, mid, [slash], y);
    assert Stop(sep, top, mid) == s;
    assert top[0] == sub[0];
  }

  lemma {:induction false} OneName(sep: Separator, slash: char, a: string)
    requires sep(slash) && Name(sep, a)
    ensures Trim(sep, [slash] + a) == [slash] + a && DirOf(sep, [slash] + a) == Dir(true, [a])
  {
    ParentStep(sep, "", [slash], a);
    ComponentsStep(sep, "", [slash], a);
    assert "" + [slash] + a == [slash] + a;
  }

  lemma {:induction false} DoubledSeparatorSkips(sep: Separator, slash: char, a: string, b: string, c: string)
    requires sep(slash) && Name(sep, a) && Name(sep, b) && Name(sep, c)
    ensures var s := [slash] + a;
            SkipsTop(sep, {Dir(true, []), Dir(false, []), Dir(true, [a])}, s + [slash] + b,
                     s + [slash, slash] + b + [slash] + c, Dir(true, [a, b]))
  {
    OneName(sep, slash, a);
    DoubledSeparator(sep, [slash] + a, slash, b, c);
  }

  /** With only /a present, a request for /a//b/c below /a/b makes the missing /a/b again, for any names. */
  method RecreatedByDoubledSeparator(sep: Separator, slash: char, a: string, b: string, c: string)
    returns (top: string, sub: string, fs: FileSystem, r: Result)
    requires sep(slash) && Name(sep, a) && Name(sep, b) && Name(sep, c)
    ensures top == [slash] + a + [slash] + b && sub == [slash] + a + [slash, slash] + b + [slash] + c
    ensures r == Success && Dir(true, [a, b]) in fs.dirs
  {
    var before := {Dir(true, []), Dir(false, []), Dir(true, [a])};
    top, sub := [slash] + a + [slash] + b, [slash] + a + [slash, slash] + b + [slash] + c;
    DoubledSeparatorSkips(sep, slash, a, b, c);
    fs := new FileSystem(sep, _ => false, before);
    r := fs.RecreatesTop(top, sub, Dir(true, [a, b]));
  }

  method DoubledSeparatorWitness() returns (top: string, sub: string, fs: FileSystem, r: Result)
    ensures top == "/a/b" && sub == "/a//b/c" && r == Success && Dir(true, ["a", "b"]) in fs.dirs
  {
    top, sub, fs, r := RecreatedByDoubledSeparator(ch => ch == '/', '/', "a", "b", "c");
  }
}
