/** Printing and parsing the names of snapshot sources, user@host:path. */
module SourceName {
  import opened Wrappers

  datatype SourceInfo = SourceInfo(host: string, userName: string, path: string)

  const GLOBAL := "(global)"

  /** SourceInfo.String */
  function Print(s: SourceInfo): string {
    if s.host == "" && s.path == "" && s.userName == "" then GLOBAL
    else if s.path == "" then s.userName + "@" + s.host
    else s.userName + "@" + s.host + ":" + s.path
  }

  /** strings.Index of a single character. */
  function Index(s: string, ch: char): (i: int)
    ensures -1 <= i < |s|
    ensures i == -1 ==> ch !in s
    ensures i >= 0 ==> s[i] == ch && forall j :: 0 <= j < i ==> s[j] != ch
  {
    if s == "" then -1
    else if s[0] == ch then 0
    else
      var i := Index(s[1..], ch);
      if i < 0 then -1 else i + 1
  }

  datatype ParseResult = Parsed(source: SourceInfo) | InvalidHostname | InvalidDirectory

  /** The user and host of the caller, and the file system's idea of absolute paths. */
  datatype Context = Context(hostname: string, username: string, abs: string -> Option<string>)

  /** What a name means whose first @ and : are at p1 and p2, or nowhere: user@host:path, user@host,
      @host, or else a local path. */
  function ParseAt(path: string, p1: int, p2: int, ctx: Context): ParseResult
    requires -1 <= p1 < |path| && -1 <= p2 < |path|
  {
    if p1 > 0 && p2 > 0 && p1 < p2 && p2 < |path| then
      Parsed(SourceInfo(path[p1 + 1..p2], path[..p1], path[p2 + 1..]))
    else if p1 >= 0 && p2 < 0 then
      if p1 + 1 < |path| then Parsed(SourceInfo(path[p1 + 1..], path[..p1], "")) else InvalidHostname
    else
      match ctx.abs(path)
      case None => InvalidDirectory
      case Some(p) => Parsed(SourceInfo(ctx.hostname, ctx.username, p))
  }

  /** ParseSourceInfo */
  function Parse(path: string, ctx: Context): ParseResult {
    if path == GLOBAL then Parsed(SourceInfo("", "", ""))
    else ParseAt(path, Index(path, '@'), Index(path, ':'), ctx)
  }

  /** The sources whose printed names mean the same everywhere. */
  predicate Portable(s: SourceInfo) {
    || s == SourceInfo("", "", "")
    || (&& '@' !in s.userName && ':' !in s.userName && ':' !in s.host
        && if s.path == "" then s.host != "" else s.userName != "")
  }

  /** The first occurrence of ch is right after a part that does not have it. */
  lemma IndexAfter(s: string, n: nat, ch: char)
    requires n < |s| && s[n] == ch && ch !in s[..n]
    ensures Index(s, ch) == n
  {}

  /** The parts of a name. */
  lemma {:induction false} NameParts(u: string, h: string, p: string)
    ensures var n := u + "@" + h + ":" + p;
            var i := |u| + 1 + |h|;
            && n[..|u|] == u && n[|u|] == '@' && n[|u| + 1..i] == h && n[i] == ':' && n[i + 1..] == p
            && n[..i] == u + "@" + h
    ensures var n := u + "@" + h; n[..|u|] == u && n[|u|] == '@' && n[|u| + 1..] == h
  {}

  lemma NotGlobal(n: string, i: nat)
    requires i < |n| && n[i] == '@'
    ensures n != GLOBAL
  {}

  /** Only the global source is printed as such; every other name has its user before an @. */
  lemma {:induction false} PrintedForm(s: SourceInfo)
    ensures Print(s) == "(global)" <==> s == SourceInfo("", "", "")
    ensures s != SourceInfo("", "", "") ==>
              |Print(s)| > |s.userName| && Print(s)[..|s.userName|] == s.userName && Print(s)[|s.userName|] == '@'
  {
    if s != SourceInfo("", "", "") {
      NameParts(s.userName, s.host, s.path);
      NotGlobal(Print(s), |s.userName|);
    }
  }

  lemma {:induction false} PathlessParses(u: string, h: string, ctx: Context)
    requires '@' !in u && ':' !in u && ':' !in h && h != ""
    ensures Parse(u + "@" + h, ctx) == Parsed(SourceInfo(h, u, ""))
  {
    var n := u + "@" + h;
    NameParts(u, h, "");
    IndexAfter(n, |u|, '@');
    assert ':' !in n;
    NotGlobal(n, |u|);
  }

  lemma {:induction false} FullParses(u: string, h: string, p: string, ctx: Context)
    requires '@' !in u && ':' !in u && ':' !in h && u != ""
    ensures Parse(u + "@" + h + ":" + p, ctx) == Parsed(SourceInfo(h, u, p))
  {
    var n := u + "@" + h + ":" + p;
    NameParts(u, h, p);
    IndexAfter(n, |u|, '@');
    assert ':' !in n[..|u| + 1 + |h|];
    IndexAfter(n, |u| + 1 + |h|, ':');
    NotGlobal(n, |u|);
  }

  /** A name without a host is read as one. */
  lemma {:induction false} HostlessParses(u: string, p: string, ctx: Context)
    requires '@' !in u && ':' !in u && u != ""
    ensures Parse(u + "@:" + p, ctx) == Parsed(SourceInfo("", u, p))
  {
    FullParses(u, "", p, ctx);
    assert u + "@" + "" + ":" + p == u + "@:" + p;
  }

  lemma {:induction false} PortableParses(s: SourceInfo, ctx: Context)
    requires Portable(s)
    ensures Parse(Print(s), ctx) == Parsed(s)
  {
    if s != SourceInfo("", "", "") {
      if s.path == "" {
        PathlessParses(s.userName, s.host, ctx);
      } else {
        FullParses(s.userName, s.host, s.path, ctx);
      }
    }
  }

  /** How long the parts of a parsed name are. */
  lemma {:induction false} ParsedLengths(n: string, p1: int, p2: int, s: SourceInfo, ctx: Context)
    requires -1 <= p1 < |n| && -1 <= p2 < |n| && ParseAt(n, p1, p2, ctx) == Parsed(s) && ctx.abs(n) == None
    ensures |s.userName| == p1
    ensures if p2 < 0 then 0 < |s.host| == |n| - p1 - 1
            else 0 < p1 && |s.host| == p2 - p1 - 1 && |s.path| == |n| - p2 - 1
  {}

  /** Any other name is a path of the caller: one without @, or with a : before it. */
  lemma {:induction false} LocalParses(path: string, ctx: Context)
    requires path != "(global)" && ('@' !in path || exists j :: 0 <= j < |path| && path[j] == ':' && '@' !in path[..j])
    ensures Parse(path, ctx) == match ctx.abs(path)
                                case None => InvalidDirectory
                                case Some(p) => Parsed(SourceInfo(ctx.hostname, ctx.username, p))
  {
    var p1, p2 := Index(path, '@'), Index(path, ':');
    if p1 >= 0 {
      var j :| 0 <= j < |path| && path[j] == ':' && '@' !in path[..j];
      assert 0 <= p2 <= j;
      assert forall i :: 0 <= i < j ==> path[i] == path[..j][i] != '@';
    }
  }

  lemma {:induction false} PathlessOnly(u: string, h: string, ctx: Context)
    requires Parse(u + "@" + h, ctx) == Parsed(SourceInfo(h, u, "")) && ctx.abs(u + "@" + h) == None
    ensures '@' !in u && ':' !in u && ':' !in h && h != ""
  {
    var n := u + "@" + h;
    NameParts(u, h, "");
    NotGlobal(n, |u|);
    ParsedLengths(n, Index(n, '@'), Index(n, ':'), SourceInfo(h, u, ""), ctx);
    assert forall j :: 0 <= j < |u| ==> n[j] == u[j];
    assert forall j :: 0 <= j < |h| ==> n[|u| + 1 + j] == h[j];
  }

  lemma {:induction false} FullOnly(u: string, h: string, p: string, ctx: Context)
    requires p != "" && Parse(u + "@" + h + ":" + p, ctx) == Parsed(SourceInfo(h, u, p)) &&
             ctx.abs(u + "@" + h + ":" + p) == None
    ensures '@' !in u && ':' !in u && ':' !in h && u != ""
  {
    var n := u + "@" + h + ":" + p;
    NameParts(u, h, p);
    NotGlobal(n, |u|);
    assert ':' in n;
    var p1, p2 := Index(n, '@'), Index(n, ':');
    assert n[..p1] == u;
    assert n[..p2] == u + "@" + h;
    assert forall j :: 0 <= j < p2 ==> n[..p2][j] == n[j];
  }

  /** Where no path can be made absolute, only portable names are parsed back. */
  lemma {:induction false} ParsedIsPortable(s: SourceInfo, ctx: Context)
    requires Parse(Print(s), ctx) == Parsed(s) && ctx.abs(Print(s)) == None
    ensures Portable(s)
  {
    if s != SourceInfo("", "", "") {
      if s.path == "" {
        PathlessOnly(s.userName, s.host, ctx);
      } else {
        FullOnly(s.userName, s.host, s.path, ctx);
      }
    }
  }

  /** Print and Parse round-trip in every context exactly for the portable sources. */
  lemma {:induction false} RoundTripIff(s: SourceInfo)
    ensures Portable(s) <==> forall ctx: Context :: Parse(Print(s), ctx) == Parsed(s)
  {
    if Portable(s) {
      forall ctx: Context ensures Parse(Print(s), ctx) == Parsed(s) {
        PortableParses(s, ctx);
      }
    } else {
      var nowhere := Context("", "", _ => None);
      if Parse(Print(s), nowhere) == Parsed(s) {
        ParsedIsPortable(s, nowhere);
      }
    }
  }

  /** So distinct portable sources have distinct names. */
  lemma {:induction false} PrintInjective(s: SourceInfo, t: SourceInfo)
    requires Portable(s) && Portable(t) && Print(s) == Print(t)
    ensures s == t
  {
    var nowhere := Context("", "", _ => None);
    PortableParses(s, nowhere);
    PortableParses(t, nowhere);
  }
}
