/** ignorefs: which entries of a directory tree are hidden by ignore rules of policies and of dot
    files, from the root down to the directory at hand. */
module IgnoreRules {
  import opened Wrappers

  datatype Result<T> = Ok(value: T) | Err

  /** A compiled rule: whether its pattern hits a path, and whether it is negated (written with !). */
  datatype Rule = Rule(hits: (string, bool) -> bool, negated: bool)

  /** WildcardMatcher.Match: a negated matcher matches what its pattern does not hit. */
  predicate Match(m: Rule, path: string, isDir: bool) {
    m.hits(path, isDir) != m.negated
  }

  datatype Context = Context(
    parent: Option<Context>, dotIgnoreFiles: seq<string>, matchers: seq<Rule>, maxFileSize: int, oneFileSystem: bool)

  function TrimLeadingCurrentDir(dir: string): string {
    if dir == "." || (|dir| >= 2 && dir[..2] == "./") then dir[1..] else dir
  }

  /** The path of an entry from the top of the tree, which is called ".". */
  function PathOf(names: seq<string>): string {
    if names == [] then "." else PathOf(names[..|names| - 1]) + "/" + names[|names| - 1]
  }

  /** The text that rules are matched against: the same without the dot. */
  function MatchedText(names: seq<string>): string {
    if names == [] then "" else MatchedText(names[..|names| - 1]) + "/" + names[|names| - 1]
  }

  lemma {:induction false} TrimmedPath(names: seq<string>)
    ensures PathOf(names) == "." + MatchedText(names)
    ensures TrimLeadingCurrentDir(PathOf(names)) == MatchedText(names)
  {
    if names != [] {
      TrimmedPath(names[..|names| - 1]);
      TextStarts(names);
    }
  }

  /** Names that begin with a dot keep it. */
  lemma {:induction false} OthersUntrimmed(dir: string)
    requires dir != "." && !("./" <= dir)
    ensures TrimLeadingCurrentDir(dir) == dir
  {}

  lemma {:induction false} TextStarts(names: seq<string>)
    requires names != []
    ensures MatchedText(names) != "" && MatchedText(names)[0] == '/'
  {
    if |names| > 1 {
      TextStarts(names[..|names| - 1]);
    }
  }

  // ---- The decision by name ----

  /** All rules that apply, from the root's to the innermost. */
  function AllRules(c: Context): seq<Rule> {
    (if c.parent.Some? then AllRules(c.parent.value) else []) + c.matchers
  }

  /** Rule i hits and no later one does. */
  ghost predicate LastHit(rules: seq<Rule>, i: int, path: string, isDir: bool) {
    0 <= i < |rules| && rules[i].hits(path, isDir) && forall j :: i < j < |rules| ==> !rules[j].hits(path, isDir)
  }

  /** The last rule that hits decides; without one nothing is ignored. */
  ghost predicate Ignored(rules: seq<Rule>, path: string, isDir: bool) {
    exists i :: LastHit(rules, i, path, isDir) && !rules[i].negated
  }

  lemma {:induction false} IgnoredAppend(rules: seq<Rule>, m: Rule, path: string, isDir: bool)
    ensures Ignored(rules + [m], path, isDir) <==>
            if m.hits(path, isDir) then !m.negated else Ignored(rules, path, isDir)
  {
    var all := rules + [m];
    assert all[|rules|] == m;
    if m.hits(path, isDir) {
      assert LastHit(all, |rules|, path, isDir);
    } else {
      assert forall i :: 0 <= i < |rules| ==> all[i] == rules[i];
      forall i ensures LastHit(all, i, path, isDir) <==> LastHit(rules, i, path, isDir) {}
    }
  }

  lemma {:induction false} IgnoredNext(outer: seq<Rule>, ms: seq<Rule>, i: nat, path: string, isDir: bool)
    requires i < |ms|
    ensures Ignored(outer + ms[..i + 1], path, isDir) <==>
            if ms[i].hits(path, isDir) then !ms[i].negated else Ignored(outer + ms[..i], path, isDir)
  {
    assert outer + ms[..i + 1] == (outer + ms[..i]) + [ms[i]];
    IgnoredAppend(outer + ms[..i], ms[i], path, isDir);
  }

  /** shouldIncludeByName: consulting the parents first and then each matcher, but only those that
      could change the verdict, comes to "the last rule that hits decides". */
  method ShouldIncludeByName(c: Context, path: string, isDir: bool) returns (shown: bool)
    ensures shown <==> !Ignored(AllRules(c), TrimLeadingCurrentDir(path), isDir)
    decreases c
  {
    var trimmed := TrimLeadingCurrentDir(path);
    var shouldIgnore := false;
    if c.parent.Some? {
      var parentIncludes := ShouldIncludeByName(c.parent.value, path, isDir);
      shouldIgnore := !parentIncludes;
    }
    ghost var outer := if c.parent.Some? then AllRules(c.parent.value) else [];
    assert outer + c.matchers[..0] == outer;
    for i := 0 to |c.matchers|
      invariant shouldIgnore <==> Ignored(outer + c.matchers[..i], trimmed, isDir)
    {
      var m := c.matchers[i];
      IgnoredNext(outer, c.matchers, i, trimmed, isDir);
      if (!shouldIgnore && !m.negated) || (shouldIgnore && m.negated) {
        shouldIgnore := Match(m, trimmed, isDir);
      }
    }
    assert c.matchers[..|c.matchers|] == c.matchers;
    shown := !shouldIgnore;
  }

  // ---- Directories ----

  datatype Kind =
    | RegularFile(rules: Result<seq<Rule>>) // the rules it holds, if read as an ignore file
    | Directory
    | Symlink(target: Option<Kind>)
    | Other

  datatype Entry = Entry(name: string, kind: Kind, size: int, device: int)

  datatype FilesPolicy = FilesPolicy(
    dotIgnoreFiles: seq<string>, noParentDotIgnoreFiles: bool, noParentIgnoreRules: bool, maxFileSize: int,
    oneFileSystem: Option<bool>, ignoreRules: seq<Result<Rule>>)

  /** A wrapped directory; isCacheDir is what skipCacheDirectory finds, policy the one defined here. */
  datatype IgnoreDir = IgnoreDir(
    relativePath: string, parentContext: Context, policy: Option<FilesPolicy>, isCacheDir: bool, device: int,
      entries: seq<Entry>)

  ghost predicate DistinctNames(es: seq<Entry>) {
    forall i, j :: 0 <= i < j < |es| ==> es[i].name != es[j].name
  }

  /** The wrapped directory's own Child. */
  function Find(es: seq<Entry>, name: string): (r: Option<Entry>)
    ensures r.Some? ==> r.value in es && r.value.name == name
    ensures r.None? ==> forall e :: e in es ==> e.name != name
  {
    if es == [] then None else if es[0].name == name then Some(es[0]) else Find(es[1..], name)
  }

  // ---- Building the context of a directory ----

  /** The file that an entry is, directly or through a symbolic link. */
  function AsFile(k: Kind): Option<Result<seq<Rule>>> {
    match k
    case RegularFile(rules) => Some(rules)
    case Symlink(Some(RegularFile(rules))) => Some(rules)
    case _ => None
  }

  function FilesNamed(es: seq<Entry>, names: seq<string>): seq<Result<seq<Rule>>> {
    if names == [] then []
    else
      var n := |names| - 1;
      var found := Find(es, names[n]);
      FilesNamed(es, names[..n]) +
      if found.Some? && AsFile(found.value.kind).Some? then [AsFile(found.value.kind).value] else []
  }

  function DotFileNames(d: IgnoreDir): seq<string> {
    if d.policy.Some? then d.policy.value.dotIgnoreFiles else d.parentContext.dotIgnoreFiles
  }

  function Concat(parts: seq<Result<seq<Rule>>>): Result<seq<Rule>> {
    if parts == [] then Ok([])
    else
      var n := |parts| - 1;
      var init := Concat(parts[..n]);
      if init.Err? || parts[n].Err? then Err else Ok(init.value + parts[n].value)
  }

  function Single(rule: Result<Rule>): Result<seq<Rule>> {
    if rule.Err? then Err else Ok([rule.value])
  }

  function Singles(rules: seq<Result<Rule>>): (r: seq<Result<seq<Rule>>>)
    ensures |r| == |rules| && forall i :: 0 <= i < |r| ==> r[i] == Single(rules[i])
  {
    seq(|rules|, i requires 0 <= i < |rules| => Single(rules[i]))
  }

  /** The rules defined at a directory: its policy's and then its dot files'. */
  function OwnRules(d: IgnoreDir): Result<seq<Rule>> {
    var fromPolicy := if d.policy.Some? then Concat(Singles(d.policy.value.ignoreRules)) else Ok([]);
    var fromFiles := Concat(FilesNamed(d.entries, DotFileNames(d)));
    if fromPolicy.Err? || fromFiles.Err? then Err else Ok(fromPolicy.value + fromFiles.value)
  }

  lemma {:induction false} ConcatAppend(parts: seq<Result<seq<Rule>>>, part: Result<seq<Rule>>)
    ensures Concat(parts + [part]) ==
            if Concat(parts).Err? || part.Err? then Err else Ok(Concat(parts).value + part.value)
  {
    assert (parts + [part])[..|parts|] == parts;
  }

  lemma {:induction false} SinglesAre(rules: seq<Result<Rule>>)
    ensures var r := Concat(Singles(rules));
            && (r.Err? <==> exists i :: 0 <= i < |rules| && rules[i].Err?)
            && (r.Ok? ==> |r.value| == |rules| && forall i :: 0 <= i < |rules| ==> rules[i] == Ok(r.value[i]))
  {
    if rules != [] {
      var n := |rules| - 1;
      SinglesAre(rules[..n]);
      ConcatAppend(Singles(rules[..n]), Single(rules[n]));
      assert Singles(rules) == Singles(rules[..n]) + [Single(rules[n])];
    }
  }

  /** What the policy's rules decide, the dot files' rules can decide otherwise, not the reverse. */
  lemma {:induction false} PolicyThenFiles(d: IgnoreDir)
    requires OwnRules(d).Ok? && d.policy.Some?
    ensures var policy, own := d.policy.value.ignoreRules, OwnRules(d).value;
            && |policy| <= |own|
            && (forall i :: 0 <= i < |policy| ==> policy[i] == Ok(own[i]))
            && Concat(FilesNamed(d.entries, d.policy.value.dotIgnoreFiles)) == Ok(own[|policy|..])
  {
    SinglesAre(d.policy.value.ignoreRules);
  }

  /** An entry of that name is a file with that content, or a link to one. */
  ghost predicate HasFile(es: seq<Entry>, name: string, f: Result<seq<Rule>>) {
    exists e :: e in es && e.name == name && (e.kind == RegularFile(f) || e.kind == Symlink(Some(RegularFile(f))))
  }

  lemma {:induction false} FoundFile(es: seq<Entry>, name: string, f: Result<seq<Rule>>)
    requires DistinctNames(es)
    ensures HasFile(es, name, f) <==> Find(es, name).Some? && AsFile(Find(es, name).value.kind) == Some(f)
  {
    forall e | e in es && e.name == name ensures Find(es, name) == Some(e) {
      FindIs(es, e);
    }
  }

  /** The files that are read are those of the given names. */
  lemma {:induction false} FilesNamedHas(es: seq<Entry>, names: seq<string>, f: Result<seq<Rule>>)
    requires DistinctNames(es)
    ensures f in FilesNamed(es, names) <==> exists name :: name in names && HasFile(es, name, f)
  {
    if names != [] {
      var n := |names| - 1;
      FilesNamedHas(es, names[..n], f);
      FoundFile(es, names[n], f);
      assert forall name :: name in names <==> name in names[..n] || name == names[n];
    }
  }

  lemma {:induction false} FindIs(es: seq<Entry>, e: Entry)
    requires DistinctNames(es) && e in es
    ensures Find(es, e.name) == Some(e)
  {
    var found := Find(es, e.name).value;
    var i :| 0 <= i < |es| && es[i] == e;
    var j :| 0 <= j < |es| && es[j] == found;
  }

  /** They are read in the order of the names, and their rules keep that order. */
  lemma {:induction false} FilesInOrder(es: seq<Entry>, a: seq<string>, b: seq<string>)
    ensures FilesNamed(es, a + b) == FilesNamed(es, a) + FilesNamed(es, b)
    decreases |b|
  {
    if b == [] {
      assert a + b == a;
    } else {
      var n := |b| - 1;
      assert (a + b)[..|a + b| - 1] == a + b[..n];
      FilesInOrder(es, a, b[..n]);
    }
  }

  lemma {:induction false} RulesInOrder(a: seq<Result<seq<Rule>>>, b: seq<Result<seq<Rule>>>)
    ensures Concat(a + b) == if Concat(a).Err? || Concat(b).Err? then Err else Ok(Concat(a).value + Concat(b).value)
    decreases |b|
  {
    if b == [] {
      assert a + b == a && (Concat(a).Ok? ==> Concat(a).value + [] == Concat(a).value);
    } else {
      var n := |b| - 1;
      assert (a + b)[..|a + b| - 1] == a + b[..n];
      RulesInOrder(a, b[..n]);
      if Concat(a).Ok? && Concat(b).Ok? {
        var x, y := Concat(a).value, Concat(b[..n]).value;
        assert x + (y + b[n].value) == (x + y) + b[n].value;
      }
    }
  }

  /** Each element once, where it first occurs. */
  function Dedupe(xs: seq<string>): seq<string> {
    if xs == [] then []
    else
      var n := |xs| - 1;
      Dedupe(xs[..n]) + if xs[n] in xs[..n] then [] else [xs[n]]
  }

  ghost predicate NoRepeats(xs: seq<string>) {
    forall i, j :: 0 <= i < j < |xs| ==> xs[i] != xs[j]
  }

  lemma {:induction false} DedupeIs(xs: seq<string>)
    ensures NoRepeats(Dedupe(xs)) && forall x :: x in Dedupe(xs) <==> x in xs
  {
    if xs != [] {
      DedupeIs(xs[..|xs| - 1]);
      assert xs == xs[..|xs| - 1] + [xs[|xs| - 1]];
    }
  }

  /** The order is kept: what comes first stays in front, and a list without repetitions stays as it is. */
  lemma {:induction false} DedupeKeepsOrder(xs: seq<string>, ys: seq<string>)
    ensures Dedupe(xs) <= Dedupe(xs + ys)
    ensures NoRepeats(xs + ys) ==> Dedupe(xs + ys) == Dedupe(xs) + ys
    ensures (forall y :: y in ys ==> y in xs) ==> Dedupe(xs + ys) == Dedupe(xs)
    decreases |ys|
  {
    if ys == [] {
      assert xs + ys == xs;
    } else {
      var n := |ys| - 1;
      assert (xs + ys)[..|xs + ys| - 1] == xs + ys[..n];
      DedupeKeepsOrder(xs, ys[..n]);
      assert ys == ys[..n] + [ys[n]];
    }
  }

  lemma {:induction false} DedupeOwn(xs: seq<string>, ys: seq<string>)
    requires xs == ys || xs == []
    ensures Dedupe(xs + ys) == Dedupe(ys)
  {
    if xs == [] {
      assert xs + ys == ys;
    } else {
      DedupeKeepsOrder(ys, ys);
    }
  }

  method CombineAndDedupe(a: seq<string>, b: seq<string>) returns (r: seq<string>)
    ensures r == Dedupe(a + b)
  {
    r := [];
    var existing: set<string> := {};
    var all := a + b;
    for i := 0 to |all|
      invariant r == Dedupe(all[..i])
      invariant forall x :: x in existing <==> x in all[..i]
    {
      assert all[..i + 1][..i] == all[..i] && all[..i + 1] == all[..i] + [all[i]];
      if all[i] !in existing {
        existing := existing + {all[i]};
        r := r + [all[i]];
      }
    }
    assert all[..|all|] == all;
  }

  method FindDotFiles(d: IgnoreDir, names: seq<string>) returns (files: seq<Result<seq<Rule>>>)
    ensures files == FilesNamed(d.entries, names)
  {
    files := [];
    for i := 0 to |names|
      invariant files == FilesNamed(d.entries, names[..i])
    {
      assert names[..i + 1][..i] == names[..i];
      var e := Find(d.entries, names[i]);
      if e.Some? {
        var f := AsFile(e.value.kind);
        if f.Some? {
          files := files + [f.value];
        }
      }
    }
    assert names[..|names|] == names;
  }

  method AppendAll(matchers: seq<Rule>, parts: seq<Result<seq<Rule>>>) returns (r: Result<seq<Rule>>)
    ensures r == if Concat(parts).Err? then Err else Ok(matchers + Concat(parts).value)
  {
    var all := matchers;
    for i := 0 to |parts|
      invariant Concat(parts[..i]) != Err && all == matchers + Concat(parts[..i]).value
    {
      assert parts[..i + 1][..i] == parts[..i];
      if parts[i].Err? {
        ConcatErr(parts, i + 1);
        return Err;
      }
      all := all + parts[i].value;
    }
    assert parts[..|parts|] == parts;
    return Ok(all);
  }

  lemma {:induction false} ConcatErr(parts: seq<Result<seq<Rule>>>, i: nat)
    requires i <= |parts| && Concat(parts[..i]).Err?
    ensures Concat(parts).Err?
    decreases |parts|
  {
    if i < |parts| {
      assert parts[..|parts| - 1][..i] == parts[..i];
      ConcatErr(parts[..|parts| - 1], i);
    } else {
      assert parts[..i] == parts;
    }
  }

  /** overrideFromPolicy on a new context, whose rules are only the policy's. */
  method OverrideFromPolicy(ic0: Context, p: FilesPolicy) returns (r: Result<Context>)
    requires ic0.matchers == [] && ic0.dotIgnoreFiles == p.dotIgnoreFiles
    ensures r.Err? <==> Concat(Singles(p.ignoreRules)).Err?
    ensures r.Ok? ==>
              && r.value.parent == ic0.parent
              && r.value.matchers == Concat(Singles(p.ignoreRules)).value
              && r.value.maxFileSize == (if p.maxFileSize != 0 then p.maxFileSize else ic0.maxFileSize)
              && r.value.oneFileSystem == (p.oneFileSystem.Some? && p.oneFileSystem.value)
              && r.value.dotIgnoreFiles == Dedupe(p.dotIgnoreFiles)
  {
    var ic := ic0;
    if p.noParentDotIgnoreFiles {
      ic := ic.(dotIgnoreFiles := []);
    }
    if p.noParentIgnoreRules {
      ic := ic.(matchers := []);
    }
    DedupeOwn(ic.dotIgnoreFiles, p.dotIgnoreFiles);
    var dotFiles := CombineAndDedupe(ic.dotIgnoreFiles, p.dotIgnoreFiles);
    ic := ic.(dotIgnoreFiles := dotFiles);
    if p.maxFileSize != 0 {
      ic := ic.(maxFileSize := p.maxFileSize);
    }
    ic := ic.(oneFileSystem := p.oneFileSystem.Some? && p.oneFileSystem.value);
    var withPolicy := AppendAll(ic.matchers, Singles(p.ignoreRules));
    if withPolicy.Err? {
      return Err;
    }
    return Ok(ic.(matchers := withPolicy.value));
  }

  /** A context as buildContext makes it for a directory: the parent's rules and then the directory's
      own, and the limits of its policy where it has one. */
  ghost predicate IsContextFor(d: IgnoreDir, ic: Context) {
    && OwnRules(d).Ok?
    && AllRules(ic) == AllRules(d.parentContext) + OwnRules(d).value
    && match d.policy
       case None =>
         && ic.maxFileSize == d.parentContext.maxFileSize
         && ic.oneFileSystem == d.parentContext.oneFileSystem
         && ic.dotIgnoreFiles == d.parentContext.dotIgnoreFiles
       case Some(p) =>
         && ic.maxFileSize == (if p.maxFileSize != 0 then p.maxFileSize else d.parentContext.maxFileSize)
         && ic.oneFileSystem == (p.oneFileSystem.Some? && p.oneFileSystem.value)
         && ic.dotIgnoreFiles == Dedupe(p.dotIgnoreFiles)
  }

  /** Whether a policy asks for no rules or ignore files of its parents makes no difference. */
  lemma {:induction false} ParentsAlwaysApply(d: IgnoreDir, ic: Context, p: FilesPolicy, noFiles: bool, noRules: bool)
    requires d.policy == Some(p) && IsContextFor(d, ic)
    ensures var p' := p.(noParentDotIgnoreFiles := noFiles, noParentIgnoreRules := noRules);
            && IsContextFor(d.(policy := Some(p')), ic)
            && AllRules(d.parentContext) <= AllRules(ic)
  {}

  /** buildContext: the rules that apply in a directory are its parent's and then its own, also when
      the parent's context is used again because nothing is defined here. */
  method BuildContext(d: IgnoreDir) returns (r: Result<Context>)
    ensures r.Err? <==> OwnRules(d).Err?
    ensures r.Ok? ==> IsContextFor(d, r.value)
  {
    var names := d.parentContext.dotIgnoreFiles;
    if d.policy.Some? {
      names := d.policy.value.dotIgnoreFiles;
    }
    var files := FindDotFiles(d, names);
    if |files| == 0 && d.policy.None? {
      assert AllRules(d.parentContext) + [] == AllRules(d.parentContext);
      return Ok(d.parentContext);
    }
    var ic := Context(Some(d.parentContext), names, [], d.parentContext.maxFileSize, d.parentContext.oneFileSystem);
    if d.policy.Some? {
      var overridden := OverrideFromPolicy(ic, d.policy.value);
      if overridden.Err? {
        return Err;
      }
      ic := overridden.value;
    }
    var withFiles := AppendAll(ic.matchers, files);
    if withFiles.Err? {
      return Err;
    }
    return Ok(ic.(matchers := withFiles.value));
  }

  // ---- Listing and looking up ----

  /** What the caller sees of an entry: a directory comes wrapped with the context it was found in. */
  datatype Visible = Plain(entry: Entry) | Wrapped(path: string, context: Context, entry: Entry)

  ghost predicate Included(d: IgnoreDir, ic: Context, e: Entry) {
    && !Ignored(AllRules(ic), TrimLeadingCurrentDir(d.relativePath + "/" + e.name), e.kind.Directory?)
    && !(ic.maxFileSize > 0 && e.size > ic.maxFileSize)
    && (ic.oneFileSystem ==> e.device == d.device)
  }

  function View(d: IgnoreDir, ic: Context, e: Entry): Visible {
    if e.kind.Directory? then Wrapped(d.relativePath + "/" + e.name, ic, e) else Plain(e)
  }

  method MaybeWrappedChildEntry(d: IgnoreDir, ic: Context, e: Entry) returns (r: Option<Visible>)
    ensures Included(d, ic, e) <==> r.Some?
    ensures r.Some? ==> r.value == View(d, ic, e)
    ensures r.Some? <==>
              && !Ignored(AllRules(ic), TrimLeadingCurrentDir(d.relativePath + "/" + e.name), e.kind == Directory)
              && (ic.maxFileSize <= 0 || e.size <= ic.maxFileSize)
              && (!ic.oneFileSystem || e.device == d.device)
    ensures r.Some? ==>
              r.value == if e.kind == Directory then Wrapped(d.relativePath + "/" + e.name, ic, e) else Plain(e)
  {
    var byName := ShouldIncludeByName(ic, d.relativePath + "/" + e.name, e.kind.Directory?);
    if !byName {
      return None;
    }
    if ic.maxFileSize > 0 && e.size > ic.maxFileSize {
      return None;
    }
    if ic.oneFileSystem && e.device != d.device {
      return None;
    }
    return Some(View(d, ic, e));
  }

  ghost function Filter(es: seq<Entry>, keep: Entry -> bool): seq<Entry> {
    if es == [] then []
    else
      var n := |es| - 1;
      Filter(es[..n], keep) + if keep(es[n]) then [es[n]] else []
  }

  lemma {:induction false} FilterHas(es: seq<Entry>, keep: Entry -> bool, e: Entry)
    ensures e in Filter(es, keep) <==> e in es && keep(e)
  {
    if es != [] {
      FilterHas(es[..|es| - 1], keep, e);
    }
  }

  ghost function Views(d: IgnoreDir, ic: Context, es: seq<Entry>): (r: seq<Visible>)
    ensures |r| == |es| && forall i :: 0 <= i < |es| ==> r[i] == View(d, ic, es[i])
  {
    seq(|es|, i requires 0 <= i < |es| => View(d, ic, es[i]))
  }

  /** The order is kept. */
  lemma {:induction false} FilterInOrder(a: seq<Entry>, b: seq<Entry>, keep: Entry -> bool)
    ensures Filter(a + b, keep) == Filter(a, keep) + Filter(b, keep)
    decreases |b|
  {
    if b == [] {
      assert a + b == a;
    } else {
      var n := |b| - 1;
      assert (a + b)[..|a + b| - 1] == a + b[..n];
      FilterInOrder(a, b[..n], keep);
    }
  }

  /** The visible entries with their context: all included ones, in order, and nothing else. */
  ghost function VisibleEntries(d: IgnoreDir, ic: Context, es: seq<Entry>): seq<Visible> {
    Views(d, ic, Filter(es, e => Included(d, ic, e)))
  }

  lemma {:induction false} VisibleNext(d: IgnoreDir, ic: Context, es: seq<Entry>, i: nat)
    requires i < |es|
    ensures VisibleEntries(d, ic, es[..i + 1]) ==
            VisibleEntries(d, ic, es[..i]) + if Included(d, ic, es[i]) then [View(d, ic, es[i])] else []
  {
    assert es[..i + 1][..i] == es[..i];
  }

  method IterateEntries(d: IgnoreDir) returns (r: Result<seq<Visible>>, ghost ic: Context)
    ensures r.Err? <==> !d.isCacheDir && OwnRules(d).Err?
    ensures r.Ok? && d.isCacheDir ==> r.value == []
    ensures r.Ok? && !d.isCacheDir ==>
              IsContextFor(d, ic) && r.value == VisibleEntries(d, ic, d.entries)
  {
    ic := d.parentContext;
    if d.isCacheDir {
      return Ok([]), ic;
    }
    var built := BuildContext(d);
    if built.Err? {
      return Err, ic;
    }
    ic := built.value;
    var out := [];
    for i := 0 to |d.entries|
      invariant out == VisibleEntries(d, ic, d.entries[..i])
    {
      VisibleNext(d, ic, d.entries, i);
      var v := MaybeWrappedChildEntry(d, built.value, d.entries[i]);
      if v.Some? {
        out := out + [v.value];
      }
    }
    assert d.entries[..|d.entries|] == d.entries;
    return Ok(out), ic;
  }

  datatype Lookup = Present(v: Visible) | NotFound | Failed

  method Child(d: IgnoreDir, name: string) returns (r: Lookup, ghost ic: Context)
    ensures d.isCacheDir ==> r == NotFound
    ensures !d.isCacheDir && Find(d.entries, name).None? ==> r == NotFound
    ensures !d.isCacheDir && Find(d.entries, name).Some? ==> (r.Failed? <==> OwnRules(d).Err?)
    ensures !d.isCacheDir && Find(d.entries, name).Some? && OwnRules(d).Ok? ==>
              var e := Find(d.entries, name).value;
              && IsContextFor(d, ic)
              && r == if Included(d, ic, e) then Present(View(d, ic, e)) else NotFound
  {
    ic := d.parentContext;
    if d.isCacheDir {
      return NotFound, ic;
    }
    var e := Find(d.entries, name);
    if e.None? {
      return NotFound, ic;
    }
    var built := BuildContext(d);
    if built.Err? {
      return Failed, ic;
    }
    ic := built.value;
    var v := MaybeWrappedChildEntry(d, built.value, e.value);
    if v.None? {
      return NotFound, ic;
    }
    return Present(v.value), ic;
  }

  /** An entry of the listing, by its name. */
  ghost predicate ListedAs(vs: seq<Visible>, name: string) {
    exists v :: v in vs && v.entry.name == name
  }

  lemma {:induction false} VisibleIff(d: IgnoreDir, ic: Context, es: seq<Entry>, name: string)
    ensures ListedAs(VisibleEntries(d, ic, es), name) <==> exists e :: e in es && e.name == name && Included(d, ic, e)
  {
    var keep := e => Included(d, ic, e);
    var kept := Filter(es, keep);
    var vs := VisibleEntries(d, ic, es);
    if v :| v in vs && v.entry.name == name {
      var i :| 0 <= i < |vs| && vs[i] == v;
      FilterHas(es, keep, kept[i]);
    }
    if e :| e in es && e.name == name && Included(d, ic, e) {
      FilterHas(es, keep, e);
      var i :| 0 <= i < |kept| && kept[i] == e;
      assert vs[i].entry.name == name;
    }
  }

  /** Child finds a name exactly if the listing has it, whichever contexts the two were given. */
  lemma {:induction false} ChildIffListed(d: IgnoreDir, ic: Context, ic': Context, name: string)
    requires DistinctNames(d.entries) && IsContextFor(d, ic) && IsContextFor(d, ic')
    ensures ListedAs(VisibleEntries(d, ic, d.entries), name) <==>
            Find(d.entries, name).Some? && Included(d, ic', Find(d.entries, name).value)
  {
    VisibleIff(d, ic, d.entries, name);
    forall e, e' | e in d.entries && e' in d.entries && e.name == e'.name ensures e == e' {
      var i :| 0 <= i < |d.entries| && d.entries[i] == e;
      var j :| 0 <= j < |d.entries| && d.entries[j] == e';
    }
  }

  /** Using the parent's context where nothing is defined decides like an empty context of its own. */
  lemma {:induction false} ReuseIsEmptyChild(d: IgnoreDir, c: Context, e: Entry)
    ensures Included(d, Context(Some(c), c.dotIgnoreFiles, [], c.maxFileSize, c.oneFileSystem), e) <==>
              Included(d, c, e)
  {
    assert AllRules(c) + [] == AllRules(c);
  }
}
