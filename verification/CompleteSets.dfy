/** Complete sets of blobs, recognised by names of the form <any>-s<set>-c<count>. */
module CompleteSets {
  import opened Wrappers

  datatype Metadata = Metadata(blobId: string, length: nat, timestamp: int)

  /** The set that a blob belongs to, and how many blobs make it complete. */
  datatype Membership = Membership(setId: string, count: int)

  // ---- Names ----

  /** strings.Split by a single character: always at least one part. */
  function Split(s: string, sep: char): (r: seq<string>)
    ensures |r| >= 1
  {
    if s == "" then [""]
    else
      var rest := Split(s[1..], sep);
      if s[0] == sep then [""] + rest else [[s[0]] + rest[0]] + rest[1..]
  }

  predicate IsDigit(ch: char) {
    '0' <= ch <= '9'
  }

  predicate AllDigits(s: string) {
    forall i :: 0 <= i < |s| ==> IsDigit(s[i])
  }

  function DigitsValue(s: string): nat
    requires AllDigits(s)
  {
    if s == "" then 0
    else
      assert IsDigit(s[|s| - 1]);
      10 * DigitsValue(s[..|s| - 1]) + (s[|s| - 1] - '0') as int
  }

  const MAX_INT := 0x7FFF_FFFF_FFFF_FFFF

  /** strconv.Atoi: an optional sign and digits, within 64 bits. */
  function Atoi(s: string): Option<int> {
    var digits := if s != "" && (s[0] == '-' || s[0] == '+') then s[1..] else s;
    if digits == "" || !AllDigits(digits) then None
    else
      var v: int := DigitsValue(digits);
      if s[0] == '-' then (if v <= MAX_INT + 1 then Some(-v) else None)
      else if v <= MAX_INT then Some(v) else None
  }

  /** The set named by a blob ID; none for malformed names. */
  function ParseName(id: string): Option<Membership> {
    var parts := Split(id, '-');
    if |parts| < 3 || parts[1] == "" || parts[1][0] != 's' || parts[2] == "" || parts[2][0] != 'c' then None
    else
      match Atoi(parts[2][1..])
      case None => None
      case Some(count) => Some(Membership(parts[1], count))
  }

  lemma {:induction false} SplitFirst(a: string, sep: char, b: string)
    requires sep !in a
    ensures Split(a + [sep] + b, sep) == [a] + Split(b, sep)
    decreases |a|
  {
    var s := a + [sep] + b;
    if a == "" {
      assert s[1..] == b;
    } else {
      assert s[1..] == a[1..] + [sep] + b;
      SplitFirst(a[1..], sep, b);
      assert [a[0]] + a[1..] == a;
    }
  }

  lemma {:induction false} SplitWhole(a: string, sep: char)
    requires sep !in a
    ensures Split(a, sep) == [a]
    decreases |a|
  {
    if a != "" {
      SplitWhole(a[1..], sep);
      assert [a[0]] + a[1..] == a;
    }
  }

  lemma {:induction false} AtoiDigits(digits: string)
    requires digits != "" && AllDigits(digits) && DigitsValue(digits) <= MAX_INT
    ensures Atoi(digits) == Some(DigitsValue(digits))
  {
    assert IsDigit(digits[0]);
  }

  /** A number in decimal notation. */
  function Decimal(n: nat): string {
    if n < 10 then [('0' as int + n) as char] else Decimal(n / 10) + [('0' as int + n % 10) as char]
  }

  lemma {:induction false} DecimalIsRead(n: nat)
    ensures Decimal(n) != "" && AllDigits(Decimal(n))
    ensures DigitsValue(Decimal(n)) == n
  {
    var d := Decimal(n);
    if n < 10 {
      assert d[..0] == "" && DigitsValue("") == 0;
    } else {
      DecimalIsRead(n / 10);
      assert d[..|d| - 1] == Decimal(n / 10);
    }
  }

  /** Every count that fits in 64 bits is read, with or without a sign, and none that does not. */
  lemma {:induction false} CountIsRead(digits: string)
    requires digits != "" && AllDigits(digits)
    ensures var v: int := DigitsValue(digits);
            && Atoi(digits) == (if v < 0x8000_0000_0000_0000 then Some(v) else None)
            && Atoi("+" + digits) == Atoi(digits)
            && Atoi("-" + digits) == (if v <= 0x8000_0000_0000_0000 then Some(-v) else None)
  {
    assert IsDigit(digits[0]);
    assert ("-" + digits)[1..] == digits && ("+" + digits)[1..] == digits;
  }

  /** Nothing else is read. */
  lemma {:induction false} CountsOnly(s: string) returns (digits: string)
    ensures Atoi(s).Some? ==>
              && (s == digits || s == "+" + digits || s == "-" + digits)
              && digits != "" && AllDigits(digits)
  {
    digits := if s != "" && (s[0] == '-' || s[0] == '+') then s[1..] else s;
  }

  /** The naming convention: <any>-s<set>-c<count>, possibly with more parts behind. */
  lemma {:induction false} NameConvention(any: string, s: string, digits: string, more: string)
    requires '-' !in any && '-' !in s && digits != ""
    requires AllDigits(digits) && DigitsValue(digits) <= MAX_INT
    ensures var id := any + ['-'] + (("s" + s) + ['-'] + ("c" + digits));
            && ParseName(id) == Some(Membership("s" + s, DigitsValue(digits)))
            && ParseName(id + ['-'] + more) == ParseName(id)
  {
    var set', count := "s" + s, "c" + digits;
    var id := any + ['-'] + (set' + ['-'] + count);
    assert '-' !in set' && '-' !in count;
    assert count[1..] == digits;
    AtoiDigits(digits);
    SplitFirst(any, '-', set' + ['-'] + count);
    SplitFirst(set', '-', count);
    SplitWhole(count, '-');
    assert id + ['-'] + more == any + ['-'] + (set' + ['-'] + (count + ['-'] + more));
    SplitFirst(any, '-', set' + ['-'] + (count + ['-'] + more));
    SplitFirst(set', '-', count + ['-'] + more);
    SplitFirst(count, '-', more);
  }

  function Join(parts: seq<string>, sep: char): string
    requires parts != []
  {
    if |parts| == 1 then parts[0] else parts[0] + [sep] + Join(parts[1..], sep)
  }

  /** Splitting loses nothing, and no part has a separator. */
  lemma {:induction false} SplitJoin(s: string, sep: char)
    ensures Join(Split(s, sep), sep) == s && forall i :: 0 <= i < |Split(s, sep)| ==> sep !in Split(s, sep)[i]
  {
    if s != "" {
      var rest := Split(s[1..], sep);
      SplitJoin(s[1..], sep);
      if s[0] == sep {
        assert Split(s, sep)[1..] == rest;
      } else {
        assert Split(s, sep)[1..] == rest[1..];
      }
      assert s == [s[0]] + s[1..];
    }
  }

  /** A name of the form <any>-s<set>-c<count>, alone or followed by a dash and more. */
  ghost predicate HasForm(id: string, any: string, s: string, count: string, more: string) {
    && '-' !in any && '-' !in s && '-' !in count
    && (|| id == any + ['-'] + (("s" + s) + ['-'] + ("c" + count))
        || id == any + ['-'] + (("s" + s) + ['-'] + (("c" + count) + ['-'] + more)))
  }

  /** Only names of that form are read, with the set and the count that they name. */
  lemma {:induction false} NamesOnly(id: string) returns (any: string, s: string, count: string, more: string)
    ensures ParseName(id).Some? ==>
              && HasForm(id, any, s, count, more)
              && ParseName(id).value.setId == "s" + s && Atoi(count) == Some(ParseName(id).value.count)
  {
    any, s, count, more := "", "", "", "";
    if ParseName(id).Some? {
      var parts := Split(id, '-');
      SplitJoin(id, '-');
      any, s, count := parts[0], parts[1][1..], parts[2][1..];
      assert parts[1] == "s" + s && parts[2] == "c" + count;
      assert Join(parts, '-') == parts[0] + ['-'] + Join(parts[1..], '-');
      assert Join(parts[1..], '-') == parts[1] + ['-'] + Join(parts[1..][1..], '-') && parts[1..][1..] == parts[2..];
      if |parts| > 3 {
        more := Join(parts[2..][1..], '-');
      }
    }
  }

  // ---- The specification, by positions in the input ----

  /** What the names of the blobs say. */
  type Kinds = seq<Option<Membership>>

  function KindsOf(bms: seq<Metadata>): (k: Kinds)
    ensures |k| == |bms| && forall i :: 0 <= i < |bms| ==> k[i] == ParseName(bms[i].blobId)
  {
    seq(|bms|, i requires 0 <= i < |bms| => ParseName(bms[i].blobId))
  }

  predicate InSet(k: Option<Membership>, s: string) {
    k.Some? && k.value.setId == s
  }

  /** The positions of a set's blobs, in input order. */
  function Members(ks: Kinds, s: string): (r: seq<nat>)
    ensures forall p :: p in r <==> 0 <= p < |ks| && InSet(ks[p], s)
  {
    if ks == [] then []
    else
      var n := |ks| - 1;
      Members(ks[..n], s) + if InSet(ks[n], s) then [n] else []
  }

  /** What the last blob of the input completes: itself if its name is malformed, or its set. */
  function Completed(ks: Kinds): seq<seq<nat>>
    requires ks != []
  {
    var n := |ks| - 1;
    match ks[n]
    case None => [[n]]
    case Some(m) =>
      if |Members(ks, m.setId)| == m.count then [Members(ks, m.setId)] else []
  }

  function AllSets(ks: Kinds): seq<seq<nat>> {
    if ks == [] then [] else AllSets(ks[..|ks| - 1]) + Completed(ks)
  }

  ghost predicate Below(ps: seq<nat>, n: nat) {
    forall i :: 0 <= i < |ps| ==> ps[i] < n
  }

  /** The blobs at given positions. */
  ghost predicate Selects(bms: seq<Metadata>, blobs: seq<Metadata>, ps: seq<nat>) {
    && Below(ps, |bms|)
    && |blobs| == |ps|
    && forall i :: 0 <= i < |ps| ==> blobs[i] == bms[ps[i]]
  }

  ghost predicate SelectsAll(bms: seq<Metadata>, sets: seq<seq<Metadata>>, ps: seq<seq<nat>>) {
    && |sets| == |ps|
    && forall i :: 0 <= i < |ps| ==> Selects(bms, sets[i], ps[i])
  }

  // ---- The code ----

  lemma {:induction false} KindsExtend(bms: seq<Metadata>, bm: Metadata)
    ensures KindsOf(bms + [bm]) == KindsOf(bms) + [ParseName(bm.blobId)]
  {}

  lemma {:induction false} MembersExtend(ks: Kinds, k: Option<Membership>, s: string)
    ensures Members(ks + [k], s) == Members(ks, s) + if InSet(k, s) then [|ks|] else []
  {}

  lemma {:induction false} SetsExtend(ks: Kinds, k: Option<Membership>)
    ensures AllSets(ks + [k]) == AllSets(ks) + Completed(ks + [k])
  {}

  lemma {:induction false} SelectsExtends(bms: seq<Metadata>, bm: Metadata, blobs: seq<Metadata>, ps: seq<nat>)
    requires Selects(bms, blobs, ps)
    ensures Selects(bms + [bm], blobs, ps) && Selects(bms + [bm], blobs + [bm], ps + [|bms|])
  {}

  lemma {:induction false} SelectsAllExtends(bms: seq<Metadata>, bm: Metadata, sets: seq<seq<Metadata>>,
                                             ps: seq<seq<nat>>)
    requires SelectsAll(bms, sets, ps)
    ensures SelectsAll(bms + [bm], sets, ps)
  {}

  lemma SelectsAllAppend(bms: seq<Metadata>, sets: seq<seq<Metadata>>, ps: seq<seq<nat>>, blobs: seq<Metadata>,
                         p: seq<nat>)
    requires SelectsAll(bms, sets, ps) && Selects(bms, blobs, p)
    ensures SelectsAll(bms, sets + [blobs], ps + [p])
  {}

  function Get(sets: map<string, seq<Metadata>>, s: string): seq<Metadata> {
    if s in sets then sets[s] else []
  }

  /** The sets under construction after a prefix of the input. */
  ghost predicate Partial(bms: seq<Metadata>, ks: Kinds, sets: map<string, seq<Metadata>>) {
    forall s :: Selects(bms, Get(sets, s), Members(ks, s))
  }

  ghost function AddTo(sets: map<string, seq<Metadata>>, k: Option<Membership>, bm: Metadata)
    : map<string, seq<Metadata>>
  {
    match k
    case None => sets
    case Some(m) => sets[m.setId := Get(sets, m.setId) + [bm]]
  }

  lemma {:induction false} PartialExtends(bms: seq<Metadata>, ks: Kinds, bm: Metadata, k: Option<Membership>,
                                          sets: map<string, seq<Metadata>>)
    requires Partial(bms, ks, sets) && |ks| == |bms|
    ensures Partial(bms + [bm], ks + [k], AddTo(sets, k, bm))
  {
    forall s ensures Selects(bms + [bm], Get(AddTo(sets, k, bm), s), Members(ks + [k], s)) {
      MembersExtend(ks, k, s);
      SelectsExtends(bms, bm, Get(sets, s), Members(ks, s));
    }
  }

  /** One more blob with a malformed name is a set by itself. */
  lemma {:induction false} StepMalformed(bms: seq<Metadata>, ks: Kinds, bm: Metadata, done: seq<seq<Metadata>>)
    requires SelectsAll(bms, done, AllSets(ks)) && |ks| == |bms|
    ensures SelectsAll(bms + [bm], done + [[bm]], AllSets(ks + [None]))
  {
    SetsExtend(ks, None);
    SelectsAllExtends(bms, bm, done, AllSets(ks));
    SelectsAllAppend(bms + [bm], done, AllSets(ks), [bm], [|ks|]);
  }

  /** One more blob of a set, where sets already includes it. */
  lemma {:induction false} StepMember(bms: seq<Metadata>, ks: Kinds, bm: Metadata, m: Membership,
                                      sets: map<string, seq<Metadata>>, done: seq<seq<Metadata>>)
    requires SelectsAll(bms, done, AllSets(ks)) && |ks| == |bms|
    requires Partial(bms + [bm], ks + [Some(m)], sets)
    ensures var blobs := Get(sets, m.setId);
            SelectsAll(bms + [bm], if |blobs| == m.count then done + [blobs] else done, AllSets(ks + [Some(m)]))
  {
    var ks', blobs := ks + [Some(m)], Get(sets, m.setId);
    SetsExtend(ks, Some(m));
    SelectsAllExtends(bms, bm, done, AllSets(ks));
    assert Selects(bms + [bm], blobs, Members(ks', m.setId));
    if |blobs| == m.count {
      SelectsAllAppend(bms + [bm], done, AllSets(ks), blobs, Members(ks', m.setId));
    }
  }

  /** FindAll returns the complete sets, in the order in which they become complete. */
  method FindAll(bms: seq<Metadata>) returns (completeSets: seq<seq<Metadata>>)
    ensures SelectsAll(bms, completeSets, AllSets(KindsOf(bms)))
  {
    var sets: map<string, seq<Metadata>> := map[];
    completeSets := [];
    ghost var ks: Kinds := [];
    for i := 0 to |bms|
      invariant ks == KindsOf(bms[..i])
      invariant SelectsAll(bms[..i], completeSets, AllSets(ks))
      invariant Partial(bms[..i], ks, sets)
    {
      var bm := bms[i];
      var k := ParseName(bm.blobId);
      assert bms[..i + 1] == bms[..i] + [bm];
      KindsExtend(bms[..i], bm);
      PartialExtends(bms[..i], ks, bm, k, sets);
      match k {
        case None =>
          StepMalformed(bms[..i], ks, bm, completeSets);
          completeSets := completeSets + [[bm]];
        case Some(m) =>
          sets := sets[m.setId := Get(sets, m.setId) + [bm]];
          StepMember(bms[..i], ks, bm, m, sets, completeSets);
          if |sets[m.setId]| == m.count {
            completeSets := completeSets + [sets[m.setId]];
          }
      }
      ks := ks + [k];
    }
    assert bms[..|bms|] == bms;
  }

  /** The first complete set, if any. */
  method FindFirst(bms: seq<Metadata>) returns (r: Option<seq<Metadata>>)
    ensures r.None? <==> AllSets(KindsOf(bms)) == []
    ensures r.Some? ==> Selects(bms, r.value, AllSets(KindsOf(bms))[0])
  {
    var sets := FindAll(bms);
    if |sets| == 0 {
      return None;
    }
    return Some(sets[0]);
  }

  lemma SelectsConcat(bms: seq<Metadata>, a: seq<Metadata>, p: seq<nat>, b: seq<Metadata>, q: seq<nat>)
    requires Selects(bms, a, p) && Selects(bms, b, q)
    ensures Selects(bms, a + b, p + q)
  {}

  function Flatten(ps: seq<seq<nat>>): seq<nat> {
    if ps == [] then [] else Flatten(ps[..|ps| - 1]) + ps[|ps| - 1]
  }

  /** All blobs of complete sets, one set after the other. */
  method ExcludeIncomplete(bms: seq<Metadata>) returns (result: seq<Metadata>)
    ensures Selects(bms, result, Flatten(AllSets(KindsOf(bms))))
  {
    var sets := FindAll(bms);
    ghost var ps := AllSets(KindsOf(bms));
    result := [];
    for i := 0 to |sets|
      invariant Selects(bms, result, Flatten(ps[..i]))
    {
      assert ps[..i + 1] == ps[..i] + [ps[i]];
      FlattenExtend(ps[..i], ps[i]);
      SelectsConcat(bms, result, Flatten(ps[..i]), sets[i], ps[i]);
      result := result + sets[i];
    }
    assert ps[..|sets|] == ps;
  }

  // ---- Listing more blobs ----

  /** More blobs only add sets at the end, so the first one stays. */
  lemma {:induction false} MoreBlobsKeepSets(ks: Kinds, more: Kinds)
    ensures AllSets(ks) <= AllSets(ks + more)
    decreases |more|
  {
    if more == [] {
      assert ks + more == ks;
    } else {
      var n := |more| - 1;
      MoreBlobsKeepSets(ks, more[..n]);
      assert (ks + more)[..|ks + more| - 1] == ks + more[..n];
    }
  }

  ghost predicate EmittedBy(ks: Kinds, e: seq<nat>, p: nat)
    requires p < |ks|
  {
    match ks[p]
    case None => e == [p]
    case Some(m) => 1 <= m.count <= |Members(ks, m.setId)| && e == Members(ks, m.setId)[..m.count]
  }

  /** A malformed blob by itself, or the first count members of a set, in input order. */
  ghost predicate IsEmitted(ks: Kinds, e: seq<nat>) {
    exists p: nat :: p < |ks| && EmittedBy(ks, e, p)
  }

  lemma {:induction false} EmittedExtends(ks: Kinds, k: Option<Membership>, e: seq<nat>)
    requires IsEmitted(ks, e)
    ensures IsEmitted(ks + [k], e)
  {
    var p: nat :| p < |ks| && EmittedBy(ks, e, p);
    assert (ks + [k])[p] == ks[p];
    if ks[p].Some? {
      MembersExtend(ks, k, ks[p].value.setId);
    }
    assert EmittedBy(ks + [k], e, p);
  }

  /** Every set returned is one of these. */
  lemma {:induction false} SetsAreFirstMembers(ks: Kinds, e: seq<nat>)
    requires e in AllSets(ks)
    ensures IsEmitted(ks, e)
  {
    var n := |ks| - 1;
    if e in AllSets(ks[..n]) {
      SetsAreFirstMembers(ks[..n], e);
      EmittedExtends(ks[..n], ks[n], e);
      assert ks[..n] + [ks[n]] == ks;
    } else {
      assert e in Completed(ks);
      if ks[n].Some? {
        assert n in Members(ks, ks[n].value.setId);
        assert e == Members(ks, ks[n].value.setId)[..ks[n].value.count];
      }
      assert EmittedBy(ks, e, n);
    }
  }

  // ---- What the result holds, and whether anything is there twice ----

  ghost predicate AllDistinct(ps: seq<nat>) {
    forall i, j :: 0 <= i < j < |ps| ==> ps[i] != ps[j]
  }

  lemma {:induction false} MembersIncrease(ks: Kinds, s: string)
    ensures AllDistinct(Members(ks, s)) && Below(Members(ks, s), |ks|)
  {
    if ks != [] {
      MembersIncrease(ks[..|ks| - 1], s);
    }
  }

  lemma {:induction false} FlattenExtend(ps: seq<seq<nat>>, more: seq<nat>)
    ensures Flatten(ps + [more]) == Flatten(ps) + more
  {}

  /** The blob makes its set as large as its name says. */
  ghost predicate Completes(ks: Kinds, q: nat)
    requires q < |ks|
  {
    ks[q].Some? && |Members(ks[..q + 1], ks[q].value.setId)| == ks[q].value.count
  }

  /** A blob with a malformed name, or one whose set is completed by it or by a later one. */
  ghost predicate InResult(ks: Kinds, p: nat)
    requires p < |ks|
  {
    ks[p].Some? ==>
      exists q: nat :: p <= q < |ks| && Completes(ks, q) && ks[q].value.setId == ks[p].value.setId
  }

  /** No set is completed twice. */
  ghost predicate CompletedOnce(ks: Kinds) {
    forall p: nat, q: nat :: p < q < |ks| && Completes(ks, p) && Completes(ks, q) ==>
      ks[p].value.setId != ks[q].value.setId
  }

  lemma {:induction false} CompletesBefore(ks: Kinds, n: nat, q: nat)
    requires q < n <= |ks|
    ensures Completes(ks[..n], q) <==> Completes(ks, q)
  {
    assert ks[..n][..q + 1] == ks[..q + 1];
  }

  /** The positions that the last blob completes, if any. */
  ghost function Last(ks: Kinds): seq<nat>
    requires ks != []
  {
    if Completed(ks) == [] then [] else Completed(ks)[0]
  }

  lemma {:induction false} ResultExtends(ks: Kinds)
    requires ks != []
    ensures Flatten(AllSets(ks)) == Flatten(AllSets(ks[..|ks| - 1])) + Last(ks)
  {
    var before := AllSets(ks[..|ks| - 1]);
    if Completed(ks) == [] {
      assert AllSets(ks) == before;
    } else {
      assert AllSets(ks) == before + [Last(ks)];
      FlattenExtend(before, Last(ks));
    }
  }

  lemma {:induction false} LastIs(ks: Kinds)
    requires ks != []
    ensures var n := |ks| - 1;
            && AllDistinct(Last(ks))
            && (ks[n].None? ==> Last(ks) == [n])
            && (ks[n].Some? && !Completes(ks, n) ==> Last(ks) == [])
            && (Completes(ks, n) ==> Last(ks) == Members(ks, ks[n].value.setId))
  {
    var n := |ks| - 1;
    assert ks[..n + 1] == ks;
    if ks[n].Some? {
      MembersIncrease(ks, ks[n].value.setId);
    }
  }

  lemma {:induction false} LastHas(ks: Kinds, p: nat)
    requires p < |ks|
    ensures var n := |ks| - 1;
            p in Last(ks) <==>
              if ks[p].None? then p == n else Completes(ks, n) && ks[n].value.setId == ks[p].value.setId
  {
    LastIs(ks);
  }

  /** A set was completed at p or later, not counting the last blob. */
  ghost predicate CompletedEarlier(ks: Kinds, p: nat)
    requires p < |ks| && ks[p].Some?
  {
    exists q: nat :: p <= q < |ks| - 1 && Completes(ks, q) && ks[q].value.setId == ks[p].value.setId
  }

  lemma {:induction false} EarlierIsBefore(ks: Kinds, p: nat)
    requires p < |ks| && ks[p].Some?
    ensures var n := |ks| - 1; CompletedEarlier(ks, p) <==> p < n && InResult(ks[..n], p)
  {
    var n := |ks| - 1;
    forall q: nat | q < n ensures Completes(ks[..n], q) <==> Completes(ks, q) {
      CompletesBefore(ks, n, q);
    }
  }

  /** How one more blob changes what is in the result. */
  lemma {:induction false} InResultStep(ks: Kinds, p: nat)
    requires p < |ks|
    ensures var n := |ks| - 1; InResult(ks, p) <==> (p < n && InResult(ks[..n], p)) || p in Last(ks)
  {
    LastHas(ks, p);
    if ks[p].Some? {
      EarlierIsBefore(ks, p);
    }
  }

  /** For all inputs: what is in the result. */
  lemma {:induction false} ResultExact(ks: Kinds)
    ensures forall p: nat :: p in Flatten(AllSets(ks)) <==> p < |ks| && InResult(ks, p)
  {
    if ks != [] {
      var n := |ks| - 1;
      ResultExact(ks[..n]);
      ResultExtends(ks);
      LastIs(ks);
      forall p: nat | p < |ks|
        ensures InResult(ks, p) <==> (p < n && InResult(ks[..n], p)) || p in Last(ks)
      {
        InResultStep(ks, p);
      }
    }
  }

  lemma {:induction false} DistinctAppend(a: seq<nat>, b: seq<nat>)
    ensures AllDistinct(a + b) <==> AllDistinct(a) && AllDistinct(b) && forall p :: p in b ==> p !in a
  {
    var c := a + b;
    if AllDistinct(c) {
      assert forall i :: 0 <= i < |a| ==> a[i] == c[i];
      forall i, j | 0 <= i < j < |b| ensures b[i] != b[j] {
        assert c[|a| + i] == b[i] && c[|a| + j] == b[j];
      }
      forall p | p in b ensures p !in a {
        var j :| 0 <= j < |b| && b[j] == p;
        assert c[|a| + j] == p;
      }
    } else if AllDistinct(a) && AllDistinct(b) {
      var i, j :| 0 <= i < j < |c| && c[i] == c[j];
      assert i < |a| <= j ==> c[j] in b && c[i] in a;
    }
  }

  /** If the last blob completes a set, no earlier one did. */
  ghost predicate FirstTime(ks: Kinds)
    requires ks != []
  {
    var n := |ks| - 1;
    Completes(ks, n) ==>
      forall q: nat :: q < n && Completes(ks[..n], q) ==> ks[q].value.setId != ks[n].value.setId
  }

  lemma {:induction false} OnceStep(ks: Kinds)
    requires ks != []
    ensures CompletedOnce(ks) <==> CompletedOnce(ks[..|ks| - 1]) && FirstTime(ks)
  {
    var n := |ks| - 1;
    forall q: nat | q < n ensures Completes(ks[..n], q) <==> Completes(ks, q) {
      CompletesBefore(ks, n, q);
    }
  }

  /** The last blob completes something that is already in the result exactly if its set was
      completed before. */
  lemma {:induction false} LastIsNew(ks: Kinds)
    requires ks != []
    ensures var n := |ks| - 1;
            (forall p :: p in Last(ks) ==> p !in Flatten(AllSets(ks[..n]))) <==> FirstTime(ks)
  {
    var n := |ks| - 1;
    var init := ks[..n];
    LastIs(ks);
    ResultExact(init);
    if Completes(ks, n) {
      var s := ks[n].value.setId;
      forall q: nat | q < n && Completes(init, q) && ks[q].value.setId == s
        ensures q in Last(ks) && q in Flatten(AllSets(init))
      {
        assert InResult(init, q);
      }
    }
  }

  /** For all inputs: no position is in the result twice exactly if no set is completed twice. */
  lemma {:induction false} DistinctExact(ks: Kinds)
    ensures AllDistinct(Flatten(AllSets(ks))) <==> CompletedOnce(ks)
  {
    if ks != [] {
      var init := ks[..|ks| - 1];
      DistinctExact(init);
      ResultExtends(ks);
      LastIs(ks);
      LastIsNew(ks);
      DistinctAppend(Flatten(AllSets(init)), Last(ks));
      OnceStep(ks);
    }
  }

  // ---- Sets whose blobs agree on the count ----

  ghost predicate CountsAgree(ks: Kinds) {
    forall i, j :: 0 <= i < |ks| && 0 <= j < |ks| && ks[i].Some? && ks[j].Some? &&
                   ks[i].value.setId == ks[j].value.setId ==>
      ks[i].value.count == ks[j].value.count
  }

  /** A blob is kept: its name is malformed, or its set is complete and it is one of the first
      count of its set. */
  ghost predicate Kept(ks: Kinds, p: nat)
    requires p < |ks|
  {
    ks[p].Some? ==>
      var m := ks[p].value;
      |Members(ks[..p], m.setId)| < m.count <= |Members(ks, m.setId)|
  }

  lemma {:induction false} MembersMonotone(ks: Kinds, n: nat, s: string)
    requires n <= |ks|
    ensures |Members(ks[..n], s)| <= |Members(ks, s)|
    ensures n < |ks| && InSet(ks[n], s) ==> |Members(ks[..n], s)| < |Members(ks, s)|
    decreases |ks|
  {
    if n == |ks| {
      assert ks[..n] == ks;
    } else {
      var init := ks[..|ks| - 1];
      assert init[..n] == ks[..n];
      MembersMonotone(init, n, s);
    }
  }

  lemma {:induction false} AgreeingOnce(ks: Kinds)
    requires CountsAgree(ks)
    ensures CompletedOnce(ks)
  {
    forall p: nat, q: nat | p < q < |ks| && Completes(ks, p) && Completes(ks, q)
      ensures ks[p].value.setId != ks[q].value.setId
    {
      var s := ks[q].value.setId;
      assert ks[..q + 1][..q] == ks[..q] && ks[..q][..p + 1] == ks[..p + 1];
      MembersMonotone(ks[..q + 1], q, s);
      MembersMonotone(ks[..q], p + 1, s);
    }
  }

  /** How one more blob changes what is kept. */
  lemma {:induction false} KeptStep(ks: Kinds, p: nat)
    requires CountsAgree(ks) && p < |ks|
    ensures var n := |ks| - 1; Kept(ks, p) <==> (p < n && Kept(ks[..n], p)) || p in Last(ks)
  {
    var n := |ks| - 1;
    var init := ks[..n];
    if p < n {
      assert init[..p] == ks[..p];
    }
    if ks[p].Some? {
      var m := ks[p].value;
      MembersMonotone(ks, p, m.setId);
      MembersMonotone(init, if p < n then p else n, m.setId);
      assert |Members(ks, m.setId)| == |Members(init, m.setId)| + if InSet(ks[n], m.setId) then 1 else 0;
    }
  }

  lemma {:induction false} KeptInResult(ks: Kinds, p: nat)
    requires CountsAgree(ks) && p < |ks|
    ensures Kept(ks, p) <==> InResult(ks, p)
  {
    KeptStep(ks, p);
    InResultStep(ks, p);
    if p < |ks| - 1 {
      KeptInResult(ks[..|ks| - 1], p);
    }
  }

  /** With agreeing counts a blob is in the result exactly if it is kept, and no position is there
      twice. */
  lemma {:induction false} ResultIsKept(ks: Kinds)
    requires CountsAgree(ks)
    ensures AllDistinct(Flatten(AllSets(ks)))
    ensures forall p: nat :: p in Flatten(AllSets(ks)) <==> p < |ks| && Kept(ks, p)
  {
    AgreeingOnce(ks);
    DistinctExact(ks);
    ResultExact(ks);
    forall p: nat | p < |ks| ensures Kept(ks, p) <==> InResult(ks, p) {
      KeptInResult(ks, p);
    }
  }

  lemma {:induction false} FirstOfTwo(s: string)
    ensures Members([Some(Membership(s, 1))], s) == [0] && AllSets([Some(Membership(s, 1))]) == [[0]]
  {}

  /** Without agreement a blob can be there twice: one that is a set by itself, and then part of
      a larger set of the same name. */
  lemma {:induction false} DisagreementDuplicates(s: string)
    ensures AllSets([Some(Membership(s, 1)), Some(Membership(s, 2))]) == [[0], [0, 1]]
  {
    var one, k := [Some(Membership(s, 1))], Some(Membership(s, 2));
    FirstOfTwo(s);
    MembersExtend(one, k, s);
    SetsExtend(one, k);
    assert one + [k] == [Some(Membership(s, 1)), Some(Membership(s, 2))];
    assert (one + [k])[1] == k && Members(one + [k], s) == [0, 1];
    assert Completed(one + [k]) == [[0, 1]];
  }
}
