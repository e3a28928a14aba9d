/** Choosing, among range checkpoints of epochs, the chain from epoch 0 that reaches furthest. */
module EpochRange {

  /** A checkpoint covering epochs min to max, both inclusive. */
  datatype Range = Range(min: int, max: int, blobs: seq<string>)

  ghost predicate GoodRanges(rs: seq<Range>) {
    forall r :: r in rs ==> 0 <= r.min <= r.max
  }

  /** Ranges grouped by the epoch they start at, with a bound on where they end. */
  datatype Groups = Groups(byMin: map<int, seq<Range>>, bound: int)

  function At(g: Groups, start: int): seq<Range> {
    if start in g.byMin then g.byMin[start] else []
  }

  ghost predicate GoodGroup(rs: seq<Range>, start: int, bound: int) {
    forall r :: r in rs ==> 0 <= start == r.min <= r.max < bound
  }

  ghost predicate GoodGroups(g: Groups) {
    forall e :: e in g.byMin ==> GoodGroup(g.byMin[e], e, g.bound)
  }

  function Height(g: Groups, start: int): nat {
    if start < g.bound then g.bound - start else 0
  }

  /** The last epoch that a chain reaches; 0 for none. */
  function Reach(c: seq<Range>): int {
    if c == [] then 0 else c[|c| - 1].max
  }

  /** Reaching further is better, and then being shorter. */
  predicate Better(c: seq<Range>, d: seq<Range>) {
    Reach(c) > Reach(d) || (Reach(c) == Reach(d) && |c| < |d|)
  }

  ghost predicate AtLeastAsGood(c: seq<Range>, d: seq<Range>) {
    Reach(c) > Reach(d) || (Reach(c) == Reach(d) && |c| <= |d|)
  }

  /** The recursion without its memory: the best chain from an epoch. */
  ghost function Best(g: Groups, start: int): seq<Range>
    requires GoodGroups(g)
    decreases Height(g, start), 1, 0
  {
    Pick(g, start, |At(g, start)|)
  }

  /** The chain by the i-th range that starts at an epoch. */
  ghost function Combined(g: Groups, start: int, i: nat): seq<Range>
    requires GoodGroups(g) && i < |At(g, start)|
    decreases Height(g, start), 0, 0
  {
    var cp := At(g, start)[i];
    assert cp in At(g, start);
    [cp] + Best(g, cp.max + 1)
  }

  /** The best chain from an epoch by one of the first i ranges that start there. */
  ghost function Pick(g: Groups, start: int, i: nat): seq<Range>
    requires GoodGroups(g) && i <= |At(g, start)|
    decreases Height(g, start), 0, i
  {
    if i == 0 then []
    else
      var previous := Pick(g, start, i - 1);
      if Better(Combined(g, start, i - 1), previous) then Combined(g, start, i - 1) else previous
  }

  lemma PickNext(g: Groups, start: int, i: nat)
    requires GoodGroups(g) && i < |At(g, start)|
    ensures Pick(g, start, i + 1) ==
            if Better(Combined(g, start, i), Pick(g, start, i)) then Combined(g, start, i) else Pick(g, start, i)
  {}

  // ---- Chains, and why the recursion finds the best one ----

  /** A gap-free chain of ranges from an epoch. */
  ghost predicate IsChain(g: Groups, c: seq<Range>, start: int) {
    && (forall i :: 0 <= i < |c| ==> c[i] in At(g, c[i].min))
    && (c != [] ==> c[0].min == start)
    && (forall i :: 0 <= i < |c| - 1 ==> c[i + 1].min == c[i].max + 1)
  }

  lemma {:induction false} ChainReach(g: Groups, c: seq<Range>, start: int)
    requires GoodGroups(g) && IsChain(g, c, start) && c != []
    ensures start <= Reach(c)
    decreases |c|
  {
    assert c[|c| - 1] in At(g, c[|c| - 1].min);
    if |c| > 1 {
      var init := c[..|c| - 1];
      assert forall i :: 0 <= i < |init| ==> init[i] == c[i];
      ChainReach(g, init, start);
      assert init[|init| - 1] == c[|c| - 2];
    }
  }

  lemma {:induction false} ConsChain(g: Groups, cp: Range, c: seq<Range>)
    requires cp in At(g, cp.min) && IsChain(g, c, cp.max + 1)
    ensures IsChain(g, [cp] + c, cp.min)
    ensures Reach([cp] + c) == if c == [] then cp.max else Reach(c)
  {}

  ghost predicate Proper(g: Groups, c: seq<Range>, start: int) {
    IsChain(g, c, start) && (c != [] ==> Reach(c) > 0)
  }

  lemma {:induction false} BestIsProper(g: Groups, start: int)
    requires GoodGroups(g)
    ensures Proper(g, Best(g, start), start)
    decreases Height(g, start), 1, 0
  {
    PickIsProper(g, start, |At(g, start)|);
  }

  lemma {:induction false} CombinedIsChain(g: Groups, start: int, i: nat)
    requires GoodGroups(g) && i < |At(g, start)|
    ensures IsChain(g, Combined(g, start, i), start)
    ensures Reach(Combined(g, start, i)) >= At(g, start)[i].max
    ensures Best(g, At(g, start)[i].max + 1) != [] ==> Reach(Combined(g, start, i)) > At(g, start)[i].max
    decreases Height(g, start), 0, 0
  {
    var cp := At(g, start)[i];
    assert cp in At(g, start);
    BestIsProper(g, cp.max + 1);
    var rest := Best(g, cp.max + 1);
    ConsChain(g, cp, rest);
    if rest != [] {
      ChainReach(g, rest, cp.max + 1);
    }
  }

  lemma {:induction false} PickIsProper(g: Groups, start: int, i: nat)
    requires GoodGroups(g) && i <= |At(g, start)|
    ensures Proper(g, Pick(g, start, i), start)
    decreases Height(g, start), 0, i
  {
    if i > 0 {
      PickIsProper(g, start, i - 1);
      CombinedIsChain(g, start, i - 1);
    }
  }

  /** What is picked is at least as good as any of the chains compared. */
  lemma {:induction false} PickBeatsEach(g: Groups, start: int, i: nat, j: nat)
    requires GoodGroups(g) && j < i <= |At(g, start)|
    ensures AtLeastAsGood(Pick(g, start, i), Combined(g, start, j))
    decreases i
  {
    if j < i - 1 {
      PickBeatsEach(g, start, i - 1, j);
    }
  }

  /** Going on with the best chain after a first range is at least as good as going on with any. */
  lemma {:induction false} CombinedBeats(g: Groups, start: int, j: nat, rest: seq<Range>)
    requires GoodGroups(g) && j < |At(g, start)|
    requires var b := Best(g, At(g, start)[j].max + 1); AtLeastAsGood(b, rest)
    requires rest != [] ==> Reach(rest) > At(g, start)[j].max
    ensures AtLeastAsGood(Combined(g, start, j), [At(g, start)[j]] + rest)
  {
    CombinedIsChain(g, start, j);
    assert At(g, start)[j] in At(g, start);
  }

  lemma {:induction false} BestBeats(g: Groups, start: int, j: nat, rest: seq<Range>)
    requires GoodGroups(g) && j < |At(g, start)|
    requires AtLeastAsGood(Best(g, At(g, start)[j].max + 1), rest)
    requires rest != [] ==> Reach(rest) > At(g, start)[j].max
    ensures AtLeastAsGood(Best(g, start), [At(g, start)[j]] + rest)
  {
    CombinedBeats(g, start, j, rest);
    PickBeatsEach(g, start, |At(g, start)|, j);
  }

  lemma {:induction false} TailChain(g: Groups, c: seq<Range>, start: int)
    requires GoodGroups(g) && IsChain(g, c, start) && c != []
    ensures c[0] in At(g, start) && c[0].max >= 0
    ensures IsChain(g, c[1..], c[0].max + 1)
    ensures c[1..] != [] ==> Reach(c[1..]) > c[0].max
  {
    var rest := c[1..];
    assert c[0] in At(g, c[0].min);
    assert forall i :: 0 <= i < |rest| ==> rest[i] == c[i + 1];
    if rest != [] {
      ChainReach(g, rest, c[0].max + 1);
    }
  }

  /** The recursion is optimal: no chain from the epoch reaches further, and of those that reach as
      far none is shorter. Only a chain that ends at epoch 0 is not even considered. */
  lemma {:induction false} BestIsOptimal(g: Groups, start: int, c: seq<Range>)
    requires GoodGroups(g) && IsChain(g, c, start) && (c != [] ==> Reach(c) > 0)
    ensures AtLeastAsGood(Best(g, start), c)
    decreases |c|
  {
    if c == [] {
      BestIsProper(g, start);
    } else {
      var cp, rest := c[0], c[1..];
      TailChain(g, c, start);
      var j :| 0 <= j < |At(g, start)| && At(g, start)[j] == cp;
      BestIsOptimal(g, cp.max + 1, rest);
      BestBeats(g, start, j, rest);
      assert c == [cp] + rest;
    }
  }

  // ---- The code: grouping by start and remembering results ----

  /** One past the last epoch of all ranges. */
  ghost function Bound(rs: seq<Range>): (b: int)
    ensures forall r :: r in rs ==> r.max < b
  {
    if rs == [] then 0
    else
      var n := |rs| - 1;
      var b := Bound(rs[..n]);
      if rs[n].max < b then b else rs[n].max + 1
  }

  /** byMin groups rs by their start. */
  ghost predicate Grouped(rs: seq<Range>, byMin: map<int, seq<Range>>) {
    forall r :: r in rs <==> r.min in byMin && r in byMin[r.min]
  }

  ghost predicate OwnGroup(byMin: map<int, seq<Range>>) {
    forall e, r :: e in byMin && r in byMin[e] ==> r.min == e
  }

  ghost predicate Unfolds(memo: map<int, seq<Range>>, k: int) { true }

  /** What is remembered is what the recursion returns; carried around folded. */
  ghost predicate Remembers(g: Groups, memo: map<int, seq<Range>>)
    requires GoodGroups(g)
  {
    forall k: int {:trigger Unfolds(memo, k)} :: Unfolds(memo, k) ==> forall e :: e in memo ==> memo[e] == Best(g, e)
  }

  lemma RememberedBest(g: Groups, memo: map<int, seq<Range>>, e: int)
    requires GoodGroups(g) && Remembers(g, memo) && e in memo
    ensures memo[e] == Best(g, e)
  {
    assert Unfolds(memo, 0);
  }

  lemma RememberMore(g: Groups, memo: map<int, seq<Range>>, e: int)
    requires GoodGroups(g) && Remembers(g, memo)
    ensures Remembers(g, memo[e := Best(g, e)])
  {
    assert Unfolds(memo, 0);
  }

  class Finder {
    ghost const g: Groups
    const byMin: map<int, seq<Range>>
    var memo: map<int, seq<Range>>

    ghost predicate Valid()
      reads this
    {
      GoodGroups(g) && g.byMin == byMin && Remembers(g, memo)
    }

    constructor (byMin: map<int, seq<Range>>, ghost bound: int)
      requires GoodGroups(Groups(byMin, bound))
      ensures Valid() && g == Groups(byMin, bound)
    {
      this.byMin, this.g := byMin, Groups(byMin, bound);
      memo := map[];
    }

    /** With its memory the recursion returns what it returns without. */
    method StartingAt(start: int) returns (longestMetadata: seq<Range>)
      requires Valid()
      modifies this`memo
      ensures Valid() && longestMetadata == Best(g, start)
      ensures start in memo && old(memo).Keys <= memo.Keys
      decreases Height(g, start)
    {
      if start in memo {
        RememberedBest(g, memo, start);
        return memo[start];
      }
      var longest := 0;
      longestMetadata := [];
      var group := if start in byMin then byMin[start] else [];
      for i := 0 to |group|
        invariant Valid() && group == At(g, start) && old(memo).Keys <= memo.Keys
        invariant longestMetadata == Pick(g, start, i) && longest == Reach(longestMetadata)
      {
        var cp := group[i];
        assert cp in At(g, start);
        var rest := StartingAt(cp.max + 1);
        var combined := [cp] + rest;
        assert combined == Combined(g, start, i);
        PickNext(g, start, i);
        var max := combined[|combined| - 1].max;
        if max > longest || (max == longest && |combined| < |longestMetadata|) {
          longest := max;
          longestMetadata := combined;
        }
      }
      RememberMore(g, memo, start);
      memo := memo[start := longestMetadata];
    }
  }

  /** The grouping loop of findLongestRangeCheckpoint. */
  method GroupByMin(ranges: seq<Range>) returns (byMin: map<int, seq<Range>>)
    ensures Grouped(ranges, byMin) && OwnGroup(byMin)
  {
    byMin := map[];
    for i := 0 to |ranges|
      invariant Grouped(ranges[..i], byMin) && OwnGroup(byMin)
    {
      var r := ranges[i];
      assert ranges[..i + 1] == ranges[..i] + [r];
      byMin := byMin[r.min := (if r.min in byMin then byMin[r.min] else []) + [r]];
    }
    assert ranges[..|ranges|] == ranges;
  }

  /** A gap-free chain of the given ranges from epoch 0. */
  ghost predicate ChainOf(ranges: seq<Range>, c: seq<Range>) {
    && (forall i :: 0 <= i < |c| ==> c[i] in ranges)
    && (c != [] ==> c[0].min == 0)
    && (forall i :: 0 <= i < |c| - 1 ==> c[i + 1].min == c[i].max + 1)
  }

  lemma {:induction false} GroupedIsGood(ranges: seq<Range>, byMin: map<int, seq<Range>>)
    requires GoodRanges(ranges) && Grouped(ranges, byMin) && OwnGroup(byMin)
    ensures GoodGroups(Groups(byMin, Bound(ranges)))
  {
    forall e | e in byMin ensures GoodGroup(byMin[e], e, Bound(ranges)) {
      forall r | r in byMin[e] ensures r in ranges {
        assert r.min == e;
      }
    }
  }

  lemma {:induction false} SameChains(ranges: seq<Range>, byMin: map<int, seq<Range>>, bound: int, c: seq<Range>)
    requires Grouped(ranges, byMin)
    ensures ChainOf(ranges, c) <==> IsChain(Groups(byMin, bound), c, 0)
  {}

  /** findLongestRangeCheckpoint: a gap-free chain from epoch 0 that reaches furthest and, of those,
      has the fewest ranges; empty exactly when no chain gets past epoch 0. */
  method FindLongestRangeCheckpoint(ranges: seq<Range>) returns (r: seq<Range>)
    requires GoodRanges(ranges)
    ensures ChainOf(ranges, r)
    ensures forall c: seq<Range> :: ChainOf(ranges, c) && c != [] && c[|c| - 1].max > 0 ==>
              && r != []
              && (r[|r| - 1].max > c[|c| - 1].max || (r[|r| - 1].max == c[|c| - 1].max && |r| <= |c|))
    ensures r == [] <==> forall c: seq<Range> :: ChainOf(ranges, c) && c != [] ==> c[|c| - 1].max == 0
  {
    var byMin := GroupByMin(ranges);
    GroupedIsGood(ranges, byMin);
    ghost var g := Groups(byMin, Bound(ranges));
    var f := new Finder(byMin, Bound(ranges));
    r := f.StartingAt(0);
    BestIsProper(g, 0);
    SameChains(ranges, byMin, Bound(ranges), r);
    forall c | ChainOf(ranges, c) ensures 0 <= Reach(c) && (Reach(c) > 0 ==> AtLeastAsGood(r, c)) {
      SameChains(ranges, byMin, Bound(ranges), c);
      if c != [] {
        ChainReach(g, c, 0);
        if Reach(c) > 0 {
          BestIsOptimal(g, 0, c);
        }
      }
    }
  }
}
