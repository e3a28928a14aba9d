/** The directory cache of cachefs as a value: a most-recent-first list of cached listings. */
module DirCacheSpec {
  import opened Wrappers

  type Entry = string

  datatype Item = Item(id: string, entries: seq<Entry>, expireAfter: int)

  /** headMoved says that the first item got there by a cache hit rather than by being loaded
      or by the removal of the item before it. */
  datatype Lru = Lru(items: seq<Item>, headMoved: bool)

  ghost predicate DistinctIds(items: seq<Item>) {
    forall i, j :: 0 <= i < j < |items| ==> items[i].id != items[j].id
  }

  function TotalEntries(items: seq<Item>): nat {
    if items == [] then 0 else TotalEntries(items[..|items| - 1]) + |items[|items| - 1].entries|
  }

  function IndexOf(items: seq<Item>, id: string): (k: nat)
    ensures k <= |items|
    ensures k < |items| ==> items[k].id == id
    ensures forall i :: 0 <= i < k ==> items[i].id != id
  {
    if items == [] then 0
    else if items[0].id == id then 0
    else 1 + IndexOf(items[1..], id)
  }

  function Without(items: seq<Item>, k: nat): seq<Item>
    requires k < |items|
  {
    items[..k] + items[k + 1..]
  }

  /** A lookup at a time: a hit moves the item to the front, an expired item is removed. */
  function Lookup(l: Lru, id: string, now: int): (Lru, Option<seq<Entry>>) {
    var k := IndexOf(l.items, id);
    if id == "" || k == |l.items| then (l, None)
    else
      var it := l.items[k];
      if now < it.expireAfter then
        (if k == 0 then l else Lru([it] + Without(l.items, k), true), Some(it.entries))
      else (Lru(Without(l.items, k), k != 0 && l.headMoved), None)
  }

  /** The lookup removes an expired first item that a hit had put there. */
  predicate ExpiresMovedHead(l: Lru, id: string, now: int) {
    id != "" && l.items != [] && l.items[0].id == id && l.items[0].expireAfter <= now && l.headMoved
  }

  predicate Fits(items: seq<Item>, maxDirectories: int, maxEntries: int) {
    TotalEntries(items) <= maxEntries && |items| <= maxDirectories
  }

  /** Drops items from the back until the rest fits. */
  function Trim(items: seq<Item>, maxDirectories: int, maxEntries: int): (r: seq<Item>)
    requires 0 <= maxDirectories && 0 <= maxEntries
    ensures r <= items && Fits(r, maxDirectories, maxEntries)
  {
    if Fits(items, maxDirectories, maxEntries) then items
    else Trim(items[..|items| - 1], maxDirectories, maxEntries)
  }

  lemma TrimStep(items: seq<Item>, maxDirectories: int, maxEntries: int)
    requires 0 <= maxDirectories && 0 <= maxEntries && !Fits(items, maxDirectories, maxEntries)
    ensures items != []
    ensures Trim(items, maxDirectories, maxEntries) == Trim(items[..|items| - 1], maxDirectories, maxEntries)
  {}

  /** What is kept is the longest prefix, in order of recency, that meets both limits. */
  lemma {:induction false} TrimIsLongest(items: seq<Item>, maxDirectories: int, maxEntries: int, n: nat)
    requires 0 <= maxDirectories && 0 <= maxEntries
    requires n <= |items| && Fits(items[..n], maxDirectories, maxEntries)
    ensures n <= |Trim(items, maxDirectories, maxEntries)|
    decreases |items|
  {
    if n == |items| {
      assert items[..n] == items;
    } else if !Fits(items, maxDirectories, maxEntries) {
      var init := items[..|items| - 1];
      assert init[..n] == items[..n];
      TrimIsLongest(init, maxDirectories, maxEntries, n);
    }
  }

  /** Shorter prefixes of a list that fits fit too, so "longest prefix" leaves no gap. */
  lemma {:induction false} FitsShorter(items: seq<Item>, maxDirectories: int, maxEntries: int, n: nat)
    requires Fits(items, maxDirectories, maxEntries) && n <= |items|
    ensures Fits(items[..n], maxDirectories, maxEntries)
    decreases |items|
  {
    if n < |items| {
      FitsShorter(items[..|items| - 1], maxDirectories, maxEntries, n);
      assert items[..|items| - 1][..n] == items[..n];
    } else {
      assert items[..n] == items;
    }
  }

  datatype Limits = Limits(maxDirectories: int, maxEntries: int)

  /** Adding a freshly loaded listing, unless it is too long to be cached at all. */
  function Insert(l: Lru, it: Item, lim: Limits): Lru
    requires 0 <= lim.maxDirectories
  {
    if |it.entries| > lim.maxEntries then l
    else Lru(Trim([it] + l.items, lim.maxDirectories, lim.maxEntries), false)
  }

  datatype Listing = Listed(entries: seq<Entry>) | LoadFailed

  function Wrap(raw: seq<Entry>, w: Entry -> Entry): (r: seq<Entry>)
    ensures |r| == |raw| && forall i :: 0 <= i < |raw| ==> r[i] == w(raw[i])
  {
    seq(|raw|, i requires 0 <= i < |raw| => w(raw[i]))
  }

  /** A request: the ID, what its loader would return, the wrapper, the time of the lookup, and
      the expiry time that a listing loaded by it gets. */
  datatype Request = Request(id: string, loaded: Option<seq<Entry>>, w: Entry -> Entry, now: int, expireAfter: int)

  /** getEntries: the cached listing, or the loaded one, which is returned unwrapped when it is cached. */
  function GetEntries(l: Lru, r: Request, lim: Limits): (Lru, Listing)
    requires 0 <= lim.maxDirectories
  {
    var (l', hit) := Lookup(l, r.id, r.now);
    if hit.Some? then (l', Listed(hit.value))
    else if r.loaded.None? then (l', LoadFailed)
    else
      var wrapped := Wrap(r.loaded.value, r.w);
      if |wrapped| > lim.maxEntries then (l', Listed(wrapped))
      else (Insert(l', Item(r.id, wrapped, r.expireAfter), lim), Listed(r.loaded.value))
  }

  // ---- Whole runs ----

  ghost function Run(rs: seq<Request>, lim: Limits): Lru
    requires 0 <= lim.maxDirectories
  {
    if rs == [] then Lru([], false)
    else var n := |rs| - 1; GetEntries(Run(rs[..n], lim), rs[n], lim).0
  }

  lemma {:induction false} RunNext(rs: seq<Request>, r: Request, lim: Limits)
    requires 0 <= lim.maxDirectories
    ensures Run(rs + [r], lim) == GetEntries(Run(rs, lim), r, lim).0
  {
    assert (rs + [r])[..|rs|] == rs;
  }

  /** Request n loaded its directory rather than finding it in the cache. */
  ghost predicate Loads(rs: seq<Request>, n: nat, lim: Limits)
    requires 0 <= lim.maxDirectories && n < |rs|
  {
    rs[n].loaded.Some? && Lookup(Run(rs[..n], lim), rs[n].id, rs[n].now).1 == None
  }

  /** n is the latest load of id in the run, and its listing was short enough to cache. */
  ghost predicate LatestLoad(rs: seq<Request>, id: string, n: nat, lim: Limits)
    requires 0 <= lim.maxDirectories
  {
    && n < |rs| && rs[n].id == id && Loads(rs, n, lim)
    && |rs[n].loaded.value| <= lim.maxEntries
    && forall m :: n < m < |rs| && rs[m].id == id ==> !Loads(rs, m, lim)
  }

  /** The item is what its latest load put into the cache. */
  ghost predicate FromLatestLoad(rs: seq<Request>, it: Item, lim: Limits)
    requires 0 <= lim.maxDirectories
  {
    exists n: nat ::
      && LatestLoad(rs, it.id, n, lim)
      && it.entries == Wrap(rs[n].loaded.value, rs[n].w) && it.expireAfter == rs[n].expireAfter
  }

  ghost predicate NonEmptyIds(rs: seq<Request>) {
    forall n :: 0 <= n < |rs| ==> rs[n].id != ""
  }

  /** Every item is from the latest load of its ID. */
  ghost predicate AllFromLoads(rs: seq<Request>, items: seq<Item>, lim: Limits)
    requires 0 <= lim.maxDirectories
  {
    forall it :: it in items ==> FromLatestLoad(rs, it, lim)
  }

  ghost predicate Unfolds(rs: seq<Request>, k: int) { true }

  /** No ID is cached twice and every item is from its latest load; carried around folded. */
  ghost predicate Good(rs: seq<Request>, l: Lru, lim: Limits)
    requires 0 <= lim.maxDirectories
  {
    forall k: int {:trigger Unfolds(rs, k)} :: Unfolds(rs, k) ==> DistinctIds(l.items) && AllFromLoads(rs, l.items, lim)
  }

  lemma UnfoldGood(rs: seq<Request>, l: Lru, lim: Limits)
    requires 0 <= lim.maxDirectories && Good(rs, l, lim)
    ensures DistinctIds(l.items) && AllFromLoads(rs, l.items, lim)
  {
    assert Unfolds(rs, 0);
  }

  lemma {:induction false} LookupDistinct(l: Lru, id: string, now: int)
    requires DistinctIds(l.items)
    ensures var (l', hit) := Lookup(l, id, now);
            && DistinctIds(l'.items)
            && (forall it :: it in l'.items ==> it in l.items)
            && (id != "" && hit == None ==> forall it :: it in l'.items ==> it.id != id)
  {}

  lemma {:induction false} DistinctCons(it: Item, items: seq<Item>)
    requires DistinctIds(items) && forall x :: x in items ==> x.id != it.id
    ensures DistinctIds([it] + items)
  {}

  lemma {:induction false} LoadsExtend(rs: seq<Request>, r: Request, n: nat, lim: Limits)
    requires 0 <= lim.maxDirectories && n < |rs|
    ensures Loads(rs + [r], n, lim) <==> Loads(rs, n, lim)
  {
    assert (rs + [r])[..n] == rs[..n];
  }

  lemma {:induction false} FromLoadKept(rs: seq<Request>, r: Request, it: Item, lim: Limits)
    requires 0 <= lim.maxDirectories && FromLatestLoad(rs, it, lim)
    requires r.id == it.id ==> !Loads(rs + [r], |rs|, lim)
    ensures FromLatestLoad(rs + [r], it, lim)
  {
    var n: nat :| LatestLoad(rs, it.id, n, lim)
                  && it.entries == Wrap(rs[n].loaded.value, rs[n].w) && it.expireAfter == rs[n].expireAfter;
    var rs' := rs + [r];
    forall m: nat | n <= m < |rs| ensures Loads(rs', m, lim) <==> Loads(rs, m, lim) {
      LoadsExtend(rs, r, m, lim);
    }
    assert LatestLoad(rs', it.id, n, lim);
  }

  lemma {:induction false} FromThisLoad(rs: seq<Request>, r: Request, lim: Limits)
    requires 0 <= lim.maxDirectories && Loads(rs + [r], |rs|, lim) && |r.loaded.value| <= lim.maxEntries
    ensures FromLatestLoad(rs + [r], Item(r.id, Wrap(r.loaded.value, r.w), r.expireAfter), lim)
  {}

  lemma {:induction false} KeptFromLoads(rs: seq<Request>, r: Request, items: seq<Item>, lim: Limits)
    requires 0 <= lim.maxDirectories && AllFromLoads(rs, items, lim)
    requires forall it :: it in items && it.id == r.id ==> !Loads(rs + [r], |rs|, lim)
    ensures AllFromLoads(rs + [r], items, lim)
  {
    forall it | it in items ensures FromLatestLoad(rs + [r], it, lim) {
      FromLoadKept(rs, r, it, lim);
    }
  }

  lemma {:induction false} StepGood(rs: seq<Request>, r: Request, lim: Limits)
    requires 0 <= lim.maxDirectories && r.id != "" && Good(rs, Run(rs, lim), lim)
    ensures Good(rs + [r], GetEntries(Run(rs, lim), r, lim).0, lim)
  {
    var l := Run(rs, lim);
    UnfoldGood(rs, l, lim);
    assert (rs + [r])[..|rs|] == rs;
    LookupDistinct(l, r.id, r.now);
    var (l', hit) := Lookup(l, r.id, r.now);
    KeptFromLoads(rs, r, l'.items, lim);
    if Loads(rs + [r], |rs|, lim) && |r.loaded.value| <= lim.maxEntries {
      FromThisLoad(rs, r, lim);
      var it := Item(r.id, Wrap(r.loaded.value, r.w), r.expireAfter);
      DistinctCons(it, l'.items);
      TrimmedGood([it] + l'.items, lim);
    }
  }

  lemma TrimmedGood(items: seq<Item>, lim: Limits)
    requires 0 <= lim.maxDirectories && 0 <= lim.maxEntries && DistinctIds(items)
    ensures var r := Trim(items, lim.maxDirectories, lim.maxEntries);
            DistinctIds(r) && forall it :: it in r ==> it in items
  {}

  lemma {:induction false} RunGood(rs: seq<Request>, lim: Limits)
    requires 0 <= lim.maxDirectories && NonEmptyIds(rs)
    ensures Good(rs, Run(rs, lim), lim)
    decreases |rs|
  {
    if rs != [] {
      var n := |rs| - 1;
      RunGood(rs[..n], lim);
      StepGood(rs[..n], rs[n], lim);
      assert rs[..n] + [rs[n]] == rs;
    }
  }

  /** In every run a hit returns the wrapped listing of the latest load of that ID, before it expires. */
  lemma {:induction false} HitIsLatestLoad(rs: seq<Request>, id: string, now: int, lim: Limits)
    requires 0 <= lim.maxDirectories && NonEmptyIds(rs)
    requires Lookup(Run(rs, lim), id, now).1.Some?
    ensures exists n: nat ::
              && LatestLoad(rs, id, n, lim) && now < rs[n].expireAfter
              && Lookup(Run(rs, lim), id, now).1.value == Wrap(rs[n].loaded.value, rs[n].w)
  {
    RunGood(rs, lim);
    var l := Run(rs, lim);
    UnfoldGood(rs, l, lim);
    var it := l.items[IndexOf(l.items, id)];
    assert FromLatestLoad(rs, it, lim);
    var n: nat :| LatestLoad(rs, it.id, n, lim)
                  && it.entries == Wrap(rs[n].loaded.value, rs[n].w) && it.expireAfter == rs[n].expireAfter;
    assert LatestLoad(rs, id, n, lim);
  }

  /** A lookup hits exactly what is cached under the ID and has not expired. */
  lemma {:induction false} HitIff(l: Lru, id: string, now: int)
    requires DistinctIds(l.items)
    ensures Lookup(l, id, now).1.Some? <==>
            id != "" && exists it :: it in l.items && it.id == id && now < it.expireAfter
  {
    var k := IndexOf(l.items, id);
    if it :| it in l.items && it.id == id {
      var i :| 0 <= i < |l.items| && l.items[i] == it;
      assert k == i;
    }
  }

  /** What request n is answered: what its loader returned, if it was called, which is wrapped only when
      it is too long to be cached; or else, before that expires, the wrapped listing of the latest
      load; and a failure only if the loader failed. */
  ghost predicate IsAnswer(rs: seq<Request>, n: nat, lim: Limits, a: Listing)
    requires 0 <= lim.maxDirectories && n < |rs|
  {
    if Loads(rs, n, lim) then
      var raw := rs[n].loaded.value;
      a.Listed? && |a.entries| == |raw| &&
      forall i :: 0 <= i < |raw| ==> a.entries[i] == if |raw| > lim.maxEntries then rs[n].w(raw[i]) else raw[i]
    else if a.Listed? then
      exists m: nat ::
        && LatestLoad(rs[..n], rs[n].id, m, lim) && rs[n].now < rs[m].expireAfter
        && a.entries == Wrap(rs[m].loaded.value, rs[m].w)
    else rs[n].loaded.None?
  }

  /** In every run each request is answered so. */
  lemma {:induction false} AnswerIs(rs: seq<Request>, n: nat, lim: Limits)
    requires 0 <= lim.maxDirectories && n < |rs| && NonEmptyIds(rs[..n])
    ensures IsAnswer(rs, n, lim, GetEntries(Run(rs[..n], lim), rs[n], lim).1)
  {
    var init, r := rs[..n], rs[n];
    if Lookup(Run(init, lim), r.id, r.now).1.Some? {
      HitIsLatestLoad(init, r.id, r.now, lim);
      var m: nat :| LatestLoad(init, r.id, m, lim) && r.now < init[m].expireAfter
                    && Lookup(Run(init, lim), r.id, r.now).1.value == Wrap(init[m].loaded.value, init[m].w);
      assert init[m] == rs[m];
    }
  }

  /** A listing that is loaded and short enough is cached, in front of all others. */
  lemma {:induction false} LoadedIsFirst(rs: seq<Request>, n: nat, lim: Limits)
    requires 1 <= lim.maxDirectories && n < |rs| && Loads(rs, n, lim) && |rs[n].loaded.value| <= lim.maxEntries
    ensures var items := Run(rs[..n + 1], lim).items;
            items != [] && items[0] == Item(rs[n].id, Wrap(rs[n].loaded.value, rs[n].w), rs[n].expireAfter)
  {
    var it := Item(rs[n].id, Wrap(rs[n].loaded.value, rs[n].w), rs[n].expireAfter);
    var items := [it] + Lookup(Run(rs[..n], lim), rs[n].id, rs[n].now).0.items;
    assert rs[..n + 1] == rs[..n] + [rs[n]];
    RunNext(rs[..n], rs[n], lim);
    TotalCons(it, []);
    assert items[..1] == [it] + [];
    TrimIsLongest(items, lim.maxDirectories, lim.maxEntries, 1);
  }

  /** So asking for it again before it expires gets the wrapped listing, whatever the loader would say. */
  lemma {:induction false} AskedAgain(rs: seq<Request>, n: nat, r: Request, lim: Limits)
    requires 1 <= lim.maxDirectories && n < |rs| && Loads(rs, n, lim) && |rs[n].loaded.value| <= lim.maxEntries
    requires r.id == rs[n].id != "" && r.now < rs[n].expireAfter
    ensures GetEntries(Run(rs[..n + 1], lim), r, lim).1 == Listed(Wrap(rs[n].loaded.value, rs[n].w))
  {
    LoadedIsFirst(rs, n, lim);
    assert IndexOf(Run(rs[..n + 1], lim).items, r.id) == 0;
  }

  // ---- Recency ----

  /** The number of the latest request for an ID. */
  ghost function LastUse(rs: seq<Request>, id: string): int {
    if rs == [] then -1
    else var n := |rs| - 1; if rs[n].id == id then n else LastUse(rs[..n], id)
  }

  /** The items are ordered by their latest request, the most recent first. */
  ghost predicate ByRecency(rs: seq<Request>, items: seq<Item>) {
    forall i, j :: 0 <= i < j < |items| ==> LastUse(rs, items[i].id) > LastUse(rs, items[j].id)
  }

  lemma {:induction false} LastUseBound(rs: seq<Request>, id: string)
    ensures LastUse(rs, id) < |rs|
  {
    if rs != [] {
      LastUseBound(rs[..|rs| - 1], id);
    }
  }

  lemma LastUseNext(rs: seq<Request>, r: Request, id: string)
    ensures LastUse(rs + [r], id) == if r.id == id then |rs| else LastUse(rs, id)
  {
    assert (rs + [r])[..|rs|] == rs;
  }

  /** Items that a request is not for keep their order, behind the one it is for. */
  lemma {:induction false} RecencyNext(rs: seq<Request>, r: Request, it: Item, items: seq<Item>)
    requires ByRecency(rs, items) && it.id == r.id && forall x :: x in items ==> x.id != r.id
    ensures ByRecency(rs + [r], items) && ByRecency(rs + [r], [it] + items)
  {
    LastUseNext(rs, r, it.id);
    forall i | 0 <= i < |items| ensures LastUse(rs + [r], items[i].id) == LastUse(rs, items[i].id) < |rs| {
      assert items[i] in items;
      LastUseNext(rs, r, items[i].id);
      LastUseBound(rs, items[i].id);
    }
  }

  lemma {:induction false} RecencyWithout(rs: seq<Request>, items: seq<Item>, k: nat)
    requires ByRecency(rs, items) && k < |items|
    ensures ByRecency(rs, Without(items, k)) && forall x :: x in Without(items, k) ==> x.id != items[k].id
  {
    var rest := Without(items, k);
    forall i | 0 <= i < |rest| ensures rest[i] == items[if i < k then i else i + 1] {}
  }

  lemma {:induction false} LookupByRecency(rs: seq<Request>, r: Request, l: Lru)
    requires ByRecency(rs, l.items) && r.id != ""
    ensures var (l', hit) := Lookup(l, r.id, r.now);
            if hit.Some? then ByRecency(rs + [r], l'.items)
            else ByRecency(rs, l'.items) && forall x :: x in l'.items ==> x.id != r.id
  {
    var k := IndexOf(l.items, r.id);
    if k < |l.items| {
      RecencyWithout(rs, l.items, k);
      RecencyNext(rs, r, l.items[k], Without(l.items, k));
      assert k == 0 ==> [l.items[0]] + Without(l.items, 0) == l.items;
    }
  }

  /** In every run the cached listings are in the order of their latest requests, so what eviction
      drops is always the least recently used. */
  lemma {:induction false} RunByRecency(rs: seq<Request>, lim: Limits)
    requires 0 <= lim.maxDirectories && NonEmptyIds(rs)
    ensures ByRecency(rs, Run(rs, lim).items)
    decreases |rs|
  {
    if rs != [] {
      var n := |rs| - 1;
      var init, r := rs[..n], rs[n];
      RunByRecency(init, lim);
      LookupByRecency(init, r, Run(init, lim));
      var l' := Lookup(Run(init, lim), r.id, r.now).0;
      assert init + [r] == rs;
      if Lookup(Run(init, lim), r.id, r.now).1.None? {
        var loaded := if r.loaded.Some? then Wrap(r.loaded.value, r.w) else [];
        RecencyNext(init, r, Item(r.id, loaded, r.expireAfter), l'.items);
      }
    }
  }

  // ---- Limits ----

  /** Both limits hold after every run. */
  lemma {:induction false} RunWithinLimits(rs: seq<Request>, lim: Limits)
    requires 0 <= lim.maxDirectories && 0 <= lim.maxEntries
    ensures Fits(Run(rs, lim).items, lim.maxDirectories, lim.maxEntries)
    decreases |rs|
  {
    if rs != [] {
      var n := |rs| - 1;
      RunWithinLimits(rs[..n], lim);
      LookupFits(Run(rs[..n], lim), rs[n].id, rs[n].now, lim);
    }
  }

  lemma {:induction false} LookupFits(l: Lru, id: string, now: int, lim: Limits)
    requires Fits(l.items, lim.maxDirectories, lim.maxEntries)
    ensures Fits(Lookup(l, id, now).0.items, lim.maxDirectories, lim.maxEntries)
  {
    var k := IndexOf(l.items, id);
    if k < |l.items| {
      TotalWithout(l.items, k);
      TotalCons(l.items[k], Without(l.items, k));
    }
  }

  lemma {:induction false} TotalAppend(a: seq<Item>, b: seq<Item>)
    ensures TotalEntries(a + b) == TotalEntries(a) + TotalEntries(b)
    decreases |b|
  {
    if b == [] {
      assert a + b == a;
    } else {
      var n := |b| - 1;
      assert (a + b)[..|a + b| - 1] == a + b[..n];
      TotalAppend(a, b[..n]);
    }
  }

  lemma {:induction false} TotalCons(it: Item, items: seq<Item>)
    ensures TotalEntries([it] + items) == |it.entries| + TotalEntries(items)
  {
    TotalAppend([it], items);
    assert [it][..0] == [];
  }

  lemma WithoutLast(items: seq<Item>)
    requires items != []
    ensures Without(items, |items| - 1) == items[..|items| - 1]
  {}

  lemma {:induction false} TotalWithout(items: seq<Item>, k: nat)
    requires k < |items|
    ensures TotalEntries(items) == TotalEntries(Without(items, k)) + |items[k].entries|
  {
    assert items == items[..k] + ([items[k]] + items[k + 1..]);
    TotalAppend(items[..k], [items[k]] + items[k + 1..]);
    TotalCons(items[k], items[k + 1..]);
    TotalAppend(items[..k], items[k + 1..]);
  }

  /** The ID is not cached and there is room for one more directory. */
  ghost predicate RoomFor(l: Lru, id: string, lim: Limits) {
    && id != "" && IndexOf(l.items, id) == |l.items|
    && Fits(l.items, lim.maxDirectories - 1, lim.maxEntries)
  }

  lemma {:induction false} RoomForTwo(it: Item, id: string, lim: Limits)
    requires it.id != "" && id != "" && it.id != id && it.entries == []
    requires 2 <= lim.maxDirectories && 0 <= lim.maxEntries
    ensures RoomFor(Lru([], false), it.id, lim) && RoomFor(Lru([it], false), id, lim)
  {
    TotalCons(it, []);
    assert [it] + [] == [it];
  }

  /** Loading an empty directory that is not cached puts it first. */
  lemma {:induction false} LoadEmpty(l: Lru, r: Request, lim: Limits)
    requires r.loaded == Some([]) && RoomFor(l, r.id, lim)
    ensures GetEntries(l, r, lim).0 == Lru([Item(r.id, [], r.expireAfter)] + l.items, false)
    ensures !ExpiresMovedHead(l, r.id, r.now)
  {
    assert Wrap([], r.w) == [];
    TotalCons(Item(r.id, [], r.expireAfter), l.items);
  }

  /** A hit on the second item of two. */
  lemma {:induction false} HitSecond(x: Item, y: Item, r: Request, lim: Limits)
    requires 0 <= lim.maxDirectories && x.id != r.id && y.id == r.id && r.id != "" && r.now < y.expireAfter
    ensures GetEntries(Lru([x, y], false), r, lim) == (Lru([y, x], true), Listed(y.entries))
  {
    var items := [x, y];
    assert IndexOf(items, r.id) == 1;
    assert [y] + Without(items, 1) == [y, x];
  }
}
