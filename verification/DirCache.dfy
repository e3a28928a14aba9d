/** cachefs.Cache: a map of cached directory listings threaded on a doubly linked list in order of
    access. remove leaves the removed entry's own pointers alone and addToHead does not set the
    new head's prev, so the prev of the first entry can be left over from an earlier position. */
module DirCache {
  import opened Wrappers

  import opened DirCacheSpec

  class CacheEntry {
    const id: string
    const expireAfter: int
    const entries: seq<Entry>
    var prev: CacheEntry?
    var next: CacheEntry?

    constructor (id: string, entries: seq<Entry>, expireAfter: int)
      ensures this.id == id && this.entries == entries && this.expireAfter == expireAfter
      ensures prev == null && next == null
    {
      this.id, this.entries, this.expireAfter, prev, next := id, entries, expireAfter, null, null;
    }
  }

  function ItemOf(e: CacheEntry): Item {
    Item(e.id, e.entries, e.expireAfter)
  }

  ghost function Items(order: seq<CacheEntry>): (r: seq<Item>)
    ensures |r| == |order| && forall i :: 0 <= i < |r| ==> r[i] == ItemOf(order[i])
  {
    seq(|order|, i requires 0 <= i < |order| => ItemOf(order[i]))
  }

  ghost function Drop(order: seq<CacheEntry>, k: nat): seq<CacheEntry>
    requires k < |order|
  {
    order[..k] + order[k + 1..]
  }

  lemma ItemsCons(e: CacheEntry, order: seq<CacheEntry>)
    ensures Items([e] + order) == [ItemOf(e)] + Items(order)
  {}

  lemma ItemsDrop(order: seq<CacheEntry>, k: nat)
    requires k < |order|
    ensures Items(Drop(order, k)) == Without(Items(order), k)
  {}

  ghost predicate AllDistinct(order: seq<CacheEntry>) {
    forall i, j :: 0 <= i < j < |order| ==> order[i] != order[j]
  }

  /** data maps the ID of every entry in order, and nothing else, to that entry. */
  ghost predicate Indexes(data: map<string, CacheEntry>, order: seq<CacheEntry>) {
    && |data| == |order|
    && (forall i :: 0 <= i < |order| ==> order[i].id in data && data[order[i].id] == order[i])
    && (forall id :: id in data ==> data[id] in order && data[id].id == id)
  }

  lemma DropLacks(order: seq<CacheEntry>, k: nat)
    requires AllDistinct(order) && k < |order|
    ensures order[k] !in Drop(order, k) && (|order| > 1 ==> Drop(order, k) != [])
  {}

  lemma {:induction false} IndexesDrop(data: map<string, CacheEntry>, order: seq<CacheEntry>, k: nat)
    requires Indexes(data, order) && AllDistinct(order) && k < |order|
    ensures Indexes(data - {order[k].id}, Drop(order, k))
  {}

  lemma {:induction false} IndexesAdd(data: map<string, CacheEntry>, order: seq<CacheEntry>, e: CacheEntry)
    requires Indexes(data, order) && e.id !in data
    ensures Indexes(data[e.id := e], [e] + order)
  {}

  ghost predicate DataParts(data: map<string, CacheEntry>, order: seq<CacheEntry>, total: int) {
    Indexes(data, order) && total == TotalEntries(Items(order))
  }

  ghost predicate Unfolds(order: seq<CacheEntry>, k: int) { true }

  /** Map and total agree with order: DataParts, carried around folded. */
  ghost predicate DataOk(data: map<string, CacheEntry>, order: seq<CacheEntry>, total: int) {
    forall k: int {:trigger Unfolds(order, k)} :: Unfolds(order, k) ==> DataParts(data, order, total)
  }

  lemma UnfoldData(data: map<string, CacheEntry>, order: seq<CacheEntry>, total: int)
    requires DataOk(data, order, total)
    ensures DataParts(data, order, total)
  {
    assert Unfolds(order, 0);
  }

  /** In a valid cache a cached ID is the ID of one entry of the list. */
  lemma {:induction false} CachedAt(data: map<string, CacheEntry>, order: seq<CacheEntry>, total: int, id: string)
    returns (k: nat)
    requires DataOk(data, order, total) && AllDistinct(order)
    ensures id in data ==> k < |order| && order[k] == data[id] && order[k].id == id && IndexOf(Items(order), id) == k
    ensures id !in data ==> IndexOf(Items(order), id) == |order|
  {
    UnfoldData(data, order, total);
    k := IndexOf(Items(order), id);
    if id in data {
      var i :| 0 <= i < |order| && order[i] == data[id];
      assert Items(order)[i].id == id;
      assert order[k].id == id;
    }
  }

  lemma {:induction false} DataDrop(data: map<string, CacheEntry>, order: seq<CacheEntry>, total: int, k: nat)
    requires DataOk(data, order, total) && AllDistinct(order) && k < |order|
    ensures DataOk(data - {order[k].id}, Drop(order, k), total - |order[k].entries|)
  {
    UnfoldData(data, order, total);
    IndexesDrop(data, order, k);
    ItemsDrop(order, k);
    TotalWithout(Items(order), k);
  }

  lemma {:induction false} DataAdd(data: map<string, CacheEntry>, order: seq<CacheEntry>, total: int, e: CacheEntry)
    requires DataOk(data, order, total) && e.id !in data
    ensures DataOk(data[e.id := e], [e] + order, total + |e.entries|)
  {
    UnfoldData(data, order, total);
    IndexesAdd(data, order, e);
    ItemsCons(e, order);
    TotalCons(ItemOf(e), Items(order));
  }

  lemma {:induction false} DataMove(data: map<string, CacheEntry>, order: seq<CacheEntry>, total: int, k: nat)
    requires DataOk(data, order, total) && AllDistinct(order) && k < |order|
    ensures DataOk(data, [order[k]] + Drop(order, k), total)
  {
    var e := order[k];
    UnfoldData(data, order, total);
    DataDrop(data, order, total, k);
    DataAdd(data - {e.id}, Drop(order, k), total - |e.entries|, e);
    assert (data - {e.id})[e.id := e] == data;
  }

  lemma {:induction false} ItemsMove(order: seq<CacheEntry>, k: nat)
    requires k < |order|
    ensures Items([order[k]] + Drop(order, k)) == [ItemOf(order[k])] + Without(Items(order), k)
    ensures k == 0 ==> [order[k]] + Drop(order, k) == order
  {}

  /** order is distinct and its entries, and all they point at, are in repr. */
  ghost predicate NodesOk(order: seq<CacheEntry>, repr: set<CacheEntry>)
    reads repr
  {
    && AllDistinct(order)
    && (forall i :: 0 <= i < |order| ==> order[i] in repr)
    && (forall e {:trigger PointsInside(e, repr)} :: e in repr ==> PointsInside(e, repr))
  }

  ghost predicate PointsInside(e: CacheEntry, repr: set<CacheEntry>)
    reads e
  {
    (e.prev != null ==> e.prev in repr) && (e.next != null ==> e.next in repr)
  }

  /** The list from head to tail runs through order; nothing is said of the prev of its first entry. */
  ghost predicate Linked(order: seq<CacheEntry>, repr: set<CacheEntry>, head: CacheEntry?, tail: CacheEntry?)
    requires forall i :: 0 <= i < |order| ==> order[i] in repr
    reads repr
  {
    && (order == [] ==> head == null && tail == null)
    && (order != [] ==> head == order[0] && tail == order[|order| - 1])
    && (forall i {:trigger order[i].next} :: 0 <= i < |order| ==>
          order[i].next == if i + 1 < |order| then order[i + 1] else null)
    && (forall i {:trigger order[i].prev} :: 1 <= i < |order| ==> order[i].prev == order[i - 1])
  }

  /** NodesOk and Linked, carried around folded. */
  ghost predicate ListOk(order: seq<CacheEntry>, repr: set<CacheEntry>, head: CacheEntry?, tail: CacheEntry?)
    reads repr
  {
    forall k: int {:trigger Opens(order, k)} :: Opens(order, k) ==>
      NodesOk(order, repr) && Linked(order, repr, head, tail)
  }

  ghost predicate Opens(order: seq<CacheEntry>, k: int) { true }

  lemma ListFacts(order: seq<CacheEntry>, repr: set<CacheEntry>, head: CacheEntry?, tail: CacheEntry?)
    requires ListOk(order, repr, head, tail)
    ensures AllDistinct(order) && (order != [] ==> head == order[0] && tail == order[|order| - 1])
    ensures (head != null ==> order != []) && forall i :: 0 <= i < |order| ==> order[i] in repr
  {
    assert Opens(order, 0);
  }

  /** The list from head to tail runs through order but past its k-th entry. */
  ghost predicate LinkedPast(o: seq<CacheEntry>, k: nat, repr: set<CacheEntry>, head: CacheEntry?, tail: CacheEntry?)
    requires k < |o| && forall i :: 0 <= i < |o| ==> o[i] in repr
    reads repr
  {
    && (if |o| == 1 then head == null && tail == null
        else head == (if k == 0 then o[1] else o[0]) && tail == (if k == |o| - 1 then o[k - 1] else o[|o| - 1]))
    && (forall i {:trigger o[i].next} :: 0 <= i < |o| && i != k && i != k - 1 ==>
          o[i].next == if i + 1 < |o| then o[i + 1] else null)
    && (forall i {:trigger o[i].prev} :: 1 <= i < |o| && i != k && i != k + 1 ==> o[i].prev == o[i - 1])
    && (0 < k ==> o[k - 1].next == if k + 1 < |o| then o[k + 1] else null)
    && (0 < k < |o| - 1 ==> o[k + 1].prev == o[k - 1])
  }

  lemma {:induction false} PastIsDropped(o: seq<CacheEntry>, k: nat, repr: set<CacheEntry>, head: CacheEntry?,
                                         tail: CacheEntry?)
    requires k < |o| && NodesOk(o, repr) && LinkedPast(o, k, repr, head, tail)
    ensures ListOk(Drop(o, k), repr, head, tail)
  {}

  /** The pointers of a list at some moment. */
  datatype Links = Links(
    head: CacheEntry?, tail: CacheEntry?, next: map<CacheEntry, CacheEntry?>, prev: map<CacheEntry, CacheEntry?>)

  ghost function LinksOf(repr: set<CacheEntry>, head: CacheEntry?, tail: CacheEntry?): Links
    reads repr
  {
    Links(head, tail, map d | d in repr :: d.next, map d | d in repr :: d.prev)
  }

  ghost predicate Shows(l: Links, k: int) { true }

  ghost predicate LinkedParts(o: seq<CacheEntry>, repr: set<CacheEntry>, l: Links) {
    && AllDistinct(o) && l.next.Keys == repr && l.prev.Keys == repr
    && (forall i :: 0 <= i < |o| ==> o[i] in repr)
    && (o != [] ==> l.head == o[0] && l.tail == o[|o| - 1])
    && (forall i {:trigger l.next[o[i]]} :: 0 <= i < |o| ==>
          l.next[o[i]] == if i + 1 < |o| then o[i + 1] else null)
    && (forall i {:trigger l.prev[o[i]]} :: 1 <= i < |o| ==> l.prev[o[i]] == o[i - 1])
    && (forall e :: e in repr ==>
          (l.prev[e] != null ==> l.prev[e] in repr) && (l.next[e] != null ==> l.next[e] in repr))
  }

  /** The list ran through o; carried around folded. */
  ghost predicate LinkedThen(o: seq<CacheEntry>, repr: set<CacheEntry>, l: Links) {
    forall k: int {:trigger Shows(l, k)} :: Shows(l, k) ==> LinkedParts(o, repr, l)
  }

  lemma LinkedNow(o: seq<CacheEntry>, repr: set<CacheEntry>, head: CacheEntry?, tail: CacheEntry?)
    requires ListOk(o, repr, head, tail)
    ensures LinkedThen(o, repr, LinksOf(repr, head, tail))
  {
    assert Opens(o, 0);
    forall e | e in repr ensures PointsInside(e, repr) {}
  }

  lemma LinkedAt(o: seq<CacheEntry>, repr: set<CacheEntry>, l: Links, k: nat)
    requires LinkedThen(o, repr, l) && k < |o|
    ensures o[k] in repr && o[0] in repr && l.next.Keys == repr && l.prev.Keys == repr
    ensures (l.prev[o[k]] != null ==> l.prev[o[k]] in repr) && (l.next[o[k]] != null ==> l.next[o[k]] in repr)
    ensures l.head == o[0]
  {
    assert Shows(l, 0);
  }

  /** The pointers are those of before but for the neighbours of e, which skip it. */
  ghost predicate SkipParts(e: CacheEntry, repr: set<CacheEntry>, head: CacheEntry?, tail: CacheEntry?, l: Links)
    reads repr
  {
    && e in repr && l.next.Keys == repr && l.prev.Keys == repr
    && head == (if l.prev[e] == null then l.next[e] else l.head)
    && tail == (if l.next[e] == null then l.prev[e] else l.tail)
    && (forall d {:trigger d.next} :: d in repr ==> d.next == if d == l.prev[e] then l.next[e] else l.next[d])
    && (forall d {:trigger d.prev} :: d in repr ==> d.prev == if d == l.next[e] then l.prev[e] else l.prev[d])
  }

  ghost predicate Skips(e: CacheEntry, repr: set<CacheEntry>, head: CacheEntry?, tail: CacheEntry?, l: Links)
    reads repr
  {
    forall k: int {:trigger Shows(l, k)} :: Shows(l, k) ==> SkipParts(e, repr, head, tail, l)
  }

  lemma {:induction false} UnlinkedNodes(o: seq<CacheEntry>, k: nat, repr: set<CacheEntry>, head: CacheEntry?,
                                         tail: CacheEntry?, l: Links)
    requires LinkedParts(o, repr, l) && k < |o| && SkipParts(o[k], repr, head, tail, l)
    ensures NodesOk(o, repr) && o[k].prev == l.prev[o[k]]
    ensures 0 < k ==> o[k].prev != null && o[0].prev == l.prev[o[0]]
    ensures k == 0 && |o| > 1 ==> o[1].prev == l.prev[o[0]]
  {
    assert l.next[o[k]] != o[k];
    assert forall i {:trigger o[i]} :: 0 <= i < |o| ==> l.next[o[i]] == if i + 1 < |o| then o[i + 1] else null;
  }

  /** Skipping the k-th entry takes it out of the list, unless it is a first one with a left-over prev. */
  lemma {:induction false} Unlinked(o: seq<CacheEntry>, k: nat, repr: set<CacheEntry>, head: CacheEntry?,
                                    tail: CacheEntry?, l: Links)
    requires LinkedThen(o, repr, l) && k < |o| && Skips(o[k], repr, head, tail, l)
    ensures o[k] in repr && o[0] in repr && l.prev.Keys == repr && o[k].prev == l.prev[o[k]]
    ensures !(k == 0 && l.prev[o[k]] != null) ==> ListOk(Drop(o, k), repr, head, tail)
    ensures 0 < k ==> o[k].prev != null && o[0].prev == l.prev[o[0]]
    ensures k == 0 && |o| > 1 ==> o[1] in repr && o[1].prev == l.prev[o[0]]
    ensures k == 0 && l.prev[o[0]] != null ==> head == o[0]
  {
    assert Shows(l, 0);
    UnlinkedNodes(o, k, repr, head, tail, l);
    assert 0 < k ==> l.prev[o[k]] == o[k - 1];
    if !(k == 0 && l.prev[o[k]] != null) {
      PastIsDropped(o, k, repr, head, tail);
    }
  }

  /** The first entry's prev is left over. */
  ghost predicate Moved(order: seq<CacheEntry>, repr: set<CacheEntry>)
    reads repr
  {
    order != [] && order[0] in repr && order[0].prev != null
  }

  method WrapAll(raw: seq<Entry>, w: Entry -> Entry) returns (wrapped: seq<Entry>)
    ensures wrapped == Wrap(raw, w)
  {
    wrapped := [];
    for i := 0 to |raw|
      invariant |wrapped| == i && forall j :: 0 <= j < i ==> wrapped[j] == w(raw[j])
    {
      wrapped := wrapped + [w(raw[i])];
    }
  }

  class Cache {
    const maxDirectories: int
    const maxDirectoryEntries: int

    var totalDirectoryEntries: int
    var data: map<string, CacheEntry>
    var head: CacheEntry?
    var tail: CacheEntry?

    ghost var order: seq<CacheEntry> // most recent first
    ghost var Repr: set<CacheEntry>  // every entry made, whether still cached or not
    ghost var history: seq<Request>  // the requests so far

    ghost predicate ValidList()
      reads this`order, this`Repr, this`head, this`tail, Repr
    {
      ListOk(order, Repr, head, tail)
    }

    ghost predicate ValidData()
      reads this`order, this`data, this`totalDirectoryEntries
    {
      DataOk(data, order, totalDirectoryEntries)
    }

    ghost predicate Valid()
      reads this`order, this`Repr, this`head, this`tail, this`data, this`totalDirectoryEntries, Repr
    {
      ValidList() && ValidData() && 0 <= maxDirectories
    }

    ghost function Model(): Lru
      reads this`order, this`Repr, Repr
    {
      Lru(Items(order), Moved(order, Repr))
    }

    /** The cache is what the requests so far make of an empty one. */
    ghost predicate Faithful()
      reads this, Repr
    {
      Valid() && Model() == Run(history, Limits(maxDirectories, maxDirectoryEntries))
    }

    constructor (maxDirectories: int, maxDirectoryEntries: int)
      requires 0 <= maxDirectories
      ensures Faithful() && Model() == Lru([], false) && Repr == {} && history == []
      ensures this.maxDirectories == maxDirectories && this.maxDirectoryEntries == maxDirectoryEntries
    {
      this.maxDirectories, this.maxDirectoryEntries := maxDirectories, maxDirectoryEntries;
      totalDirectoryEntries, data, head, tail := 0, map[], null, null;
      order, Repr, history := [], {}, [];
    }

    method AddToHead(e: CacheEntry)
      requires ValidList() && e in Repr && e !in order && (order == [] ==> e.next == null)
      modifies this`head, this`tail, this`order, Repr
      ensures ValidList() && order == [e] + old(order)
      ensures e.prev == old(e.prev)
    {
      assert Opens(order, 0);
      assert PointsInside(e, Repr) && (head != null ==> PointsInside(head, Repr));
      if head != null {
        e.next := head;
        head.prev := e;
        head := e;
      } else {
        head := e;
        tail := e;
      }
      order := [e] + order;
    }

    /** The pointer updates: the neighbours of e, or the ends of the list, skip it. */
    method Unlink(e: CacheEntry, ghost l: Links)
      requires e in Repr && l == LinksOf(Repr, head, tail)
      requires (e.prev != null ==> e.prev in Repr) && (e.next != null ==> e.next in Repr)
      modifies this`head, this`tail, Repr
      ensures Skips(e, Repr, head, tail, l)
    {
      if e.prev == null {
        head := e.next;
      } else {
        e.prev.next := e.next;
      }
      if e.next == null {
        tail := e.prev;
      } else {
        e.next.prev := e.prev;
      }
      assert SkipParts(e, Repr, head, tail, l);
    }

    /** Unlinks the k-th entry. Right for every entry but a first one with a left-over prev:
        then the list keeps it as its head. */
    method Remove(e: CacheEntry, ghost k: nat)
      requires ValidList() && k < |order| && order[k] == e
      modifies this`head, this`tail, this`order, Repr
      ensures order == Drop(old(order), k) && e.prev == old(e.prev)
      ensures !(k == 0 && old(e.prev) != null) ==>
                ValidList() && Moved(order, Repr) == (k != 0 && old(Moved(order, Repr)))
      ensures if k == 0 then old(e.prev) != null ==> head == e else e.prev != null
    {
      ghost var before := LinksOf(Repr, head, tail);
      LinkedNow(order, Repr, head, tail);
      LinkedAt(order, Repr, before, k);
      Unlink(e, before);
      Unlinked(order, k, Repr, head, tail, before);
      order := Drop(order, k);
    }

    method Relink(e: CacheEntry, ghost k: nat)
      requires ValidList() && 0 < k < |order| && order[k] == e && e in Repr && e !in Drop(order, k) &&
               Drop(order, k) != []
      modifies this`head, this`tail, this`order, Repr
      ensures ValidList() && order == [e] + Drop(old(order), k) && e.prev != null
    {
      Remove(e, k);
      AddToHead(e);
    }

    method MoveToHead(e: CacheEntry, ghost k: nat)
      requires Valid() && k < |order| && order[k] == e
      modifies this`head, this`tail, this`order, Repr
      ensures Valid()
      ensures Model() == if k == 0 then old(Model()) else Lru([ItemOf(e)] + Without(old(Model()).items, k), true)
    {
      ListFacts(order, Repr, head, tail);
      if e == head {
        return;
      }
      DataMove(data, order, totalDirectoryEntries, k);
      ItemsMove(order, k);
      DropLacks(order, k);
      Relink(e, k);
    }

    /** In a valid cache the list starts with a cached entry. */
    lemma HeadIsCached()
      requires Valid() && head != null
      ensures head.id in data
    {
      ListFacts(order, Repr, head, tail);
      UnfoldData(data, order, totalDirectoryEntries);
    }

    /** Drops the k-th entry from list, map and total. What is left represents the rest of the list,
        unless the entry was a first one with a left-over prev: then no order makes the cache valid. */
    method RemoveEntryLocked(e: CacheEntry, ghost k: nat)
      requires Valid() && k < |order| && order[k] == e
      modifies this`head, this`tail, this`order, this`data, this`totalDirectoryEntries, Repr
      ensures !(k == 0 && old(Model()).headMoved) ==>
                Valid() && Model() == Lru(Without(old(Model()).items, k), k != 0 && old(Model()).headMoved)
      ensures k == 0 && old(Model()).headMoved ==> head == e && e.id !in data
      ensures order == Drop(old(order), k) && data == old(data) - {e.id}
    {
      ListFacts(order, Repr, head, tail);
      DataDrop(data, order, totalDirectoryEntries, k);
      ItemsDrop(order, k);
      Remove(e, k);
      totalDirectoryEntries := totalDirectoryEntries - |e.entries|;
      data := data - {e.id};
    }

    ghost predicate Expires(id: string, now: int)
      reads this`order, this`Repr, Repr
    {
      ExpiresMovedHead(Model(), id, now)
    }

    /** The cached listing under id, which moves to the front; an expired one is removed. */
    method GetEntriesFromCacheLocked(id: string, now: int) returns (hit: Option<seq<Entry>>)
      requires Valid()
      modifies this`head, this`tail, this`order, this`data, this`totalDirectoryEntries, Repr
      ensures Valid() <==> !old(Expires(id, now))
      ensures Valid() ==> (Model(), hit) == Lookup(old(Model()), id, now)
      ensures !Valid() ==> hit == None && head != null && head.id == id
      ensures hit == None ==> (if id == "" then data == old(data) else id !in data)
    {
      ListFacts(order, Repr, head, tail);
      ghost var k := CachedAt(data, order, totalDirectoryEntries, id);
      hit := None;
      if id != "" && id in data {
        var v := data[id];
        if now < v.expireAfter {
          MoveToHead(v, k);
          return Some(v.entries);
        }
        RemoveEntryLocked(v, k);
        if Valid() && head != null {
          HeadIsCached();
        }
      }
    }

    lemma Sizes()
      requires Valid()
      ensures |data| == |Model().items| && totalDirectoryEntries == TotalEntries(Model().items)
    {
      UnfoldData(data, order, totalDirectoryEntries);
    }

    method NewEntry(id: string, entries: seq<Entry>, expireAfter: int) returns (entry: CacheEntry)
      requires ValidList()
      modifies this`Repr
      ensures ValidList() && fresh(entry) && Repr == old(Repr) + {entry} && entry !in order
      ensures entry.prev == null && entry.next == null && ItemOf(entry) == Item(id, entries, expireAfter)
    {
      assert Opens(order, 0);
      entry := new CacheEntry(id, entries, expireAfter);
      forall e | e in Repr + {entry} ensures PointsInside(e, Repr + {entry}) {
        assert e in Repr ==> PointsInside(e, Repr);
      }
      Repr := Repr + {entry};
    }

    /** Puts a new entry at the front. */
    method AddEntry(id: string, entries: seq<Entry>, expireAfter: int)
      requires Valid() && id !in data
      modifies this`head, this`tail, this`order, this`data, this`totalDirectoryEntries, this`Repr, Repr
      ensures Valid() && fresh(Repr - old(Repr))
      ensures Model() == Lru([Item(id, entries, expireAfter)] + old(Model()).items, false)
    {
      var entry := NewEntry(id, entries, expireAfter);
      ItemsCons(entry, order);
      DataAdd(data, order, totalDirectoryEntries, entry);
      AddToHead(entry);
      data := data[id := entry];
      totalDirectoryEntries := totalDirectoryEntries + |entries|;
    }

    /** Drops the least recent entry. */
    method RemoveTail()
      requires Valid() && !Model().headMoved && order != []
      modifies this`head, this`tail, this`order, this`data, this`totalDirectoryEntries, Repr
      ensures Valid() && Model() == Lru(old(Model()).items[..|old(order)| - 1], false)
    {
      ListFacts(order, Repr, head, tail);
      WithoutLast(Model().items);
      RemoveEntryLocked(tail, |order| - 1);
    }

    /** Drops the least recent entries until both limits are met. */
    method Evict()
      requires Valid() && !Model().headMoved && 0 <= maxDirectoryEntries
      modifies this`head, this`tail, this`order, this`data, this`totalDirectoryEntries, Repr
      ensures Valid() && Model() == Lru(Trim(old(Model()).items, maxDirectories, maxDirectoryEntries), false)
    {
      Sizes();
      ghost var items := Model().items;
      while totalDirectoryEntries > maxDirectoryEntries || |data| > maxDirectories
        invariant Valid() && Model() == Lru(items, false)
        invariant |data| == |items| && totalDirectoryEntries == TotalEntries(items)
        invariant Trim(items, maxDirectories, maxDirectoryEntries)
               == Trim(old(Model()).items, maxDirectories, maxDirectoryEntries)
        decreases |items|
      {
        TrimStep(items, maxDirectories, maxDirectoryEntries);
        RemoveTail();
        items := items[..|items| - 1];
        Sizes();
      }
    }

    method AddAndEvict(id: string, entries: seq<Entry>, expireAfter: int)
      requires Valid() && id !in data && |entries| <= maxDirectoryEntries
      modifies this`head, this`tail, this`order, this`data, this`totalDirectoryEntries, this`Repr, Repr
      ensures Valid() && fresh(Repr - old(Repr))
      ensures Model() ==
              Insert(old(Model()), Item(id, entries, expireAfter), Limits(maxDirectories, maxDirectoryEntries))
    {
      AddEntry(id, entries, expireAfter);
      Evict();
    }

    /** A listing that the request's loader returns is cached. */
    ghost predicate Caches(r: Request) {
      r.loaded.Some? && |r.loaded.value| <= maxDirectoryEntries
    }

    /** The listing of a directory, from the cache or else from its loader. */
    method Serve(r: Request) returns (listing: Listing)
      requires Valid() && (Caches(r) ==> !Expires(r.id, r.now) && (r.id == "" ==> r.id !in data))
      modifies this`head, this`tail, this`order, this`data, this`totalDirectoryEntries, this`Repr, Repr
      ensures fresh(Repr - old(Repr)) && (Valid() <==> !old(Expires(r.id, r.now)))
      ensures var (l, result) := DirCacheSpec.GetEntries(old(Model()), r, Limits(maxDirectories, maxDirectoryEntries));
              listing == result && (Valid() ==> Model() == l)
    {
      var hit := GetEntriesFromCacheLocked(r.id, r.now);
      if hit.Some? {
        return Listed(hit.value);
      }
      if r.loaded.None? {
        return LoadFailed;
      }
      var wrapped := WrapAll(r.loaded.value, r.w);
      if |wrapped| > maxDirectoryEntries {
        return Listed(wrapped);
      }
      AddAndEvict(r.id, wrapped, r.expireAfter);
      return Listed(r.loaded.value);
    }

    /** The same, for the record. */
    method GetEntries(r: Request) returns (listing: Listing)
      requires Valid() && (Caches(r) ==> !Expires(r.id, r.now) && (r.id == "" ==> r.id !in data))
      modifies this, Repr
      ensures fresh(Repr - old(Repr)) && (Valid() <==> !old(Expires(r.id, r.now)))
      ensures var (l, result) := DirCacheSpec.GetEntries(old(Model()), r, Limits(maxDirectories, maxDirectoryEntries));
              listing == result && (Valid() ==> Model() == l)
      ensures history == old(history) + [r] && (old(Faithful()) && Valid() ==> Faithful())
      ensures old(Faithful()) && NonEmptyIds(old(history)) ==>
                IsAnswer(history, |old(history)|, Limits(maxDirectories, maxDirectoryEntries), listing)
    {
      RunNext(history, r, Limits(maxDirectories, maxDirectoryEntries));
      assert (history + [r])[..|history|] == history;
      if NonEmptyIds(history) {
        AnswerIs(history + [r], |history|, Limits(maxDirectories, maxDirectoryEntries));
      }
      listing := Serve(r);
      history := history + [r];
    }

    // ---- What whole runs make of the cache ----

    /** After any requests the cache is within its limits. */
    lemma WithinLimits()
      requires Faithful() && 0 <= maxDirectoryEntries
      ensures |data| <= maxDirectories && totalDirectoryEntries <= maxDirectoryEntries
    {
      Sizes();
      RunWithinLimits(history, Limits(maxDirectories, maxDirectoryEntries));
    }

    /** After any requests what is cached under an ID is what the latest load of it returned, wrapped,
        with the expiry that the load gave it. */
    lemma CachedFromLatestLoad(id: string)
      requires Faithful() && NonEmptyIds(history) && id in data
      ensures FromLatestLoad(history, ItemOf(data[id]), Limits(maxDirectories, maxDirectoryEntries))
    {
      var lim := Limits(maxDirectories, maxDirectoryEntries);
      RunGood(history, lim);
      UnfoldGood(history, Model(), lim);
      ListFacts(order, Repr, head, tail);
      var k := CachedAt(data, order, totalDirectoryEntries, id);
      assert Items(order)[k] == ItemOf(data[id]);
    }

    /** After any requests the list is in the order of the latest requests, most recent first. */
    lemma ListByRecency()
      requires Faithful() && NonEmptyIds(history)
      ensures ByRecency(history, Items(order))
    {
      RunByRecency(history, Limits(maxDirectories, maxDirectoryEntries));
    }
  }

  /** Loads an empty directory that is not cached. */
  method LoadNew(c: Cache, id: string, now: int, expireAfter: int)
    requires c.Valid() && RoomFor(c.Model(), id, Limits(c.maxDirectories, c.maxDirectoryEntries))
    modifies c, c.Repr
    ensures c.Valid() && fresh(c.Repr - old(c.Repr))
    ensures c.Model() == Lru([Item(id, [], expireAfter)] + old(c.Model()).items, false)
  {
    var r := Request(id, Some([]), x => x, now, expireAfter);
    LoadEmpty(c.Model(), r, Limits(c.maxDirectories, c.maxDirectoryEntries));
    var listing := c.GetEntries(r);
  }

  method LoadTwo(a: string, b: string) returns (c: Cache)
    requires a != "" && b != "" && a != b
    ensures fresh(c) && fresh(c.Repr) && c.Valid()
    ensures c.Model() == Lru([Item(b, [], 25), Item(a, [], 24)], false)
  {
    c := new Cache(1000, 100000);
    RoomForTwo(Item(a, [], 24), b, Limits(1000, 100000));
    LoadNew(c, a, 0, 24);
    assert c.Model() == Lru([Item(a, [], 24)], false);
    LoadNew(c, b, 1, 25);
  }

  /** Two listings are loaded and the first is read again, which moves it to the front. */
  method HitMovesSecond(a: string, b: string) returns (c: Cache)
    requires a != "" && b != "" && a != b
    ensures fresh(c) && fresh(c.Repr) && c.Valid()
    ensures c.Model() == Lru([Item(a, [], 24), Item(b, [], 25)], true)
  {
    c := LoadTwo(a, b);
    var third := Request(a, None, x => x, 2, 26);
    HitSecond(Item(b, [], 25), Item(a, [], 24), third, Limits(c.maxDirectories, c.maxDirectoryEntries));
    var listing := c.GetEntries(third);
  }

  /** The condition is needed: after it has expired there, another read of it leaves a list that
      starts with an entry the cache no longer has. */
  method ExpiredMovedHead(a: string, b: string) returns (c: Cache)
    requires a != "" && b != "" && a != b
    ensures !c.Valid() && a !in c.data && c.head != null && c.head.id == a
  {
    c := HitMovesSecond(a, b);
    var hit := c.GetEntriesFromCacheLocked(a, 24);
  }
}
