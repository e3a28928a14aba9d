/** The client's memory of recently read contents: a ring of the last adds and a set. */
module RecentlyRead {

  type ContentId = string

  const EMPTY_ID: ContentId := ""
  const NUM_RECENT_READS_TO_CACHE := 1024

  ghost predicate IsLatest(h: seq<ContentId>, id: ContentId, i: nat) {
    i < |h| && h[i] == id && forall j :: i < j < |h| ==> h[j] != id
  }

  /** A copy of id added before the i-th add left the ring after it, taking id out of the set. */
  ghost predicate EvictedSince(h: seq<ContentId>, id: ContentId, i: nat) {
    exists j :: 0 <= j < i && j < |h| && h[j] == id && i < j + NUM_RECENT_READS_TO_CACHE < |h|
  }

  /** The latest add of id is among the last adds, and no older copy was evicted after it. */
  ghost predicate Remembered(h: seq<ContentId>, id: ContentId) {
    exists i: nat :: IsLatest(h, id, i) && |h| - i <= NUM_RECENT_READS_TO_CACHE && !EvictedSince(h, id, i)
  }

  ghost predicate InWindow(h: seq<ContentId>, id: ContentId) {
    exists i :: 0 <= i < |h| && |h| - i <= NUM_RECENT_READS_TO_CACHE && h[i] == id
  }

  /** No id is added again within a ring's length of an earlier add of it. */
  ghost predicate NoCloseRepeats(h: seq<ContentId>) {
    forall i, j :: 0 <= i < j < |h| && h[i] == h[j] ==> i + NUM_RECENT_READS_TO_CACHE <= j
  }

  /** The id that the next add pushes out of the ring. */
  ghost function Evicted(h: seq<ContentId>): ContentId {
    if |h| < NUM_RECENT_READS_TO_CACHE then EMPTY_ID else h[|h| - NUM_RECENT_READS_TO_CACHE]
  }

  lemma {:induction false} AddRemembers(h: seq<ContentId>, x: ContentId)
    ensures Remembered(h + [x], x)
  {
    assert IsLatest(h + [x], x, |h|);
  }

  lemma {:induction false} AddKeeps(h: seq<ContentId>, x: ContentId, id: ContentId)
    requires Remembered(h, id) && id != x && id != EMPTY_ID && id != Evicted(h)
    ensures Remembered(h + [x], id)
  {
    var i: nat :| IsLatest(h, id, i) && |h| - i <= NUM_RECENT_READS_TO_CACHE && !EvictedSince(h, id, i);
    assert forall j :: 0 <= j < |h| ==> (h + [x])[j] == h[j];
    assert IsLatest(h + [x], id, i) && !EvictedSince(h + [x], id, i);
  }

  lemma {:induction false} AddForgetsOnly(h: seq<ContentId>, x: ContentId, id: ContentId)
    requires Remembered(h + [x], id) && id != x && id != EMPTY_ID
    ensures Remembered(h, id) && id != Evicted(h)
  {
    var h' := h + [x];
    var i: nat :| IsLatest(h', id, i) && |h'| - i <= NUM_RECENT_READS_TO_CACHE && !EvictedSince(h', id, i);
    assert forall j :: 0 <= j < |h| ==> h'[j] == h[j];
    assert IsLatest(h, id, i) && !EvictedSince(h, id, i);
    assert |h| >= NUM_RECENT_READS_TO_CACHE ==> h'[|h| - NUM_RECENT_READS_TO_CACHE] == Evicted(h);
  }

  /** What one add does to the remembered ids. */
  lemma {:induction false} AddExact(h: seq<ContentId>, x: ContentId, id: ContentId)
    requires id != EMPTY_ID
    ensures Remembered(h + [x], id) <==> id == x || (Remembered(h, id) && id != Evicted(h))
  {
    if id == x {
      AddRemembers(h, x);
    } else if Remembered(h + [x], id) {
      AddForgetsOnly(h, x, id);
    } else if Remembered(h, id) && id != Evicted(h) {
      AddKeeps(h, x, id);
    }
  }

  /** A remembered id was read within the window. */
  lemma RememberedInWindow(h: seq<ContentId>, id: ContentId)
    requires Remembered(h, id)
    ensures InWindow(h, id)
  {}

  /** Without close repeats the memory is exactly the window. */
  lemma {:induction false} WindowExact(h: seq<ContentId>, id: ContentId)
    requires NoCloseRepeats(h)
    ensures Remembered(h, id) <==> InWindow(h, id)
  {
    if InWindow(h, id) {
      var i :| 0 <= i < |h| && |h| - i <= NUM_RECENT_READS_TO_CACHE && h[i] == id;
      assert IsLatest(h, id, i);
      assert !EvictedSince(h, id, i);
    }
  }

  /** With a close repeat it can be less: after an id added twice in a row and 1023 others, the
      first copy's eviction has forgotten the second, although it is among the last 1024. */
  lemma {:induction false} RepeatForgotten(id: ContentId, others: seq<ContentId>)
    requires |others| == NUM_RECENT_READS_TO_CACHE - 1 && id !in others
    ensures InWindow([id, id] + others, id) && !Remembered([id, id] + others, id)
  {
    var h := [id, id] + others;
    assert h[1] == id;
    forall i: nat | IsLatest(h, id, i) ensures EvictedSince(h, id, i) {
      assert i == 1;
      assert h[0] == id;
    }
  }

  /** list holds the last adds, each at its number modulo the length, and is empty elsewhere. */
  ghost predicate Ring(list: seq<ContentId>, h: seq<ContentId>) {
    && |list| == NUM_RECENT_READS_TO_CACHE
    && (forall m :: 0 <= m < |h| && |h| - NUM_RECENT_READS_TO_CACHE <= m ==>
          list[m % NUM_RECENT_READS_TO_CACHE] == h[m])
    && (forall k :: |h| <= k < NUM_RECENT_READS_TO_CACHE ==> list[k] == EMPTY_ID)
  }

  lemma RingNext(list: seq<ContentId>, h: seq<ContentId>)
    requires Ring(list, h)
    ensures list[|h| % NUM_RECENT_READS_TO_CACHE] == Evicted(h)
  {}

  lemma RingAdd(list: seq<ContentId>, h: seq<ContentId>, x: ContentId)
    requires Ring(list, h)
    ensures Ring(list[|h| % NUM_RECENT_READS_TO_CACHE := x], h + [x])
  {}

  /** The set holds the remembered ids. */
  ghost predicate Holds(ids: set<ContentId>, h: seq<ContentId>) {
    forall id :: id != EMPTY_ID ==> (id in ids <==> Remembered(h, id))
  }

  lemma {:induction false} SetAdd(ids: set<ContentId>, h: seq<ContentId>, x: ContentId)
    requires Holds(ids, h)
    ensures Holds(ids - {Evicted(h)} + {x}, h + [x])
  {
    forall id | id != EMPTY_ID ensures id in ids - {Evicted(h)} + {x} <==> Remembered(h + [x], id) {
      AddExact(h, x, id);
    }
  }

  class Recent {
    var contentList: array?<ContentId>
    var next: nat
    var contentSet: set<ContentId>

    ghost var history: seq<ContentId> // every add, in order

    ghost predicate ValidList()
      reads this, contentList
    {
      if contentList == null then history == [] && next == 0
      else next == |history| % NUM_RECENT_READS_TO_CACHE && Ring(contentList[..], history)
    }

    ghost predicate Valid()
      reads this, contentList
    {
      && ValidList()
      && (contentList == null ==> contentSet == {})
      && Holds(contentSet, history)
    }

    constructor ()
      ensures Valid() && history == []
    {
      contentList, next, contentSet, history := null, 0, {}, [];
    }

    method Add(contentId: ContentId)
      requires Valid() && contentId != EMPTY_ID
      modifies this, contentList
      ensures Valid() && history == old(history) + [contentId]
      ensures contentList == old(contentList) || fresh(contentList)
    {
      if contentList == null {
        contentList := new ContentId[NUM_RECENT_READS_TO_CACHE](_ => EMPTY_ID);
        contentSet := {};
      }
      RingNext(contentList[..], history);
      RingAdd(contentList[..], history, contentId);
      SetAdd(contentSet, history, contentId);
      contentSet := contentSet - {contentList[next]};
      contentList[next] := contentId;
      contentSet := contentSet + {contentId};
      next := (next + 1) % contentList.Length;
      history := history + [contentId];
    }

    /** True iff the latest add of the id is among the last 1024 and no older copy of it has been
        evicted since. */
    method Exists(contentId: ContentId) returns (ok: bool)
      requires Valid() && contentId != EMPTY_ID
      ensures ok <==> Remembered(history, contentId)
    {
      ok := contentId in contentSet;
    }
  }
}
