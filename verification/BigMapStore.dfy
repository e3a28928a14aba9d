/** What an internalMap has stored, as a value: the segments' bytes, the records they encode,
    the index of record locations, and the finite map they amount to. */
module BigMapStore {
  import opened Wrappers

  import opened BigMapRecords
  import opened BigMapTable

  const LIMIT_32 := 0x1_0000_0000

  /** A conversion to uint32. */
  function U32(x: nat): nat {
    x % LIMIT_32
  }

  lemma U32Exact(x: nat)
    requires x < LIMIT_32
    ensures U32(x) == x
  {}

  datatype Store = Store(
    hasValues: bool,
    segments: seq<Bytes>,
    recs: seq<seq<Record>>,
    index: Live,
    contents: map<Bytes, Bytes>)

  ghost predicate InRange(st: Store, i: int, j: int) {
    0 <= i < |st.recs| && 0 <= j < |st.recs[i]|
  }

  ghost function OffsetIn(st: Store, i: nat, j: nat): nat
    requires i < |st.recs| && j <= |st.recs[i]|
  {
    Offset(st.hasValues, st.recs[i], j)
  }

  ghost function EntryFor(st: Store, i: nat, j: nat): Entry
    requires InRange(st, i, j)
  {
    Entry(i + 1, OffsetIn(st, i, j))
  }

  ghost predicate IsLocation(st: Store, e: Entry) {
    exists i: nat, j: nat :: InRange(st, i, j) && e == EntryFor(st, i, j)
  }

  ghost predicate Indexed(st: Store, i: nat, j: nat)
    requires InRange(st, i, j)
  {
    var e := EntryFor(st, i, j);
    e in st.index && st.index[e] == st.recs[i][j]
  }

  ghost predicate SegmentOk(hasValues: bool, segment: Bytes, rs: seq<Record>) {
    GoodRecords(hasValues, rs) && segment == EncodeAll(hasValues, rs) && |segment| < LIMIT_32
  }

  /** The index maps the location of every record, and nothing else, to that record. */
  ghost predicate IndexOk(st: Store) {
    && (forall i: nat, j: nat :: InRange(st, i, j) ==> Indexed(st, i, j))
    && (forall e :: e in st.index ==> IsLocation(st, e))
  }

  /** No key is recorded twice. */
  ghost predicate KeysDistinct(index: Live) {
    forall e, e' :: e in index && e' in index && index[e].key == index[e'].key ==> e == e'
  }

  ghost predicate ContentsOk(index: Live, contents: map<Bytes, Bytes>) {
    && (forall e :: e in index ==> index[e].key in contents && contents[index[e].key] == index[e].value)
    && (forall k :: k in contents ==> exists e :: e in index && index[e].key == k)
  }

  ghost predicate Shape(st: Store) {
    1 <= |st.segments| == |st.recs| < LIMIT_32
  }

  ghost predicate SegmentsOk(st: Store) {
    && Shape(st)
    && forall i: nat :: i < |st.recs| ==> SegmentOk(st.hasValues, st.segments[i], st.recs[i])
  }

  /** Bytes, records, index and contents say the same, with no key twice. */
  ghost predicate StoreParts(st: Store) {
    && SegmentsOk(st)
    && IndexOk(st)
    && KeysDistinct(st.index)
    && ContentsOk(st.index, st.contents)
  }

  ghost predicate Unfolds(st: Store, k: int) { true }

  /** StoreParts, to be carried around folded; StoreFacts and the lemmas below unfold it. */
  ghost predicate StoreOk(st: Store) {
    Shape(st) && forall k: int {:trigger Unfolds(st, k)} :: Unfolds(st, k) ==> StoreParts(st)
  }

  lemma Unfold(st: Store)
    requires StoreOk(st)
    ensures StoreParts(st)
  {
    assert Unfolds(st, 0);
  }

  // ---- Reading ----

  ghost predicate ReadableAt(st: Store, e: Entry, r: Record) {
    && 1 <= e.segment <= |st.segments|
    && Holds(st.hasValues, st.segments[e.segment - 1], e.offset, r)
    && |st.segments[e.segment - 1]| < LIMIT_32
  }

  /** Every live entry can be read from the segments. */
  ghost predicate Readable(st: Store, live: Live) {
    forall e :: e in live ==> ReadableAt(st, e, live[e])
  }

  lemma {:induction false} LocationReadable(st: Store, i: nat, j: nat)
    requires SegmentsOk(st) && InRange(st, i, j)
    ensures ReadableAt(st, EntryFor(st, i, j), st.recs[i][j])
  {
    assert SegmentOk(st.hasValues, st.segments[i], st.recs[i]);
    RecordAt(st.hasValues, st.recs[i], j);
  }

  lemma {:induction false} EntryReadable(st: Store, e: Entry)
    requires SegmentsOk(st) && IndexOk(st) && e in st.index
    ensures ReadableAt(st, e, st.index[e])
  {
    assert IsLocation(st, e);
    var i: nat, j: nat :| InRange(st, i, j) && e == EntryFor(st, i, j);
    assert Indexed(st, i, j);
    LocationReadable(st, i, j);
  }

  lemma {:induction false} EntryInBounds(st: Store, e: Entry)
    requires SegmentsOk(st) && IndexOk(st) && e in st.index
    ensures 1 <= e.segment <= |st.segments| && e.offset < |st.segments[e.segment - 1]|
  {
    EntryReadable(st, e);
  }

  lemma {:induction false} StoreFacts(st: Store)
    requires StoreOk(st)
    ensures Readable(st, st.index) && ContentsOk(st.index, st.contents)
  {
    Unfold(st);
    forall e | e in st.index ensures ReadableAt(st, e, st.index[e]) {
      EntryReadable(st, e);
    }
  }

  /** What Get slices out of a segment, in the 32-bit arithmetic of its offsets. */
  function ReadValue(data: Bytes, koff: nat): Option<Bytes>
    requires koff < |data|
  {
    var off := U32(koff + data[koff] + 1);
    if off > |data| then None
    else
      var (vlen, vlenLen) := Uvarint(data[off..]);
      var start := U32(off + vlenLen);
      var end := U32(start + U32(vlen));
      if start <= end <= |data| then Some(data[start..end]) else None
  }

  lemma {:induction false} ReadValueExact(st: Store, e: Entry, r: Record)
    requires st.hasValues && ReadableAt(st, e, r)
    ensures e.offset < |st.segments[e.segment - 1]|
    ensures ReadValue(st.segments[e.segment - 1], e.offset) == Some(r.value)
  {
    var data, koff := st.segments[e.segment - 1], e.offset;
    var p := koff + data[koff] + 1;
    var (vlen, n) := Uvarint(data[p..]);
    U32Exact(p);
    U32Exact(p + n);
    U32Exact(vlen);
    U32Exact(p + n + vlen);
  }

  // ---- Re-reading a segment from its first byte ----

  /** What is read at position p of a segment: a key, and where the next record starts. */
  function Scan(hasValues: bool, seg: Bytes, p: nat): Option<(Bytes, nat)>
    requires p < |seg|
  {
    var q := p + 1 + seg[p];
    if q > |seg| then None
    else
      var key := seg[p + 1..q];
      if hasValues then
        var (vlen, vlenLen) := Uvarint(seg[q..]);
        Some((key, q + vlenLen + vlen))
      else Some((key, q))
  }

  lemma {:induction false} ScanExact(hasValues: bool, rs: seq<Record>, j: nat)
    requires GoodRecords(hasValues, rs) && j < |rs|
    ensures var seg, p := EncodeAll(hasValues, rs), Offset(hasValues, rs, j);
            && p < |seg| && seg[p] != 0
            && Scan(hasValues, seg, p) == Some((rs[j].key, Offset(hasValues, rs, j + 1)))
  {
    RecordAt(hasValues, rs, j);
  }

  /** The scan finds record j at its offset and goes on to record j + 1. */
  lemma {:induction false} ScanFinds(st: Store, i: nat, j: nat)
    requires StoreOk(st) && InRange(st, i, j)
    ensures var p := OffsetIn(st, i, j);
            && p < |st.segments[i]| && st.segments[i][p] != 0
            && Scan(st.hasValues, st.segments[i], p) == Some((st.recs[i][j].key, OffsetIn(st, i, j + 1)))
            && Entry(U32(i) + 1, U32(p)) == EntryFor(st, i, j)
  {
    Unfold(st);
    assert SegmentOk(st.hasValues, st.segments[i], st.recs[i]);
    ScanExact(st.hasValues, st.recs[i], j);
    U32Exact(i);
    U32Exact(OffsetIn(st, i, j));
  }

  /** The scan starts at record 0 and ends exactly after the last one. */
  lemma {:induction false} ScanEnds(st: Store, i: nat)
    requires StoreOk(st) && i < |st.recs|
    ensures OffsetIn(st, i, 0) == 0 && OffsetIn(st, i, |st.recs[i]|) == |st.segments[i]|
  {
    Unfold(st);
    assert SegmentOk(st.hasValues, st.segments[i], st.recs[i]);
    OffsetAtEnd(st.hasValues, st.recs[i]);
  }

  /** The part of the index that lies before a position. */
  ghost function Prefix(index: Live, segment: nat, offset: nat): Live {
    map e | e in index && (e.segment < segment || (e.segment == segment && e.offset < offset)) :: index[e]
  }

  /** No record starts inside another. */
  lemma {:induction false} NothingBetween(st: Store, i: nat, j: nat, j': nat)
    requires SegmentsOk(st) && InRange(st, i, j) && InRange(st, i, j')
    ensures OffsetIn(st, i, j) < OffsetIn(st, i, j + 1)
    ensures OffsetIn(st, i, j') < OffsetIn(st, i, j + 1) ==> j' == j || OffsetIn(st, i, j') < OffsetIn(st, i, j)
  {
    assert SegmentOk(st.hasValues, st.segments[i], st.recs[i]);
    OffsetIncreases(st.hasValues, st.recs[i], j, j + 1);
    if j' < j {
      OffsetIncreases(st.hasValues, st.recs[i], j', j);
    } else if j + 1 < j' {
      OffsetIncreases(st.hasValues, st.recs[i], j + 1, j');
    }
  }

  lemma {:induction false} PrefixExtend(index: Live, e: Entry, end: nat)
    requires e in index && e.offset < end
    requires forall d :: d in index && d.segment == e.segment && d.offset < end ==> d == e || d.offset < e.offset
    ensures e !in Prefix(index, e.segment, e.offset)
    ensures Prefix(index, e.segment, end) == Prefix(index, e.segment, e.offset)[e := index[e]]
  {}

  lemma {:induction false} PrefixStep(st: Store, i: nat, j: nat)
    requires SegmentsOk(st) && IndexOk(st) && InRange(st, i, j)
    ensures var e := EntryFor(st, i, j);
            && e !in Prefix(st.index, i + 1, e.offset)
            && Prefix(st.index, i + 1, OffsetIn(st, i, j + 1)) == Prefix(st.index, i + 1, e.offset)[e := st.recs[i][j]]
  {
    var e, end := EntryFor(st, i, j), OffsetIn(st, i, j + 1);
    assert Indexed(st, i, j);
    NothingBetween(st, i, j, j);
    forall d | d in st.index && d.segment == e.segment && d.offset < end ensures d == e || d.offset < e.offset {
      assert IsLocation(st, d);
      var i': nat, j': nat :| InRange(st, i', j') && d == EntryFor(st, i', j');
      NothingBetween(st, i, j, j');
    }
    PrefixExtend(st.index, e, end);
  }

  /** Record j of segment i, when the records before it have been placed in a table:
      its key is new to that table. */
  lemma {:induction false} NextIsNew(st: Store, i: nat, j: nat)
    requires StoreOk(st) && InRange(st, i, j)
    ensures var e, r := EntryFor(st, i, j), st.recs[i][j];
            var live := Prefix(st.index, i + 1, e.offset);
            && e !in live && GoodKey(r.key) && Readable(st, live)
            && Prefix(st.index, i + 1, OffsetIn(st, i, j + 1)) == live[e := r]
            && (forall d :: d in live ==> live[d].key in st.contents && live[d].key != r.key)
  {
    StoreFacts(st);
    Unfold(st);
    PrefixStep(st, i, j);
    assert Indexed(st, i, j);
    assert SegmentOk(st.hasValues, st.segments[i], st.recs[i]);
    assert GoodRecord(st.hasValues, st.recs[i][j]);
  }

  /** The records before the end of a segment are those before the next one. */
  lemma {:induction false} PrefixNextSegment(st: Store, i: nat)
    requires StoreOk(st) && i < |st.recs|
    ensures Prefix(st.index, i + 1, |st.segments[i]|) == Prefix(st.index, i + 2, 0)
  {
    forall e | e in st.index ensures e.segment == i + 1 ==> e.offset < |st.segments[i]| {
      Unfold(st);
      EntryInBounds(st, e);
    }
  }

  lemma {:induction false} PrefixAll(st: Store)
    requires StoreOk(st)
    ensures Prefix(st.index, 1, 0) == map[]
    ensures Prefix(st.index, |st.segments| + 1, 0) == st.index
  {
    Unfold(st);
    forall e | e in st.index ensures 1 <= e.segment <= |st.recs| {
      EntryInBounds(st, e);
    }
  }

  // ---- Appending ----

  /** The location the next record will have. */
  ghost function NextEntry(st: Store): Entry
    requires Shape(st)
  {
    Entry(|st.segments|, |st.segments[|st.segments| - 1]|)
  }

  ghost function Append(st: Store, r: Record): Store
    requires Shape(st)
  {
    var n := |st.segments| - 1;
    st.(segments := st.segments[n := st.segments[n] + Encode(st.hasValues, r)],
        recs := st.recs[n := st.recs[n] + [r]],
        index := st.index[NextEntry(st) := r],
        contents := st.contents[r.key := r.value])
  }

  /** Starting an empty segment. */
  ghost function StartSegment(st: Store): Store {
    st.(segments := st.segments + [[]], recs := st.recs + [[]])
  }

  /** st' has all of st's records, where they were. */
  ghost predicate Extends(st: Store, st': Store) {
    && st'.hasValues == st.hasValues
    && |st.recs| <= |st'.recs|
    && forall i :: 0 <= i < |st.recs| ==> st.recs[i] <= st'.recs[i]
  }

  lemma {:induction false} LocationsKept(st: Store, st': Store, i: nat, j: nat)
    requires Extends(st, st') && InRange(st, i, j)
    ensures InRange(st', i, j) && EntryFor(st', i, j) == EntryFor(st, i, j)
  {
    assert st'.recs[i][..j] == st.recs[i][..j];
  }

  lemma {:induction false} LocationKept(st: Store, st': Store, e: Entry)
    requires Extends(st, st') && IsLocation(st, e)
    ensures IsLocation(st', e)
  {
    var i: nat, j: nat :| InRange(st, i, j) && e == EntryFor(st, i, j);
    LocationsKept(st, st', i, j);
  }

  lemma {:induction false} AppendSegments(st: Store, r: Record)
    requires SegmentsOk(st) && GoodRecord(st.hasValues, r)
    requires NextEntry(st).offset + |Encode(st.hasValues, r)| < LIMIT_32
    ensures SegmentsOk(Append(st, r))
    ensures var n := |st.recs| - 1; EntryFor(Append(st, r), n, |st.recs[n]|) == NextEntry(st)
  {}

  lemma AppendExtends(st: Store, r: Record)
    requires Shape(st)
    ensures Extends(st, Append(st, r))
    ensures forall i: nat, j: nat :: InRange(Append(st, r), i, j) && !InRange(st, i, j) ==>
              i == |st.recs| - 1 && j == |st.recs[i]|
  {}

  /** Locations stay indexed when the store grows and the index only gains entries. */
  lemma {:induction false} IndexedKept(st: Store, st': Store, i: nat, j: nat)
    requires IndexOk(st) && Extends(st, st') && InRange(st, i, j)
    requires forall e :: e in st.index ==> e in st'.index && st'.index[e] == st.index[e]
    ensures InRange(st', i, j) && Indexed(st', i, j)
  {
    assert Indexed(st, i, j);
    LocationsKept(st, st', i, j);
  }

  lemma {:induction false} NextEntryNew(st: Store)
    requires SegmentsOk(st) && IndexOk(st)
    ensures NextEntry(st) !in st.index
  {
    if NextEntry(st) in st.index {
      EntryInBounds(st, NextEntry(st));
    }
  }

  lemma {:induction false} AppendIndex(st: Store, r: Record)
    requires SegmentsOk(st) && IndexOk(st) && GoodRecord(st.hasValues, r)
    requires NextEntry(st).offset + |Encode(st.hasValues, r)| < LIMIT_32
    ensures IndexOk(Append(st, r))
  {
    var n, st' := |st.recs| - 1, Append(st, r);
    NextEntryNew(st);
    AppendSegments(st, r);
    AppendExtends(st, r);
    forall i: nat, j: nat | InRange(st', i, j) ensures Indexed(st', i, j) {
      if InRange(st, i, j) {
        IndexedKept(st, st', i, j);
      }
    }
    forall d | d in st'.index ensures IsLocation(st', d) {
      if d == NextEntry(st) {
        assert InRange(st', n, |st.recs[n]|);
      } else {
        LocationKept(st, st', d);
      }
    }
  }

  lemma {:induction false} ContentsKept(index: Live, contents: map<Bytes, Bytes>, e: Entry, r: Record)
    requires KeysDistinct(index) && ContentsOk(index, contents) && e !in index && r.key !in contents
    ensures KeysDistinct(index[e := r]) && ContentsOk(index[e := r], contents[r.key := r.value])
  {
    var index', contents' := index[e := r], contents[r.key := r.value];
    forall k | k in contents' ensures exists d :: d in index' && index'[d].key == k {
      if k == r.key {
        assert e in index' && index'[e].key == k;
      } else {
        var d :| d in index && index[d].key == k;
        assert d in index' && index'[d].key == k;
      }
    }
  }

  /** Appending the record of a new key keeps bytes, records, index and contents in step. */
  lemma {:induction false} AppendKeeps(st: Store, r: Record)
    requires StoreOk(st) && GoodRecord(st.hasValues, r) && r.key !in st.contents
    requires NextEntry(st).offset + |Encode(st.hasValues, r)| < LIMIT_32
    ensures NextEntry(st) !in st.index && StoreOk(Append(st, r))
  {
    Unfold(st);
    AppendSegments(st, r);
    AppendIndex(st, r);
    NextEntryNew(st);
    ContentsKept(st.index, st.contents, NextEntry(st), r);
  }

  lemma {:induction false} StartSegmentIndex(st: Store)
    requires Shape(st) && IndexOk(st)
    ensures IndexOk(StartSegment(st))
  {
    var st' := StartSegment(st);
    assert Extends(st, st');
    forall i: nat, j: nat | InRange(st', i, j) ensures Indexed(st', i, j) {
      assert InRange(st, i, j);
      IndexedKept(st, st', i, j);
    }
    forall e | e in st.index ensures IsLocation(st', e) {
      LocationKept(st, st', e);
    }
  }

  /** Starting an empty segment changes no record's location. */
  lemma {:induction false} StartSegmentKeeps(st: Store)
    requires StoreOk(st) && |st.segments| + 1 < LIMIT_32
    ensures StoreOk(StartSegment(st))
  {
    Unfold(st);
    var st' := StartSegment(st);
    forall i: nat | i < |st'.recs| ensures SegmentOk(st.hasValues, st'.segments[i], st'.recs[i]) {
      assert i < |st.recs| ==> SegmentOk(st.hasValues, st.segments[i], st.recs[i]);
    }
    StartSegmentIndex(st);
  }

  lemma EmptyStoreOk(hasValues: bool)
    ensures StoreOk(Store(hasValues, [[]], [[]], map[], map[]))
  {}
}
