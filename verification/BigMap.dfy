/** bigmap's internalMap: an append-only hash table whose slots point at records packed
    into byte segments. The class refines a finite map in which the first put of a key wins. */
module BigMap {
  import opened Primes
  import opened BigMapRecords
  import opened BigMapTable
  import opened BigMapStore

  const DEFAULT_NUM_MEMORY_SEGMENTS := 8
  const DEFAULT_MEMORY_SEGMENT_SIZE := 18_000_000
  const DEFAULT_FILE_SEGMENT_SIZE := 0x4000_0000
  const DEFAULT_INITIAL_SIZE_LOGARITHM := 20
  const DEFAULT_LOAD_FACTOR_PERCENTAGE := 75
  const MIN_SIZE_LOGARITHM := 8

  datatype Options = Options(
    loadFactorPercentage: nat, numMemorySegments: nat, memorySegmentSize: nat,
    fileSegmentSize: nat, initialSizeLogarithm: nat)

  function ApplyDefaults(o: Options): Options {
    Options(
      if o.loadFactorPercentage == 0 then DEFAULT_LOAD_FACTOR_PERCENTAGE else o.loadFactorPercentage,
      if o.numMemorySegments == 0 then DEFAULT_NUM_MEMORY_SEGMENTS else o.numMemorySegments,
      if o.memorySegmentSize == 0 then DEFAULT_MEMORY_SEGMENT_SIZE else o.memorySegmentSize,
      if o.fileSegmentSize == 0 then DEFAULT_FILE_SEGMENT_SIZE else o.fileSegmentSize,
      if o.initialSizeLogarithm == 0 then DEFAULT_INITIAL_SIZE_LOGARITHM else o.initialSizeLogarithm)
  }

  /** Without options these are the defaults; each option that is given is kept. */
  lemma DefaultOptions(o: Options)
    ensures ApplyDefaults(Options(0, 0, 0, 0, 0)) == Options(75, 8, 18_000_000, 0x4000_0000, 20)
    ensures var d := ApplyDefaults(o);
            && d.loadFactorPercentage in {75, o.loadFactorPercentage} - {0}
            && d.numMemorySegments in {8, o.numMemorySegments} - {0}
            && d.memorySegmentSize in {18_000_000, o.memorySegmentSize} - {0}
            && d.fileSegmentSize in {0x4000_0000, o.fileSegmentSize} - {0}
            && d.initialSizeLogarithm in {20, o.initialSizeLogarithm} - {0}
    ensures ApplyDefaults(ApplyDefaults(o)) == ApplyDefaults(o)
  {}

  /** What the table needs of its options: a slot always stays empty, and offsets fit in 32 bits. */
  ghost predicate GoodOptions(o: Options) {
    && 1 <= o.loadFactorPercentage <= 99
    && 0 < o.memorySegmentSize < LIMIT_32
    && 0 < o.fileSegmentSize < LIMIT_32
  }

  ghost predicate IncreasingPrimes(sizes: seq<nat>) {
    && (forall i :: 0 <= i < |sizes| ==> IsPrime(sizes[i]))
    && (forall i, j :: 0 <= i < j < |sizes| ==> sizes[i] < sizes[j])
  }

  ghost predicate OpensSizes(sizes: seq<nat>, k: int) { true }

  /** Table sizes: strictly increasing primes; carried around folded. */
  ghost predicate PrimeTable(sizes: seq<nat>) {
    forall k: int {:trigger OpensSizes(sizes, k)} :: OpensSizes(sizes, k) ==> IncreasingPrimes(sizes)
  }

  lemma SizeAt(sizes: seq<nat>, i: nat)
    requires PrimeTable(sizes) && 1 <= i < |sizes|
    ensures IsPrime(sizes[i]) && 0 < sizes[i - 1] < sizes[i]
  {
    assert OpensSizes(sizes, 0);
    assert IsPrime(sizes[i - 1]);
  }

  // ---- The specification: a finite map where the first put of a key wins ----

  ghost function PutFirst(m: map<Bytes, Bytes>, r: Record): map<Bytes, Bytes> {
    if r.key in m then m else m[r.key := r.value]
  }

  ghost function PutAll(puts: seq<Record>): map<Bytes, Bytes> {
    if puts == [] then map[] else PutFirst(PutAll(puts[..|puts| - 1]), puts[|puts| - 1])
  }

  lemma PutAllNext(puts: seq<Record>, r: Record)
    ensures PutAll(puts + [r]) == PutFirst(PutAll(puts), r)
  {
    assert (puts + [r])[..|puts|] == puts;
  }

  /** After any run of puts, a key is present iff it was put, with its first value. */
  lemma {:induction false} FirstPutWins(puts: seq<Record>, i: nat)
    requires i < |puts| && forall j :: 0 <= j < i ==> puts[j].key != puts[i].key
    ensures puts[i].key in PutAll(puts) && PutAll(puts)[puts[i].key] == puts[i].value
    decreases |puts|
  {
    var init := puts[..|puts| - 1];
    if i < |init| {
      FirstPutWins(init, i);
    } else if puts[i].key in PutAll(init) {
      OnlyPutKeys(init, puts[i].key);
    }
  }

  lemma {:induction false} OnlyPutKeys(puts: seq<Record>, key: Bytes)
    requires key in PutAll(puts)
    ensures exists j :: 0 <= j < |puts| && puts[j].key == key
  {
    var n := |puts| - 1;
    if puts[n].key != key {
      OnlyPutKeys(puts[..n], key);
      var j :| 0 <= j < n && puts[..n][j].key == key;
      assert puts[j].key == key;
    }
  }

  // ---- The table over the store ----

  ghost predicate TableParts(slots: seq<Entry>, index: Live, h2Prime: nat) {
    && TableOk(slots, index, h2Prime)
    && forall e :: e in index ==> e in slots
  }

  ghost predicate Opens(slots: seq<Entry>, index: Live, k: int) { true }

  /** The table finds exactly the indexed records: TableParts, carried around folded. */
  ghost predicate TableHolds(slots: seq<Entry>, index: Live, h2Prime: nat) {
    && PrimeSize(slots, h2Prime)
    && forall k: int {:trigger Opens(slots, index, k)} :: Opens(slots, index, k) ==> TableParts(slots, index, h2Prime)
  }

  lemma UnfoldTable(slots: seq<Entry>, index: Live, h2Prime: nat)
    requires TableHolds(slots, index, h2Prime)
    ensures TableParts(slots, index, h2Prime)
  {
    assert Opens(slots, index, 0);
  }

  /** Storing the location of a record whose key is not yet in the table. */
  lemma {:induction false} InsertRecord(table: seq<Entry>, live: Live, h2Prime: nat, slot: nat, e: Entry, r: Record)
    requires TableHolds(table, live, h2Prime) && slot < |table| && GoodKey(r.key)
    requires Reaches(table, live, h2Prime, r.key, slot) && table[slot].segment == 0
    requires e.segment != 0 && e !in live
    ensures TableHolds(table[slot := e], live[e := r], h2Prime)
  {
    UnfoldTable(table, live, h2Prime);
    InsertKeepsTable(table, live, h2Prime, slot, e, r);
    forall d | d in live || d == e ensures d in table[slot := e] {
      if d == e {
        assert table[slot := e][slot] == e;
      } else {
        var s :| 0 <= s < |table| && table[s] == d;
        assert table[slot := e][s] == d;
      }
    }
  }

  lemma EmptyTable(slots: seq<Entry>, h2Prime: nat)
    requires PrimeSize(slots, h2Prime) && forall s :: 0 <= s < |slots| ==> slots[s] == EMPTY_ENTRY
    ensures TableHolds(slots, map[], h2Prime)
  {}

  /** The taken slots are the indexed locations. */
  lemma TableEntries(slots: seq<Entry>, index: Live, h2Prime: nat)
    requires TableHolds(slots, index, h2Prime)
    ensures forall e: Entry :: e.segment != 0 ==> (e in slots <==> e in index)
  {
    UnfoldTable(slots, index, h2Prime);
  }

  /** Where a lookup stops tells whether the contents have the key, and with which value. */
  lemma {:induction false} LookupMeans(st: Store, slots: seq<Entry>, h2Prime: nat, key: Bytes, slot: nat)
    requires StoreOk(st) && TableHolds(slots, st.index, h2Prime) && slot < |slots|
    requires slots[slot].segment != 0 ==> slots[slot] in st.index && st.index[slots[slot]].key == key
    requires slots[slot].segment == 0 <==> forall s :: 0 <= s < |slots| ==> !Taken(slots, st.index, s, key)
    ensures slots[slot].segment != 0 <==> key in st.contents
    ensures key in st.contents ==> slots[slot] in st.index && st.index[slots[slot]] == Record(key, st.contents[key])
  {
    StoreFacts(st);
    if key in st.contents {
      UnfoldTable(slots, st.index, h2Prime);
      var e :| e in st.index && st.index[e].key == key;
      var s :| 0 <= s < |slots| && slots[s] == e;
      assert Taken(slots, st.index, s, key);
    }
  }

  /** The load limit leaves a slot empty exactly below 100 percent. */
  lemma LoadBelowSize(size: nat, percentage: nat)
    requires size > 0
    ensures size * percentage / 100 < size <==> percentage < 100
  {
    var load := size * percentage;
    if percentage < 100 {
      MulMonotone(size, percentage, 99);
      assert load <= 99 * size;
    } else {
      MulMonotone(size, 100, percentage);
      assert load >= 100 * size;
    }
  }

  method NewTable(size: nat, ghost h2Prime: nat) returns (slots: array<Entry>)
    requires IsPrime(size) && 0 < h2Prime < size
    ensures fresh(slots) && slots.Length == size && TableHolds(slots[..], map[], h2Prime)
  {
    slots := new Entry[size](_ => EMPTY_ENTRY);
    EmptyTable(slots[..], h2Prime);
  }

  /** A put returns, or panics: for its arguments, or for want of a larger table size. */
  datatype PutOutcome = KeyTooShort | KeyTooLong | ValuesNotEnabled | NoLargerSize | Done(added: bool)

  class InternalMap {
    const hasValues: bool
    const opts: Options
    const sizes: seq<nat>
    const maps: nat -> bool // whether mapping a file for the n-th segment works

    var tableSizeIndex: nat
    var segments: seq<Bytes>
    var capacity: nat // of the last segment
    var slots: array<Entry>
    var count: nat
    var h2Prime: nat

    ghost var store: Store
    ghost var puts: seq<Record> // every completed put, whether it added its key or not

    /** The contents are what the puts so far amount to. */
    ghost predicate Faithful()
      reads this`store, this`puts
    {
      Contents() == PutAll(puts)
    }

    /** The finite map that this object represents. */
    ghost function Contents(): map<Bytes, Bytes>
      reads this`store
    {
      store.contents
    }

    ghost predicate ValidData()
      reads this`segments, this`store
    {
      && store.hasValues == hasValues
      && store.segments == segments
      && StoreOk(store)
    }

    ghost predicate ValidCapacity()
      reads this`segments, this`capacity
      requires segments != []
    {
      |segments[|segments| - 1]| <= capacity < LIMIT_32
    }

    ghost predicate Valid()
      reads this`tableSizeIndex, this`segments, this`capacity, this`slots, this`count, this`h2Prime, this`store, slots
    {
      && ValidData()
      && GoodOptions(opts)
      && ValidCapacity()
      && PrimeTable(sizes)
      && 1 <= tableSizeIndex < |sizes|
      && slots.Length == sizes[tableSizeIndex]
      && h2Prime == sizes[tableSizeIndex - 1]
      && TableHolds(slots[..], store.index, h2Prime)
      && count == |Contents()| < slots.Length
    }

    constructor Init(hasValues: bool, opts: Options, sizes: seq<nat>, maps: nat -> bool, tableSizeIndex: nat)
      requires PrimeTable(sizes) && 1 <= tableSizeIndex < |sizes|
      ensures (Valid() <==> GoodOptions(opts)) && fresh(slots) && Contents() == map[] && puts == [] && Faithful()
      ensures this.hasValues == hasValues && this.opts == opts && this.sizes == sizes && this.maps == maps
      ensures this.tableSizeIndex == tableSizeIndex && segments == [[]]
      ensures capacity == if opts.numMemorySegments > 0 || !maps(0) then opts.memorySegmentSize
                          else opts.fileSegmentSize
    {
      this.hasValues, this.opts, this.sizes, this.maps := hasValues, opts, sizes, maps;
      this.tableSizeIndex := tableSizeIndex;
      h2Prime := sizes[tableSizeIndex - 1];
      slots := new Entry[sizes[tableSizeIndex]](_ => EMPTY_ENTRY);
      segments := [[]];
      capacity := if opts.numMemorySegments == 0 && maps(0) then opts.fileSegmentSize else opts.memorySegmentSize;
      count := 0;
      store := Store(hasValues, [[]], [[]], map[], map[]);
      puts := [];
      EmptyStoreOk(hasValues);
      new;
      SizeAt(sizes, tableSizeIndex);
      EmptyTable(slots[..], h2Prime);
    }

    /** bytes.Equal of key and the key of the record that a slot refers to. */
    method KeyEquals(e: Entry, key: Bytes, ghost live: Live) returns (equal: bool)
      requires ValidData() && Readable(store, live) && e in live
      ensures equal <==> live[e].key == key
    {
      assert ReadableAt(store, e, live[e]);
      var data := segments[e.segment - 1];
      var koff := e.offset;
      equal := key == data[koff + 1..koff + 1 + data[koff]];
    }

    /** Probes for key; stops within slots.Length probes, at the key's own slot
        or, exactly when the key is absent, at an empty one. */
    method FindSlotInSlice(key: Bytes, slots: array<Entry>, h2Prime: nat, ghost live: Live)
      returns (slot: nat, ghost probes: nat)
      requires ValidData() && Readable(store, live)
      requires |key| >= MIN_KEY_LENGTH && TableOk(slots[..], live, h2Prime)
      requires exists s: nat :: s < slots.Length && slots[..][s].segment == 0
      ensures slot < slots.Length && probes < slots.Length
      ensures slot == SlotAt(slots.Length, h2Prime, key, probes)
      ensures Reaches(slots[..], live, h2Prime, key, slot)
      ensures slots[slot].segment != 0 ==> slots[slot] in live && live[slots[slot]].key == key
      ensures slots[slot].segment == 0 <==> forall s :: 0 <= s < slots.Length ==> !Taken(slots[..], live, s, key)
    {
      ghost var table := slots[..];
      slot := HashValue(key) % slots.Length;
      var delta := H2(key) % h2Prime;
      if delta == 0 {
        delta := 1;
      }
      probes := 0;
      SlotAtStart(slots.Length, h2Prime, key);
      var same := slots[slot].segment == 0;
      if !same {
        same := KeyEquals(slots[slot], key, live);
      }
      PassesBound(table, live, h2Prime, key, 0);
      while !same
        invariant slot == SlotAt(slots.Length, h2Prime, key, probes) && probes < slots.Length
        invariant Passes(table, live, h2Prime, key, probes)
        invariant same <==> slots[slot].segment == 0 || live[slots[slot]].key == key
        decreases slots.Length - probes
      {
        PassesNext(table, live, h2Prime, key, probes);
        slot := (slot + delta) % slots.Length;
        probes := probes + 1;
        same := slots[slot].segment == 0;
        if !same {
          same := KeyEquals(slots[slot], key, live);
        }
      }
      StopMeans(table, live, h2Prime, key, slot);
    }

    method FindSlot(key: Bytes) returns (slot: nat)
      requires Valid() && |key| >= MIN_KEY_LENGTH
      ensures slot < slots.Length
      ensures Reaches(slots[..], store.index, h2Prime, key, slot)
      ensures slots[slot].segment != 0 <==> key in Contents()
      ensures key in Contents() ==>
                slots[slot] in store.index && store.index[slots[slot]] == Record(key, Contents()[key])
    {
      StoreFacts(store);
      UnfoldTable(slots[..], store.index, h2Prime);
      HasEmptySlot(slots[..], store.index, h2Prime, Contents().Keys);
      ghost var probes;
      slot, probes := FindSlotInSlice(key, slots, h2Prime, store.index);
      LookupMeans(store, slots[..], h2Prime, key, slot);
    }

    method Contains(key: Bytes) returns (found: bool)
      requires Valid() && |key| >= MIN_KEY_LENGTH
      ensures found <==> key in Contents()
    {
      var slot := FindSlot(key);
      found := slots[slot].segment != 0;
    }

    /** Appends the value of key to buf; a map without values returns no bytes at all. */
    method Get(buf: Bytes, key: Bytes) returns (result: Bytes, found: bool)
      requires Valid() && |key| >= MIN_KEY_LENGTH
      ensures found <==> key in Contents()
      ensures result == if found && hasValues then buf + Contents()[key] else []
    {
      var slot := FindSlot(key);
      var e := slots[slot];
      if e.segment == 0 {
        return [], false;
      }
      if !hasValues {
        return [], true;
      }
      StoreFacts(store);
      assert ReadableAt(store, e, store.index[e]);
      ReadValueExact(store, e, store.index[e]);
      var data := segments[e.segment - 1];
      return buf + ReadValue(data, e.offset).value, true;
    }

    /** Stores the location of a record whose key is not in the table yet. */
    method Place(newSlots: array<Entry>, newH2Prime: nat, e: Entry, key: Bytes,
                 ghost live: Live, ghost r: Record, ghost keys: set<Bytes>)
      requires ValidData() && Readable(store, live)
      requires e.segment != 0 && e !in live && r.key == key && GoodKey(key)
      requires forall d :: d in live ==> live[d].key in keys && live[d].key != key
      requires |keys| < newSlots.Length
      requires TableHolds(newSlots[..], live, newH2Prime)
      modifies newSlots
      ensures TableHolds(newSlots[..], live[e := r], newH2Prime)
    {
      UnfoldTable(newSlots[..], live, newH2Prime);
      HasEmptySlot(newSlots[..], live, newH2Prime, keys);
      ghost var probes;
      var slot;
      slot, probes := FindSlotInSlice(key, newSlots, newH2Prime, live);
      InsertRecord(newSlots[..], live, newH2Prime, slot, e, r);
      newSlots[slot] := e;
    }

    /** Re-reads the record at p, places it, and returns where the next one starts. */
    method RehashRecord(segNum: nat, p: nat, newSlots: array<Entry>, newH2Prime: nat, ghost j: nat) returns (next: nat)
      requires ValidData() && InRange(store, segNum, j) && p == OffsetIn(store, segNum, j)
      requires |Contents()| < newSlots.Length
      requires TableHolds(newSlots[..], Prefix(store.index, segNum + 1, p), newH2Prime)
      modifies newSlots
      ensures next == OffsetIn(store, segNum, j + 1)
      ensures TableHolds(newSlots[..], Prefix(store.index, segNum + 1, next), newH2Prime)
    {
      ScanFinds(store, segNum, j);
      NextIsNew(store, segNum, j);
      var (key, after) := Scan(hasValues, segments[segNum], p).value;
      next := after;
      Place(newSlots, newH2Prime, Entry(U32(segNum) + 1, U32(p)), key,
            Prefix(store.index, segNum + 1, p), store.recs[segNum][j], Contents().Keys);
    }

    /** Re-reads one segment from its first byte. */
    method RehashSegment(segNum: nat, newSlots: array<Entry>, newH2Prime: nat)
      requires ValidData() && segNum < |segments| && |Contents()| < newSlots.Length
      requires TableHolds(newSlots[..], Prefix(store.index, segNum + 1, 0), newH2Prime)
      modifies newSlots
      ensures TableHolds(newSlots[..], Prefix(store.index, segNum + 2, 0), newH2Prime)
    {
      var seg := segments[segNum];
      var p := 0;
      ghost var last, j := |store.recs[segNum]|, 0;
      ScanEnds(store, segNum);
      while p < |seg| && seg[p] != 0
        invariant 0 <= j <= last && p == OffsetIn(store, segNum, j) && (j == last ==> p == |seg|)
        invariant TableHolds(newSlots[..], Prefix(store.index, segNum + 1, p), newH2Prime)
        decreases last - j
      {
        p := RehashRecord(segNum, p, newSlots, newH2Prime, j);
        j := j + 1;
      }
      if j < last {
        ScanFinds(store, segNum, j);
      }
      PrefixNextSegment(store, segNum);
    }

    /** Re-reads all segments into an empty table. */
    method RehashAll(newSlots: array<Entry>, newH2Prime: nat)
      requires ValidData() && |Contents()| < newSlots.Length
      requires TableHolds(newSlots[..], map[], newH2Prime)
      modifies newSlots
      ensures TableHolds(newSlots[..], store.index, newH2Prime)
    {
      PrefixAll(store);
      for segNum := 0 to |segments|
        invariant TableHolds(newSlots[..], Prefix(store.index, segNum + 1, 0), newH2Prime)
      {
        RehashSegment(segNum, newSlots, newH2Prime);
      }
    }

    /** Rebuilds the table at a larger size by re-reading the records in the segments.
        Every record keeps its location. */
    method GrowLocked(newSize: nat)
      requires ValidData() && TableHolds(slots[..], store.index, h2Prime)
      requires IsPrime(newSize) && slots.Length < newSize && |Contents()| < newSize
      modifies this`slots, this`h2Prime
      ensures fresh(slots) && slots.Length == newSize && h2Prime == old(slots.Length)
      ensures TableHolds(slots[..], store.index, h2Prime)
      ensures forall e: Entry :: e.segment != 0 ==> (e in slots[..] <==> e in old(slots[..]))
    {
      TableEntries(slots[..], store.index, h2Prime);
      var newSlots := NewTable(newSize, slots.Length);
      var newH2Prime := slots.Length;
      RehashAll(newSlots, newH2Prime);
      TableEntries(newSlots[..], store.index, newH2Prime);
      h2Prime := newH2Prime;
      slots := newSlots;
    }

    /** Starts a new segment unless payloadLength more bytes fit in the last one. A segment past
        the number kept in memory is a mapped file, or memory again when mapping fails. */
    method EnsureRoom(payloadLength: nat)
      requires ValidData() && GoodOptions(opts) && ValidCapacity() && |segments| + 1 < LIMIT_32
      modifies this`segments, this`capacity, this`store
      ensures ValidData() && ValidCapacity()
      ensures if |old(segments[|segments| - 1])| + payloadLength <= old(capacity)
              then segments == old(segments) && capacity == old(capacity)
              else
                && segments == old(segments) + [[]]
                && capacity == if |old(segments)| < opts.numMemorySegments || !maps(|old(segments)|)
                               then opts.memorySegmentSize else opts.fileSegmentSize
      ensures store.index == old(store.index) && Contents() == old(Contents())
    {
      if |segments[|segments| - 1]| + payloadLength > capacity {
        StartSegmentKeeps(store);
        if |segments| >= opts.numMemorySegments && maps(|segments|) {
          capacity := opts.fileSegmentSize;
        } else {
          capacity := opts.memorySegmentSize;
        }
        segments := segments + [[]];
        store := StartSegment(store);
      }
    }

    /** Appends a record to the last segment; a record longer than the segment's capacity
        makes the segment grow to some larger capacity. */
    method AppendBytes(key: Bytes, value: Bytes)
      requires ValidData() && ValidCapacity()
      requires key !in Contents() && GoodRecord(hasValues, Record(key, value))
      requires |segments[|segments| - 1]| + 1 + |key| + MAX_VARINT_LEN_32 + |value| < LIMIT_32
      modifies this`segments, this`capacity, this`store
      ensures ValidData() && ValidCapacity()
      ensures NextEntry(old(store)) !in old(store.index) && store == Append(old(store), Record(key, value))
    {
      ghost var r := Record(key, value);
      UvarintLength(|value|);
      AppendKeeps(store, r);
      var n := |segments| - 1;
      var current := segments[n];
      current := current + [|key|];
      current := current + key;
      if hasValues {
        current := current + PutUvarint(|value|);
        current := current + value;
      }
      assert current == segments[n] + Encode(hasValues, r);
      segments := segments[n := current];
      store := Append(store, r);
      if |current| > capacity {
        capacity := *;
        if !(|current| <= capacity < LIMIT_32) {
          capacity := |current|;
        }
      }
    }

    /** Writes the record of a new key, in a new segment if need be, and returns its location. */
    method WriteRecord(key: Bytes, value: Bytes) returns (e: Entry)
      requires ValidData() && ValidCapacity() && GoodOptions(opts)
      requires key !in Contents() && GoodRecord(hasValues, Record(key, value))
      requires 1 + |key| + MAX_VARINT_LEN_32 + |value| < LIMIT_32 && |segments| + 1 < LIMIT_32
      modifies this`segments, this`capacity, this`store
      ensures ValidData() && ValidCapacity()
      ensures e.segment != 0 && e !in old(store.index)
      ensures store.index == old(store.index)[e := Record(key, value)]
      ensures Contents() == old(Contents())[key := value]
    {
      var payloadLength := 1 + |key| + MAX_VARINT_LEN_32 + |value|;
      EnsureRoom(payloadLength);
      var koff := |segments[|segments| - 1]|;
      U32Exact(koff);
      AppendBytes(key, value);
      U32Exact(|segments|);
      e := Entry(U32(|segments|), U32(koff));
    }

    /** The insertion proper, at the empty slot that probing for the key arrives at. */
    method Insert(slot: nat, key: Bytes, value: Bytes)
      requires Valid() && GoodRecord(hasValues, Record(key, value)) && key !in Contents()
      requires slot < slots.Length && slots[slot].segment == 0
      requires Reaches(slots[..], store.index, h2Prime, key, slot) && count + 1 < slots.Length
      requires 1 + |key| + MAX_VARINT_LEN_32 + |value| < LIMIT_32 && |segments| + 1 < LIMIT_32
      modifies this`segments, this`capacity, this`store, this`count, slots
      ensures Valid() && Contents() == old(Contents())[key := value]
    {
      var e := WriteRecord(key, value);
      InsertRecord(slots[..], old(store.index), h2Prime, slot, e, Record(key, value));
      slots[slot] := e;
      count := count + 1;
    }

    /** The load limit is reached. */
    predicate AtLimit()
      reads this`slots, this`count
    {
      count >= slots.Length * opts.loadFactorPercentage / 100
    }

    /** It is reached when one more key would be more than the given percentage of the slots. */
    lemma LimitMeans()
      requires Valid()
      ensures AtLimit() <==> 100 * (|Contents()| + 1) > slots.Length * opts.loadFactorPercentage
    {}

    /** A record that is added has to fit in 32-bit offsets. */
    ghost predicate Fits(key: Bytes, value: Bytes)
      reads this`segments, this`store
    {
      key !in Contents() ==> 1 + |key| + MAX_VARINT_LEN_32 + |value| < LIMIT_32 && |segments| + 1 < LIMIT_32
    }

    /** Adds (key, value) unless the key is present: PutFirst on the contents. */
    method PutIfAbsent(key: Bytes, value: Bytes) returns (outcome: PutOutcome)
      requires Valid() && (GoodRecord(hasValues, Record(key, value)) ==> Fits(key, value))
      modifies this, slots
      ensures outcome.KeyTooShort? <==> |key| < MIN_KEY_LENGTH
      ensures outcome.KeyTooLong? <==> |key| > MAX_KEY_LENGTH
      ensures outcome.ValuesNotEnabled? <==> GoodKey(key) && !hasValues && value != []
      ensures outcome.NoLargerSize? <==>
                && GoodKey(key) && (hasValues || value == []) && key !in old(Contents())
                && 100 * (|old(Contents())| + 1) > old(slots.Length) * opts.loadFactorPercentage
                && old(tableSizeIndex) + 1 == |sizes|
      ensures outcome.NoLargerSize? ==> slots == old(slots) && tableSizeIndex == |sizes|
      ensures !outcome.NoLargerSize? ==> Valid()
      ensures outcome != NoLargerSize ==>
                if outcome == Done(true) &&
                   100 * (|old(Contents())| + 1) > old(slots.Length) * opts.loadFactorPercentage
                then fresh(slots) && tableSizeIndex == old(tableSizeIndex) + 1
                else slots == old(slots) && tableSizeIndex == old(tableSizeIndex)
      ensures outcome.Done? ==> outcome.added == (key !in old(Contents()))
      ensures Contents() == if outcome.Done? then PutFirst(old(Contents()), Record(key, value)) else old(Contents())
      ensures puts == if outcome.Done? then old(puts) + [Record(key, value)] else old(puts)
      ensures old(Faithful()) ==> Faithful()
    {
      if |key| < MIN_KEY_LENGTH {
        outcome := KeyTooShort;
      } else if |key| > MAX_KEY_LENGTH {
        outcome := KeyTooLong;
      } else if !hasValues && |value| > 0 {
        outcome := ValuesNotEnabled;
      } else {
        outcome := PutChecked(key, value);
        if outcome.Done? {
          RecordPut(Record(key, value), old(Contents()));
        }
      }
    }

    /** Adds to the history of puts; no real effect. */
    ghost method RecordPut(r: Record, before: map<Bytes, Bytes>)
      requires Contents() == PutFirst(before, r)
      modifies this`puts
      ensures puts == old(puts) + [r]
      ensures before == PutAll(old(puts)) ==> Faithful()
    {
      PutAllNext(puts, r);
      puts := puts + [r];
    }

    /** PutIfAbsent for a key and a value that the map can hold. */
    method PutChecked(key: Bytes, value: Bytes) returns (outcome: PutOutcome)
      requires Valid() && GoodRecord(hasValues, Record(key, value)) && Fits(key, value)
      modifies this`tableSizeIndex, this`segments, this`capacity, this`slots, this`count, this`h2Prime, this`store,
        slots
      ensures outcome == if key in old(Contents()) then Done(false)
                         else if 100 * (|old(Contents())| + 1) > old(slots.Length) * opts.loadFactorPercentage &&
                                 old(tableSizeIndex) + 1 == |sizes| then NoLargerSize
                         else Done(true)
      ensures outcome.Done? ==>
                if outcome == Done(true) &&
                   100 * (|old(Contents())| + 1) > old(slots.Length) * opts.loadFactorPercentage
                then fresh(slots) && tableSizeIndex == old(tableSizeIndex) + 1
                else slots == old(slots) && tableSizeIndex == old(tableSizeIndex)
      ensures outcome.Done? ==>
                && Valid()
                && Contents() == PutFirst(old(Contents()), Record(key, value))
      ensures outcome.NoLargerSize? ==>
                slots == old(slots) && tableSizeIndex == |sizes| && Contents() == old(Contents())
    {
      LimitMeans();
      var slot := FindSlot(key);
      if slots[slot].segment != 0 {
        return Done(false);
      }
      if AtLimit() && tableSizeIndex + 1 == |sizes| {
        tableSizeIndex := tableSizeIndex + 1;
        return NoLargerSize;
      }
      slot := GrowIfLoaded(slot, key);
      Insert(slot, key, value);
      return Done(true);
    }

    /** Grows the table when it has reached its load limit; returns the slot for an absent key. */
    method GrowIfLoaded(slot0: nat, key: Bytes) returns (slot: nat)
      requires Valid() && |key| >= MIN_KEY_LENGTH && key !in Contents() && (AtLimit() ==> tableSizeIndex + 1 < |sizes|)
      requires slot0 < slots.Length && slots[slot0].segment == 0
      requires Reaches(slots[..], store.index, h2Prime, key, slot0)
      modifies this`tableSizeIndex, this`slots, this`h2Prime
      ensures Valid()
      ensures if 100 * (|old(Contents())| + 1) > old(slots.Length) * opts.loadFactorPercentage
              then fresh(slots) && tableSizeIndex == old(tableSizeIndex) + 1
              else slots == old(slots) && tableSizeIndex == old(tableSizeIndex)
      ensures slot < slots.Length && slots[slot].segment == 0
      ensures Reaches(slots[..], store.index, h2Prime, key, slot) && count + 1 < slots.Length
    {
      slot := slot0;
      LimitMeans();
      LoadBelowSize(slots.Length, opts.loadFactorPercentage);
      if AtLimit() {
        tableSizeIndex := tableSizeIndex + 1;
        SizeAt(sizes, tableSizeIndex);
        GrowLocked(sizes[tableSizeIndex]);
        slot := FindSlot(key);
      }
    }
  }

  /** A new map, an error, or a panic where the table of sizes is indexed past its end. */
  datatype NewResult = InvalidInitialSize | InitialSizeTooLarge | New(m: InternalMap)

  /** newInternalMapWithOptions; a nil Options is all zeroes. The initial size is given as a
      logarithm and picks a table size; there must be a smaller one for the secondary hash. The
      map is usable exactly if its options are good. */
  method NewInternalMap(hasValues: bool, options: Options, sizes: seq<nat>, maps: nat -> bool) returns (r: NewResult)
    requires PrimeTable(sizes)
    ensures var log := ApplyDefaults(options).initialSizeLogarithm;
            && (r.InvalidInitialSize? <==> log <= MIN_SIZE_LOGARITHM)
            && (r.InitialSizeTooLarge? <==> log > MIN_SIZE_LOGARITHM && log - MIN_SIZE_LOGARITHM >= |sizes|)
    ensures r.New? ==> (r.m.Valid() <==> GoodOptions(ApplyDefaults(options)))
    ensures r.New? ==> fresh(r.m) && fresh(r.m.slots) && r.m.Contents() == map[] && r.m.puts == [] && r.m.Faithful()
    ensures r.New? ==> r.m.hasValues == hasValues && r.m.opts == ApplyDefaults(options) && r.m.sizes == sizes
    ensures r.New? ==> r.m.tableSizeIndex == r.m.opts.initialSizeLogarithm - MIN_SIZE_LOGARITHM
  {
    var opts := ApplyDefaults(options);
    var tableSizeIndex := opts.initialSizeLogarithm - MIN_SIZE_LOGARITHM;
    if tableSizeIndex < 1 {
      return InvalidInitialSize;
    }
    if tableSizeIndex >= |sizes| {
      return InitialSizeTooLarge;
    }
    var m := new InternalMap.Init(hasValues, opts, sizes, maps, tableSizeIndex);
    return New(m);
  }
}
