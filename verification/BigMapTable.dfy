/** Double hashing over a prime-sized slot table, as a value: which slot a key
    belongs to, and why a lookup finds it. */
module BigMapTable {
  import opened Primes
  import opened BigMapRecords

  /** A slot: segment 0 is an empty slot, otherwise the 1-based segment number and
      the offset of a record in it. */
  datatype Entry = Entry(segment: nat, offset: nat)

  const EMPTY_ENTRY := Entry(0, 0)

  function BigEndian(s: Bytes): nat {
    if s == [] then 0 else BigEndian(s[..|s| - 1]) * 256 + s[|s| - 1]
  }

  function HashValue(key: Bytes): nat
    requires |key| >= MIN_KEY_LENGTH
  {
    if |key| < 8 then BigEndian(key[..4]) else BigEndian(key[..8])
  }

  /** The secondary hash; short keys are probed linearly. */
  function H2(key: Bytes): nat {
    if |key| < 16 then 1 else BigEndian(key[8..16])
  }

  lemma {:induction false} BigEndianInjective(s: Bytes, t: Bytes)
    requires |s| == |t|
    ensures BigEndian(s) == BigEndian(t) <==> s == t
  {
    if s != [] {
      var n := |s| - 1;
      BigEndianInjective(s[..n], t[..n]);
      assert s == s[..n] + [s[n]] && t == t[..n] + [t[n]];
    }
  }

  lemma {:induction false} BigEndianBound(s: Bytes)
    ensures |s| == 4 ==> BigEndian(s) < 0x1_0000_0000
    ensures |s| == 8 ==> BigEndian(s) < 0x1_0000_0000_0000_0000
  {
    if |s| == 4 {
      assert BigEndian(s[..0]) == 0;
      assert s[..3][..2] == s[..2] && s[..2][..1] == s[..1] && s[..1][..0] == s[..0];
      assert BigEndian(s[..1]) < 0x100 && BigEndian(s[..2]) < 0x1_0000 && BigEndian(s[..3]) < 0x100_0000;
    } else if |s| == 8 {
      BigEndianBound(s[..4]);
      assert s[..7][..6] == s[..6] && s[..6][..5] == s[..5] && s[..5][..4] == s[..4];
      assert BigEndian(s[..5]) < 0x100_0000_0000 && BigEndian(s[..6]) < 0x1_0000_0000_0000;
      assert BigEndian(s[..7]) < 0x100_0000_0000_0000;
    }
  }

  /** The primary hash tells keys apart by their first eight bytes, or four of a shorter key, and fits in
      64 bits; the secondary one by the next eight, where there are as many. */
  lemma {:induction false} HashesTellApart(k: Bytes, k': Bytes)
    requires |k| >= MIN_KEY_LENGTH && |k'| >= MIN_KEY_LENGTH
    ensures HashValue(k) < 0x1_0000_0000_0000_0000
    ensures |k| < 8 && |k'| < 8 ==> (HashValue(k) == HashValue(k') <==> k[..4] == k'[..4])
    ensures |k| >= 8 && |k'| >= 8 ==> (HashValue(k) == HashValue(k') <==> k[..8] == k'[..8])
    ensures |k| >= 16 && |k'| >= 16 ==> (H2(k) == H2(k') <==> k[8..16] == k'[8..16])
    ensures |k| < 16 ==> H2(k) == 1
  {
    BigEndianBound(if |k| < 8 then k[..4] else k[..8]);
    if |k| < 8 && |k'| < 8 {
      BigEndianInjective(k[..4], k'[..4]);
    }
    if |k| >= 8 && |k'| >= 8 {
      BigEndianInjective(k[..8], k'[..8]);
    }
    if |k| >= 16 && |k'| >= 16 {
      BigEndianInjective(k[8..16], k'[8..16]);
    }
  }

  function Step(key: Bytes, h2Prime: nat): (delta: nat)
    requires h2Prime > 0
    ensures 1 <= delta && (delta < h2Prime || delta == 1)
  {
    var delta := H2(key) % h2Prime;
    if delta == 0 then 1 else delta
  }

  /** The slot at which the i-th probe for key looks. */
  function SlotAt(size: nat, h2Prime: nat, key: Bytes, i: nat): (slot: nat)
    requires size > 0 && h2Prime > 0 && |key| >= MIN_KEY_LENGTH
    ensures slot < size
  {
    Probe(size, HashValue(key) % size, Step(key, h2Prime), i)
  }

  lemma SlotAtStart(size: nat, h2Prime: nat, key: Bytes)
    requires size > 0 && h2Prime > 0 && |key| >= MIN_KEY_LENGTH
    ensures SlotAt(size, h2Prime, key, 0) == HashValue(key) % size
  {
    DivModUnique(size, HashValue(key) % size, 0, HashValue(key) % size);
  }

  /** The records that the table's entries refer to. */
  type Live = map<Entry, Record>

  ghost predicate Taken(slots: seq<Entry>, live: Live, s: nat, key: Bytes)
    requires s < |slots|
  {
    slots[s].segment != 0 && slots[s] in live && live[slots[s]].key == key
  }

  ghost predicate TakenByOther(slots: seq<Entry>, live: Live, s: nat, key: Bytes)
    requires s < |slots|
  {
    slots[s].segment != 0 && slots[s] in live && live[slots[s]].key != key
  }

  /** The first i probes for key meet only slots taken by other keys. */
  ghost predicate Passes(slots: seq<Entry>, live: Live, h2Prime: nat, key: Bytes, i: nat)
    requires |slots| > 0 && h2Prime > 0 && |key| >= MIN_KEY_LENGTH
  {
    forall j: nat :: j < i ==> TakenByOther(slots, live, SlotAt(|slots|, h2Prime, key, j), key)
  }

  /** Probing for key arrives at slot s. */
  ghost predicate Reaches(slots: seq<Entry>, live: Live, h2Prime: nat, key: Bytes, s: nat)
    requires |slots| > 0 && h2Prime > 0 && |key| >= MIN_KEY_LENGTH
  {
    exists i: nat :: Passes(slots, live, h2Prime, key, i) && SlotAt(|slots|, h2Prime, key, i) == s
  }

  ghost predicate PrimeSize(slots: seq<Entry>, h2Prime: nat) {
    IsPrime(|slots|) && 0 < h2Prime < |slots|
  }

  /** Every taken slot refers to a live record and is where probing for its key arrives. */
  ghost predicate TableOk(slots: seq<Entry>, live: Live, h2Prime: nat) {
    && PrimeSize(slots, h2Prime)
    && (forall e :: e in live ==> e.segment != 0 && GoodKey(live[e].key))
    && (forall s: nat :: s < |slots| && slots[s].segment != 0 ==>
          slots[s] in live && Reaches(slots, live, h2Prime, live[slots[s]].key, s))
  }

  /** Probing is deterministic: it can stop at one slot only. */
  lemma {:induction false} StopsAtOneSlot(slots: seq<Entry>, live: Live, h2Prime: nat, key: Bytes, s: nat, t: nat)
    requires PrimeSize(slots, h2Prime) && |key| >= MIN_KEY_LENGTH && s < |slots| && t < |slots|
    requires Reaches(slots, live, h2Prime, key, s) && !TakenByOther(slots, live, s, key)
    requires Reaches(slots, live, h2Prime, key, t) && !TakenByOther(slots, live, t, key)
    ensures s == t
  {}

  /** A lookup that stops at s has found its key, or shown it absent. */
  lemma {:induction false} LookupExact(slots: seq<Entry>, live: Live, h2Prime: nat, key: Bytes, s: nat, t: nat)
    requires TableOk(slots, live, h2Prime) && |key| >= MIN_KEY_LENGTH && s < |slots| && t < |slots|
    requires Reaches(slots, live, h2Prime, key, s) && !TakenByOther(slots, live, s, key)
    requires Taken(slots, live, t, key)
    ensures s == t
  {}

  /** A table with fewer keys than slots has an empty slot. */
  lemma {:induction false} HasEmptySlot(slots: seq<Entry>, live: Live, h2Prime: nat, keys: set<Bytes>)
    requires TableOk(slots, live, h2Prime)
    requires forall e :: e in live ==> live[e].key in keys
    requires |keys| < |slots|
    ensures exists s: nat :: s < |slots| && slots[s].segment == 0
  {
    if forall s: nat :: s < |slots| ==> slots[s].segment != 0 {
      var ks := seq(|slots|, s requires 0 <= s < |slots| => live[slots[s]].key);
      forall s, t | 0 <= s < t < |ks| ensures ks[s] != ks[t] {
        if ks[s] == ks[t] {
          StopsAtOneSlot(slots, live, h2Prime, ks[s], s, t);
        }
      }
      DistinctFits(ks, keys);
    }
  }

  /** Probing cannot pass an empty slot, so it ends within |slots| probes. */
  lemma {:induction false} PassesBound(slots: seq<Entry>, live: Live, h2Prime: nat, key: Bytes, i: nat)
    requires PrimeSize(slots, h2Prime) && |key| >= MIN_KEY_LENGTH
    requires Passes(slots, live, h2Prime, key, i)
    requires exists s: nat :: s < |slots| && slots[s].segment == 0
    ensures i < |slots|
  {
    var s: nat :| s < |slots| && slots[s].segment == 0;
    ProbeCoverage(|slots|, HashValue(key) % |slots|, Step(key, h2Prime), s);
    var k: nat :| k < |slots| && Probe(|slots|, HashValue(key) % |slots|, Step(key, h2Prime), k) == s;
    assert SlotAt(|slots|, h2Prime, key, k) == s;
  }

  /** One more probe, past a slot taken by another key. */
  lemma {:induction false} PassesNext(slots: seq<Entry>, live: Live, h2Prime: nat, key: Bytes, i: nat)
    requires PrimeSize(slots, h2Prime) && |key| >= MIN_KEY_LENGTH && Passes(slots, live, h2Prime, key, i)
    requires exists s: nat :: s < |slots| && slots[s].segment == 0
    requires TakenByOther(slots, live, SlotAt(|slots|, h2Prime, key, i), key)
    ensures Passes(slots, live, h2Prime, key, i + 1) && i + 1 < |slots|
    ensures SlotAt(|slots|, h2Prime, key, i + 1) == (SlotAt(|slots|, h2Prime, key, i) + Step(key, h2Prime)) % |slots|
  {
    assert Passes(slots, live, h2Prime, key, i + 1);
    PassesBound(slots, live, h2Prime, key, i + 1);
    ProbeNext(|slots|, HashValue(key) % |slots|, Step(key, h2Prime), i);
  }

  /** What stopping at a slot means: it is the key's, or empty exactly when no slot is. */
  lemma {:induction false} StopMeans(slots: seq<Entry>, live: Live, h2Prime: nat, key: Bytes, s: nat)
    requires TableOk(slots, live, h2Prime) && |key| >= MIN_KEY_LENGTH && s < |slots|
    requires Reaches(slots, live, h2Prime, key, s) && !TakenByOther(slots, live, s, key)
    ensures slots[s].segment != 0 ==> slots[s] in live && live[slots[s]].key == key
    ensures slots[s].segment == 0 <==> forall t :: 0 <= t < |slots| ==> !Taken(slots, live, t, key)
  {
    forall t: nat | t < |slots| && Taken(slots, live, t, key) ensures t == s {
      LookupExact(slots, live, h2Prime, key, s, t);
    }
    assert slots[s].segment != 0 ==> Taken(slots, live, s, key);
  }

  /** An empty slot is needed: in a full table probing for an absent key never stops. */
  lemma {:induction false} FullTableNeverStops(slots: seq<Entry>, live: Live, h2Prime: nat, key: Bytes, i: nat)
    requires TableOk(slots, live, h2Prime) && |key| >= MIN_KEY_LENGTH
    requires forall s: nat :: s < |slots| ==> slots[s].segment != 0 && !Taken(slots, live, s, key)
    ensures Passes(slots, live, h2Prime, key, i)
  {
    forall j: nat | j < i ensures TakenByOther(slots, live, SlotAt(|slots|, h2Prime, key, j), key) {
      var s := SlotAt(|slots|, h2Prime, key, j);
      assert slots[s].segment != 0 && !Taken(slots, live, s, key);
    }
  }

  /** Filling the empty slot that probing for a new key arrives at keeps the table right. */
  lemma {:induction false} InsertKeepsTable(slots: seq<Entry>, live: Live, h2Prime: nat, s: nat, e: Entry, r: Record)
    requires TableOk(slots, live, h2Prime) && GoodKey(r.key) && s < |slots|
    requires slots[s].segment == 0 && e.segment != 0 && e !in live
    requires Reaches(slots, live, h2Prime, r.key, s)
    ensures TableOk(slots[s := e], live[e := r], h2Prime)
  {}
}
