/** The byte format of bigmap segments: records packed back to back as
    [key length][key] and, in maps that have values, [uvarint value length][value]. */
module BigMapRecords {

  type byte = x: int | 0 <= x < 256
  type Bytes = seq<byte>

  datatype Record = Record(key: Bytes, value: Bytes)

  const MIN_KEY_LENGTH := 4
  const MAX_KEY_LENGTH := 255
  const MAX_VARINT_LEN_32 := 5

  /** binary.PutUvarint: seven bits a byte, least significant first. */
  function PutUvarint(x: nat): (s: Bytes)
    ensures |s| >= 1
    decreases x
  {
    if x < 128 then [x] else [128 + x % 128] + PutUvarint(x / 128)
  }

  /** binary.Uvarint: the number at the front of s and how many bytes it takes;
      (0, 0) when s ends before the number does. */
  function Uvarint(s: Bytes): (r: (nat, nat))
    ensures r.1 <= |s|
  {
    if s == [] then (0, 0)
    else if s[0] < 128 then (s[0], 1)
    else
      var (v, n) := Uvarint(s[1..]);
      if n == 0 then (0, 0) else (s[0] - 128 + 128 * v, n + 1)
  }

  /** Reading a uvarint undoes writing it, whatever follows. */
  lemma {:induction false} UvarintRoundTrip(x: nat, rest: Bytes)
    ensures Uvarint(PutUvarint(x) + rest) == (x, |PutUvarint(x)|)
    decreases x
  {
    var s := PutUvarint(x) + rest;
    if x >= 128 {
      UvarintRoundTrip(x / 128, rest);
      assert s[1..] == PutUvarint(x / 128) + rest;
    }
  }

  /** A number that is cut off is not read at all. */
  lemma {:induction false} UvarintCutOff(x: nat, n: nat)
    requires n < |PutUvarint(x)|
    ensures Uvarint(PutUvarint(x)[..n]) == (0, 0)
    decreases x
  {
    if n > 0 {
      UvarintCutOff(x / 128, n - 1);
      assert PutUvarint(x)[..n][1..] == PutUvarint(x / 128)[..n - 1];
    }
  }

  /** A 32-bit length takes at most binary.MaxVarintLen32 bytes. */
  lemma {:induction false} UvarintLength(x: nat)
    requires x < 0x1_0000_0000
    ensures |PutUvarint(x)| <= MAX_VARINT_LEN_32
  {
    var a, b, c, d := x / 128, x / 128 / 128, x / 128 / 128 / 128, x / 128 / 128 / 128 / 128;
    assert d < 128;
    assert |PutUvarint(d)| == 1;
    assert |PutUvarint(c)| <= 2;
    assert |PutUvarint(b)| <= 3;
    assert |PutUvarint(a)| <= 4;
  }

  ghost predicate GoodKey(key: Bytes) {
    MIN_KEY_LENGTH <= |key| <= MAX_KEY_LENGTH
  }

  /** A record that a map with or without values may hold. */
  ghost predicate GoodRecord(hasValues: bool, r: Record) {
    GoodKey(r.key) && (hasValues || r.value == [])
  }

  /** The bytes of one record; the key length is converted to a byte. */
  function Encode(hasValues: bool, r: Record): Bytes {
    [|r.key| % 256] + r.key + if hasValues then PutUvarint(|r.value|) + r.value else []
  }

  ghost predicate GoodRecords(hasValues: bool, rs: seq<Record>) {
    forall i :: 0 <= i < |rs| ==> GoodRecord(hasValues, rs[i])
  }

  ghost function EncodeAll(hasValues: bool, rs: seq<Record>): Bytes {
    if rs == [] then []
    else EncodeAll(hasValues, rs[..|rs| - 1]) + Encode(hasValues, rs[|rs| - 1])
  }

  /** The offset at which record j starts. */
  ghost function Offset(hasValues: bool, rs: seq<Record>, j: nat): nat
    requires j <= |rs|
  {
    |EncodeAll(hasValues, rs[..j])|
  }

  lemma OffsetAtEnd(hasValues: bool, rs: seq<Record>)
    ensures Offset(hasValues, rs, 0) == 0
    ensures Offset(hasValues, rs, |rs|) == |EncodeAll(hasValues, rs)|
  {
    assert rs[..|rs|] == rs;
  }

  // Readers: what the map does with bytes at an offset.

  function KeyAt(seg: Bytes, off: nat): Bytes
    requires off < |seg| && off + 1 + seg[off] <= |seg|
  {
    seg[off + 1..off + 1 + seg[off]]
  }

  /** Where the record at off ends, and the value it holds. */
  function ValueAt(hasValues: bool, seg: Bytes, off: nat): (r: (nat, Bytes))
    requires off < |seg| && off + 1 + seg[off] <= |seg|
    requires hasValues ==>
      var (vlen, n) := Uvarint(seg[off + 1 + seg[off]..]);
      off + 1 + seg[off] + n + vlen <= |seg|
  {
    var p := off + 1 + seg[off];
    if !hasValues then (p, [])
    else
      var (vlen, n) := Uvarint(seg[p..]);
      (p + n + vlen, seg[p + n..p + n + vlen])
  }

  /** seg holds record r at off. */
  ghost predicate Holds(hasValues: bool, seg: Bytes, off: nat, r: Record) {
    && off < |seg|
    && seg[off] == |r.key|
    && off + 1 + seg[off] <= |seg|
    && KeyAt(seg, off) == r.key
    && var p := off + 1 + seg[off];
    && (hasValues ==>
          var (vlen, n) := Uvarint(seg[p..]);
          n > 0 && vlen == |r.value| && p + n + vlen <= |seg|)
    && ValueAt(hasValues, seg, off) == (off + |Encode(hasValues, r)|, r.value)
  }

  lemma {:induction false} EncodedHolds(hasValues: bool, pre: Bytes, r: Record, post: Bytes)
    requires GoodRecord(hasValues, r)
    ensures Holds(hasValues, pre + Encode(hasValues, r) + post, |pre|, r)
  {
    var e := Encode(hasValues, r);
    var seg, off := pre + e + post, |pre|;
    assert seg[off..] == e + post;
    assert seg[off] == e[0] == |r.key|;
    var p := off + 1 + seg[off];
    assert e[1..1 + |r.key|] == r.key;
    assert seg[off + 1..p] == e[1..1 + |r.key|];
    if hasValues {
      var u := PutUvarint(|r.value|);
      assert e[1 + |r.key|..] == u + r.value;
      assert seg[p..] == e[1 + |r.key|..] + post;
      assert seg[p..] == u + (r.value + post);
      UvarintRoundTrip(|r.value|, r.value + post);
      assert seg[p + |u|..p + |u| + |r.value|] == seg[p..][|u|..|u| + |r.value|];
    }
  }

  lemma {:induction false} EncodeAllSplit(hasValues: bool, rs: seq<Record>, j: nat)
    requires j <= |rs|
    ensures Offset(hasValues, rs, j) <= |EncodeAll(hasValues, rs)|
    ensures EncodeAll(hasValues, rs)[..Offset(hasValues, rs, j)] == EncodeAll(hasValues, rs[..j])
    decreases |rs|
  {
    if j == |rs| {
      assert rs[..j] == rs;
    } else {
      var init := rs[..|rs| - 1];
      EncodeAllSplit(hasValues, init, j);
      assert init[..j] == rs[..j];
    }
  }

  /** Re-parsing: every record of an encoded segment is read back at its offset,
      and the next one starts where it ends. */
  lemma {:induction false} RecordAt(hasValues: bool, rs: seq<Record>, j: nat)
    requires GoodRecords(hasValues, rs) && j < |rs|
    ensures Holds(hasValues, EncodeAll(hasValues, rs), Offset(hasValues, rs, j), rs[j])
    ensures Offset(hasValues, rs, j) + |Encode(hasValues, rs[j])| == Offset(hasValues, rs, j + 1)
    ensures Offset(hasValues, rs, j + 1) <= |EncodeAll(hasValues, rs)|
  {
    var all := EncodeAll(hasValues, rs);
    EncodeAllSplit(hasValues, rs, j + 1);
    assert rs[..j + 1][..j] == rs[..j];
    var pre, k := EncodeAll(hasValues, rs[..j]), Offset(hasValues, rs, j + 1);
    assert all == pre + Encode(hasValues, rs[j]) + all[k..];
    EncodedHolds(hasValues, pre, rs[j], all[k..]);
  }

  lemma {:induction false} OffsetIncreases(hasValues: bool, rs: seq<Record>, i: nat, j: nat)
    requires GoodRecords(hasValues, rs) && i < j <= |rs|
    ensures Offset(hasValues, rs, i) < Offset(hasValues, rs, j)
    decreases j - i
  {
    RecordAt(hasValues, rs, i);
    if i + 1 < j {
      OffsetIncreases(hasValues, rs, i + 1, j);
    }
  }
}
