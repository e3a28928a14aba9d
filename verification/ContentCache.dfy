/** The local cache of pack blobs and contents (contentCacheImpl over PersistentCache) against the
    passthrough cache, which reads the storage directly. */
module ContentCache {

  type Bytes = seq<int>
  type BlobId = string
  type ContentId = string
  type Key = string

  /** The outcome of reading from a storage. */
  datatype ReadResult = Read(bytes: Bytes) | NotFound | InvalidRange

  /** GetBlob of a storage holding data: a negative length reads everything. */
  function ReadSection(data: Bytes, offset: int, length: int): ReadResult {
    if length < 0 then Read(data)
    else if offset < 0 || offset > |data| || length > |data| - offset then InvalidRange
    else Read(data[offset..offset + length])
  }

  function GetBlob(storage: map<string, Bytes>, id: string, offset: int, length: int): ReadResult {
    if id in storage then ReadSection(storage[id], offset, length) else NotFound
  }

  // ---- Cache keys ----

  predicate IsPrefixLetter(ch: char) {
    'g' <= ch <= 'z'
  }

  function ContentIdCacheKey(c: ContentId): Key
    requires c != ""
  {
    if IsPrefixLetter(c[0]) then c[1..] + c[..1] else c
  }

  function BlobIdCacheKey(b: BlobId): Key
    requires b != ""
  {
    b[1..] + b[..1]
  }

  /** Pack blobs are named with a prefix p or q. */
  predicate IsPackPrefix(ch: char) {
    ch == 'p' || ch == 'q'
  }

  predicate GoodBlobId(b: BlobId) {
    b != "" && IsPackPrefix(b[0])
  }

  /** A prefixed content ID whose prefix is not that of a pack blob, or one without a prefix,
      which then does not end in a prefix letter either. */
  predicate GoodContentId(c: ContentId) {
    c != "" && if IsPrefixLetter(c[0]) then !IsPackPrefix(c[0]) else !IsPrefixLetter(c[|c| - 1])
  }

  lemma {:induction false} RotationInjective(a: string, b: string)
    requires a != "" && b != "" && a[1..] + a[..1] == b[1..] + b[..1]
    ensures a == b
  {
    var n := |a| - 1;
    assert |a| == |b|;
    assert (a[1..] + a[..1])[n] == a[0] && (b[1..] + b[..1])[n] == b[0];
    assert (a[1..] + a[..1])[..n] == a[1..] && (b[1..] + b[..1])[..n] == b[1..];
    assert a == [a[0]] + a[1..] && b == [b[0]] + b[1..];
  }

  /** A content and a pack blob never share a cache key. */
  lemma {:induction false} KeysDisjoint(c: ContentId, b: BlobId)
    requires GoodContentId(c) && GoodBlobId(b)
    ensures ContentIdCacheKey(c) != BlobIdCacheKey(b)
  {
    var k, m := ContentIdCacheKey(c), BlobIdCacheKey(b);
    assert m[|m| - 1] == b[0];
    assert k[|k| - 1] == if IsPrefixLetter(c[0]) then c[0] else c[|c| - 1];
  }

  /** Exactly when they do: a prefixed content has the ID of the blob, or one without a prefix has its key. */
  lemma {:induction false} KeysEqualIff(c: ContentId, b: BlobId)
    requires c != "" && b != ""
    ensures ContentIdCacheKey(c) == BlobIdCacheKey(b) <==> if 'g' <= c[0] <= 'z' then c == b else c == b[1..] + b[..1]
  {
    if 'g' <= c[0] <= 'z' && c[1..] + c[..1] == b[1..] + b[..1] {
      RotationInjective(c, b);
    }
  }

  /** Pack blobs are those with the prefixes p and q; contents have another prefix from g to z, or none and
      do not end in such a letter. */
  lemma {:induction false} PackNames(x: string)
    ensures GoodBlobId(x) <==> "p" <= x || "q" <= x
    ensures GoodContentId(x) <==>
            x != "" && !("p" <= x || "q" <= x) && ('g' <= x[0] <= 'z' || !('g' <= x[|x| - 1] <= 'z'))
  {}

  lemma {:induction false} ContentKeysInjective(c: ContentId, c': ContentId)
    requires GoodContentId(c) && GoodContentId(c') && ContentIdCacheKey(c) == ContentIdCacheKey(c')
    ensures c == c'
  {
    var k, k' := ContentIdCacheKey(c), ContentIdCacheKey(c');
    assert k[|k| - 1] == if IsPrefixLetter(c[0]) then c[0] else c[|c| - 1];
    assert k'[|k'| - 1] == if IsPrefixLetter(c'[0]) then c'[0] else c'[|c'| - 1];
    if IsPrefixLetter(c[0]) {
      RotationInjective(c, c');
    }
  }

  // ---- Checksum protection ----

  const MAC_SIZE := 32

  type Mac = Bytes -> Bytes

  ghost predicate GoodMac(mac: Mac) {
    forall x :: |mac(x)| == MAC_SIZE
  }

  function Protect(mac: Mac, data: Bytes): Bytes {
    data + mac(data)
  }

  /** What verification writes to its output before it compares checksums. */
  function Stripped(stored: Bytes): Bytes {
    if |stored| < MAC_SIZE then [] else stored[..|stored| - MAC_SIZE]
  }

  predicate Verifies(mac: Mac, stored: Bytes) {
    |stored| >= MAC_SIZE && mac(Stripped(stored)) == stored[|stored| - MAC_SIZE..]
  }

  lemma {:induction false} ProtectVerifies(mac: Mac, data: Bytes)
    requires GoodMac(mac)
    ensures Verifies(mac, Protect(mac, data)) && Stripped(Protect(mac, data)) == data
  {}

  /** Nothing else verifies. */
  lemma {:induction false} VerifiesIff(mac: Mac, stored: Bytes)
    requires GoodMac(mac)
    ensures Verifies(mac, stored) <==> exists data :: stored == Protect(mac, data)
  {
    if Verifies(mac, stored) {
      assert stored == Protect(mac, Stripped(stored));
    }
    if data :| stored == Protect(mac, data) {
      ProtectVerifies(mac, data);
    }
  }

  /** A section of a protected blob is the section of the blob exactly unless it reaches into the
      checksum behind it: then the cache returns checksum bytes where the storage reports an error. */
  lemma {:induction false} CachedSectionExact(mac: Mac, data: Bytes, offset: int, length: int)
    requires GoodMac(mac) && length >= 0
    ensures ReadSection(Protect(mac, data), offset, length) == ReadSection(data, offset, length)
            <==> !(0 <= offset && |data| < offset + length <= |data| + MAC_SIZE)
  {}

  // ---- The cache ----

  /** What the cache holds under a key is the protected data, or something that does not verify. */
  ghost predicate EntryOk(mac: Mac, stored: Bytes, data: Bytes) {
    stored == Protect(mac, data) || !Verifies(mac, stored)
  }

  ghost predicate CacheOk(mac: Mac, cache: map<Key, Bytes>, st: map<BlobId, Bytes>, contents: map<ContentId, Bytes>) {
    && (forall b :: GoodBlobId(b) && BlobIdCacheKey(b) in cache ==>
          b in st && EntryOk(mac, cache[BlobIdCacheKey(b)], st[b]))
    && (forall c :: c in contents && GoodContentId(c) && ContentIdCacheKey(c) in cache ==>
          EntryOk(mac, cache[ContentIdCacheKey(c)], contents[c]))
  }

  lemma {:induction false} PutBlobKeeps(mac: Mac, cache: map<Key, Bytes>, st: map<BlobId, Bytes>,
                                        contents: map<ContentId, Bytes>, b: BlobId, stored: Bytes)
    requires CacheOk(mac, cache, st, contents) && GoodBlobId(b) && b in st && EntryOk(mac, stored, st[b])
    ensures CacheOk(mac, cache[BlobIdCacheKey(b) := stored], st, contents)
  {
    forall b' | GoodBlobId(b') && BlobIdCacheKey(b') == BlobIdCacheKey(b) ensures b' == b {
      RotationInjective(b', b);
    }
    forall c | GoodContentId(c) ensures ContentIdCacheKey(c) != BlobIdCacheKey(b) {
      KeysDisjoint(c, b);
    }
  }

  lemma {:induction false} PutContentKeeps(mac: Mac, cache: map<Key, Bytes>, st: map<BlobId, Bytes>,
                                           contents: map<ContentId, Bytes>, c: ContentId, stored: Bytes)
    requires CacheOk(mac, cache, st, contents) && GoodContentId(c) && c in contents && EntryOk(mac, stored, contents[c])
    ensures CacheOk(mac, cache[ContentIdCacheKey(c) := stored], st, contents)
  {
    forall c' | GoodContentId(c') && ContentIdCacheKey(c') == ContentIdCacheKey(c) ensures c' == c {
      ContentKeysInjective(c', c);
    }
    forall b | GoodBlobId(b) ensures BlobIdCacheKey(b) != ContentIdCacheKey(c) {
      KeysDisjoint(c, b);
    }
  }

  /** Slicing with bounds in the wrong order panics. */
  datatype GetResult = Success(output: Bytes) | Error | Panicked

  /** The outcome is the one of reading from the storage. */
  predicate Agrees(r: GetResult, stored: ReadResult) {
    r == if stored.Read? then Success(stored.bytes) else Error
  }

  /** Reading this section of n bytes succeeds. */
  predicate Readable(n: nat, offset: int, length: int) {
    length < 0 || (0 <= offset && offset + length <= n)
  }

  /** Where the mode that fetches full blobs agrees with the storage on a blob of n bytes: for a section,
      unless it is read from a cached blob beyond its end; for everything, if it is cached, if it is
      requested as offset 0 and length -1 with an empty output, or if there is nothing. */
  predicate FullModeAgrees(cached: bool, n: nat, offset: int, length: int, output: Bytes) {
    if length >= 0 then Readable(n, offset, length) || !(cached && Readable(n + MAC_SIZE, offset, length))
    else if cached then true
    else if offset == 0 && length == -1 then output == []
    else n == 0 && 0 <= offset && offset + length <= 0
  }

  /** Where the other mode agrees: unless a section is read beyond the end from a cached blob, or such
      a section is asked for although the content is cached. */
  predicate PartialModeAgrees(cached: bool, contentCached: bool, n: nat, offset: int, length: int) {
    Readable(n, offset, length) || !(contentCached || (cached && Readable(n + MAC_SIZE, offset, length)))
  }

  /** Both modes agree, whatever is cached. */
  predicate AlwaysAgrees(n: nat, offset: int, length: int) {
    && FullModeAgrees(true, n, offset, length, []) && FullModeAgrees(false, n, offset, length, [])
    && PartialModeAgrees(true, true, n, offset, length) && PartialModeAgrees(true, false, n, offset, length)
    && PartialModeAgrees(false, true, n, offset, length) && PartialModeAgrees(false, false, n, offset, length)
  }

  /** They do exactly on requests within the blob, where everything is requested as offset 0 and
      length -1, and on some others for everything of an empty blob. */
  lemma {:induction false} InRangeIff(n: nat, offset: int, length: int)
    ensures AlwaysAgrees(n, offset, length) <==>
            || (offset == 0 && length == -1) || (0 <= offset && 0 <= length && offset + length <= n)
            || (n == 0 && length < 0 && 0 <= offset && offset + length <= 0)
  {}

  /** What the mode that fetches full blobs makes of a fetched blob; out is the output so far. */
  function Extract(data: Bytes, offset: int, length: int, out: Bytes): GetResult {
    if offset == 0 && length == -1 then Success(out + data)
    else if offset < 0 || offset + length > |data| then Error
    else if offset >= |data| then Success([])
    else if length < 0 then Panicked
    else Success(data[offset..offset + length])
  }

  lemma {:induction false} ExtractAgrees(data: Bytes, offset: int, length: int, out: Bytes)
    ensures Agrees(Extract(data, offset, length, out), ReadSection(data, offset, length)) <==>
            FullModeAgrees(false, |data|, offset, length, out)
  {
    assert out == [] ==> out + data == data;
    assert |out + data| == |out| + |data|;
  }

  class ContentCacheImpl {
    const st: map<BlobId, Bytes>            // the pack blobs, which never change
    ghost const contents: map<ContentId, Bytes> // the bytes of each content ID
    const mac: Mac
    const fetchFullBlobs: bool
    const succeeds: nat -> bool // whether each attempt to change the cache works
    var cache: map<Key, Bytes>
    var attempts: nat

    ghost predicate Valid()
      reads this
    {
      GoodMac(mac) && CacheOk(mac, cache, st, contents)
    }

    constructor (st: map<BlobId, Bytes>, ghost contents: map<ContentId, Bytes>, mac: Mac, fetchFullBlobs: bool,
                 succeeds: nat -> bool)
      requires GoodMac(mac)
      ensures Valid() && cache == map[] && attempts == 0
      ensures this.st == st && this.contents == contents && this.mac == mac && this.fetchFullBlobs == fetchFullBlobs
      ensures this.succeeds == succeeds
    {
      this.st, this.contents, this.mac, this.fetchFullBlobs := st, contents, mac, fetchFullBlobs;
      this.succeeds := succeeds;
      cache, attempts := map[], 0;
    }

    /** A blob's cached copy, if any, is intact. */
    ghost predicate Intact(b: BlobId)
      reads this
    {
      GoodBlobId(b) && b in st && BlobIdCacheKey(b) in cache ==> cache[BlobIdCacheKey(b)] == Protect(mac, st[b])
    }

    ghost predicate AllIntact()
      reads this
    {
      forall b :: b in st ==> Intact(b)
    }

    /** A section, unverified, or a whole entry, verified and dropped if that fails. */
    method GetPartial(key: Key, offset: int, length: int, output: Bytes) returns (hit: bool, output': Bytes)
      modifies this
      ensures if key in old(cache) && length < 0 && !Verifies(mac, old(cache)[key])
              then attempts == old(attempts) + 1 &&
                   cache == if succeeds(old(attempts)) then old(cache) - {key} else old(cache)
              else attempts == old(attempts) && cache == old(cache)
      ensures hit <==> GetBlob(old(cache), key, offset, length).Read? && (length < 0 ==> Verifies(mac, old(cache)[key]))
      ensures hit && length >= 0 ==> GetBlob(old(cache), key, offset, length) == Read(output')
      ensures key in old(cache) && length < 0 ==> output' == Stripped(old(cache)[key])
      ensures !hit && !(key in old(cache) && length < 0) ==> output' == output
    {
      hit, output' := false, output;
      var tmp := GetBlob(cache, key, offset, length);
      if tmp.Read? {
        if length >= 0 {
          return true, tmp.bytes;
        }
        output' := Stripped(tmp.bytes);
        if Verifies(mac, tmp.bytes) {
          return true, output';
        }
        if succeeds(attempts) {
          cache := cache - {key};
        }
        attempts := attempts + 1;
      }
    }

    /** Storing in the cache may fail without any error to the caller. */
    method Put(key: Key, data: Bytes)
      modifies this
      ensures attempts == old(attempts) + 1
      ensures cache == if succeeds(old(attempts)) then old(cache)[key := Protect(mac, data)] else old(cache)
    {
      if succeeds(attempts) {
        cache := cache[key := Protect(mac, data)];
      }
      attempts := attempts + 1;
    }

    method FetchBlobInternal(b: BlobId) returns (r: GetResult)
      requires Valid() && GoodBlobId(b)
      modifies this
      ensures Valid() && (old(AllIntact()) ==> AllIntact())
      ensures r == if b in st then Success(st[b]) else Error
      ensures attempts == old(attempts) + (if b in st then 1 else 0)
      ensures cache == if b in st && succeeds(old(attempts)) then old(cache)[BlobIdCacheKey(b) := Protect(mac, st[b])]
                       else old(cache)
    {
      var data := GetBlob(st, b, 0, -1);
      if !data.Read? {
        return Error;
      }
      PutBlobKeeps(mac, cache, st, contents, b, Protect(mac, data.bytes));
      forall b' | GoodBlobId(b') && BlobIdCacheKey(b') == BlobIdCacheKey(b) ensures b' == b {
        RotationInjective(b', b);
      }
      Put(BlobIdCacheKey(b), data.bytes);
      return Success(data.bytes);
    }

    /** The last attempt was made since, and left the data under the key if it worked. */
    ghost predicate Keeps(key: Key, data: Bytes, since: nat)
      reads this
    {
      attempts > since && (succeeds(attempts - 1) ==> key in cache && cache[key] == Protect(mac, data))
    }

    /** What GetPartial finds under a key without dropping it. */
    ghost predicate Serves(key: Key, offset: int, length: int)
      reads this
    {
      GetBlob(cache, key, offset, length).Read? && (length < 0 ==> Verifies(mac, cache[key]))
    }

    /** An intact cached blob serves what its protected bytes let be read. */
    lemma IntactServes(b: BlobId, offset: int, length: int)
      requires Valid() && GoodBlobId(b) && b in st && BlobIdCacheKey(b) in cache && Intact(b)
      ensures Serves(BlobIdCacheKey(b), offset, length) <==> Readable(|st[b]| + MAC_SIZE, offset, length)
      ensures length < 0 ==> Stripped(cache[BlobIdCacheKey(b)]) == st[b]
      ensures length >= 0 ==>
                (GetBlob(cache, BlobIdCacheKey(b), offset, length) == ReadSection(st[b], offset, length)
                 <==> Readable(|st[b]|, offset, length) || !Readable(|st[b]| + MAC_SIZE, offset, length))
    {
      ProtectVerifies(mac, st[b]);
      if length >= 0 {
        CachedSectionExact(mac, st[b], offset, length);
      }
    }

    /** In this mode whole blobs are fetched. With an intact cached blob, or none, the outcome is that
        of the storage exactly where FullModeAgrees says. A damaged one spoils a request for
        everything by what verification left in the output, and sections without notice. */
    method GetContentFromFullBlob(b: BlobId, offset: int, length: int, output: Bytes) returns (r: GetResult)
      requires Valid() && GoodBlobId(b)
      modifies this
      ensures Valid() && (old(AllIntact()) ==> AllIntact())
      ensures b !in st ==> r == Error
      ensures b in st && old(Intact(b)) ==>
                (Agrees(r, ReadSection(st[b], offset, length)) <==>
                 FullModeAgrees(BlobIdCacheKey(b) in old(cache), |st[b]|, offset, length, output))
      ensures b in st && !old(Intact(b)) && length >= 0 ==>
                Agrees(r, if old(Serves(BlobIdCacheKey(b), offset, length))
                          then GetBlob(old(cache), BlobIdCacheKey(b), offset, length)
                          else ReadSection(st[b], offset, length))
      ensures b in st && !old(Intact(b)) && length < 0 ==>
                r == Extract(st[b], offset, length, Stripped(old(cache)[BlobIdCacheKey(b)]))
      ensures old(Serves(BlobIdCacheKey(b), offset, length)) ==> cache == old(cache) && attempts == old(attempts)
      ensures b in st && !old(Serves(BlobIdCacheKey(b), offset, length)) ==>
                Keeps(BlobIdCacheKey(b), st[b], old(attempts))
    {
      var key := BlobIdCacheKey(b);
      if key in cache && Intact(b) {
        IntactServes(b, offset, length);
      }
      var hit, out := GetPartial(key, offset, length, output);
      if hit {
        return Success(out);
      }
      if b in st {
        ExtractAgrees(st[b], offset, length, out);
      }
      var data := FetchBlobInternal(b);
      if data.Error? {
        return Error;
      }
      return Extract(data.output, offset, length, out);
    }

    /** In this mode single contents are fetched unless their blob is cached. With an intact cached blob,
        or none, the outcome is that of the storage exactly where PartialModeAgrees says. A damaged
        entry that is read as a whole is never returned, sections of one are. */
    method GetContentFromFullOrPartialBlob(c: ContentId, b: BlobId, offset: int, length: int, output: Bytes)
      returns (r: GetResult)
      requires Valid() && GoodBlobId(b) && GoodContentId(c) && c in contents
      requires b in st && Readable(|st[b]|, offset, length) ==> ReadSection(st[b], offset, length) == Read(contents[c])
      modifies this
      ensures Valid() && (old(AllIntact()) ==> AllIntact())
      ensures b !in st ==> r == if old(Serves(ContentIdCacheKey(c), 0, -1)) then Success(contents[c]) else Error
      ensures b in st && old(Intact(b)) ==>
                (Agrees(r, ReadSection(st[b], offset, length)) <==>
                 PartialModeAgrees(BlobIdCacheKey(b) in old(cache), old(Serves(ContentIdCacheKey(c), 0, -1)),
                                   |st[b]|, offset, length))
      ensures b in st && !old(Intact(b)) && !old(Serves(BlobIdCacheKey(b), offset, length)) ==>
                (Agrees(r, ReadSection(st[b], offset, length)) <==>
                 PartialModeAgrees(false, old(Serves(ContentIdCacheKey(c), 0, -1)), |st[b]|, offset, length))
      ensures b in st && !old(Intact(b)) && length < 0 ==> r == Success(contents[c])
      ensures b in st && !old(Intact(b)) && old(Serves(BlobIdCacheKey(b), offset, length)) ==>
                Agrees(r, GetBlob(old(cache), BlobIdCacheKey(b), offset, length))
      ensures r.Success? && !old(Serves(BlobIdCacheKey(b), offset, length)) ==>
                !old(Serves(ContentIdCacheKey(c), 0, -1)) ==> Keeps(ContentIdCacheKey(c), r.output, old(attempts))
    {
      if b in st && BlobIdCacheKey(b) in cache && Intact(b) {
        IntactServes(b, offset, length);
      }
      KeysDisjoint(c, b);
      var hit, out := GetPartial(BlobIdCacheKey(b), offset, length, output);
      if hit {
        return Success(out);
      }
      r := GetContentOrFetch(c, b, offset, length);
    }

    /** The content's own entry, or else what the storage has. */
    method GetContentOrFetch(c: ContentId, b: BlobId, offset: int, length: int) returns (r: GetResult)
      requires Valid() && GoodBlobId(b) && GoodContentId(c) && c in contents
      requires b in st && Readable(|st[b]|, offset, length) ==> ReadSection(st[b], offset, length) == Read(contents[c])
      modifies this
      ensures Valid() && (old(AllIntact()) ==> AllIntact())
      ensures if old(Serves(ContentIdCacheKey(c), 0, -1)) then r == Success(contents[c])
              else Agrees(r, GetBlob(st, b, offset, length))
      ensures !old(Serves(ContentIdCacheKey(c), 0, -1)) && r.Success? ==>
                Keeps(ContentIdCacheKey(c), r.output, old(attempts))
    {
      ProtectVerifies(mac, contents[c]);
      var hit, out := GetPartial(ContentIdCacheKey(c), 0, -1, []);
      if hit {
        return Success(out);
      }
      var data := GetBlob(st, b, offset, length);
      if !data.Read? {
        return Error;
      }
      PutContentKeeps(mac, cache, st, contents, c, Protect(mac, data.bytes));
      forall b' | GoodBlobId(b') ensures BlobIdCacheKey(b') != ContentIdCacheKey(c) {
        KeysDisjoint(c, b');
      }
      Put(ContentIdCacheKey(c), data.bytes);
      return Success(data.bytes);
    }

    /** Whatever has been fetched, prefetched, dropped or, among single contents, damaged before, with
        an intact cached blob, or none, the outcome is that of the passthrough cache exactly where the
        mode's condition says, which is so for every request within the blob. */
    method GetContent(c: ContentId, b: BlobId, offset: int, length: int, output: Bytes) returns (r: GetResult)
      requires Valid() && GoodBlobId(b) && GoodContentId(c) && c in contents
      requires b in st && Readable(|st[b]|, offset, length) ==> ReadSection(st[b], offset, length) == Read(contents[c])
      modifies this
      ensures Valid() && (old(AllIntact()) ==> AllIntact())
      ensures b in st && old(Intact(b)) ==>
                (Agrees(r, GetBlob(st, b, offset, length)) <==>
                 if fetchFullBlobs then FullModeAgrees(BlobIdCacheKey(b) in old(cache), |st[b]|, offset, length, output)
                 else PartialModeAgrees(BlobIdCacheKey(b) in old(cache), old(Serves(ContentIdCacheKey(c), 0, -1)),
                                        |st[b]|, offset, length))
      ensures b in st && old(Intact(b)) && AlwaysAgrees(|st[b]|, offset, length) && output == [] ==>
                Agrees(r, GetBlob(st, b, offset, length))
      ensures b !in st ==>
                r == if !fetchFullBlobs && old(Serves(ContentIdCacheKey(c), 0, -1)) then Success(contents[c]) else Error
    {
      if fetchFullBlobs {
        r := GetContentFromFullBlob(b, offset, length, output);
      } else {
        r := GetContentFromFullOrPartialBlob(c, b, offset, length, output);
      }
    }

    method PrefetchBlob(b: BlobId) returns (ok: bool)
      requires Valid() && GoodBlobId(b)
      modifies this
      ensures Valid() && (old(AllIntact()) ==> AllIntact())
      ensures ok <==> b in st
      ensures var key := BlobIdCacheKey(b);
              if key in old(cache) && |old(cache)[key]| >= 1 then cache == old(cache) && attempts == old(attempts)
              else if b in st then Keeps(key, st[b], old(attempts))
              else cache == old(cache)
    {
      var hit, out := GetPartial(BlobIdCacheKey(b), 0, 1, []);
      if hit {
        return true;
      }
      hit, out := GetPartial(BlobIdCacheKey(b), 0, 1, out);
      if hit {
        return true;
      }
      var data := FetchBlobInternal(b);
      return data.Success?;
    }

    /** GetOrLoad for any key, with a loader that appends to the output: the verified entry, or what
        is loaded. Only a damaged entry that could not be deleted (left) spoils the latter. */
    method GetOrLoad(key: Key, fetched: GetResult, output: Bytes) returns (r: GetResult, ghost left: bool)
      modifies this
      ensures left <==> key in old(cache) && !Verifies(mac, old(cache)[key]) && !succeeds(old(attempts))
      ensures r == if key in old(cache) && Verifies(mac, old(cache)[key]) then Success(Stripped(old(cache)[key]))
                   else if fetched.Success? && left then Success(Stripped(old(cache)[key]) + fetched.output)
                   else fetched
      ensures fetched.Success? && !old(Serves(key, 0, -1)) ==> Keeps(key, r.output, old(attempts))
      ensures forall k :: k != key ==> (k in cache <==> k in old(cache)) && (k in cache ==> cache[k] == old(cache)[k])
      ensures key in cache ==>
                || (r.Success? && cache[key] == Protect(mac, r.output))
                || (key in old(cache) && cache[key] == old(cache)[key])
    {
      left := false;
      var hit, out := GetPartial(key, 0, -1, output);
      if hit {
        return Success(out), left;
      }
      out := [];
      left := key in cache;
      hit, out := GetPartial(key, 0, -1, out);
      if hit {
        return Success(out), left;
      }
      if !fetched.Success? {
        return fetched, left;
      }
      out := out + fetched.output;
      Put(key, out);
      return Success(out), left;
    }

    // ---- What else can happen to the cache ----

    /** The cache is swept, or an entry is lost. */
    method DropEntry(key: Key)
      requires Valid()
      modifies this
      ensures Valid() && (old(AllIntact()) ==> AllIntact())
      ensures cache == old(cache) - {key}
    {
      cache := cache - {key};
    }

    /** The cached copy of a content is damaged so that its checksum no longer matches. */
    method DamageContent(c: ContentId, stored: Bytes)
      requires Valid() && GoodContentId(c) && c in contents && !Verifies(mac, stored)
      modifies this
      ensures Valid() && (old(AllIntact()) ==> AllIntact())
      ensures cache == old(cache)[ContentIdCacheKey(c) := stored]
    {
      PutContentKeeps(mac, cache, st, contents, c, stored);
      forall b | GoodBlobId(b) ensures BlobIdCacheKey(b) != ContentIdCacheKey(c) {
        KeysDisjoint(c, b);
      }
      cache := cache[ContentIdCacheKey(c) := stored];
    }
  }
}
