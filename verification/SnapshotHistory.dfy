/** `snapshot copy-history` and `move-history`: relabelling the snapshot manifests of one source as
    those of another, in a store that can fail, or the command be interrupted, at any point. */
module SnapshotHistory {
  import opened SourceName

  type ManifestId = nat

  datatype Manifest = Manifest(source: SourceInfo, startTime: int, rootObjectId: string, rest: int)

  type Store = map<ManifestId, Manifest>

  /** The manifests that a possibly incomplete source selects: the host must be equal, empty user
      names and paths match any. */
  predicate Matches(si: SourceInfo, src: SourceInfo) {
    && src.host == si.host
    && (si.userName == "" || src.userName == si.userName)
    && (si.path == "" || src.path == si.path)
  }

  /** Non-empty fields of the destination override those of the source. */
  function GetCopyDestination(source: SourceInfo, overrides: SourceInfo): (dst: SourceInfo) {
    SourceInfo(
      if overrides.host != "" then overrides.host else source.host,
      if overrides.userName != "" then overrides.userName else source.userName,
      if overrides.path != "" then overrides.path else source.path)
  }

  datatype Error = PathOnDestinationOnly | UserOnDestinationOnly | SaveFailed | DeleteFailed
  datatype Result = Ok | Err(error: Error)

  /** Pairs that would squash several users or paths into one are refused. */
  function CheckSourceAndDestination(si: SourceInfo, di: SourceInfo): Result {
    if di.path != "" && si.path == "" then Err(PathOnDestinationOnly)
    else if di.userName != "" && si.userName == "" then Err(UserOnDestinationOnly)
    else Ok
  }

  /** For exactly the accepted pairs no two matching sources are sent to the same one. */
  lemma {:induction false} InjectiveIffAccepted(si: SourceInfo, di: SourceInfo)
    ensures CheckSourceAndDestination(si, di) == Ok <==>
            forall a, b ::
              Matches(si, a) && Matches(si, b) && GetCopyDestination(a, di) == GetCopyDestination(b, di) ==> a == b
  {
    if CheckSourceAndDestination(si, di) != Ok {
      var a := SourceInfo(si.host, if si.userName == "" then "a" else si.userName,
                          if si.path == "" then "/a" else si.path);
      var b := if di.path != "" && si.path == "" then a.(path := "/b") else a.(userName := "b");
      assert Matches(si, a) && Matches(si, b) && GetCopyDestination(a, di) == GetCopyDestination(b, di) && a != b;
    }
  }

  /** Fields that the destination names are taken from it, so the result is listed under it unless it
      names no host and the source does; the others are kept. */
  lemma {:induction false} DestinationExact(src: SourceInfo, di: SourceInfo)
    ensures var dst := GetCopyDestination(src, di);
            && (di.host == "" ==> dst.host == src.host)
            && (di.userName == "" ==> dst.userName == src.userName)
            && (di.path == "" ==> dst.path == src.path)
            && (Matches(di, dst) <==> di.host != "" || src.host == "")
            && Matches(di.(host := dst.host), dst)
  {}

  /** What the destination already matches is mapped to itself. */
  lemma MatchingStays(di: SourceInfo, src: SourceInfo)
    requires Matches(di, src)
    ensures GetCopyDestination(src, di) == src
  {}

  /** s is the snapshot of m, by the time it was started and its root, under a source. */
  ghost predicate IsSnapshotOf(s: Manifest, src: SourceInfo, m: Manifest) {
    s.source == src && s.startTime == m.startTime && s.rootObjectId == m.rootObjectId
  }

  predicate SameSnapshot(a: Manifest, b: Manifest) {
    a.startTime == b.startTime && a.rootObjectId == b.rootObjectId
  }

  method SnapshotExists(snaps: seq<Manifest>, src: SourceInfo, m: Manifest) returns (found: bool)
    ensures found <==> exists s :: s in snaps && s.source == src && s.startTime == m.startTime &&
                                   s.rootObjectId == m.rootObjectId
  {
    for i := 0 to |snaps|
      invariant forall j :: 0 <= j < i ==> !IsSnapshotOf(snaps[j], src, m)
    {
      if snaps[i].source == src && SameSnapshot(m, snaps[i]) {
        assert snaps[i] in snaps;
        return true;
      }
    }
    return false;
  }

  /** The snapshot of m exists under a source. */
  ghost predicate Has(store: Store, src: SourceInfo, m: Manifest) {
    exists id :: id in store && IsSnapshotOf(store[id], src, m)
  }

  /** Every snapshot of the original store exists under its own source or the one it is mapped to. */
  ghost predicate NothingLost(original: Store, store: Store, di: SourceInfo) {
    forall id :: id in original ==>
      var m := original[id];
      Has(store, m.source, m) || Has(store, GetCopyDestination(m.source, di), m)
  }

  /** That is, there is a manifest of that source or the mapped one with the same start and root. */
  lemma {:induction false} NothingLostMeans(original: Store, store: Store, di: SourceInfo, id: ManifestId)
    requires NothingLost(original, store, di) && id in original
    ensures var m := original[id];
            exists k :: k in store && store[k].startTime == m.startTime && store[k].rootObjectId == m.rootObjectId &&
                        (store[k].source == m.source || store[k].source == GetCopyDestination(m.source, di))
  {}

  /** Manifests that the destination matches are all still there. */
  ghost predicate DestinationKept(original: Store, store: Store, di: SourceInfo) {
    forall id :: id in original && Matches(di, original[id].source) ==> id in store && store[id] == original[id]
  }

  /** Every snapshot of a matching source exists under the source it is mapped to. */
  ghost predicate AllCopied(store: Store, si: SourceInfo, di: SourceInfo) {
    forall id :: id in store && Matches(si, store[id].source) ==>
      Has(store, GetCopyDestination(store[id].source, di), store[id])
  }

  lemma {:induction false} AllCopiedIff(store: Store, si: SourceInfo, di: SourceInfo)
    ensures AllCopied(store, si, di) <==>
            forall id :: id in store && Matches(si, store[id].source) ==>
              exists k :: k in store && store[k].source == GetCopyDestination(store[id].source, di) &&
                          store[k].startTime == store[id].startTime && store[k].rootObjectId == store[id].rootObjectId
  {
    forall id | id in store && Matches(si, store[id].source)
      ensures Has(store, GetCopyDestination(store[id].source, di), store[id]) <==>
              exists k :: k in store && store[k].source == GetCopyDestination(store[id].source, di) &&
                          store[k].startTime == store[id].startTime && store[k].rootObjectId == store[id].rootObjectId
    {}
  }

  /** The manifest store; trace is every state it has been in. IDs are never used again. */
  class Repository {
    var manifests: Store
    var nextId: ManifestId
    ghost var trace: seq<Store>
    ghost var used: set<ManifestId>

    ghost predicate Valid()
      reads this
    {
      && trace != [] && trace[|trace| - 1] == manifests
      && manifests.Keys <= used
      && forall id :: id in used ==> id < nextId
    }

    /** Saves under a new ID, or fails without effect. */
    method PutManifest(m: Manifest) returns (ok: bool)
      requires Valid()
      modifies this
      ensures Valid() && old(used) <= used
      ensures !ok ==> manifests == old(manifests) && trace == old(trace)
      ensures ok ==> manifests == old(manifests)[old(nextId) := m] && trace == old(trace) + [manifests]
    {
      ok := *;
      if ok {
        manifests := manifests[nextId := m];
        used := used + {nextId};
        nextId := nextId + 1;
        trace := trace + [manifests];
      }
    }

    /** Deletes, or fails without effect. */
    method DeleteManifest(id: ManifestId) returns (ok: bool)
      requires Valid()
      modifies this
      ensures Valid() && old(used) <= used
      ensures !ok ==> manifests == old(manifests) && trace == old(trace)
      ensures ok ==> manifests == old(manifests) - {id} && trace == old(trace) + [manifests]
    {
      ok := *;
      if ok {
        manifests := manifests - {id};
        trace := trace + [manifests];
      }
    }
  }

  // ---- What holds while the command runs ----

  /** The IDs that a query finds, each once, in some order. */
  ghost predicate IsListing(store: Store, q: SourceInfo, ids: seq<ManifestId>) {
    && (forall i, j :: 0 <= i < j < |ids| ==> ids[i] != ids[j])
    && (forall id :: id in ids <==> id in store && Matches(q, store[id].source))
  }

  /** The command never deletes these: manifests it saved and those mapped to themselves. */
  ghost predicate Safe(original: Store, di: SourceInfo, id: ManifestId) {
    id in original ==> GetCopyDestination(original[id].source, di) == original[id].source
  }

  ghost predicate HasSafe(original: Store, store: Store, di: SourceInfo, src: SourceInfo, m: Manifest) {
    exists id :: id in store && Safe(original, di, id) && IsSnapshotOf(store[id], src, m)
  }

  /** A safe manifest has the snapshot under the source that the original one is mapped to. */
  ghost predicate Counterpart(original: Store, store: Store, di: SourceInfo, id: ManifestId) {
    id in original && HasSafe(original, store, di, GetCopyDestination(original[id].source, di), original[id])
  }

  ghost predicate Untouched(original: Store, store: Store, id: ManifestId) {
    id in original && id in store && store[id] == original[id]
  }

  /** An original manifest, complete but for the source, which is the one it is mapped to. */
  ghost predicate IsCopy(original: Store, di: SourceInfo, m: Manifest) {
    exists k :: k in original && m == original[k].(source := GetCopyDestination(original[k].source, di))
  }

  lemma CopyIsMapped(original: Store, di: SourceInfo, m: Manifest)
    requires IsCopy(original, di, m)
    ensures GetCopyDestination(m.source, di) == m.source
  {}

  ghost predicate SafeUntouched(original: Store, store: Store, di: SourceInfo) {
    forall id :: id in original && Safe(original, di, id) ==> Untouched(original, store, id)
  }

  ghost predicate Accounted(original: Store, store: Store, di: SourceInfo, id: ManifestId) {
    Untouched(original, store, id) || Counterpart(original, store, di, id)
  }

  ghost predicate OnlyCopiesAdded(original: Store, store: Store, di: SourceInfo) {
    && (forall id :: id in store && id !in original ==> IsCopy(original, di, store[id]))
    && (forall id :: id in store && id in original ==> store[id] == original[id])
  }

  /** Each original manifest is untouched or has a safe counterpart; safe ones are untouched, and
      saved ones are copies. */
  ghost predicate ProgressParts(original: Store, store: Store, di: SourceInfo) {
    && SafeUntouched(original, store, di)
    && (forall id :: id in original ==> Accounted(original, store, di, id))
    && OnlyCopiesAdded(original, store, di)
  }

  ghost predicate Unfolds(store: Store, k: int) { true }

  /** ProgressParts, carried around folded. */
  ghost predicate Progress(original: Store, store: Store, di: SourceInfo) {
    forall k: int {:trigger Unfolds(store, k)} :: Unfolds(store, k) ==> ProgressParts(original, store, di)
  }

  lemma UnfoldProgress(original: Store, store: Store, di: SourceInfo)
    requires Progress(original, store, di)
    ensures ProgressParts(original, store, di)
  {
    assert Unfolds(store, 0);
  }

  lemma {:induction false} ProgressMeans(original: Store, store: Store, di: SourceInfo)
    requires Progress(original, store, di)
    ensures NothingLost(original, store, di) && DestinationKept(original, store, di)
  {
    UnfoldProgress(original, store, di);
    forall id | id in original
      ensures Has(store, original[id].source, original[id]) ||
              Has(store, GetCopyDestination(original[id].source, di), original[id])
    {
      assert Accounted(original, store, di, id);
      if Untouched(original, store, id) {
        assert Has(store, original[id].source, original[id]);
      }
    }
    forall id | id in original && Matches(di, original[id].source) ensures id in store && store[id] == original[id] {
      MatchingStays(di, original[id].source);
      assert Safe(original, di, id);
    }
  }

  /** Adding a manifest keeps counterparts. */
  lemma {:induction false} HasSafeGrows(original: Store, store: Store, di: SourceInfo, src: SourceInfo, m: Manifest,
                                        id: ManifestId, saved: Manifest)
    requires HasSafe(original, store, di, src, m) && id !in store
    ensures HasSafe(original, store[id := saved], di, src, m)
  {}

  /** So does deleting one that is not safe. */
  lemma {:induction false} HasSafeShrinks(original: Store, store: Store, di: SourceInfo, src: SourceInfo, m: Manifest,
                                          id: ManifestId)
    requires HasSafe(original, store, di, src, m) && !Safe(original, di, id)
    ensures HasSafe(original, store - {id}, di, src, m)
  {}

  lemma {:induction false} SaveKeeps(original: Store, store: Store, di: SourceInfo, srcId: ManifestId, m: Manifest,
                                     id: ManifestId)
    requires Progress(original, store, di) && id !in original && id !in store
    requires srcId in original && m == original[srcId]
    ensures var dst := GetCopyDestination(m.source, di);
            var store' := store[id := m.(source := dst)];
            Progress(original, store', di) && HasSafe(original, store', di, dst, m)
  {
    UnfoldProgress(original, store, di);
    var dst := GetCopyDestination(m.source, di);
    var saved := m.(source := dst);
    var store' := store[id := saved];
    assert id in store' && Safe(original, di, id) && IsCopy(original, di, saved);
    forall k | k in original ensures Accounted(original, store', di, k) {
      assert Accounted(original, store, di, k);
      if Counterpart(original, store, di, k) {
        HasSafeGrows(original, store, di, GetCopyDestination(original[k].source, di), original[k], id, saved);
      }
    }
    assert SafeUntouched(original, store', di);
    assert OnlyCopiesAdded(original, store', di);
  }

  lemma {:induction false} DeleteKeeps(original: Store, store: Store, di: SourceInfo, id: ManifestId)
    requires Progress(original, store, di) && !Safe(original, di, id) && Counterpart(original, store, di, id)
    ensures Progress(original, store - {id}, di)
  {
    UnfoldProgress(original, store, di);
    var store' := store - {id};
    forall k | k in original ensures Accounted(original, store', di, k) {
      assert Accounted(original, store, di, k);
      if Counterpart(original, store, di, k) {
        HasSafeShrinks(original, store, di, GetCopyDestination(original[k].source, di), original[k], id);
      }
    }
    assert SafeUntouched(original, store', di);
    assert OnlyCopiesAdded(original, store', di);
  }

  ghost predicate TraceOk(original: Store, trace: seq<Store>, from: nat, di: SourceInfo) {
    forall t :: from <= t < |trace| ==> Progress(original, trace[t], di)
  }

  lemma TraceGrows(original: Store, before: seq<Store>, after: seq<Store>, from: nat, di: SourceInfo)
    requires before <= after && from <= |before|
    requires TraceOk(original, before, from, di) && TraceOk(original, after, |before|, di)
    ensures TraceOk(original, after, from, di)
  {}

  /** The destination listing has the snapshot of m under the source it is mapped to. */
  ghost predicate Listed(dstSnapshots: seq<Manifest>, di: SourceInfo, m: Manifest) {
    exists s :: s in dstSnapshots && IsSnapshotOf(s, GetCopyDestination(m.source, di), m)
  }

  ghost predicate NeedsSaving(original: Store, dstSnapshots: seq<Manifest>, di: SourceInfo, id: ManifestId) {
    id in original && !Safe(original, di, id) && !Listed(dstSnapshots, di, original[id])
  }

  ghost predicate IsDestinationListing(store: Store, di: SourceInfo, dstSnapshots: seq<Manifest>) {
    forall s :: s in dstSnapshots <==> exists id :: id in store && Matches(di, store[id].source) && store[id] == s
  }

  lemma {:induction false} ListedIsSafe(original: Store, store: Store, di: SourceInfo, dstSnapshots: seq<Manifest>,
                                        m: Manifest)
    requires Progress(original, store, di) && IsDestinationListing(original, di, dstSnapshots)
    requires Listed(dstSnapshots, di, m)
    ensures HasSafe(original, store, di, GetCopyDestination(m.source, di), m)
  {
    UnfoldProgress(original, store, di);
    var s :| s in dstSnapshots && IsSnapshotOf(s, GetCopyDestination(m.source, di), m);
    var id :| id in original && Matches(di, original[id].source) && original[id] == s;
    MatchingStays(di, s.source);
    assert Safe(original, di, id) && Untouched(original, store, id);
  }

  /** Deletes the manifest of a snapshot that has a counterpart. */
  method DeleteSource(rep: Repository, id: ManifestId, ghost di: SourceInfo, ghost original: Store) returns (ok: bool)
    requires rep.Valid() && Progress(original, rep.manifests, di)
    requires !Safe(original, di, id) && Counterpart(original, rep.manifests, di, id)
    modifies rep
    ensures rep.Valid() && old(rep.used) <= rep.used && Progress(original, rep.manifests, di)
    ensures Counterpart(original, rep.manifests, di, id)
    ensures rep.manifests == if ok then old(rep.manifests) - {id} else old(rep.manifests)
    ensures rep.trace == if ok then old(rep.trace) + [rep.manifests] else old(rep.trace)
  {
    DeleteKeeps(original, rep.manifests, di, id);
    HasSafeShrinks(original, rep.manifests, di, GetCopyDestination(original[id].source, di), original[id], id);
    ok := rep.DeleteManifest(id);
  }

  /** Saves the snapshot under the source it is mapped to. */
  method SaveCopy(rep: Repository, id: ManifestId, m: Manifest, di: SourceInfo, ghost original: Store)
    returns (ok: bool)
    requires rep.Valid() && Progress(original, rep.manifests, di) && original.Keys <= rep.used
    requires id in original && m == original[id]
    modifies rep
    ensures rep.Valid() && old(rep.used) <= rep.used && Progress(original, rep.manifests, di)
    ensures ok ==> Counterpart(original, rep.manifests, di, id)
    ensures forall k :: k in old(rep.manifests) ==> k in rep.manifests && rep.manifests[k] == old(rep.manifests)[k]
    ensures forall k :: k in rep.manifests && k !in old(rep.manifests) ==> k !in original
    ensures rep.trace == if ok then old(rep.trace) + [rep.manifests] else old(rep.trace)
  {
    SaveKeeps(original, rep.manifests, di, id, m, rep.nextId);
    ok := rep.PutManifest(m.(source := GetCopyDestination(m.source, di)));
  }

  /** One manifest: skipped, copied or moved; saved before it is deleted. */
  method RelabelOne(rep: Repository, id: ManifestId, m: Manifest, di: SourceInfo, dstSnapshots: seq<Manifest>,
                    isMove: bool, dryRun: bool, ghost original: Store) returns (r: Result)
    requires rep.Valid() && Progress(original, rep.manifests, di) && original.Keys <= rep.used
    requires IsDestinationListing(original, di, dstSnapshots)
    requires Untouched(original, rep.manifests, id) && m == original[id]
    modifies rep
    ensures rep.Valid() && old(rep.used) <= rep.used && Progress(original, rep.manifests, di)
    ensures old(rep.trace) <= rep.trace && TraceOk(original, rep.trace, |old(rep.trace)|, di)
    ensures !isMove ==> old(rep.manifests).Keys <= rep.manifests.Keys
    ensures r == Ok ==> Handled(original, old(rep.manifests), rep.manifests, di, id, isMove, dryRun)
    ensures dryRun ==> rep.trace == old(rep.trace)
    ensures r == Ok && !isMove && !dryRun ==>
              (NeedsSaving(original, dstSnapshots, di, id) <==> |rep.trace| > |old(rep.trace)|)
  {
    var dstSource := GetCopyDestination(m.source, di);
    if dstSource == m.source {
      assert Safe(original, di, id);
      return Ok;
    }
    var found := SnapshotExists(dstSnapshots, dstSource, m);
    if found {
      ListedIsSafe(original, rep.manifests, di, dstSnapshots, m);
      if isMove && !dryRun {
        var ok := DeleteSource(rep, id, di, original);
        if !ok {
          return Err(DeleteFailed);
        }
      }
      return Ok;
    }
    if dryRun {
      return Ok;
    }
    var ok := SaveCopy(rep, id, m, di, original);
    if !ok {
      return Err(SaveFailed);
    }
    if isMove {
      ok := DeleteSource(rep, id, di, original);
      if !ok {
        return Err(DeleteFailed);
      }
    }
    return Ok;
  }

  lemma {:induction false} HasSafePersists(original: Store, store: Store, store': Store, di: SourceInfo,
                                           src: SourceInfo, m: Manifest)
    requires HasSafe(original, store, di, src, m)
    requires forall k :: k in store && Safe(original, di, k) ==> k in store' && store'[k] == store[k]
    ensures HasSafe(original, store', di, src, m)
  {}

  /** The destination listing shows the copies unless the destination names no host while the
      source does: then it is searched under the empty host, where no copy is. */
  ghost predicate FindsCopies(si: SourceInfo, di: SourceInfo) {
    di.host != "" || si.host == ""
  }

  /** So a copy of what is all copied already has something to do iff copies are not found and some
      manifest is not mapped to itself. */
  lemma {:induction false} CopiedNeedsSaving(original: Store, si: SourceInfo, di: SourceInfo,
                                             dstSnapshots: seq<Manifest>, id: ManifestId)
    requires AllCopied(original, si, di) && IsDestinationListing(original, di, dstSnapshots)
    requires id in original && Matches(si, original[id].source)
    ensures NeedsSaving(original, dstSnapshots, di, id) <==> !FindsCopies(si, di) && !Safe(original, di, id)
  {}

  /** When every listed manifest has its counterpart, everything is copied, saved manifests included. */
  lemma {:induction false} CounterpartsMeanCopied(original: Store, store: Store, si: SourceInfo, di: SourceInfo,
                                                  srcIds: seq<ManifestId>)
    requires Progress(original, store, di) && IsListing(original, si, srcIds)
    requires forall j :: 0 <= j < |srcIds| ==> Counterpart(original, store, di, srcIds[j])
    ensures AllCopied(store, si, di)
    ensures forall k :: k in original && Matches(si, original[k].source) ==>
              Has(store, GetCopyDestination(original[k].source, di), original[k])
  {
    UnfoldProgress(original, store, di);
    forall k | k in original && Matches(si, original[k].source)
      ensures Has(store, GetCopyDestination(original[k].source, di), original[k])
    {
      var j :| 0 <= j < |srcIds| && srcIds[j] == k;
      assert Counterpart(original, store, di, srcIds[j]);
    }
    forall k | k in store && Matches(si, store[k].source)
      ensures Has(store, GetCopyDestination(store[k].source, di), store[k])
    {
      if k !in original {
        CopyIsMapped(original, di, store[k]);
      }
    }
  }

  /** What handling manifest id does to the store. */
  ghost predicate Handled(original: Store, before: Store, after: Store, di: SourceInfo, id: ManifestId, isMove: bool,
                          dryRun: bool) {
    && (forall k :: k in before && (k != id || !isMove || Safe(original, di, k)) ==>
          k in after && after[k] == before[k])
    && (forall k :: k in after && k !in before ==> k !in original)
    && (!dryRun ==> Counterpart(original, after, di, id))
    && (!dryRun && isMove && !Safe(original, di, id) ==> id !in after)
  }

  /** The loop has handled the first i manifests and not touched the others. */
  ghost predicate AtLoopParts(original: Store, store: Store, di: SourceInfo, srcIds: seq<ManifestId>, i: nat,
                              isMove: bool, dryRun: bool)
    requires i <= |srcIds|
  {
    && (forall j :: i <= j < |srcIds| ==> Untouched(original, store, srcIds[j]))
    && (!isMove ==> original.Keys <= store.Keys)
    && (!dryRun ==> forall j :: 0 <= j < i ==> Counterpart(original, store, di, srcIds[j]))
    && (!dryRun && isMove ==> forall j :: 0 <= j < i ==> Safe(original, di, srcIds[j]) || srcIds[j] !in store)
  }

  ghost predicate Opens(store: Store, i: nat, k: int) { true }

  /** AtLoopParts, carried around folded. */
  ghost predicate AtLoop(original: Store, store: Store, di: SourceInfo, srcIds: seq<ManifestId>, i: nat, isMove: bool,
                         dryRun: bool)
    requires i <= |srcIds|
  {
    forall k: int {:trigger Opens(store, i, k)} :: Opens(store, i, k) ==>
      AtLoopParts(original, store, di, srcIds, i, isMove, dryRun)
  }

  lemma UnfoldLoop(original: Store, store: Store, di: SourceInfo, srcIds: seq<ManifestId>, i: nat, isMove: bool,
                   dryRun: bool)
    requires i <= |srcIds| && AtLoop(original, store, di, srcIds, i, isMove, dryRun)
    ensures AtLoopParts(original, store, di, srcIds, i, isMove, dryRun)
  {
    assert Opens(store, i, 0);
  }

  lemma NextUntouched(original: Store, store: Store, di: SourceInfo, srcIds: seq<ManifestId>, i: nat, isMove: bool,
                      dryRun: bool)
    requires i < |srcIds| && AtLoop(original, store, di, srcIds, i, isMove, dryRun)
    ensures Untouched(original, store, srcIds[i])
    ensures !isMove ==> original.Keys <= store.Keys
  {
    UnfoldLoop(original, store, di, srcIds, i, isMove, dryRun);
  }

  lemma {:induction false} LoopNext(original: Store, before: Store, after: Store, di: SourceInfo,
                                    srcIds: seq<ManifestId>, i: nat, isMove: bool, dryRun: bool)
    requires i < |srcIds| && (forall i, j :: 0 <= i < j < |srcIds| ==> srcIds[i] != srcIds[j])
    requires forall j :: 0 <= j < |srcIds| ==> srcIds[j] in original
    requires AtLoop(original, before, di, srcIds, i, isMove, dryRun)
    requires Handled(original, before, after, di, srcIds[i], isMove, dryRun)
    ensures AtLoop(original, after, di, srcIds, i + 1, isMove, dryRun)
  {
    UnfoldLoop(original, before, di, srcIds, i, isMove, dryRun);
    forall j | i < j < |srcIds| ensures Untouched(original, after, srcIds[j]) {
      assert Untouched(original, before, srcIds[j]);
    }
    if !dryRun {
      forall j | 0 <= j < i ensures Counterpart(original, after, di, srcIds[j]) {
        assert Counterpart(original, before, di, srcIds[j]);
        HasSafePersists(original, before, after, di, GetCopyDestination(original[srcIds[j]].source, di),
          original[srcIds[j]]);
      }
    }
  }

  /** One of the first n manifests needs saving. */
  ghost predicate NeedsSavingBefore(original: Store, dstSnapshots: seq<Manifest>, di: SourceInfo,
                                    srcIds: seq<ManifestId>, n: nat)
    requires n <= |srcIds|
  {
    exists j :: 0 <= j < n && NeedsSaving(original, dstSnapshots, di, srcIds[j])
  }

  /** The i-th round of the loop. */
  method RelabelAt(rep: Repository, di: SourceInfo, isMove: bool, dryRun: bool, srcIds: seq<ManifestId>, i: nat,
                   dstSnapshots: seq<Manifest>, ghost original: Store, ghost si: SourceInfo) returns (r: Result)
    requires rep.Valid() && original.Keys <= rep.used && Progress(original, rep.manifests, di)
    requires IsListing(original, si, srcIds) && IsDestinationListing(original, di, dstSnapshots) && i < |srcIds|
    requires AtLoop(original, rep.manifests, di, srcIds, i, isMove, dryRun)
    modifies rep
    ensures rep.Valid() && old(rep.used) <= rep.used && Progress(original, rep.manifests, di)
    ensures old(rep.trace) <= rep.trace && TraceOk(original, rep.trace, |old(rep.trace)|, di)
    ensures !isMove ==> original.Keys <= rep.manifests.Keys
    ensures r == Ok ==> AtLoop(original, rep.manifests, di, srcIds, i + 1, isMove, dryRun)
    ensures dryRun ==> rep.trace == old(rep.trace)
    ensures r == Ok && !isMove && !dryRun ==>
              (NeedsSaving(original, dstSnapshots, di, srcIds[i]) <==> |rep.trace| > |old(rep.trace)|)
  {
    NextUntouched(original, rep.manifests, di, srcIds, i, isMove, dryRun);
    ghost var before := rep.manifests;
    r := RelabelOne(rep, srcIds[i], rep.manifests[srcIds[i]], di, dstSnapshots, isMove, dryRun, original);
    if r == Ok {
      assert forall j :: 0 <= j < |srcIds| ==> srcIds[j] in srcIds;
      LoopNext(original, before, rep.manifests, di, srcIds, i, isMove, dryRun);
    }
  }

  /** The loop over the listed manifests; changed says whether it wrote anything. */
  method RelabelAll(rep: Repository, di: SourceInfo, isMove: bool, dryRun: bool, srcIds: seq<ManifestId>,
                    dstSnapshots: seq<Manifest>, ghost si: SourceInfo) returns (r: Result, ghost changed: bool)
    requires rep.Valid()
    requires IsListing(rep.manifests, si, srcIds) && IsDestinationListing(rep.manifests, di, dstSnapshots)
    modifies rep
    ensures rep.Valid() && old(rep.trace) <= rep.trace
    ensures Progress(old(rep.manifests), rep.manifests, di) &&
            TraceOk(old(rep.manifests), rep.trace, |old(rep.trace)|, di)
    ensures !isMove ==> old(rep.manifests).Keys <= rep.manifests.Keys
    ensures r == Ok ==> AtLoop(old(rep.manifests), rep.manifests, di, srcIds, |srcIds|, isMove, dryRun)
    ensures changed <==> |rep.trace| > |old(rep.trace)|
    ensures dryRun ==> !changed
    ensures r == Ok && !isMove && !dryRun ==>
              (changed <==> NeedsSavingBefore(old(rep.manifests), dstSnapshots, di, srcIds, |srcIds|))
  {
    ghost var original, start := rep.manifests, |rep.trace|;
    changed := false;
    LoopStart(original, si, di, srcIds, isMove, dryRun);
    for i := 0 to |srcIds|
      invariant rep.Valid() && old(rep.trace) <= rep.trace && original.Keys <= rep.used
      invariant Progress(original, rep.manifests, di) && TraceOk(original, rep.trace, start, di)
      invariant AtLoop(original, rep.manifests, di, srcIds, i, isMove, dryRun)
      invariant !isMove ==> original.Keys <= rep.manifests.Keys
      invariant changed <==> |rep.trace| > start
      invariant dryRun ==> !changed
      invariant !isMove && !dryRun ==> (changed <==> NeedsSavingBefore(original, dstSnapshots, di, srcIds, i))
    {
      ghost var trace := rep.trace;
      r := RelabelAt(rep, di, isMove, dryRun, srcIds, i, dstSnapshots, original, si);
      TraceGrows(original, trace, rep.trace, start, di);
      changed := changed || |rep.trace| > |trace|;
      if r != Ok {
        return r, changed;
      }
      SavingNext(original, dstSnapshots, di, srcIds, i);
    }
    return Ok, changed;
  }

  lemma LoopStart(original: Store, si: SourceInfo, di: SourceInfo, srcIds: seq<ManifestId>, isMove: bool, dryRun: bool)
    requires IsListing(original, si, srcIds)
    ensures AtLoop(original, original, di, srcIds, 0, isMove, dryRun) && Progress(original, original, di)
  {
    assert forall j :: 0 <= j < |srcIds| ==> srcIds[j] in srcIds;
  }

  lemma SavingNext(original: Store, dstSnapshots: seq<Manifest>, di: SourceInfo, srcIds: seq<ManifestId>, i: nat)
    requires i < |srcIds|
    ensures NeedsSavingBefore(original, dstSnapshots, di, srcIds, i + 1) <==>
            NeedsSavingBefore(original, dstSnapshots, di, srcIds, i) ||
              NeedsSaving(original, dstSnapshots, di, srcIds[i])
  {}

  /** What makes a copy save something although everything is copied. */
  lemma {:induction false} RepeatSaves(original: Store, si: SourceInfo, di: SourceInfo, dstSnapshots: seq<Manifest>,
                                       srcIds: seq<ManifestId>)
    requires IsListing(original, si, srcIds) && IsDestinationListing(original, di, dstSnapshots)
    requires AllCopied(original, si, di)
    ensures NeedsSavingBefore(original, dstSnapshots, di, srcIds, |srcIds|) <==>
            !FindsCopies(si, di) && exists id :: id in srcIds && !Safe(original, di, id)
  {
    forall id | id in srcIds
      ensures NeedsSaving(original, dstSnapshots, di, id) <==> !FindsCopies(si, di) && !Safe(original, di, id)
    {
      CopiedNeedsSaving(original, si, di, dstSnapshots, id);
    }
    if id :| id in srcIds && NeedsSaving(original, dstSnapshots, di, id) {
      var j :| 0 <= j < |srcIds| && srcIds[j] == id;
      assert NeedsSavingBefore(original, dstSnapshots, di, srcIds, |srcIds|);
    }
  }

  /** The command. In every state that the store goes through, and so wherever the command fails or
      is interrupted, no snapshot is lost and nothing the destination already has is deleted. */
  method Run(rep: Repository, si: SourceInfo, di: SourceInfo, isMove: bool, dryRun: bool,
             srcIds: seq<ManifestId>, dstSnapshots: seq<Manifest>) returns (r: Result)
    requires rep.Valid()
    requires IsListing(rep.manifests, si, srcIds) && IsDestinationListing(rep.manifests, di, dstSnapshots)
    modifies rep
    ensures rep.Valid() && old(rep.trace) <= rep.trace
    ensures forall t :: |old(rep.trace)| <= t < |rep.trace| ==>
              NothingLost(old(rep.manifests), rep.trace[t], di) && DestinationKept(old(rep.manifests), rep.trace[t], di)
    ensures CheckSourceAndDestination(si, di) != Ok ==>
              r == CheckSourceAndDestination(si, di) && rep.trace == old(rep.trace)
    ensures dryRun ==> rep.trace == old(rep.trace)
    ensures !isMove ==> forall k :: k in old(rep.manifests) ==>
              k in rep.manifests && rep.manifests[k] == old(rep.manifests)[k]
    ensures OnlyCopiesAdded(old(rep.manifests), rep.manifests, di)
    ensures r == Ok && !dryRun ==> AllCopied(rep.manifests, si, di)
    ensures r == Ok && !dryRun ==> forall k :: k in old(rep.manifests) && Matches(si, old(rep.manifests)[k].source) ==>
              Has(rep.manifests, GetCopyDestination(old(rep.manifests)[k].source, di), old(rep.manifests)[k])
    ensures r == Ok && !dryRun && isMove ==> forall k :: k in rep.manifests && Matches(si, rep.manifests[k].source) ==>
              GetCopyDestination(rep.manifests[k].source, di) == rep.manifests[k].source
    ensures !isMove && !dryRun && r == Ok && AllCopied(old(rep.manifests), si, di) ==>
              (rep.trace == old(rep.trace) <==>
                 FindsCopies(si, di) || forall id :: id in srcIds ==> Safe(old(rep.manifests), di, id))
  {
    var check := CheckSourceAndDestination(si, di);
    if check != Ok {
      return check;
    }
    ghost var original, start := rep.manifests, |rep.trace|;
    if AllCopied(original, si, di) {
      RepeatSaves(original, si, di, dstSnapshots, srcIds);
    }
    ghost var changed;
    r, changed := RelabelAll(rep, di, isMove, dryRun, srcIds, dstSnapshots, si);
    UnfoldProgress(original, rep.manifests, di);
    forall k | k in rep.manifests && k !in original
      ensures GetCopyDestination(rep.manifests[k].source, di) == rep.manifests[k].source
    {
      CopyIsMapped(original, di, rep.manifests[k]);
    }
    forall t | start <= t < |rep.trace|
      ensures NothingLost(original, rep.trace[t], di) && DestinationKept(original, rep.trace[t], di)
    {
      ProgressMeans(original, rep.trace[t], di);
    }
    if r == Ok && !dryRun {
      UnfoldLoop(original, rep.manifests, di, srcIds, |srcIds|, isMove, dryRun);
      CounterpartsMeanCopied(original, rep.manifests, si, di, srcIds);
    }
  }

  // ---- Repeating copy-history to a destination without a host ----

  /** A snapshot of alice@h:/a and its copy. */
  function CopiedStore(startTime: int, rootObjectId: string, rest: int): Store {
    map[0 := Manifest(SourceInfo("h", "alice", "/a"), startTime, rootObjectId, rest),
        1 := Manifest(SourceInfo("h", "bob", "/b"), startTime, rootObjectId, rest)]
  }

  /** From alice@h:/a to bob@:/b, which is read as a destination without a host, everything is copied,
      but listing the destination finds nothing. */
  lemma {:induction false} HostlessListing(startTime: int, rootObjectId: string, rest: int)
    ensures var store := CopiedStore(startTime, rootObjectId, rest);
            var si, di := SourceInfo("h", "alice", "/a"), SourceInfo("", "bob", "/b");
            && CheckSourceAndDestination(si, di) == Ok && AllCopied(store, si, di)
            && IsListing(store, si, [0]) && IsDestinationListing(store, di, [])
            && NeedsSaving(store, [], di, 0)
  {
    var store := CopiedStore(startTime, rootObjectId, rest);
    assert 0 in store && 1 in store;
    assert store[1].source == GetCopyDestination(store[0].source, SourceInfo("", "bob", "/b"));
    assert Has(store, store[1].source, store[0]);
  }

  /** So copying again, if it succeeds, saves the copy a second time. */
  method HostlessRepeat(startTime: int, rootObjectId: string, rest: int) returns (rep: Repository, r: Result)
    ensures r == Ok ==>
              && AllCopied(CopiedStore(startTime, rootObjectId, rest), SourceInfo("h", "alice", "/a"),
                           SourceInfo("", "bob", "/b"))
              && |rep.trace| > 1 && rep.trace[0] == CopiedStore(startTime, rootObjectId, rest)
  {
    rep := new Repository;
    rep.manifests, rep.nextId := CopiedStore(startTime, rootObjectId, rest), 2;
    rep.used, rep.trace := {0, 1}, [rep.manifests];
    HostlessListing(startTime, rootObjectId, rest);
    assert !Safe(rep.manifests, SourceInfo("", "bob", "/b"), 0) && 0 in [0];
    r := Run(rep, SourceInfo("h", "alice", "/a"), SourceInfo("", "bob", "/b"), false, false, [0], []);
  }
}
