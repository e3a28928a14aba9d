/** `repository sync-to`: planning which blobs to copy and delete, and the workers that do it. */
module RepoSync {
  import opened Wrappers

  type BlobId = string
  type Data = seq<int>

  datatype Metadata = Metadata(id: BlobId, length: nat, timestamp: int)

  // ---- Planning ----

  ghost predicate DistinctIds(ms: seq<Metadata>) {
    forall i, j :: 0 <= i < j < |ms| ==> ms[i].id != ms[j].id
  }

  ghost function Ids(ms: seq<Metadata>): set<BlobId> {
    set m | m in ms :: m.id
  }

  /** A source blob is copied if the destination lacks it, or has an older one and may be updated. */
  predicate NeedsCopy(m: Metadata, dst: map<BlobId, Metadata>, update: bool) {
    m.id !in dst || (update && m.timestamp > dst[m.id].timestamp)
  }

  function BlobsToCopy(src: seq<Metadata>, dst: map<BlobId, Metadata>, update: bool): seq<Metadata> {
    if src == [] then []
    else
      var n := |src| - 1;
      BlobsToCopy(src[..n], dst, update) + if NeedsCopy(src[n], dst, update) then [src[n]] else []
  }

  /** The blobs to copy are exactly the source blobs that need it. */
  lemma {:induction false} CopyMembers(src: seq<Metadata>, dst: map<BlobId, Metadata>, update: bool, m: Metadata)
    ensures m in BlobsToCopy(src, dst, update) <==>
            m in src && (m.id !in dst || (update && dst[m.id].timestamp < m.timestamp))
  {
    if src != [] {
      CopyMembers(src[..|src| - 1], dst, update, m);
    }
  }

  lemma {:induction false} CopyDistinct(src: seq<Metadata>, dst: map<BlobId, Metadata>, update: bool)
    requires DistinctIds(src)
    ensures DistinctIds(BlobsToCopy(src, dst, update))
  {
    if src != [] {
      var n := |src| - 1;
      CopyDistinct(src[..n], dst, update);
      var init := BlobsToCopy(src[..n], dst, update);
      forall i | 0 <= i < |init| ensures init[i].id != src[n].id {
        CopyMembers(src[..n], dst, update, init[i]);
      }
    }
  }

  ghost predicate KeyedById(dst: map<BlobId, Metadata>) {
    forall id :: id in dst ==> dst[id].id == id
  }

  lemma {:induction false} AppendId(ms: seq<Metadata>, m: Metadata)
    ensures Ids(ms + [m]) == Ids(ms) + {m.id}
    ensures DistinctIds(ms) && m.id !in Ids(ms) ==> DistinctIds(ms + [m])
  {}

  lemma {:induction false} PrefixIds(ms: seq<Metadata>, i: nat)
    requires DistinctIds(ms) && i < |ms|
    ensures Ids(ms[..i + 1]) == Ids(ms[..i]) + {ms[i].id} && ms[i].id !in Ids(ms[..i])
  {}

  lemma {:induction false} CopyNext(src: seq<Metadata>, dst: map<BlobId, Metadata>, update: bool, i: nat)
    requires i < |src|
    ensures BlobsToCopy(src[..i + 1], dst, update) ==
            BlobsToCopy(src[..i], dst, update) + if NeedsCopy(src[i], dst, update) then [src[i]] else []
  {
    assert src[..i + 1][..i] == src[..i];
  }

  /** One pass over the source listing, striking matches from the destination's. */
  method PlanCopies(src: seq<Metadata>, dst: map<BlobId, Metadata>, update: bool)
    returns (blobsToCopy: seq<Metadata>, left: map<BlobId, Metadata>, inSyncBlobs: nat)
    requires DistinctIds(src)
    ensures blobsToCopy == BlobsToCopy(src, dst, update)
    ensures left == dst - Ids(src)
    ensures |blobsToCopy| + inSyncBlobs == |src|
  {
    blobsToCopy, left, inSyncBlobs := [], dst, 0;
    ghost var seen: set<BlobId> := {};
    for i := 0 to |src|
      invariant blobsToCopy == BlobsToCopy(src[..i], dst, update)
      invariant seen == Ids(src[..i]) && left == dst - seen
      invariant |blobsToCopy| + inSyncBlobs == i
    {
      var m := src[i];
      PrefixIds(src, i);
      CopyNext(src, dst, update, i);
      assert (dst - seen) - {m.id} == dst - (seen + {m.id});
      seen := seen + {m.id};
      var exists' := m.id in left;
      var updated := exists' && m.timestamp > left[m.id].timestamp && update;
      left := left - {m.id};
      if !exists' || updated {
        blobsToCopy := blobsToCopy + [m];
      } else {
        inSyncBlobs := inSyncBlobs + 1;
      }
    }
    assert src[..|src|] == src;
  }

  /** What is left over, in the map's arbitrary order, or nothing unless deletion is on. */
  method PlanDeletes(left: map<BlobId, Metadata>, del: bool) returns (blobsToDelete: seq<Metadata>)
    requires KeyedById(left)
    ensures DistinctIds(blobsToDelete)
    ensures Ids(blobsToDelete) == if del then left.Keys else {}
    ensures forall m :: m in blobsToDelete ==> m.id in left && left[m.id] == m
  {
    blobsToDelete := [];
    if del {
      var rest := left;
      while rest != map[]
        invariant rest.Keys <= left.Keys && forall id :: id in rest ==> rest[id] == left[id]
        invariant forall m :: m in blobsToDelete ==> m.id in left && left[m.id] == m
        invariant DistinctIds(blobsToDelete)
        invariant Ids(blobsToDelete) == left.Keys - rest.Keys
        decreases |rest|
      {
        var id :| id in rest;
        AppendId(blobsToDelete, rest[id]);
        blobsToDelete := blobsToDelete + [rest[id]];
        assert (rest - {id}).Keys == rest.Keys - {id};
        rest := rest - {id};
      }
    }
  }

  // ---- The workers ----

  /** A sync: the blobs of the source and of the destination before it, and the two plans. */
  datatype Config = Config(
    src: map<BlobId, Data>, dst0: map<BlobId, Data>, toCopy: seq<BlobId>, toDelete: seq<BlobId>, parallelism: nat)

  ghost predicate GoodConfig(c: Config) {
    && (forall id :: id in c.toDelete ==> id !in c.src && id !in c.toCopy)
    && (forall i, j :: 0 <= i < j < |c.toCopy| ==> c.toCopy[i] != c.toCopy[j])
    && (forall i, j :: 0 <= i < j < |c.toDelete| ==> c.toDelete[i] != c.toDelete[j])
  }

  datatype Worker = InCopies | Copying(id: BlobId) | InDeletes | Deleting(id: BlobId) | Finished | FailedWith

  /** A goroutine feeding one unbuffered channel: how many items it has handed out, and whether
      it has closed the channel. */
  datatype Feed = Feed(handed: nat, closed: bool)

  datatype State = State(
    dst: map<BlobId, Data>,
    copies: Feed,
    deletes: Feed,
    workers: seq<Worker>,
    cancelled: bool,
    written: set<BlobId>,   // put into the destination
    removed: set<BlobId>,   // deleted from the destination
    copied: set<BlobId>,    // copies completed without error
    deleted: set<BlobId>)   // deletes completed without error

  datatype Step =
    | TakeCopy(w: nat) | EndCopies
    | CopyOk(w: nat) | CopyFails(w: nat, written: bool) | LeaveCopies(w: nat)
    | TakeDelete(w: nat) | EndDeletes
    | DeleteOk(w: nat) | DeleteFails(w: nat, removed: bool) | LeaveDeletes(w: nat)
    | Cancel // of the surrounding context

  ghost function Initial(c: Config): State {
    State(c.dst0, Feed(0, false), Feed(0, false), seq(c.parallelism, _ => InCopies), false, {}, {}, {}, {})
  }

  ghost predicate Is(s: State, w: nat, p: Worker) {
    w < |s.workers| && s.workers[w] == p
  }

  ghost predicate Enabled(c: Config, s: State, step: Step) {
    match step
    case TakeCopy(w) => Is(s, w, InCopies) && !s.copies.closed && s.copies.handed < |c.toCopy|
    case EndCopies => !s.copies.closed && (s.copies.handed >= |c.toCopy| || s.cancelled)
    case CopyOk(w) => w < |s.workers| && s.workers[w].Copying?
    case CopyFails(w, _) => w < |s.workers| && s.workers[w].Copying?
    case LeaveCopies(w) => Is(s, w, InCopies) && s.copies.closed
    case TakeDelete(w) => Is(s, w, InDeletes) && !s.deletes.closed && s.deletes.handed < |c.toDelete|
    case EndDeletes => !s.deletes.closed && (s.deletes.handed >= |c.toDelete| || s.cancelled)
    case DeleteOk(w) => w < |s.workers| && s.workers[w].Deleting?
    case DeleteFails(w, _) => w < |s.workers| && s.workers[w].Deleting?
    case LeaveDeletes(w) => Is(s, w, InDeletes) && s.deletes.closed
    case Cancel => true
  }

  ghost function SetWorker(s: State, w: nat, p: Worker): State
    requires w < |s.workers|
  {
    s.(workers := s.workers[w := p])
  }

  /** syncCopyBlob's effect; a blob that has vanished from the source is skipped. */
  ghost function WriteBlob(c: Config, s: State, id: BlobId): State {
    if id in c.src then s.(dst := s.dst[id := c.src[id]], written := s.written + {id}) else s
  }

  /** syncDeleteBlob's effect; a missing blob is not an error. */
  ghost function RemoveBlob(s: State, id: BlobId): State {
    s.(dst := s.dst - {id}, removed := s.removed + {id})
  }

  ghost function Apply(c: Config, s: State, step: Step): State
    requires Enabled(c, s, step)
  {
    match step
    case TakeCopy(w) =>
      SetWorker(s, w, Copying(c.toCopy[s.copies.handed])).(copies := Feed(s.copies.handed + 1, false))
    case EndCopies => s.(copies := s.copies.(closed := true))
    case CopyOk(w) =>
      var id := s.workers[w].id;
      SetWorker(WriteBlob(c, s, id), w, InCopies).(copied := s.copied + {id})
    case CopyFails(w, written) =>
      SetWorker(if written then WriteBlob(c, s, s.workers[w].id) else s, w, FailedWith).(cancelled := true)
    case LeaveCopies(w) => SetWorker(s, w, InDeletes)
    case TakeDelete(w) =>
      SetWorker(s, w, Deleting(c.toDelete[s.deletes.handed])).(deletes := Feed(s.deletes.handed + 1, false))
    case EndDeletes => s.(deletes := s.deletes.(closed := true))
    case DeleteOk(w) =>
      var id := s.workers[w].id;
      SetWorker(RemoveBlob(s, id), w, InDeletes).(deleted := s.deleted + {id})
    case DeleteFails(w, removed) =>
      SetWorker(if removed then RemoveBlob(s, s.workers[w].id) else s, w, FailedWith).(cancelled := true)
    case LeaveDeletes(w) => SetWorker(s, w, Finished)
    case Cancel => s.(cancelled := true)
  }

  // ---- Safety: what the destination holds at every moment ----

  ghost function Lookup(m: map<BlobId, Data>, id: BlobId): Option<Data> {
    if id in m then Some(m[id]) else None
  }

  /** id is one of the first n of a plan. */
  ghost predicate Handed(plan: seq<BlobId>, n: nat, id: BlobId) {
    exists i :: 0 <= i < n && i < |plan| && plan[i] == id
  }

  /** Each blob of the destination is as before, or the source's, or deleted, and only what was
      handed out has changed. */
  ghost predicate DstOk(c: Config, s: State) {
    && (forall id :: id in s.written ==> Handed(c.toCopy, s.copies.handed, id) && id in c.src)
    && (forall id :: id in s.removed ==> Handed(c.toDelete, s.deletes.handed, id))
    && (forall id :: Lookup(s.dst, id) ==
                     if id in s.written then Some(c.src[id]) else if id in s.removed then None else Lookup(c.dst0, id))
  }

  /** What a worker has in hand comes from the plans; what is complete has taken effect. */
  ghost predicate InHandOk(c: Config, s: State) {
    && (forall w :: 0 <= w < |s.workers| && s.workers[w].Copying? ==>
          Handed(c.toCopy, s.copies.handed, s.workers[w].id))
    && (forall w :: 0 <= w < |s.workers| && s.workers[w].Deleting? ==>
          Handed(c.toDelete, s.deletes.handed, s.workers[w].id))
    && (forall id :: id in s.copied ==> id in c.src ==> id in s.written)
    && (forall id :: id in s.deleted ==> id in s.removed)
  }

  /** Without cancellation the channels are used up before they are closed. */
  ghost predicate FeedsOk(c: Config, s: State) {
    && s.copies.handed <= |c.toCopy| && s.deletes.handed <= |c.toDelete|
    && (!s.cancelled && s.copies.closed ==> s.copies.handed == |c.toCopy|)
    && (!s.cancelled && s.deletes.closed ==> s.deletes.handed == |c.toDelete|)
  }

  /** Workers pass from one channel to the other only when it is closed. */
  ghost predicate WorkersOk(s: State) {
    && (forall w :: 0 <= w < |s.workers| && s.workers[w].FailedWith? ==> s.cancelled)
    && (forall w :: 0 <= w < |s.workers| ==>
          (s.workers[w].InDeletes? || s.workers[w].Deleting? || s.workers[w].Finished? ==> s.copies.closed))
    && (forall w :: 0 <= w < |s.workers| && s.workers[w].Finished? ==> s.deletes.closed)
  }

  ghost predicate PhasesOk(c: Config, s: State) {
    FeedsOk(c, s) && WorkersOk(s)
  }

  /** Everything handed out is complete or in a worker's hands, or a worker has failed. */
  ghost predicate HandedOk(c: Config, s: State) {
    FailedWith !in s.workers ==>
      && (forall id :: Handed(c.toCopy, s.copies.handed, id) ==> id in s.copied || Copying(id) in s.workers)
      && (forall id :: Handed(c.toDelete, s.deletes.handed, id) ==> id in s.deleted || Deleting(id) in s.workers)
  }

  ghost predicate Inv(c: Config, s: State) {
    && |s.workers| == c.parallelism
    && DstOk(c, s) && InHandOk(c, s) && PhasesOk(c, s) && HandedOk(c, s)
  }

  lemma {:induction false} StepKeepsDst(c: Config, s: State, step: Step)
    requires GoodConfig(c) && DstOk(c, s) && InHandOk(c, s) && Enabled(c, s, step)
    ensures DstOk(c, Apply(c, s, step))
  {
    match step
    case CopyOk(w) => WriteKeepsDst(c, s, s.workers[w].id);
    case CopyFails(w, _) => WriteKeepsDst(c, s, s.workers[w].id);
    case DeleteOk(w) => RemoveKeepsDst(c, s, s.workers[w].id);
    case DeleteFails(w, _) => RemoveKeepsDst(c, s, s.workers[w].id);
    case TakeCopy(_) =>
    case TakeDelete(_) =>
    case _ =>
  }

  lemma {:induction false} WriteKeepsDst(c: Config, s: State, id: BlobId)
    requires DstOk(c, s) && Handed(c.toCopy, s.copies.handed, id)
    ensures DstOk(c, WriteBlob(c, s, id))
  {}

  lemma {:induction false} RemoveKeepsDst(c: Config, s: State, id: BlobId)
    requires GoodConfig(c) && DstOk(c, s) && Handed(c.toDelete, s.deletes.handed, id)
    ensures DstOk(c, RemoveBlob(s, id))
  {
    assert id !in s.written;
  }

  lemma {:induction false} StepKeepsInHand(c: Config, s: State, step: Step)
    requires GoodConfig(c) && InHandOk(c, s) && Enabled(c, s, step)
    ensures InHandOk(c, Apply(c, s, step))
  {
    var s' := Apply(c, s, step);
    forall w | 0 <= w < |s'.workers| && s'.workers[w].Copying?
      ensures Handed(c.toCopy, s'.copies.handed, s'.workers[w].id)
    {
      assert s'.workers[w] == s.workers[w] || step == TakeCopy(w);
    }
    forall w | 0 <= w < |s'.workers| && s'.workers[w].Deleting?
      ensures Handed(c.toDelete, s'.deletes.handed, s'.workers[w].id)
    {
      assert s'.workers[w] == s.workers[w] || step == TakeDelete(w);
    }
  }

  lemma {:induction false} StepKeepsPhases(c: Config, s: State, step: Step)
    requires PhasesOk(c, s) && Enabled(c, s, step)
    ensures PhasesOk(c, Apply(c, s, step))
  {
    StepKeepsFeeds(c, s, step);
  }

  lemma {:induction false} StepKeepsFeeds(c: Config, s: State, step: Step)
    requires FeedsOk(c, s) && Enabled(c, s, step)
    ensures FeedsOk(c, Apply(c, s, step))
  {}

  /** Replacing one worker's state leaves the others where they are. */
  lemma {:induction false} OtherWorkers(ws: seq<Worker>, w: nat, p: Worker, q: Worker)
    requires w < |ws| && q in ws && ws[w] != q
    ensures q in ws[w := p]
  {
    var v :| 0 <= v < |ws| && ws[v] == q;
    assert ws[w := p][v] == q;
  }

  lemma {:induction false} StepKeepsHanded(c: Config, s: State, step: Step)
    requires HandedOk(c, s) && Enabled(c, s, step)
    ensures HandedOk(c, Apply(c, s, step))
  {
    var s' := Apply(c, s, step);
    if FailedWith !in s'.workers && !step.EndCopies? && !step.EndDeletes? && !step.Cancel? {
      var w := step.w;
      assert s'.workers[w] in s'.workers && s.workers[w] != FailedWith;
      if FailedWith in s.workers {
        OtherWorkers(s.workers, w, s'.workers[w], FailedWith);
      }
      forall id | Handed(c.toCopy, s'.copies.handed, id) ensures id in s'.copied || Copying(id) in s'.workers {
        if Handed(c.toCopy, s.copies.handed, id) && id !in s.copied && s.workers[w] != Copying(id) {
          OtherWorkers(s.workers, w, s'.workers[w], Copying(id));
        }
      }
      forall id | Handed(c.toDelete, s'.deletes.handed, id) ensures id in s'.deleted || Deleting(id) in s'.workers {
        if Handed(c.toDelete, s.deletes.handed, id) && id !in s.deleted && s.workers[w] != Deleting(id) {
          OtherWorkers(s.workers, w, s'.workers[w], Deleting(id));
        }
      }
    }
  }

  // ---- Whole runs ----

  ghost predicate IsRun(c: Config, steps: seq<Step>)
    decreases |steps|, 0
  {
    steps != [] ==>
      var n := |steps| - 1;
      IsRun(c, steps[..n]) && Enabled(c, After(c, steps[..n]), steps[n])
  }

  ghost function After(c: Config, steps: seq<Step>): State
    requires IsRun(c, steps)
    decreases |steps|, 1
  {
    if steps == [] then Initial(c)
    else var n := |steps| - 1; Apply(c, After(c, steps[..n]), steps[n])
  }

  lemma {:induction false} StepKeepsInv(c: Config, s: State, step: Step)
    requires GoodConfig(c) && Inv(c, s) && Enabled(c, s, step)
    ensures Inv(c, Apply(c, s, step))
  {
    StepKeepsDst(c, s, step);
    StepKeepsInHand(c, s, step);
    StepKeepsPhases(c, s, step);
    StepKeepsHanded(c, s, step);
  }

  lemma {:induction false} RunKeepsInv(c: Config, steps: seq<Step>)
    requires GoodConfig(c) && IsRun(c, steps)
    ensures Inv(c, After(c, steps))
    decreases |steps|
  {
    if steps != [] {
      var n := |steps| - 1;
      RunKeepsInv(c, steps[..n]);
      StepKeepsInv(c, After(c, steps[..n]), steps[n]);
    }
  }

  /** In every run, errors and cancellation included, a blob that the source has is never removed
      from the destination: it keeps its old data until it has the source's. */
  lemma {:induction false} SourceBlobsStay(c: Config, steps: seq<Step>, id: BlobId)
    requires GoodConfig(c) && IsRun(c, steps) && id in c.src
    ensures var dst := After(c, steps).dst;
            && (id in c.dst0 ==> id in dst)
            && (id in dst ==> dst[id] == c.src[id] || (id in c.dst0 && dst[id] == c.dst0[id]))
  {
    RunKeepsInv(c, steps);
    var s := After(c, steps);
    assert Lookup(s.dst, id) ==
           if id in s.written then Some(c.src[id]) else if id in s.removed then None else Lookup(c.dst0, id);
  }

  /** Only planned blobs are ever touched. */
  lemma {:induction false} OthersUntouched(c: Config, steps: seq<Step>, id: BlobId)
    requires GoodConfig(c) && IsRun(c, steps) && id !in c.toCopy && id !in c.toDelete
    ensures Lookup(After(c, steps).dst, id) == Lookup(c.dst0, id)
  {
    RunKeepsInv(c, steps);
  }

  /** A run is cancelled exactly by the surrounding context, or by a copy or delete that fails. */
  lemma {:induction false} CancelledIff(c: Config, steps: seq<Step>)
    requires IsRun(c, steps)
    ensures After(c, steps).cancelled <==>
            exists step :: step in steps && (step.Cancel? || step.CopyFails? || step.DeleteFails?)
    decreases |steps|
  {
    if steps != [] {
      var n := |steps| - 1;
      CancelledIff(c, steps[..n]);
      CancelledStep(c, After(c, steps[..n]), steps[n]);
      assert steps == steps[..n] + [steps[n]];
      assert forall step :: step in steps <==> step in steps[..n] || step == steps[n];
    }
  }

  lemma {:induction false} CancelledStep(c: Config, s: State, step: Step)
    requires Enabled(c, s, step)
    ensures Apply(c, s, step).cancelled <==> s.cancelled || step.Cancel? || step.CopyFails? || step.DeleteFails?
  {}

  /** No delete starts before every copy has been handed out, unless the run was cancelled. */
  lemma {:induction false} DeletesComeLast(c: Config, steps: seq<Step>, w: nat)
    requires GoodConfig(c) && IsRun(c, steps)
    requires var s := After(c, steps); w < |s.workers| && s.workers[w].Deleting?
    ensures var s := After(c, steps); s.cancelled || s.copies.handed == |c.toCopy|
  {
    RunKeepsInv(c, steps);
  }

  /** What a sync is meant to leave at the destination. */
  ghost function Target(c: Config, id: BlobId): Option<Data> {
    if id in c.toCopy && id in c.src then Some(c.src[id])
    else if id in c.toDelete then None
    else Lookup(c.dst0, id)
  }

  /** eg.Wait has returned nil: every worker returned nil. */
  ghost predicate Complete(s: State) {
    forall w :: 0 <= w < |s.workers| ==> s.workers[w].Finished?
  }

  /** After a complete run each blob is as the target says if it was handed out, and as before if not. */
  lemma {:induction false} CompletePointwise(c: Config, steps: seq<Step>, id: BlobId)
    requires GoodConfig(c) && IsRun(c, steps) && Complete(After(c, steps))
    ensures var s := After(c, steps);
            Lookup(s.dst, id) ==
              if Handed(c.toCopy, s.copies.handed, id) || Handed(c.toDelete, s.deletes.handed, id) then Target(c, id)
              else Lookup(c.dst0, id)
  {
    RunKeepsInv(c, steps);
    var s := After(c, steps);
    assert Copying(id) !in s.workers && Deleting(id) !in s.workers && FailedWith !in s.workers;
  }

  /** So a run that returns nil has synchronised the two if and only if what was not handed out,
      for lack of workers or because of a cancellation, needed no change. */
  lemma {:induction false} CompleteExact(c: Config, steps: seq<Step>)
    requires GoodConfig(c) && IsRun(c, steps) && Complete(After(c, steps))
    ensures var s := After(c, steps);
            (forall id :: Lookup(s.dst, id) == Target(c, id)) <==>
              && (forall i :: s.copies.handed <= i < |c.toCopy| ==>
                    Lookup(c.dst0, c.toCopy[i]) == Target(c, c.toCopy[i]))
              && (forall i :: s.deletes.handed <= i < |c.toDelete| ==>
                    Lookup(c.dst0, c.toDelete[i]) == Target(c, c.toDelete[i]))
  {
    var s := After(c, steps);
    forall id ensures
      Lookup(s.dst, id) ==
        if Handed(c.toCopy, s.copies.handed, id) || Handed(c.toDelete, s.deletes.handed, id) then Target(c, id)
        else Lookup(c.dst0, id)
    {
      CompletePointwise(c, steps, id);
    }
    forall i | s.copies.handed <= i < |c.toCopy| ensures !Handed(c.toCopy, s.copies.handed, c.toCopy[i]) {}
    forall i | s.deletes.handed <= i < |c.toDelete| ensures !Handed(c.toDelete, s.deletes.handed, c.toDelete[i]) {}
    assert forall i :: 0 <= i < |c.toDelete| ==> c.toDelete[i] in c.toDelete;
    assert forall i :: 0 <= i < |c.toCopy| ==> c.toCopy[i] in c.toCopy;
  }

  /** Whatever the schedule, a complete run with a worker and no cancellation meets the target. */
  lemma {:induction false} ScheduleIndependent(c: Config, steps: seq<Step>, id: BlobId)
    requires GoodConfig(c) && IsRun(c, steps) && c.parallelism >= 1
    requires Complete(After(c, steps)) && !After(c, steps).cancelled
    ensures Lookup(After(c, steps).dst, id) == Target(c, id)
  {
    RunKeepsInv(c, steps);
    assert After(c, steps).workers[0].Finished?;
    CompletePointwise(c, steps, id);
  }

  lemma {:induction false} Extend(c: Config, steps: seq<Step>, step: Step)
    requires IsRun(c, steps) && Enabled(c, After(c, steps), step)
    ensures IsRun(c, steps + [step]) && After(c, steps + [step]) == Apply(c, After(c, steps), step)
  {}

  lemma {:induction false} CancelledSkipsCopies(c: Config) returns (steps: seq<Step>)
    requires c.parallelism == 1
    ensures IsRun(c, steps)
    ensures After(c, steps) ==
            Initial(c).(cancelled := true, copies := Feed(0, true), workers := [InDeletes])
  {
    steps := [] + [Cancel];
    Extend(c, [], Cancel);
    Extend(c, steps, EndCopies);
    steps := steps + [EndCopies];
    Extend(c, steps, LeaveCopies(0));
    steps := steps + [LeaveCopies(0)];
    assert Initial(c).workers[0 := InDeletes] == [InDeletes];
  }

  /** A cancelled run can complete with nothing done: the feeding goroutines close their channels
      early and every worker returns nil. */
  lemma {:induction false} CancelledLooksComplete(c: Config) returns (steps: seq<Step>)
    requires c.parallelism == 1
    ensures IsRun(c, steps) && Complete(After(c, steps)) && After(c, steps).dst == c.dst0
  {
    steps := CancelledSkipsCopies(c);
    Extend(c, steps, EndDeletes);
    steps := steps + [EndDeletes];
    Extend(c, steps, LeaveDeletes(0));
    steps := steps + [LeaveDeletes(0)];
  }

  /** After a failed copy the other workers can be deleting while copies are left: the order of
      DeletesComeLast holds only without errors. */
  lemma {:induction false} DeleteBeforeCopies(c: Config) returns (steps: seq<Step>)
    requires c.parallelism == 2 && |c.toCopy| >= 2 && |c.toDelete| >= 1
    ensures IsRun(c, steps) && |After(c, steps).workers| == 2
    ensures After(c, steps).workers[1].Deleting? && After(c, steps).copies.handed < |c.toCopy|
  {
    steps := [] + [TakeCopy(0)];
    Extend(c, [], TakeCopy(0));
    Extend(c, steps, CopyFails(0, false));
    steps := steps + [CopyFails(0, false)];
    Extend(c, steps, EndCopies);
    steps := steps + [EndCopies];
    Extend(c, steps, LeaveCopies(1));
    steps := steps + [LeaveCopies(1)];
    Extend(c, steps, TakeDelete(1));
    steps := steps + [TakeDelete(1)];
  }

  /** Until every worker has returned, some goroutine can take a step other than a cancellation. */
  lemma {:induction false} NeverStuck(c: Config, steps: seq<Step>, w: nat)
    requires GoodConfig(c) && IsRun(c, steps)
    requires var s := After(c, steps); w < |s.workers| && !s.workers[w].Finished? && !s.workers[w].FailedWith?
    ensures exists step :: Enabled(c, After(c, steps), step) && !step.Cancel?
  {
    var s := After(c, steps);
    match s.workers[w]
    case InCopies =>
      if s.copies.closed {
        assert Enabled(c, s, LeaveCopies(w));
      } else {
        assert Enabled(c, s, TakeCopy(w)) || Enabled(c, s, EndCopies);
      }
    case Copying(_) => assert Enabled(c, s, CopyOk(w));
    case InDeletes =>
      if s.deletes.closed {
        assert Enabled(c, s, LeaveDeletes(w));
      } else {
        assert Enabled(c, s, TakeDelete(w)) || Enabled(c, s, EndDeletes);
      }
    case Deleting(_) => assert Enabled(c, s, DeleteOk(w));
    case Finished =>
    case FailedWith =>
  }

  // ---- Termination ----

  function WorkerWork(p: Worker): nat {
    match p
    case InCopies => 2
    case Copying(_) => 3
    case InDeletes => 1
    case Deleting(_) => 2
    case Finished => 0
    case FailedWith => 0
  }

  function WorkersWork(ws: seq<Worker>): nat {
    if ws == [] then 0 else WorkersWork(ws[..|ws| - 1]) + WorkerWork(ws[|ws| - 1])
  }

  function FeedWork(f: Feed, plan: seq<BlobId>): int {
    2 * (|plan| - f.handed) + if f.closed then 0 else 1
  }

  /** An upper bound on the steps that remain, cancellations aside. */
  function Work(c: Config, s: State): int {
    FeedWork(s.copies, c.toCopy) + FeedWork(s.deletes, c.toDelete) + WorkersWork(s.workers)
  }

  lemma {:induction false} WorkUpdate(ws: seq<Worker>, w: nat, p: Worker)
    requires w < |ws|
    ensures WorkersWork(ws[w := p]) + WorkerWork(ws[w]) == WorkersWork(ws) + WorkerWork(p)
    decreases |ws|
  {
    var n := |ws| - 1;
    if w == n {
      assert ws[w := p][..n] == ws[..n];
    } else {
      assert ws[w := p][..n] == ws[..n][w := p];
      WorkUpdate(ws[..n], w, p);
    }
  }

  lemma {:induction false} WorkOfAll(ws: seq<Worker>)
    requires forall w :: 0 <= w < |ws| ==> ws[w] == InCopies
    ensures WorkersWork(ws) == 2 * |ws|
  {
    if ws != [] {
      WorkOfAll(ws[..|ws| - 1]);
    }
  }

  /** Every step but a cancellation does some of it. */
  lemma {:induction false} EveryStepWorks(c: Config, s: State, step: Step)
    requires Enabled(c, s, step) && !step.Cancel?
    ensures Work(c, Apply(c, s, step)) < Work(c, s)
  {
    if !step.EndCopies? && !step.EndDeletes? {
      WorkUpdate(s.workers, step.w, Apply(c, s, step).workers[step.w]);
    }
  }

  /** The steps of a run that are not cancellations. */
  function OwnSteps(steps: seq<Step>): nat {
    if steps == [] then 0
    else OwnSteps(steps[..|steps| - 1]) + if steps[|steps| - 1].Cancel? then 0 else 1
  }

  lemma {:induction false} AllOwnSteps(steps: seq<Step>)
    requires Cancel !in steps
    ensures OwnSteps(steps) == |steps|
  {
    if steps != [] {
      AllOwnSteps(steps[..|steps| - 1]);
      assert steps[|steps| - 1] in steps;
    }
  }

  /** Every run ends: cancellations aside, it has at most two steps for each planned blob and for each
      worker, and one for each of the two channels. */
  lemma {:induction false} RunsAreBounded(c: Config, steps: seq<Step>)
    requires GoodConfig(c) && IsRun(c, steps)
    ensures OwnSteps(steps) <= 2 * (|c.toCopy| + |c.toDelete| + c.parallelism) + 2
    ensures Cancel !in steps ==> |steps| <= 2 * (|c.toCopy| + |c.toDelete| + c.parallelism) + 2
  {
    if Cancel !in steps {
      AllOwnSteps(steps);
    }
    WorkLeft(c, steps);
    RunKeepsInv(c, steps);
    WorkOfAll(Initial(c).workers);
  }

  lemma {:induction false} WorkLeft(c: Config, steps: seq<Step>)
    requires IsRun(c, steps)
    ensures OwnSteps(steps) + Work(c, After(c, steps)) <= Work(c, Initial(c))
    decreases |steps|
  {
    if steps != [] {
      var n := |steps| - 1;
      WorkLeft(c, steps[..n]);
      if !steps[n].Cancel? {
        EveryStepWorks(c, After(c, steps[..n]), steps[n]);
      }
    }
  }

  // ---- Planning and doing together ----

  ghost function IdSeq(ms: seq<Metadata>): (r: seq<BlobId>)
    ensures |r| == |ms| && forall i :: 0 <= i < |r| ==> r[i] == ms[i].id
  {
    seq(|ms|, i requires 0 <= i < |ms| => ms[i].id)
  }

  /** The sync that the plans for two listings describe. */
  ghost predicate Planned(c: Config, srcList: seq<Metadata>, dstList: map<BlobId, Metadata>, toDelete: seq<Metadata>,
                          update: bool, del: bool) {
    && DistinctIds(srcList) && Ids(srcList) == c.src.Keys
    && dstList.Keys == c.dst0.Keys
    && DistinctIds(toDelete) && Ids(toDelete) == (if del then dstList.Keys - Ids(srcList) else {})
    && c.toCopy == IdSeq(BlobsToCopy(srcList, dstList, update))
    && c.toDelete == IdSeq(toDelete)
  }

  lemma {:induction false} PlannedIds(c: Config, srcList: seq<Metadata>, dstList: map<BlobId, Metadata>,
                                      toDelete: seq<Metadata>, update: bool, del: bool, id: BlobId)
    requires Planned(c, srcList, dstList, toDelete, update, del)
    ensures id in c.toDelete <==> del && id in c.dst0 && id !in c.src
    ensures id in c.toCopy <==> exists m :: m in srcList && m.id == id && NeedsCopy(m, dstList, update)
  {
    if id in c.toDelete {
      var i :| 0 <= i < |c.toDelete| && c.toDelete[i] == id;
      assert toDelete[i].id in Ids(toDelete);
    }
    if id in Ids(toDelete) {
      var m :| m in toDelete && m.id == id;
      var i :| 0 <= i < |toDelete| && toDelete[i] == m;
      assert c.toDelete[i] == id;
    }
    var copies := BlobsToCopy(srcList, dstList, update);
    if id in c.toCopy {
      var i :| 0 <= i < |c.toCopy| && c.toCopy[i] == id;
      CopyMembers(srcList, dstList, update, copies[i]);
    }
    if m :| m in srcList && m.id == id && NeedsCopy(m, dstList, update) {
      CopyMembers(srcList, dstList, update, m);
      var i :| 0 <= i < |copies| && copies[i] == m;
      assert c.toCopy[i] == id;
    }
  }

  lemma {:induction false} PlannedIsGood(c: Config, srcList: seq<Metadata>, dstList: map<BlobId, Metadata>,
                                         toDelete: seq<Metadata>, update: bool, del: bool)
    requires Planned(c, srcList, dstList, toDelete, update, del)
    ensures GoodConfig(c)
  {
    CopyDistinct(srcList, dstList, update);
    forall id | id in c.toDelete ensures id !in c.src && id !in c.toCopy {
      PlannedIds(c, srcList, dstList, toDelete, update, del, id);
      assert forall m :: m in srcList ==> m.id in Ids(srcList);
    }
  }

  /** The whole command: after a complete, uncancelled sync the destination has every blob of the
      source, its own version only where that is not to be updated; every other blob is gone exactly
      if deletion was asked for, and otherwise as it was. */
  lemma {:induction false} SyncResult(c: Config, srcList: seq<Metadata>, dstList: map<BlobId, Metadata>,
                                      toDelete: seq<Metadata>, update: bool, del: bool, steps: seq<Step>,
                                      m: Metadata, other: BlobId)
    requires Planned(c, srcList, dstList, toDelete, update, del)
    requires IsRun(c, steps) && c.parallelism >= 1 && Complete(After(c, steps)) && !After(c, steps).cancelled
    requires m in srcList && other !in c.src
    ensures var dst := After(c, steps).dst;
            && m.id in dst
            && dst[m.id] == (if m.id in dstList && (!update || m.timestamp <= dstList[m.id].timestamp) then c.dst0[m.id]
                             else c.src[m.id])
            && Lookup(dst, other) == (if del then None else Lookup(c.dst0, other))
  {
    PlannedIsGood(c, srcList, dstList, toDelete, update, del);
    ScheduleIndependent(c, steps, m.id);
    ScheduleIndependent(c, steps, other);
    PlannedIds(c, srcList, dstList, toDelete, update, del, m.id);
    PlannedIds(c, srcList, dstList, toDelete, update, del, other);
    assert m.id in Ids(srcList);
    forall x | x in srcList && x.id == m.id ensures x == m {
      SameId(srcList, x, m);
    }
  }

  lemma {:induction false} SameId(ms: seq<Metadata>, x: Metadata, y: Metadata)
    requires DistinctIds(ms) && x in ms && y in ms && x.id == y.id
    ensures x == y
  {}
}
