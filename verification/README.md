# Kopia: verified models of its core data structures and protocols

Kopia is a backup tool: it stores snapshots as content-addressed blobs in a repository. This project
models the parts of it whose correctness rests on real invariants, in Dafny, and proves what those
parts promise. Each module follows one component of the Go source; code that updates state is a class
or a method with loops proved against a specification, concurrent code is a state machine whose steps
are the atomic actions of its goroutines, and pure code is functions and lemmas.

| files | component |
|---|---|
| `Primes.dfy`, `BigMapRecords.dfy`, `BigMapTable.dfy`, `BigMapStore.dfy`, `BigMap.dfy`, `BigMapSizes.dfy` | the append-only hash table `bigmap`: arithmetic, byte format, double hashing, stored data, the map itself, its first table sizes |
| `GrpcSession.dfy` | the request multiplexer of the gRPC repository client |
| `RecentlyRead.dfy`, `FlushGuarantee.dfy` | the client's memory of read contents, and what a successful `Flush` means |
| `DirCacheSpec.dfy`, `DirCache.dfy` | the LRU cache of directory listings: as a value, and as a linked list with a map |
| `ParallelListing.dfy` | listing a large directory with four workers |
| `RepoSync.dfy` | `repository sync-to`: the plan and the workers |
| `ContentCache.dfy` | the local cache of pack blobs and contents |
| `SourceName.dfy`, `SnapshotHistory.dfy` | names of snapshot sources; `copy-history` and `move-history` |
| `EpochRange.dfy` | the chain of range checkpoints of epochs |
| `CompleteSets.dfy` | complete sets of blobs |
| `IgnoreRules.dfy` | ignore rules of a directory tree |
| `SubdirAll.dfy` | creating directories below a mount point |
| `Wrappers.dfy` | the optional value that the other modules share |

Check it with `dafny verify dfyconfig.toml`.

## Where the code keeps less than its obvious promise

The models follow the code. Where a natural claim fails, a counterexample is given and the exact
condition under which the claim holds is proved:

- The directory cache is left with a broken list by a lookup that expires the first entry when a cache
  hit had moved it there, and by no other lookup (`GetEntriesFromCacheLocked`, `ExpiredMovedHead`).
- The session's read loop hangs for good on a message for a request that is unknown, already answered
  or being failed by its sender, and on no other (`RecvBlocksIff`). After the final drain exactly the
  requests registered later and not taken back by their senders stay pending (`PendingAfterDrain`).
- A nil `Flush` means that the server has every content written before it that the client did not skip
  as recently read, so every one it never read back, whatever the shared local cache held
  (`FlushStores`, `FlushStoresUnread`). One that it did read back and skip can be missing
  (`FlushWithoutStoring`), but only if another user of the cache left it there while the server did not
  have it (`FlushStores`).
- A sync that returns nil has synchronised the two sides exactly if what was never handed to a worker
  needed no change; a cancelled one can return nil having done nothing (`CompleteExact`,
  `CancelledLooksComplete`). Deletes come after all copies only as long as no copy fails
  (`DeletesComeLast`, `DeleteBeforeCopies`).
- A section read from a cached blob equals that of the stored blob exactly unless it reaches into the
  checksum behind it (`CachedSectionExact`). For any request the content cache agrees with the storage
  exactly under `FullModeAgrees` or `PartialModeAgrees`, which hold of every request within the blob
  (`GetContent`, `InRangeIff`). In the mode that fetches full blobs, a request for a whole blob whose cached copy is
  damaged returns the damaged bytes in front of the blob (`GetContentFromFullBlob`).
- Repeating `copy-history` adds nothing exactly if the destination names a host, or the source does
  not either, or every listed manifest is mapped to itself (`Run`, `RepeatSaves`). A repeat from
  `alice@h:/a` to `bob@:/b` saves the copy again (`HostlessRepeat`).
- A recently read ID can be forgotten while it is still in the window, if it was added twice close
  together (`RepeatForgotten`); otherwise memory and window agree (`WindowExact`).
- A policy that asks for no ignore rules of its parents gets them all the same (`ParentsAlwaysApply`).
- No blob appears twice among the complete sets exactly if no set is completed twice
  (`DistinctExact`). That is so where the blobs of a set agree on its size (`ResultIsKept`), and need
  not be where they disagree (`DisagreementDuplicates`).
- `MkSubdirAll` is meant to be refused where the top-level directory is missing. It is refused exactly
  if the first directory above the requested one whose path is no longer than that of the top-level
  directory is missing, or the request is no longer itself (`MkSubdirAll`). Where the text of the request
  continues that of the top-level directory, the two are the same (`MkBelowTop`). Otherwise the
  top-level directory can be made again (`RecreatesTop`), as by a request for `/a//b/c` below a missing
  `/a/b` (`DoubledSeparatorWitness`).

A few large predicates are stated under a quantifier with a trigger of their own (`PrimeTable`,
`StoreOk`, `TableHolds`, `DataOk`, `ListOk`, `LinkedThen`, `Skips`, `Progress`, `AtLoop`, `Good`,
`Remembers`); proofs carry them around folded and open them where they are needed.

## Model

| member | source | states |
|---|---|---|
| `Primes.NoSmallerMultiple` | internal/bigmap/bigmap_internal.go:209-222 | for a prime table size p and a step d below it, no multiple m*d with 0 < m < p is divisible by p, so no probe repeats early |
| `Primes.ProbeCoverage` | internal/bigmap/bigmap_internal.go:209-222 | the first `size` probes visit every slot of a table of prime size |
| `BigMapRecords.UvarintRoundTrip` | internal/bigmap/bigmap_internal.go:174-178 | reading a uvarint gives back the number written and its length, whatever bytes follow |
| `BigMapRecords.UvarintCutOff` | internal/bigmap/bigmap_internal.go:174-178 | a number that is cut off is not read at all |
| `BigMapRecords.UvarintLength` | internal/bigmap/bigmap_internal.go:284-303 | a length below 2^32 takes at most the five bytes reserved for it |
| `BigMapRecords.EncodedHolds` | internal/bigmap/bigmap_internal.go:294-307 | an encoded record is read back from any place in a segment: key, value and end |
| `BigMapRecords.RecordAt` | internal/bigmap/bigmap_internal.go:234-250 | re-parsing a segment finds the j-th appended record at its offset, and the next one right after it |
| `BigMapTable.HashesTellApart` | internal/bigmap/bigmap_internal.go:181-197 | the hashes tell keys apart by exactly the first eight bytes, or four of a short key, and the next eight where there are as many; they fit in 64 bits |
| `BigMapTable.StopsAtOneSlot` | internal/bigmap/bigmap_internal.go:209-222 | probing for a key can stop at one slot only |
| `BigMapTable.LookupExact` | internal/bigmap/bigmap_internal.go:209-222 | if some slot holds the key, probing stops there and nowhere else |
| `BigMapTable.HasEmptySlot` | internal/bigmap/bigmap_internal.go:278-282 | a table with fewer distinct keys than slots has an empty slot |
| `BigMapTable.PassesBound` | internal/bigmap/bigmap_internal.go:217-219 | probing never passes an empty slot, so it ends within as many probes as there are slots |
| `BigMapTable.StopMeans` | internal/bigmap/bigmap_internal.go:217-221 | where probing stops is the key's slot, or an empty slot exactly when no slot holds the key |
| `BigMapTable.FullTableNeverStops` | internal/bigmap/bigmap_internal.go:217-219 | the empty slot is needed: in a full table probing for an absent key passes any number of slots |
| `BigMapTable.InsertKeepsTable` | internal/bigmap/bigmap_internal.go:312-315 | filling the empty slot where probing for a new key arrived keeps every key findable |
| `BigMapStore.ReadValueExact` | internal/bigmap/bigmap_internal.go:171-178 | the 32-bit offset arithmetic of Get slices out exactly the stored value |
| `BigMapStore.ScanFinds` | internal/bigmap/bigmap_internal.go:234-250 | the scan of a segment reads key j at its offset, computes its location and goes on to record j+1 |
| `BigMapStore.ScanEnds` | internal/bigmap/bigmap_internal.go:235-237 | the scan starts at record 0 and ends right after the last record |
| `BigMapStore.NextIsNew` | internal/bigmap/bigmap_internal.go:239-248 | no record is met twice and no two records have the same key |
| `BigMapStore.AppendKeeps` | internal/bigmap/bigmap_internal.go:286-310 | appending the record of an absent key adds exactly one location and one key, and moves no other record |
| `BigMapStore.StartSegmentKeeps` | internal/bigmap/bigmap_internal.go:289-292 | a new segment changes no record's location |
| `BigMap.FirstPutWins` | internal/bigmap/bigmap_internal.go:256-318 | after any sequence of puts a key has the value of its first put |
| `BigMap.OnlyPutKeys` | internal/bigmap/bigmap_internal.go:256-318 | after any sequence of puts only keys that were put are present |
| `BigMap.LookupMeans` | internal/bigmap/bigmap_internal.go:150-160 | where a lookup stops tells whether the contents have the key, and with which value |
| `BigMap.LoadBelowSize` | internal/bigmap/bigmap_internal.go:278-282 | the load limit stays below the number of slots exactly for percentages below 100 |
| `BigMap.DefaultOptions` | internal/bigmap/bigmap_internal.go:413-433 | the defaults, and that each option that is given is kept |
| `BigMap.InternalMap.LimitMeans` | internal/bigmap/bigmap_internal.go:278 | the load limit is reached exactly when one more key would be more than the percentage of the slots |
| `BigMap.InternalMap.KeyEquals` | internal/bigmap/bigmap_internal.go:200-206 | compares with the key of the record that the slot refers to |
| `BigMap.InternalMap.FindSlotInSlice` | internal/bigmap/bigmap_internal.go:209-222 | stops within len(slots) probes, at the key's own slot, or at an empty slot exactly when the key is absent |
| `BigMap.InternalMap.FindSlot` | internal/bigmap/bigmap_internal.go:225-227 | the slot found is taken iff the map contains the key, and then refers to its record |
| `BigMap.InternalMap.Contains` | internal/bigmap/bigmap_internal.go:146-153 | true iff the key is in the abstract finite map |
| `BigMap.InternalMap.Get` | internal/bigmap/bigmap_internal.go:156-179 | found iff present; buf followed by the first value put, or nothing for maps without values |
| `BigMap.InternalMap.RehashRecord` | internal/bigmap/bigmap_internal.go:238-248 | re-reads one record, places it and returns where the next starts |
| `BigMap.InternalMap.RehashSegment` | internal/bigmap/bigmap_internal.go:235-249 | re-reading a segment places exactly its records |
| `BigMap.InternalMap.GrowLocked` | internal/bigmap/bigmap_internal.go:230-254 | a larger table of the given size with the same entries, so the same key-to-location relation |
| `BigMap.InternalMap.EnsureRoom` | internal/bigmap/bigmap_internal.go:284-292 | a new segment exactly if the payload does not fit in the last one, in memory up to the given number and a mapped file after that, or memory where mapping fails; contents unchanged |
| `BigMap.InternalMap.AppendBytes` | internal/bigmap/bigmap_internal.go:294-310 | the last segment grows by the encoded record and nothing else changes |
| `BigMap.InternalMap.GrowIfLoaded` | internal/bigmap/bigmap_internal.go:278-282 | the next larger table exactly if one more key would be more than the percentage of the slots; afterwards one slot more than the new key needs is empty, and the slot found is the key's in the current table |
| `BigMap.InternalMap.Insert` | internal/bigmap/bigmap_internal.go:284-315 | the key is added with its value, its slot refers to the written record, and all else is kept |
| `BigMap.InternalMap.PutChecked` | internal/bigmap/bigmap_internal.go:273-317 | adds the pair iff the key was absent and says so; the table grows exactly if one more key would be more than the percentage of its slots, and if there is no larger size for that the put panics |
| `BigMap.InternalMap.PutIfAbsent` | internal/bigmap/bigmap_internal.go:257-318 | the abstract map gains the pair iff the key was absent, returns true iff so; grows exactly when one more key would be more than the percentage of the slots; panics for bad keys, for values, and exactly where it would have to grow past the last size, with the contents unchanged; so after any sequence of puts on a fresh map the contents are what those puts amount to |
| `BigMap.NewInternalMap` | internal/bigmap/bigmap_internal.go:408-452 | an empty map with defaults applied, valid iff the load factor is below 100 percent and segments are below 2^32 bytes; an error exactly for a too small initial size, a panic exactly for one past the table of sizes |
| `BigMapSizes.FirstSizesArePrime` | internal/bigmap/bigmap_internal.go:81-86 | the first five table sizes are increasing primes |
| `GrpcSession.StepKeepsInv` | repo/grpc_repository_client.go:106-195 | every step of senders, read loop, drain and receivers keeps each request in exactly one place |
| `GrpcSession.NoPanic` | repo/grpc_repository_client.go:116-117 | no step sends on or closes a closed channel |
| `GrpcSession.AtMostOneReply` | repo/grpc_repository_client.go:106-195 | in every run a request's channel gets at most one message, which answers that request or reports a broken stream, and is closed at most once; what waits to be received is that message |
| `GrpcSession.ReceivedIsDelivered` | repo/grpc_repository_client.go:110-117 | in every run the message that the read loop receives for a pending request is, from then on, being delivered to its channel or the one message on it |
| `GrpcSession.ReplyHasCause` | repo/grpc_repository_client.go:106-172 | in every run each message on a channel was received for that request while it was pending, or its Send failed or the stream broke before |
| `GrpcSession.ReceivedOnce` | repo/grpc_repository_client.go:131-172 | what a caller receives is the one message sent, once |
| `GrpcSession.ExactlyOnePlace` | repo/grpc_repository_client.go:106-195 | in every run each request number handed out is pending, held by one goroutine, or answered |
| `GrpcSession.ReaderNeverBlocks` | repo/grpc_repository_client.go:109-128 | outside Recv the read loop can always take its next step; its channel sends have room |
| `GrpcSession.SenderNeverBlocks` | repo/grpc_repository_client.go:163-169 | a sender that took its channel back can always report and close |
| `GrpcSession.HeldChannelIsOpen` | repo/grpc_repository_client.go:110-169 | whoever holds a channel finds it open, and empty until it has sent its message |
| `GrpcSession.SendsAreExclusive` | repo/grpc_repository_client.go:157-163 | two calls are never inside Send at once |
| `GrpcSession.SentIff` | repo/grpc_repository_client.go:163-171 | a call reports its request as sent exactly if Send succeeded |
| `GrpcSession.NoDeadlock` | repo/grpc_repository_client.go:106-195 | until a call has returned some sender or the drain can go on |
| `GrpcSession.RecvBlocksIff` | repo/grpc_repository_client.go:110-117 | a message blocks the read loop forever iff its request is unknown, being failed by its sender, or answered |
| `GrpcSession.PendingAfterDrain` | repo/grpc_repository_client.go:122-128 | after the drain a request is pending iff it was registered later and its sender has not taken it back |
| `GrpcSession.AllAnswered` | repo/grpc_repository_client.go:122-172 | if all calls have returned and every later Send failed, nothing is pending and each request has exactly one reply |
| `GrpcSession.ReplyIsFinal` | repo/grpc_repository_client.go:106-195 | once a channel is closed its one message never changes for the rest of the run |
| `GrpcSession.DrainTerminates` | repo/grpc_repository_client.go:123-128 | while the drain lasts no step adds to its work and each of its own steps does some |
| `GrpcSession.EveryStepWorks` | repo/grpc_repository_client.go:106-195 | each step but a registration strictly reduces the work left |
| `GrpcSession.RunsAreBounded` | repo/grpc_repository_client.go:106-195 | every run ends: it has at most ten further steps for each registration, and two more |
| `RecentlyRead.AddExact` | repo/recently_read.go:32-35 | one add remembers the new ID and forgets exactly the evicted one |
| `RecentlyRead.RememberedInWindow` | repo/recently_read.go:19-49 | a remembered ID was added among the last 1024 |
| `RecentlyRead.WindowExact` | repo/recently_read.go:19-49 | without repeats within 1024 adds, memory is exactly the window |
| `RecentlyRead.RepeatForgotten` | repo/recently_read.go:32-34 | an ID added twice in a row is forgotten while its second copy is still in the window |
| `RecentlyRead.Recent.Add` | repo/recently_read.go:19-36 | the ring and the set follow the history of adds |
| `RecentlyRead.Recent.Exists` | repo/recently_read.go:38-49 | true iff the latest add is within the last 1024 and no older copy was evicted since |
| `FlushGuarantee.StepKeepsInv` | repo/grpc_repository_client.go:602-744 | every returned ID is confirmed or has an unfinished task; flushes that passed their wait vouch for confirmed IDs only |
| `FlushGuarantee.AllTasksSucceeded` | repo/grpc_repository_client.go:450-452 | when Wait returns nil everything returned so far is vouched for |
| `FlushGuarantee.FlushConfirms` | repo/grpc_repository_client.go:449-459 | in every run a nil Flush means each ID returned before it was acknowledged identically, confirmed by ContentInfo, or skipped as recently read; what is skipped was read |
| `FlushGuarantee.ReturnedIsPromised` | repo/grpc_repository_client.go:449-459 | an ID that WriteContent returned before a Flush began is one that the Flush answers for |
| `FlushGuarantee.FlushStores` | repo/grpc_repository_client.go:449-459 | each such content that was not skipped, or for which the shared cache was sound, is on the server |
| `FlushGuarantee.FlushStoresUnread` | repo/grpc_repository_client.go:449-459 | each such content that was never read back is on the server, whatever the shared cache held |
| `FlushGuarantee.WriteThenFlush` | repo/grpc_repository_client.go:449-709 | end to end: a content whose WriteContent returned before a Flush that succeeds is on the server, if it was never read back or the shared cache was sound |
| `FlushGuarantee.FlushWithoutStoring` | repo/grpc_repository_client.go:602-709 | for every content a run in which it is read back from the shared cache, skipped and flushed with nil, and the server lacks it |
| `FlushGuarantee.FailedWriteFailsFlush` | repo/grpc_repository_client.go:450-452 | a write not acknowledged with its own ID makes every Flush fail whose wait ends after it |
| `FlushGuarantee.WritesAreAnswered` | repo/grpc_repository_client.go:711-744 | in every run the writes sent are those answered and those still running |
| `FlushGuarantee.LargeIsChecked` | repo/grpc_repository_client.go:652-663 | a content is sent without asking the server first exactly if it has less than 50 000 bytes |
| `FlushGuarantee.CachedStep` | repo/grpc_repository_client.go:602-683 | the shared cache gets what is read, what others put there, and prefixed contents that are sent |
| `FlushGuarantee.CallGoesOn` | repo/grpc_repository_client.go:651-709 | a call can go on until it returns |
| `DirCacheSpec.TrimIsLongest` | fs/cachefs/cache.go:183-186 | eviction keeps the longest most-recent prefix that meets both limits |
| `DirCacheSpec.FitsShorter` | fs/cachefs/cache.go:183-186 | shorter prefixes of a list within the limits are within them too |
| `DirCacheSpec.HitIsLatestLoad` | fs/cachefs/cache.go:118-189 | in every run a hit returns the wrapped listing of the latest load of that ID, before it expires |
| `DirCacheSpec.HitIff` | fs/cachefs/cache.go:118-139 | a lookup hits exactly what is cached under the ID and has not expired |
| `DirCacheSpec.AnswerIs` | fs/cachefs/cache.go:143-189 | in every run a request that loads is answered with what its loader returned, wrapped only if too long to be cached; any other with the wrapped listing of the latest load before it expires, or with a failure if its loader failed |
| `DirCacheSpec.LoadedIsFirst` | fs/cachefs/cache.go:174-188 | a listing that is loaded and short enough is cached in front of all others |
| `DirCacheSpec.AskedAgain` | fs/cachefs/cache.go:118-152 | so asking again before it expires gets the wrapped listing |
| `DirCacheSpec.RunByRecency` | fs/cachefs/cache.go:43-51 | in every run the cached listings are in the order of their latest requests, so eviction drops the least recently used |
| `DirCacheSpec.RunWithinLimits` | fs/cachefs/cache.go:183-186 | both limits hold after every run |
| `DirCache.Cache.constructor` | fs/cachefs/cache.go:210-221 | an empty valid cache with no requests so far |
| `DirCache.Cache.AddToHead` | fs/cachefs/cache.go:53-62 | the list runs through the new entry and then the old ones; the entry's own prev stays |
| `DirCache.Cache.Unlink` | fs/cachefs/cache.go:64-78 | the neighbours of the entry, or the ends of the list, skip it, and no other pointer changes |
| `DirCache.Cache.Remove` | fs/cachefs/cache.go:64-78 | unlinks an entry of the list, or leaves it as head if it is a first one with a left-over prev |
| `DirCache.Cache.MoveToHead` | fs/cachefs/cache.go:43-51 | the entry comes first, the others keep their order |
| `DirCache.Cache.RemoveEntryLocked` | fs/cachefs/cache.go:191-195 | list, map and total all lose exactly the entry, except in the left-over case |
| `DirCache.Cache.GetEntriesFromCacheLocked` | fs/cachefs/cache.go:118-139 | behaves as Lookup; the cache stays valid iff it does not expire a first entry that a hit had moved there |
| `DirCache.Cache.Evict` | fs/cachefs/cache.go:183-186 | terminates with the list trimmed to the limits |
| `DirCache.Cache.Serve` | fs/cachefs/cache.go:143-189 | the listing is that of the value-level cache; so is the new recency list, and the cache is valid, iff the lookup does not expire a moved first entry |
| `DirCache.Cache.GetEntries` | fs/cachefs/cache.go:143-189 | refines the value-level cache, call by call, so that after any sequence of requests the cache is what Run makes of them, and each is answered as AnswerIs says |
| `DirCache.Cache.WithinLimits` | fs/cachefs/cache.go:183-186 | after any requests the map and the total are within the limits |
| `DirCache.Cache.CachedFromLatestLoad` | fs/cachefs/cache.go:118-189 | after any requests what is cached under an ID is the wrapped listing of its latest load, with its expiry |
| `DirCache.Cache.ListByRecency` | fs/cachefs/cache.go:43-51 | after any requests the linked list is in the order of the latest requests |
| `DirCache.HitMovesSecond` | fs/cachefs/cache.go:43-62 | after two loads and a second read of the first the first is in front, moved there by a hit |
| `DirCache.ExpiredMovedHead` | fs/cachefs/cache.go:43-78 | a concrete history after which the list starts with an entry that is not cached |
| `ParallelListing.StepKeepsCounted` | fs/localfs/local_fs.go:190-273 | every step keeps the pending counter, the channel bounds and the phases consistent |
| `ParallelListing.PendingIsExact` | fs/localfs/local_fs.go:219-258 | before returning, what the caller expects is exactly what is in the channels and with the workers |
| `ParallelListing.FullInputLeavesRoom` | fs/localfs/local_fs.go:223-246 | a push that waits at a full input channel leaves at most four results held or queued |
| `ParallelListing.NoDeadlock` | fs/localfs/local_fs.go:190-273 | until the caller returns some goroutine can take a step that is not a failure |
| `ParallelListing.CallsEachOnce` | fs/localfs/local_fs.go:190-273 | a successful run has called back exactly once per entry that still existed and never otherwise |
| `ParallelListing.AbortHasCause` | fs/localfs/local_fs.go:228-268 | the caller gives up only for a failed callback, read or stat |
| `ParallelListing.AbortsIff` | fs/localfs/local_fs.go:228-268 | in every run the caller returns an error exactly if a callback or a read failed or a result with an error was received, however many succeed |
| `ParallelListing.EveryStepWorks` | fs/localfs/local_fs.go:190-273 | each step strictly reduces a bounded amount of work |
| `ParallelListing.RunsAreBounded` | fs/localfs/local_fs.go:190-273 | no run is longer than the work at its start |
| `ParallelListing.StartsIff` | fs/localfs/local_fs.go:158-161 | workers are used exactly for directories of at least one hundred entries |
| `ParallelListing.Batches` | fs/localfs/local_fs.go:249-255 | the directory is read up to one hundred entries at a time, and to its end |
| `RepoSync.CopyMembers` | cli/command_repository_sync.go:123-140 | the blobs to copy are exactly those missing at the destination or, with updates on, older there than at the source |
| `RepoSync.PlanCopies` | cli/command_repository_sync.go:123-147 | the copy list in source order, the destination blobs not in the source, and how many are in sync |
| `RepoSync.PlanDeletes` | cli/command_repository_sync.go:151-157 | every left-over blob once if deletion is on, else none |
| `RepoSync.StepKeepsInv` | cli/command_repository_sync.go:225-343 | every step keeps each destination blob as it was, as the source's, or deleted as planned |
| `RepoSync.SourceBlobsStay` | cli/command_repository_sync.go:225-343 | in every run, failures included, a blob of the source is never removed from the destination |
| `RepoSync.OthersUntouched` | cli/command_repository_sync.go:225-343 | blobs in neither plan never change |
| `RepoSync.CancelledIff` | cli/command_repository_sync.go:225-343 | a run is cancelled exactly by the surrounding context or by a copy or delete that fails |
| `RepoSync.DeletesComeLast` | cli/command_repository_sync.go:240-267 | a delete starts only after every copy was handed out, or after a cancellation |
| `RepoSync.CompletePointwise` | cli/command_repository_sync.go:225-277 | after a nil return each blob is as planned if it was handed out and as before if not |
| `RepoSync.CompleteExact` | cli/command_repository_sync.go:225-277 | the plan is fulfilled iff what was not handed out needed no change |
| `RepoSync.ScheduleIndependent` | cli/command_repository_sync.go:225-277 | with a worker and no cancellation every complete schedule ends in the same destination |
| `RepoSync.CancelledLooksComplete` | cli/command_repository_sync.go:279-295 | a cancelled run can return nil with the destination unchanged |
| `RepoSync.DeleteBeforeCopies` | cli/command_repository_sync.go:239-295 | after a failed copy another worker can be deleting with copies left |
| `RepoSync.NeverStuck` | cli/command_repository_sync.go:239-295 | until all workers have returned some goroutine can go on |
| `RepoSync.EveryStepWorks` | cli/command_repository_sync.go:239-295 | each step but a cancellation strictly reduces the work left |
| `RepoSync.RunsAreBounded` | cli/command_repository_sync.go:225-295 | every run ends: it has at most two steps for each planned blob and each worker and one for each channel, cancellations aside |
| `RepoSync.SyncResult` | cli/command_repository_sync.go:123-173 | what a whole sync leaves: every source blob, the destination's own version exactly where it is not older or not to be updated, others gone iff deletion was on |
| `ContentCache.KeysDisjoint` | internal/cache/content_cache.go:38-50 | a content and a pack blob never share a cache key, unless the content's prefix is that of a pack blob |
| `ContentCache.KeysEqualIff` | internal/cache/content_cache.go:38-50 | a content and a blob share a cache key exactly if they have the same ID with a prefix, or the content without one has the blob's key |
| `ContentCache.ContentKeysInjective` | internal/cache/content_cache.go:38-45 | different contents have different cache keys |
| `ContentCache.RotationInjective` | internal/cache/content_cache.go:48-50 | different blobs have different cache keys |
| `ContentCache.ProtectVerifies` | internal/cache/storage_protection.go:46-55 | protected data verifies and is stripped back to itself |
| `ContentCache.VerifiesIff` | internal/cache/storage_protection.go:46-55 | exactly protected data verifies |
| `ContentCache.CachedSectionExact` | internal/cache/persistent_lru_cache.go:134-149 | a section of a cached blob equals that of the blob iff it does not reach into the checksum |
| `ContentCache.ContentCacheImpl.GetPartial` | internal/cache/persistent_lru_cache.go:126-168 | sections are returned unverified, whole entries only if they verify; a damaged one is deleted, if that works; what is left in the output |
| `ContentCache.ContentCacheImpl.Put` | internal/cache/persistent_lru_cache.go:171-188 | stores the protected data, if that works |
| `ContentCache.ContentCacheImpl.GetOrLoad` | internal/cache/persistent_lru_cache.go:85-117 | the verified entry or what was loaded, spoiled only by a damaged entry that could not be deleted |
| `ContentCache.ContentCacheImpl.FetchBlobInternal` | internal/cache/content_cache.go:95-109 | returns the whole blob and caches it, if that works |
| `ContentCache.ExtractAgrees` | internal/cache/content_cache.go:78-92 | what is taken from a fetched blob is what the storage returns exactly for sections, whole reads into an empty output, and empty blobs |
| `ContentCache.ContentCacheImpl.GetContentFromFullBlob` | internal/cache/content_cache.go:60-93 | with an intact cached blob or none, the outcome of the storage exactly where FullModeAgrees says; for a damaged one read whole, the damaged bytes and then the blob; sections of a damaged one unnoticed; an error if the blob is missing; what is fetched is cached, if that works |
| `ContentCache.ContentCacheImpl.GetContentFromFullOrPartialBlob` | internal/cache/content_cache.go:111-144 | with an intact cached blob or none, the outcome of the storage exactly where PartialModeAgrees says; the content's bytes also when its own cached copy or, for whole reads, the blob's is damaged; what is fetched is cached, if that works |
| `ContentCache.ContentCacheImpl.GetContentOrFetch` | internal/cache/content_cache.go:126-143 | the content's own verified entry, or else the outcome of the storage, which is cached, if that works |
| `ContentCache.ContentCacheImpl.GetContent` | internal/cache/content_cache.go:52-58 | agrees with the passthrough cache exactly where the mode's condition says, whatever happened before, if the cached blob is intact; so for every request within the blob |
| `ContentCache.InRangeIff` | internal/cache/content_cache.go:52-58 | both modes agree whatever is cached exactly on requests within the blob and on some for everything of an empty one |
| `ContentCache.ContentCacheImpl.PrefetchBlob` | internal/cache/content_cache.go:150-169 | succeeds iff the blob exists; fetches and caches it exactly if it is not there yet |
| `ContentCache.ContentCacheImpl.DropEntry` | internal/cache/persistent_lru_cache.go:274-281 | losing any entry, as sweeping does, keeps the cache consistent |
| `SourceName.RoundTripIff` | snapshot/source.go:18-71 | printing and parsing round-trip in every context exactly for the portable sources |
| `SourceName.PrintedForm` | snapshot/source.go:18-28 | only the global source is printed as such; every other name has its user before an @ |
| `SourceName.LocalParses` | snapshot/source.go:38-71 | a name without @, or with a : before it, is a path of the caller's user and host |
| `SourceName.HostlessParses` | snapshot/source.go:38-58 | user@:path is read as a source with an empty host |
| `SourceName.PrintInjective` | snapshot/source.go:18-28 | distinct portable sources have distinct names |
| `SnapshotHistory.InjectiveIffAccepted` | cli/command_snapshot_copy_move_history.go:178-188 | a pair of source and destination is accepted exactly if no two matching sources are mapped to the same one |
| `SnapshotHistory.DestinationExact` | cli/command_snapshot_copy_move_history.go:221-237 | fields that the destination names are taken from it and the others kept; the result is listed under the destination unless that names no host and the source does |
| `SnapshotHistory.SnapshotExists` | cli/command_snapshot_copy_move_history.go:193-218 | true iff the list has a manifest of the source with the same start time and root |
| `SnapshotHistory.ProgressMeans` | cli/command_snapshot_copy_move_history.go:101-143 | while the command runs nothing is lost and the destination's manifests are kept |
| `SnapshotHistory.NothingLostMeans` | cli/command_snapshot_copy_move_history.go:101-143 | that is, each original manifest has one with its start time and root under its own source or the mapped one |
| `SnapshotHistory.AllCopiedIff` | cli/command_snapshot_copy_move_history.go:101-143 | everything is copied iff each matching manifest has one with its start time and root under the mapped source |
| `SnapshotHistory.SaveKeeps` | cli/command_snapshot_copy_move_history.go:131-136 | saving under the mapped source gives the snapshot a counterpart that is never deleted |
| `SnapshotHistory.DeleteKeeps` | cli/command_snapshot_copy_move_history.go:138-142 | deleting a manifest that has a counterpart loses nothing |
| `SnapshotHistory.CopiedNeedsSaving` | cli/command_snapshot_copy_move_history.go:96-121 | of what is all copied, a manifest is saved again iff copies are not found and it is not mapped to itself |
| `SnapshotHistory.RepeatSaves` | cli/command_snapshot_copy_move_history.go:96-136 | so repeating a copy saves something iff copies are not found and some listed manifest is not mapped to itself |
| `SnapshotHistory.HostlessListing` | cli/command_snapshot_copy_move_history.go:82-121 | from alice@h:/a to bob@:/b all is copied, yet the destination listing is empty and the manifest needs saving |
| `SnapshotHistory.HostlessRepeat` | cli/command_snapshot_copy_move_history.go:82-146 | there a repeated copy that succeeds changes the store |
| `SnapshotHistory.RelabelOne` | cli/command_snapshot_copy_move_history.go:101-143 | one manifest is skipped, copied or moved, with every intermediate store sound |
| `SnapshotHistory.Run` | cli/command_snapshot_copy_move_history.go:82-146 | every intermediate store keeps each snapshot under its old or mapped source and all of the destination's; what is added are complete copies; success copies all, a move leaves none, a repeated copy adds nothing exactly if copies are found |
| `EpochRange.BestIsProper` | internal/epoch/epoch_range.go:35-42 | the recursion returns a gap-free chain from its start, past epoch 0 |
| `EpochRange.BestIsOptimal` | internal/epoch/epoch_range.go:35-42 | no chain from the start reaches further, and none that reaches as far is shorter |
| `EpochRange.Finder.StartingAt` | internal/epoch/epoch_range.go:24-47 | terminates and returns with its memory what the recursion returns without, and remembers it |
| `EpochRange.GroupByMin` | internal/epoch/epoch_range.go:15-19 | each range is in the group of its first epoch and in no other |
| `EpochRange.FindLongestRangeCheckpoint` | internal/epoch/epoch_range.go:14-22 | a gap-free chain from epoch 0, furthest reaching and then shortest; empty exactly when no chain gets past epoch 0 |
| `CompleteSets.FindAll` | internal/completeset/complete_set.go:44-75 | the sets, in the order in which they become complete, by positions in the input |
| `CompleteSets.NameConvention` | internal/completeset/complete_set.go:50-66 | names of the documented form, with or without further parts, are read as that set and count |
| `CompleteSets.NamesOnly` | internal/completeset/complete_set.go:50-66 | only names of that form are read, with the set and the count that they name |
| `CompleteSets.CountIsRead` | internal/completeset/complete_set.go:60-66 | every count that fits in 64 bits is read, and none that does not |
| `CompleteSets.DecimalIsRead` | internal/completeset/complete_set.go:60-66 | digits are read in decimal notation |
| `CompleteSets.FindFirst` | internal/completeset/complete_set.go:22-29 | the first of them, or none |
| `CompleteSets.ExcludeIncomplete` | internal/completeset/complete_set.go:32-40 | their concatenation |
| `CompleteSets.MoreBlobsKeepSets` | internal/completeset/complete_set.go:44-75 | listing more blobs only adds sets at the end, so the first one never changes |
| `CompleteSets.SetsAreFirstMembers` | internal/completeset/complete_set.go:66-71 | each set returned is a malformed blob by itself or the first count members of a set in input order |
| `CompleteSets.ResultExact` | internal/completeset/complete_set.go:32-75 | for all inputs a blob is returned exactly if its name is malformed or it or a later blob of its set completes the set |
| `CompleteSets.DistinctExact` | internal/completeset/complete_set.go:32-75 | for all inputs no position is returned twice exactly if no set is completed twice |
| `CompleteSets.ResultIsKept` | internal/completeset/complete_set.go:32-75 | with agreeing counts a blob is returned exactly if its name is malformed or it is among the first count of a set with that many, and no position twice |
| `CompleteSets.DisagreementDuplicates` | internal/completeset/complete_set.go:66-71 | two blobs with disagreeing counts of which the first is returned twice |
| `IgnoreRules.ShouldIncludeByName` | fs/ignorefs/ignorefs.go:36-62 | the parent-then-matchers evaluation equals "the last rule that hits decides" over all rules from the root |
| `IgnoreRules.TrimmedPath` | fs/ignorefs/ignorefs.go:366-373 | rules are matched against the path from the top of the tree without its leading dot |
| `IgnoreRules.CombineAndDedupe` | fs/ignorefs/ignorefs.go:306-324 | each element of both lists once, where it first occurs |
| `IgnoreRules.DedupeKeepsOrder` | fs/ignorefs/ignorefs.go:306-324 | the order is kept |
| `IgnoreRules.OverrideFromPolicy` | fs/ignorefs/ignorefs.go:264-291 | the policy's rules and limits on a new context, or an error iff a rule is malformed |
| `IgnoreRules.PolicyThenFiles` | fs/ignorefs/ignorefs.go:264-304 | the policy's rules come first, in their order, then those of the dot files |
| `IgnoreRules.FilesNamedHas` | fs/ignorefs/ignorefs.go:223-236 | the dot files read are those of the given names that are files or links to files |
| `IgnoreRules.RulesInOrder` | fs/ignorefs/ignorefs.go:293-304 | rules of several files keep the order of the files |
| `IgnoreRules.ParentsAlwaysApply` | fs/ignorefs/ignorefs.go:243-272 | rules of the parents apply whether or not the policy asks for none |
| `IgnoreRules.BuildContext` | fs/ignorefs/ignorefs.go:213-262 | the rules are the parent's, then the policy's, then the dot files', also when the parent's context is reused |
| `IgnoreRules.MaybeWrappedChildEntry` | fs/ignorefs/ignorefs.go:170-188 | an entry is shown iff its name, size and device allow it, directories with their context |
| `IgnoreRules.IterateEntries` | fs/ignorefs/ignorefs.go:150-168 | exactly the included entries, in order; nothing for a cache directory |
| `IgnoreRules.Child` | fs/ignorefs/ignorefs.go:190-211 | the entry if it exists and is included, else not found |
| `IgnoreRules.ChildIffListed` | fs/ignorefs/ignorefs.go:150-211 | Child finds a name exactly if the listing has it |
| `IgnoreRules.ReuseIsEmptyChild` | fs/ignorefs/ignorefs.go:238-241 | reusing the parent's context decides like an empty child context |
| `SubdirAll.FileSystem.TrimTrailingSeparator` | internal/dirutil/mksubdirall.go:56-64 | the path up to its last name |
| `SubdirAll.FileSystem.GetParent` | internal/dirutil/mksubdirall.go:66-75 | the path without its last name |
| `SubdirAll.ParentBelow` | internal/dirutil/mksubdirall.go:27-34 | the parent of a path below the top-level directory is that directory or below it |
| `SubdirAll.StopIsTop` | internal/dirutil/mksubdirall.go:27-34 | going up from a path below the top-level directory, the first path no longer than that directory's is its own |
| `SubdirAll.StopExists` | internal/dirutil/mksubdirall.go:27-34 | where the parent of a path exists, so does the directory at which going up stops |
| `SubdirAll.FileSystem.MkSubdirAll` | internal/dirutil/mksubdirall.go:23-54 | for all inputs: terminates; refused exactly if the path is no longer than the top-level directory's or the directory at which going up stops is missing, and then without effect; creates only directories strictly below that one down to the path; on success the path exists; other errors only where a directory is refused |
| `SubdirAll.FileSystem.MkWithParent` | internal/dirutil/mksubdirall.go:32-53 | the same for a path with a missing parent, which is made first |
| `SubdirAll.FileSystem.MkBelowTop` | internal/dirutil/mksubdirall.go:23-54 | for a path whose text continues that of the top-level directory: refused without effect exactly if that is missing, and only directories strictly below it are made |
| `SubdirAll.FileSystem.RecreatesTop` | internal/dirutil/mksubdirall.go:27-39 | a missing top-level directory above the path is made again whenever the directory at which going up stops exists and none is refused |
| `SubdirAll.DoubledSeparator` | internal/dirutil/mksubdirall.go:56-75 | going up from s//x/y stops at s although s/x is the top-level directory |
| `SubdirAll.RecreatedByDoubledSeparator` | internal/dirutil/mksubdirall.go:23-75 | with only /a present a request for /a//b/c makes the missing top-level directory /a/b again, for any names |
| `SubdirAll.DoubledSeparatorWitness` | internal/dirutil/mksubdirall.go:23-75 | the same for these names |

## Left out

- bigmap: `Close`, memory mapping and temporary files, the encrypted wrappers; a segment is a growing byte sequence. Sizes are mathematical integers, so `len(slots)*LoadFactorPercentage` does not overflow; table sizes are any increasing primes, of which the first five of the source's are proved prime.
- BigMap.InternalMap.PutIfAbsent: does not cover new records that would not fit in 32-bit offsets, 2^32 segments, or load factors of 100 percent and more, with which a lookup need not end; a segment that is reallocated for an oversized record gets any capacity below 2^32.
- BigMapRecords: the overflow results of reading a uvarint that was not written as one.
- gRPC: the transport, retries, prefix validation, session establishment and replacement, trace contexts; only the multiplexer of one session and the client's bookkeeping are modelled. A content that the server reports as deleted counts as confirmed, as in the code.
- cachefs: a nil cache, debug logging, and the callbacks of `IterateEntries`.
- DirCache.Cache.GetEntries: does not cover caching a listing after a lookup that broke the list (the eviction loop need not end after it), or a second listing under the empty ID, which is stored but never looked up.
- localfs: directories of fewer than one hundred entries, which are listed without workers, and goroutines that stay blocked after an error.
- sync: the format blob check, progress output, dry runs and modification times; a blob is its bytes.
- content cache: sweeping, `TouchBlob`, mutexes (calls are modelled one at a time) and encryption as a protection; HMAC is any function with 32-byte results.
- ContentCache.ContentCacheImpl.GetContent: covers blobs with the prefixes of packs and contents with other prefixes only; KeysDisjoint says why.
- copy-history: parsing the two arguments, snapshots that cannot be loaded, tags, and errors of listing.
- epoch: everything but the choice of range checkpoints.
- ignorefs: reporting of ignored files, wildcard matching and reading ignore files; a rule is any predicate on paths, and the cache directory test is a flag.
- dirutil: files in the place of directories, and the names `.` and `..`.
- The rest of the repository: storage providers, encryption, splitters, indexes, policies, maintenance, the server, the user interfaces.
