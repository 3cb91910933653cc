# Artifact Depot: a verified model of its core

Artifact Depot is an artifact repository on a sharded, non-transactional key-value (KV) store and
a blob store. This project models its hardest parts in Dafny and proves what each of them is for.
`dafny verify dfyconfig.toml` checks everything.

| area | modules |
|---|---|
| Sharded listing: batched scans, lazy shard streams, heap merge, cursor pages, proxy merge | `Lex`, `Scan`, `Listing`, `Paging`, `ProxyPage` |
| Paths and the browse tree | `Paths`, `Browse` |
| Concurrent ingest, directory deltas, store counters, the recount | `Blobs`, `BlobIngest`, `IngestRuns`, `IngestHistory`, `Sums`, `ArtifactDeltas`, `PutHistory`, `StoreCounter`, `Reconcile` |
| Reorganisation planner and its execution | `Planner`, `Reorg` |
| Docker tag copy and move | `TagCopy` |
| Repository graph: group statistics, staleness, proxy resolution | `RepoGraph` |
| Cloning and draining whole repositories | `Tables`, `Requests`, `Partitions` |
| Aligned direct I/O and S3 multipart writers | `Chunks`, `DirectIo`, `S3Writer` |
| Single-flight upstream fetches | `Inflight` |

Code that changes things step by step is modelled by classes and methods with loops, proved against
functions and predicates on values. Protocols (ingest, deltas, counters, the in-flight map) are
step relations: one atomic KV, blob-store, lock or send operation is one step, and a theorem
quantifies over every run of any number of clients.

Assumed of what lies outside: `scan_range` returns the ascending first `limit` keys of
`[start, end)`, may or may not already report `done` on an exactly full batch, and never returns an
empty batch that is not done; single-key conditional operations are atomic; a content hash
determines the content; fresh ids are fresh; `shard_of` is an arbitrary function into 0..255.
Stored records, regular expressions, manifest parsing, case folding and UTF-8 validity are
uninterpreted parameters.

## Where the code and its promises part

Each of these is stated and proved, with the exact condition where there is one.

- Mounting a blob from a repository of another store claims it, and records it, under a store that
  does not have the file; a later uploader of the same content loses the claim to it and deletes
  its own good copy (`MountLosesUpload`). One mount is safe if and only if it stays within the
  source's store (`MountSafeIff`), and all runs are if and only if all mounts do (`AllRunsSafeIff`).
- An upload or copy whose artifact write fails after the blob record was created never credits that
  record (`LateCreditLost`); an empty blob copied across stores is never credited
  (`UncreditedEmpty`); a deletion between a lost claim and its re-read can credit one record twice
  (`DoubleCredit`), and one that read the size too early debits nothing (`UndebitedDelete`).
  `CreditsAreRecount` says exactly what these four add, and `AlwaysExactIff` for which classes of
  run the counters can be trusted.
- Both KV backends restart a key's version at 1 after a delete (`kv/redb/src/redb_kv.rs:310`), so a
  stale writer can match a re-created record and mis-state its byte delta. Count deltas are exact in
  every run; byte deltas are exact in every run if and only if stamps are never reused or deletions
  do not meet interleaved calls (`ArtifactDeltas.AlwaysExactIff`, `RestartedStampDrifts`).
- A page of limit 0 hands out a cursor past an item it never carried (`LimitZeroSkips`); paging is
  complete exactly for positive limits or an exhausted listing (`PagingComplete`).
- A proxy's first page is right for all member contents exactly when the offset is 0
  (`OffsetExactIff`).
- The path check refuses only the empty path, but every path of slashes alone means the root
  (`NormalizesToRootIff`).
- A path has its tree key to itself exactly when no other NUL byte splits that key
  (`TreeKeyUniqueIff`, `NulPathsCollide`); the listings of a tree can be trusted exactly when no
  path has a NUL in its name, or one in its parent that does not begin a segment below the top
  (`AlwaysListsRightIff`, `WrongListing`). The directory named `_root` shares its scan prefix with
  the repository root's own entry, and lists its children exactly while there is no such entry
  (`ListedIsChildrenIff`).
- The server accepts direct-I/O block sizes from 4 to 65536 KiB
  (`server/src/server/config/mod.rs:361`), but only multiples of 4 KiB give aligned writes
  (`ConfiguredSizes`); with others the last block may not fit its buffer and `finish` fails.
- A clone cancelled while directory entries are being copied reports success
  (`CancelAfterArtifacts`). Its directory table is whole exactly when the destination already
  answered what the skipped partitions hold (`CopiedButIff`). A clone answers as its source exactly
  when no leftover of an earlier repository of that name gets in the way (`CloneAnswersIff`).
- Planning again after a full apply is a fixpoint exactly when no delete was refused to protect its
  repository (`ConvergesIff`). No execution of a plan loses a tag exactly when the scan list names
  no repository twice (`ScanListIff`, `RepeatedScanLoses`). A comment at
  `bench/src/reorg.rs:1305-1306` says superseded copies are never deleted; the code deletes those
  not provably newer, and the model follows the code.
- Moving a tag within one repository, allowed to overwrite, deletes the tag just copied; it changes
  nothing otherwise (`MoveWithin`, `MovedOntoItself`).
- A copy to another store whose hash is claimed there by a file that is gone, as a mount across
  stores leaves behind, drops its own upload and succeeds with a record that has no bytes behind it;
  that is the only way a copy that succeeds lacks them (`RehomeBlob`).
- The multipart writer hands its buffer to a part before the request succeeds. A caller that finishes
  after a failed write publishes a whole object exactly when it was the upload that could not be
  opened, and otherwise one shorter than the size reported (`FinishRegardless`, `TruncatedUpload`).
  It also knows nothing of S3's limit of 10,000 parts, which small chunks reach at about 50 GB: past
  it the write fails (`S3Writer.WriteAll`).

## Model

| member | source | states |
|---|---|---|
| `Lex.NulIsSuccessor` | core/src/service/scan.rs:72-86 | a scan restarted at a key with a NUL appended starts at exactly the next larger key |
| `Lex.PrefixRange` | core/src/store/keys.rs:314-324 | the range from a prefix up to its computed end holds exactly the keys with that prefix, bounded or not |
| `Lex.ComputePrefixEnd` | core/src/store/keys.rs:314-324 | the byte loop computes that bound for every prefix, giving none for empty and all-0xFF prefixes |
| `Scan.StringPrefixEnd` | core/src/service/scan.rs:88-92 | the string bound is the byte bound, or none when the bumped bytes are not UTF-8 |
| `Scan.ContainsIff` | core/src/service/pagination.rs:84-92 | the needle is found exactly when it stands at some position of the text |
| `Scan.ResumeAfterBatch` | core/src/service/scan.rs:72-86 | a batch and the scan resumed after it are the scan, with no gap or repeat, and the cursor advances |
| `Scan.ForEachInPartition` | core/src/service/scan.rs:35-86 | for every batch size and backend choice of `done`, the loop ends and visits exactly the keys under the prefix, in order |
| `Listing.ShardStream.constructor` | core/src/service/pagination.rs:34-53 | a new stream will yield exactly the wanted entries from its start key on |
| `Listing.ShardStream.Refill` | core/src/service/pagination.rs:66-98 | one batch loses nothing still to be yielded, and either the scan advances or the shard is exhausted |
| `Listing.ShardStream.EnsureBuffered` | core/src/service/pagination.rs:58-100 | the refill loop ends with something to peek or nothing left, and nothing lost |
| `Listing.ShardStream.Advance` | core/src/service/pagination.rs:112-114 | drops exactly the peeked entry |
| `Listing.PopHeadsRest` | core/src/service/pagination.rs:170-214 | the least heap key is the next key of the one sorted list behind all shards, and consuming it keeps that true |
| `Listing.KWayMerge` | core/src/service/pagination.rs:142-220 | lazily merged shards give the sorted list above the cursor, dropped by the offset and cut one past the limit |
| `Listing.StartDoesNotMatter` | core/src/service/artifact.rs:267-290 | starting the scans at the prefix or the cursor loses no wanted key above the cursor |
| `Listing.WholeAscending` | core/src/service/pagination.rs:142-220 | shards with disjoint keys form one ascending list |
| `Listing.WholeMembers` | core/src/service/pagination.rs:142-220 | that list holds exactly the shards' entries |
| `Listing.ListArtifacts` | core/src/service/artifact.rs:261-297 | over 256 shards, for any `done` choices and with the prefix end missing, a page of the one ascending list that holds exactly the shards' entries under the prefix |
| `Listing.SearchArtifacts` | core/src/service/artifact.rs:299-345 | the same for exactly the entries whose lower-cased key has the lower-cased query at some position |
| `Listing.PageIsSlice` | core/src/service/artifact.rs:261-297 | a page is the run of `limit` items that begins just above the cursor or, without one, at the offset, with a cursor exactly when more follow |
| `Paging.NextCursor` | core/src/service/pagination.rs:234-242 | the next cursor stands just past the page, or one item further at limit 0 |
| `Paging.PagingComplete` | core/src/service/pagination.rs:234-242 | following cursors ends, and the pages concatenate to the listing after the offset if and only if the limit is positive or nothing was left |
| `Paging.LimitZeroSkips` | core/src/service/pagination.rs:234-242 | a two-item listing from which limit 0 delivers nothing |
| `Paging.FetchAll` | core/src/service/artifact.rs:261-297 | a client driving the real listing page by page gets the whole listing |
| `ProxyPage.BoundedUnion` | core/src/repo/proxy.rs:188-266 | the union of every member's first n items agrees with the full first-member-wins union on its first n |
| `ProxyPage.UnionIsFirstWins` | core/src/repo/proxy.rs:208-245 | ascending member lists have exactly one first-member-wins union, the fold of insert-if-absent over them in order |
| `ProxyPage.UnionAfter` | core/src/repo/proxy.rs:188-266 | cutting every member at the cursor is cutting their union at the cursor |
| `ProxyPage.MergedPageIsUnionPage` | core/src/repo/proxy.rs:188-266 | page and cursor are those of one listing, the first-member-wins union |
| `ProxyPage.PaginatedMerge` | core/src/repo/proxy.rs:188-266 | for list and search alike, whenever there is a cursor or no offset, the page of the one ascending list of the entries that fit the request and whose path no earlier reachable member has; members that fail hide nothing |
| `ProxyPage.MembersServe` | core/src/repo/proxy.rs:208-254 | the union of the members' listings holds exactly, for each path asked for, the entry of the first reachable member that has it |
| `ProxyPage.SmallMembersExact` | core/src/repo/proxy.rs:188-266 | any offset is exact while no member has more than limit + 1 matches |
| `ProxyPage.OffsetLosesItems` | core/src/repo/proxy.rs:188-266 | for every positive offset and every limit, contents whose first page is wrong |
| `ProxyPage.OffsetExactIff` | core/src/repo/proxy.rs:188-266 | for every limit, the first page is right for all contents if and only if the offset is 0 |
| `Paths.NormalizePath` | core/src/store/keys.rs:120-143 | fast and slow path both give the non-empty segments joined by single slashes |
| `Paths.CanonicalIffFixed` | core/src/store/keys.rs:120-143 | normalising is idempotent and fixes exactly the paths without leading, trailing or double slashes |
| `Paths.NormalizesToRootIff` | core/src/store/keys.rs:120-143 | exactly the paths made of slashes alone normalise to the root |
| `Paths.ParentAndName` | core/src/store/keys.rs:156-175 | parent and name are the parts around the last slash |
| `Paths.TreeKeysInjective` | core/src/store/keys.rs:156-191 | tree keys tell normalised NUL-free paths apart |
| `Paths.TreeKeyUniqueIff` | core/src/store/keys.rs:156-191 | a normalised path shares its key with another if and only if a NUL in its name before the last byte, or in its parent's last segment after the first, splits the key again |
| `Paths.NulPathsCollide` | core/src/store/keys.rs:182-191 | two normalised paths with NULs share a tree key |
| `Browse.ListChildren` | core/src/service/directory.rs:46-96 | for any directory, trailing slashes trimmed: exactly the shard's entries under the prefix, split by kind and sorted by name; that is each child once when no path misleads, although others share the shard; `_root` also shows the root entry |
| `Browse.AlwaysListsRightIff` | core/src/service/directory.rs:46-96 | for every set of paths, all listings of all trees over it are right if and only if no path has a NUL in its name or misplaced in its parent |
| `Browse.WrongListing` | core/src/service/directory.rs:46-96 | for every such path, a tree and a directory that lists it without being its parent |
| `Browse.ListedIsChildrenIff` | core/src/service/directory.rs:46-96 | listed means child if and only if the directory is not `_root` or there is no root entry |
| `ArtifactDeltas.DeltasSumToLive` | core/src/service/artifact.rs:51-104 | in every interleaving, per directory, count deltas sum to the live records and byte deltas to the live bytes plus exactly the mis-stated replacements |
| `ArtifactDeltas.DeltasExact` | core/src/repo/hosted.rs:73-113 | both sums are exact on a store that never reuses stamps, without deletes, or when calls do not interleave |
| `ArtifactDeltas.NeverReusedHasNoDrift` | core/src/service/artifact.rs:51-104 | with stamps never reused, every successful conditional write replaced the record it had read |
| `ArtifactDeltas.RestartedStampDrifts` | kv/redb/src/redb_kv.rs:285-320 | a run of four clients whose byte deltas do not sum to the live bytes |
| `ArtifactDeltas.AlwaysExactIff` | kv/redb/src/redb_kv.rs:285-320 | over stores and classes of run: byte deltas are exact in all runs if and only if stamps are never reused or deletions and interleaved calls do not meet |
| `ArtifactDeltas.FailedCallsSendNothing` | core/src/service/artifact.rs:94-104 | only calls that completed ever sent a delta, so one failing after three conflicts sent none |
| `PutHistory.LastPutStands` | core/src/service/artifact.rs:51-92 | in every run, a put that met no conflict has its own record under the normalised path until someone else writes or deletes there |
| `PutHistory.LastDeleteStands` | core/src/service/artifact.rs:142-156 | in every run, a deletion leaves nothing under the normalised path until someone writes there |
| `PutHistory.FailsAfterThree` | core/src/service/artifact.rs:51-104 | in every run, a put of a non-empty path fails only after exactly three conflicts with other writers |
| `BlobIngest.StepKeepsInv` | core/src/service/blob.rs:42-103 | every step, mounts across stores included, keeps: what a record names has the recorded hash, each file has exactly one reason to exist, claims never change winner |
| `IngestRuns.IngestSafe` | core/src/repo/mod.rs:348-420 | while mounts stay within one store, in every reachable state each blob and artifact record points at a stored file with the recorded hash |
| `IngestRuns.NeverWrongContent` | core/src/repo/mod.rs:348-420 | in every run at all, a file that a record names has the recorded hash, if it is there |
| `IngestHistory.LastIngestStands` | core/src/repo/mod.rs:348-420 | in every run, after an ingest wrote its key and until someone else writes it, the record is of its own upload: its store and its content's hash |
| `IngestHistory.LastMountStands` | format/docker/src/store.rs:279-325 | in every run, after a mount wrote its key and until someone else writes it, the record is the one mounted, as it was when the mount began, under the destination's store |
| `IngestHistory.EveryRecordWasWritten` | core/src/repo/mod.rs:348-420 | no record appears under a key that no client came to write |
| `IngestHistory.DoneHasWritten` | core/src/repo/mod.rs:396-404 | every client that is done has made its write |
| `IngestHistory.UploadReadsBack` | core/src/repo/mod.rs:348-420 | while mounts stay within one store, the file the record names holds exactly the bytes of the last ingest to write the key |
| `IngestRuns.MountSafeIff` | format/docker/src/store.rs:279-325 | one mount from any safe state is safe if and only if its destination is the store of the record mounted |
| `IngestRuns.MountLosesUpload` | format/docker/src/api/uploads.rs:147-180 | for any two stores, a run in which a mount across them makes a later uploader drop its only copy |
| `IngestRuns.AllRunsSafeIff` | format/docker/src/store.rs:279-325 | all runs are safe if and only if every mount allowed stays within one store |
| `IngestRuns.DroppedIsUnreferenced` | core/src/service/blob.rs:73-103 | in every run, a duplicate's deletion never hits a file any record names or any client will still name |
| `IngestRuns.OneFilePerHash` | format/docker/src/store.rs:216-275 | once all clients are done no content is stored twice and no file is unclaimed, and with mounts within one store there is exactly one file per claimed hash and store |
| `IngestRuns.SurplusIsOrphans` | core/src/service/blob.rs:73-103 | in every run, with crashes and failed deletions, the surplus files are exactly the orphans |
| `IngestRuns.WinnerAlwaysThere` | core/src/service/blob.rs:57-70 | without deletions the re-read after a lost claim always finds the winner |
| `StoreCounter.CreditsAreRecount` | core/src/service/blob.rs:115-183 | in every interleaving of claims, artifact writes and counted deletes, the deltas exceed the recount by exactly what four named mishaps mis-stated |
| `StoreCounter.CounterEqualsRecount` | core/src/service/blob.rs:115-183 | the counters equal the recount in every run that credits all new records and is delete-free or sequential |
| `StoreCounter.SizesAreTrue` | core/src/service/blob.rs:42-70 | in every run each blob record's size is the length of the content it is for |
| `StoreCounter.AlwaysExactIff` | core/src/repo/hosted.rs:73-90 | over classes of run: the counters are always exact if and only if empty blobs are credited, no late credit meets a failing artifact write, and deletions never interleave |
| `StoreCounter.LateCreditLost` | core/src/repo/mod.rs:371-405 | an upload whose artifact write fails after its claim leaves a record no counter ever has |
| `StoreCounter.UncreditedEmpty` | format/docker/src/promote.rs:97-101 | an empty blob copied across stores leaves a record no counter ever has |
| `StoreCounter.DoubleCredit` | core/src/service/blob.rs:59-69 | a run that credits one record twice |
| `StoreCounter.UndebitedDelete` | core/src/service/blob.rs:115-129 | a deletion that reads the size before the record is there leaves a credit for no record |
| `Reconcile.FoldPartition` | core/src/service/store.rs:84-97 | one partition's tallies are the totals of its records per store |
| `Reconcile.ReconcileStoreStats` | core/src/service/store.rs:75-116 | for any completion order of the partitions, every store's written totals are the true ones |
| `Planner.DecisionIsMoveOrLeave` | bench/src/reorg.rs:399-435 | a group of move and leave rules decides nothing else |
| `Planner.FirstFitDecides` | bench/src/reorg.rs:386-434 | the first rule whose image filter and tag pattern both fit decides, each action as it says, a classify rule by its two image lists |
| `Planner.NoFitLeaves` | bench/src/reorg.rs:386-434 | a tag that no rule fits is left alone |
| `Planner.GroupMovesMembers` | bench/src/reorg.rs:598-657 | the listed moves are exactly the misplaced tags of the inventory |
| `Planner.BuildGroupPlan` | bench/src/reorg.rs:598-657 | plans a move for exactly the first-party tags decided to move elsewhere, in inventory order, and puts every other first-party tag in the list of its decision |
| `Planner.ResolveTarget` | bench/src/reorg.rs:690-756 | keeps the first of the newest rivals, or none if the target exists, and reports exactly the others |
| `Planner.NewestInDates` | bench/src/reorg.rs:690-756 | in dates: a known date beats a missing one, a later one an earlier, and a tie goes to the first in plan order |
| `Planner.ResolveMoveCollisions` | bench/src/reorg.rs:676-756 | at most one move per target is kept, never onto an existing copy, and exactly the others are reported with their dates |
| `Reorg.PlanRun` | bench/src/reorg.rs:1302-1391 | the planning half of a run yields a plan over the moves of its scan list, repeats included; with none repeated, a superseded copy is reviewed exactly when both dates are known and its own is later than the one that stays, and deletable otherwise |
| `Reorg.ApplyPlan` | bench/src/reorg.rs:1590-1690 | the apply loops, move by move and then delete by delete, end in the registry the results below speak of |
| `Reorg.LosesNothing` | bench/src/reorg.rs:1590-1690 | executing any subset of moves and superseded deletes overwrites nothing, and every tag keeps a copy which, where both dates are known, is no older |
| `Reorg.AppliedIs` | bench/src/reorg.rs:1590-1690 | what is left is exactly each moved tag at its target and the rest but for what was moved away or deleted unprotected |
| `Reorg.StillMisplaced` | bench/src/reorg.rs:1590-1690 | what a second run still finds misplaced was dropped by the first and lost to the copy now in place |
| `Reorg.Converges` | bench/src/reorg.rs:1302-1391 | after a full apply a second plan keeps no move, reviews the same sources, and deletes exactly what was refused |
| `Reorg.ConvergesIff` | bench/src/reorg.rs:1640-1675 | the second plan is empty but for reviews if and only if no planned delete was in a protected repository |
| `Reorg.ScanListIff` | bench/src/reorg.rs:1302-1391 | for every scan list, no execution of any plan for any registry and move and leave rules loses a tag if and only if the list names no repository twice |
| `Reorg.RepeatedScanLoses` | bench/src/reorg.rs:676-756 | for every scan list naming a repository twice, a registry, rules and an execution that loses its only tag |
| `TagCopy.ClassifyManifest` | format/docker/src/promote.rs:324-361 | the children are exactly the digests an index lists, the blobs exactly the config and layer digests an image names |
| `TagCopy.WalkClosure` | format/docker/src/promote.rs:216-246 | on any manifest graph the walk ends, succeeds exactly when every reachable manifest is readable, and returns exactly those and the configs and layers they name |
| `TagCopy.Depot.RehomeBlob` | format/docker/src/promote.rs:111-151 | succeeds if and only if the file is there and neither upload nor claim fails; the re-pointed record differs only in its blob id, behind which the destination has the same bytes unless its hash was claimed by a file without them |
| `TagCopy.Depot.CopyRecord` | format/docker/src/promote.rs:75-105 | DataIntegrity if and only if the file is missing, else success if and only if none of its requests fails; then the destination holds that record with the same bytes and nothing else moved, and on failure no artifact record changed |
| `TagCopy.Depot.DeleteTag` | format/docker/src/promote.rs:275-297 | removes exactly that record |
| `TagCopy.Depot.CopyClosure` | format/docker/src/promote.rs:246-258 | goes through with every record's file there and every request made, or stops at a missing file or a failed request; at every prefix of the writes the destination tag is unchanged or its whole closure has arrived, and nothing outside the closure has changed |
| `TagCopy.Depot.CopyTag` | format/docker/src/promote.rs:176-268 | succeeds if and only if the tag is one, the target free or overwritable, every reachable manifest readable, every file needed there and no request fails, each error case with its cause; on success exactly the closure is copied and counted; safe and confined to the closure at every prefix, failures included |
| `TagCopy.MoveWithin` | format/docker/src/promote.rs:176-268 | a move within one repository changes no artifact or loses the tag, and loses it if and only if it may overwrite, the manifests are readable and no request fails |
| `TagCopy.MovedOntoItself` | format/docker/src/promote.rs:260-263 | a one-manifest image moved onto itself: the move succeeds and the tag is gone |
| `RepoGraph.AggregateProxyStats` | core/src/service/directory.rs:118-145 | on any graph the recursion ends; what it newly visits is closed under membership and counted once |
| `RepoGraph.GroupStats` | core/src/service/directory.rs:98-145 | a group's statistics are the sums over the root entries of exactly the reachable repositories that have one, each once |
| `RepoGraph.PropagateStaleness` | core/src/service/repo.rs:66-135 | flags exactly the proxies of the format one to eight membership steps above the source, cycles included |
| `RepoGraph.GetInner` | core/src/repo/proxy.rs:110-160 | the first member able to answer within the depth limit answers, and none means none could |
| `RepoGraph.AnswerIffChain` | core/src/repo/proxy.rs:47-98 | being able to answer is having a chain of few enough proxies to a repository with the path |
| `RepoGraph.Resolve` | core/src/repo/proxy.rs:100-160 | a proxy finds a path exactly when a chain with at most eight further proxies leads to it, and answers with what the repository at the end of a chain from the first member that has one holds |
| `Tables.ShardPkInjective` | core/src/store/keys.rs:61-100 | scope and shard can be read back off a partition key, whatever slashes the scope holds |
| `Partitions.OthersUntouched` | core/src/store/keys.rs:85-100 | what touches one repository's partitions changes no answer of another |
| `Partitions.AnswerIsEntry` | core/src/store/keys.rs:85-100 | a repository answers a path with the value of the entry under the normalised path in its shard |
| `Partitions.Kv.CopyPartition` | core/src/service/repo.rs:278-317 | batched copying ends and overlays the destination with exactly the source partition |
| `Partitions.Kv.CloneRepo` | core/src/service/repo.rs:185-274 | conflict exactly when the name is taken, cancelled exactly when the token fired by the 257th check; completion means every artifact partition copied and counted, and every directory partition but the one per later check that met a fired token |
| `Partitions.CopiedButIff` | core/src/service/repo.rs:239-274 | the directory table is fully copied if and only if the destination already answered everything the skipped partitions hold |
| `Partitions.Kv.CancelAfterArtifacts` | core/src/service/repo.rs:185-274 | cancelled right after the artifacts, a clone completes with no directory entry copied |
| `Partitions.CloneAnswersIff` | core/src/service/repo.rs:213-237 | the clone answers every path as the source did if and only if no leftover answers where the source does not |
| `Partitions.Kv.DrainDeletingRepo` | core/src/service/repo.rs:321-386 | finishes if and only if none of the requests it has to make fails, counted from the sizes of the partitions; then every partition of the repository is empty and only then is it forgotten, others untouched either way |
| `Partitions.Kv.DrainPartition` | core/src/service/repo.rs:325-350 | a partition of n entries takes one scan and one deletion for each batch and a last empty scan; it is empty if and only if none of them fails |
| `Partitions.Kv.DrainUntilGone` | server/src/server/worker/cleanup.rs:76-98 | taken up again at every tick, the drain ends with the repository empty and gone once requests no longer fail, whatever failed before |
| `Partitions.DrainedNameIsClean` | core/src/service/repo.rs:321-386 | a drained name answers nothing, and a clone into it answers exactly as its source |
| `DirectIo.RoundUpLeast` | blob/file/src/direct_io.rs:161-163 | the least multiple of 4096 not below the argument |
| `DirectIo.RoundUpMask` | blob/file/src/direct_io.rs:161-163 | the mask on 64-bit words does the same while adding 4095 does not wrap |
| `DirectIo.PaddingFits` | blob/file/src/direct_io.rs:395-413 | every padded block fits the buffer if and only if the block size is aligned |
| `DirectIo.AlignedIff` | blob/file/src/direct_io.rs:343-413 | all writes of all files are aligned in offset and size if and only if the block size is |
| `DirectIo.ConfiguredSizes` | server/src/server/config/mod.rs:361-364 | of the sizes the server accepts, exactly the multiples of 4 KiB are safe |
| `DirectIo.DirectWriter.FlushFull` | blob/file/src/direct_io.rs:343-363 | moves the buffered bytes to the device without changing the contents, as the next planned block |
| `DirectIo.DirectWriter.WriteChunk` | blob/file/src/direct_io.rs:368-393 | appends exactly the chunk, whatever its size |
| `DirectIo.DirectWriter.Finish` | blob/file/src/direct_io.rs:395-437 | fails exactly when the padded block exceeds the buffer, which the plan of the file decides; else the file is the contents, written in planned blocks |
| `DirectIo.WriteAll` | blob/file/src/direct_io.rs:366-437 | any chunking of any bytes gives a file equal to their concatenation, or fails exactly when a planned write exceeds the buffer; aligned sizes never fail and write aligned |
| `DirectIo.DirectReader.Refill` | blob/file/src/direct_io.rs:244-282 | a positive short read loses and repeats nothing |
| `DirectIo.DirectReader.PollRead` | blob/file/src/direct_io.rs:219-295 | delivers a prefix of what remains, and nothing into a non-empty destination only at the end |
| `DirectIo.ReadAll` | blob/file/src/direct_io.rs:219-295 | reading to the end, with any destination sizes and short reads, delivers exactly the file |
| `DirectIo.PutBlob` | blob/file/src/file_blob.rs:117-158 | the one-shot put leaves exactly the data, by the streaming writer's device writes where the size is aligned; it fails exactly when its first block, rounded up, exceeds the buffer |
| `DirectIo.GetBlob` | blob/file/src/file_blob.rs:181-227 | the one-shot get returns exactly the file under any positive short reads, and fails on the same condition |
| `DirectIo.RoundTrip` | blob/file/src/file_blob.rs:117-227 | streaming or one-shot, in any chunks, the same bytes come back |
| `S3Writer.S3BlobWriter.FlushPart` | blob/s3/src/lib.rs:922-982 | success, if and only if its requests go through and the part number is one the service takes, sends the whole buffer as the next consecutively numbered part, contents unchanged; failure keeps the buffer if the upload could not be opened and loses it otherwise |
| `S3Writer.S3BlobWriter.WriteChunk` | blob/s3/src/lib.rs:737-792 | appends exactly the chunk or fails exactly when the flush does, holds back less than one part, counts the bytes either way, and shows no object |
| `S3Writer.S3BlobWriter.Finish` | blob/s3/src/lib.rs:794-860 | the object is what the writer still has, or absent, decided by which requests fail; rejected only if a part was lost and nothing came after it |
| `S3Writer.FullPartsBound` | blob/s3/src/lib.rs:686-687 | parts of the minimum size bound their own number by the size |
| `S3Writer.WriteAll` | blob/s3/src/lib.rs:735-860 | for any chunking and any failing requests, a caller that stops at the first failure gets the concatenation or nothing; it gets it if and only if the chunks make at most 10,000 parts, a fold over their lengths, and no request fails |
| `S3Writer.FinishRegardless` | blob/s3/src/lib.rs:794-982 | finishing after any write: the object is whole if and only if the write succeeded or the upload could not be opened, and otherwise shorter than reported |
| `S3Writer.TruncatedUpload` | blob/s3/src/lib.rs:922-982 | for any two full parts, a run that publishes the first alone and reports the size of both |
| `Inflight.NoLostUpdate` | core/src/inflight.rs:72-139 | a step changes the published map only at the actor's own key |
| `Inflight.StepKeepsInv` | core/src/inflight.rs:72-139 | every step keeps: locks exclusive and held only by actors who will release them, lock holders' snapshots current, listed keys led by one actor |
| `Inflight.SingleLeader` | core/src/inflight.rs:72-139 | in every reachable state a key is in the map exactly while one live guard leads it, under that guard's handle |
| `Inflight.FillsNeverOverlap` | core/src/repo/cache.rs:255-483 | over a whole run the cache fills of one key, and so of one path of one repository, follow one another, each beginning after the last one's commit ended |
| `Inflight.RefusalIsHonest` | core/src/inflight.rs:79-90 | an actor is refused only while another leads the key, and gets that leader's handle |
| `Inflight.SomeoneMoves` | core/src/inflight.rs:72-139 | in every reachable state an actor under way can move, or the holder of its shard's lock can |
| `Inflight.LookCanBeStale` | core/src/inflight.rs:79-90 | a run in which only the locked re-check turns a second claimer away |

## Left out

- HTTP handlers, upstream fetches, authentication, tracing, metrics, the UI, demo seeding and benchmarks.
- Garbage collection, the update worker, leases and task workers: the ingest and counter models have no garbage-collection step, and `IngestRuns.OneFilePerHash` holds without one.
- Liveness: a waiter of the in-flight map can miss its wake-up, since it registers only after the refusal; `Inflight` is about safety only.
- FillsNeverOverlap: a fill ends with its commit or its failure, which the model does not tell apart.
- Agreement of the browse tree with artifact records under concurrency: the tree write follows the conditional write non-atomically and relies on a later scan.
- Deltas sent from within tag copies, and artifacts written by paths that send none.
- KWayMerge: records that fail to decode end the real listing with an error; here every stored value decodes.
- ListArtifacts: the base64 coding of cursors is left out, so a malformed cursor is the empty path, `Some([])`, which lists from the start and still drops the offset.
- ForEachInPartition: callbacks that stop early.
- GetInner: errors while reading a member's configuration abort the real resolution; here configurations can always be read, and a member's failed lookup is an absent path, as in the code.
- PropagateStaleness: a flag whose write fails is silently missing; here flag writes succeed.
- The cap of 10,000 repositories, stores and roles per administrative listing.
- PlanRun: failing presence probes, the `--copy` mode and the reconcile and classify groups; build dates are numbers, of which only the order matters.
- Converges: nothing else changes the registry between the two runs.
- CopyTag: blobs and records removed by others while the copy runs; which writes fail is given, and reads succeed. It assumes that claims point at stored files, as `IngestRuns.Safe` has it, and that fresh ids are fresh; without the former `RehomeBlob` says what happens.
- DrainDeletingRepo: partitions are drained one after another in any order; a deletion that fails may have removed part of its batch.
- CloneRepo: writes to the source during the copy; cancellation is modelled, KV errors are not.
- PollRead: device errors, asynchronous polling and the buffer pool; each refill takes a buffer of unknown contents.
- S3BlobWriter: the single-put strategy for known sizes, entity tags and the abort request; a failed request is one the service did not carry out.
- LateCreditLost: why an artifact write fails (three lost conditional writes, an empty path, a KV error) is not told apart.
- Heap layout: the binary heap of the merge is a set with a least element.
- Overflow of 64-bit counters and sizes, except in `RoundUpMask`.
