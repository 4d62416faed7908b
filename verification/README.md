# Bib: verified model of the platform's stateful algorithms

Bib is a peer-to-peer data platform. Most of it is plumbing around libraries; the parts modelled
here are the small stateful algorithms whose correctness depends on whole runs, loops or
interleavings. Each module follows one source file or one pair of files:

| module | what it covers |
|---|---|
| `JobDag`, `JobSchedule` | the depth-first cycle check of a job pipeline, the rule that lets a job run, and what an accepted pipeline promises about every greedy run |
| `Fsm`, `FsmStorage` | the replicated state machine of a cluster: command handlers, snapshot, restore, and the tables that mirror the caches |
| `Recovery` | snapshots taken while commands are being applied, log compaction, and rebuilding a node from both |
| `Bitmap`, `Transfer`, `TransferProgress`, `TransferOutcome`, `TransferResume` | the chunk bitmap of a download, the start / resume / pause / cancel protocol with parallel workers, how much work a run does, what it achieves, and when resuming is safe |
| `RateLimit`, `RateLimitExact` | per-peer token buckets with garbage collection of idle peers, and exactly which requests pass |
| `Framing` | length-prefixed messages over a stream that arrives in arbitrary pieces |
| `Discovery`, `Pruning` | deduplication, merging and in-place sorting of discovered nodes; choosing peers to disconnect |
| `Challenges` | one-time login challenges with expiry |
| `ProxyCache` | the bounded query cache of proxy mode |
| `Revocation` | the certificate revocation list and its gossip between nodes |

`Common` and `Sequences` hold shared types and facts about permutations. `dafny verify
dfyconfig.toml` checks the whole project.

## Conventions

- Code that updates fields, maps or slices is a class or a method over an array with loop
  invariants; each such method is proved against a function or relation on values, and the main
  results are lemmas about those. Concurrent code is a state machine over the points where
  goroutines can interleave.
- Time is an argument of each operation. Floating-point numbers are reals. Ranging over a Go map
  is a loop that picks the next key arbitrarily.
- JSON is a lossless codec, SHA-256 an uninterpreted function, and each SQL statement is an update
  of a map from primary keys to the columns it writes. Writes succeed, except that inserting a join
  token twice violates its primary key.

## Results that differ from what one would expect

- The pipeline check also rejects a pipeline without any cycle when an ID that names none of its
  jobs is listed twice, and it accepts one in which such an ID is listed once; a pipeline of the
  second kind can never be run to the end (`ValidateDag`, `CompletableIff`, `AcceptedButStuck`).
- Compaction subtracts the number of trailing entries from the snapshot's index in `uint64`. When
  the index is smaller the bound wraps around; with the defaults (10000 trailing entries, a
  snapshot after 8192) this concerns the first snapshot. What follows depends on the store. If it
  takes the bound literally, entries that no snapshot covers are deleted, and every run can be
  recovered only with no trailing entries at all. If it refuses values with the high bit set, as
  Go's `database/sql` does by default, the wrapped bound is an error that `TakeSnapshot` ignores, nothing is
  deleted, and every run can be recovered with up to 2^63 trailing entries
  (`EveryRunRecoversIff`, `EarlySnapshotLosesLog`).
- A run of a download that is still on its way out deletes the manager's record by download ID, and
  so can remove the record of the run that replaced it. Resuming is safe exactly when each earlier
  run has ended, or has yet to begin and will find nothing missing (`ResumeIsSafeIff`,
  `ImpatientResumeLosesRun`).
- Without workers or without attempts a download fails and names no chunk (`FailuresAreNamedIff`).
- Forgetting idle peers is visible in the rate limiter's answers when a bucket needs more than two
  cleanup intervals to fill, and then a peer can pass more than the configured rate allows
  (`CleanupInvisibleIff`, `WindowBoundIff`).
- Refused requests are free as long as idle buckets refill in time. Otherwise a refused request can
  keep a bucket from being forgotten, and so cost its peer a full one (`RefusalChangesNothingIff`).
- The catalog cache joins topic and dataset with a slash, so two datasets share an entry when a
  slash inside a topic can be read either way (`SameKeyIff`, `CatalogSeparatesIff`).
- A stored job keeps the job type and CEL expression of its first write, so it can differ from the
  cached job (`JobRowIff`, `StoredTypeLags`).
- `Download.IsComplete` counts marks, so a mark past the last chunk can complete a download
  (`IsCompleteIff`, `StrayMarkCompletes`); the transfer protocol never makes such a mark.

## Model

| member | source | states |
|---|---|---|
| `JobDag.JobMap` | internal/domain/job.go:373-377 | the map has an entry for exactly the listed job IDs |
| `JobDag.LastJobWins` | internal/domain/job.go:375-377 | of several jobs with one ID the last one is kept |
| `JobDag.OrderedIsAcyclic` | internal/domain/job.go:371-372 | a job list in which dependencies come first rules out every cycle |
| `JobDag.CycleSearch.HasCycle` | internal/domain/job.go:383-405 | a find means a real cycle or a repeated unknown ID; otherwise the search state is consistent again, the job is ordered after its dependencies, and only lists of newly visited jobs were scanned; it terminates |
| `JobDag.ValidateDag` | internal/domain/job.go:372-416 | rejects if and only if the dependency graph has a cycle or an ID naming no job occurs at two places; when all dependencies are known, if and only if there is a cycle |
| `JobSchedule.CanRun` | internal/domain/job.go:235-245 | true if and only if the status is pending, queued or waiting and every dependency is marked completed |
| `JobSchedule.RunOrder` | internal/domain/job.go:234-245 | every run starts a job at most once and after all its dependencies |
| `JobSchedule.RunLength` | internal/domain/job.go:234-245 | a run has at most as many steps as jobs, with equality exactly when all jobs ran |
| `JobSchedule.Progress` | internal/domain/job.go:235-245 | in an acyclic pipeline with known dependencies, some job can run at every point of every unfinished run |
| `JobSchedule.GreedyRunsFinish` | internal/domain/job.go:235-245 | a run of an accepted pipeline is stuck exactly when it has run all the jobs |
| `JobSchedule.CompletableIff` | internal/domain/job.go:372-416 | a pipeline of startable jobs can be run to the end if and only if the cycle check accepts it and all its dependencies are known |
| `JobSchedule.AcceptedButStuck` | internal/domain/job.go:388-391 | a pipeline with one unknown dependency is accepted and cannot be completed |
| `JobSchedule.UniqueIds` | internal/domain/job.go:373-377 | with unique IDs the map has as many entries as there are jobs |
| `Fsm.EffectCongruence` | internal/cluster/fsm.go:73-90 | states that a command makes equal are still made equal by it after any other command |
| `Fsm.ReplayTwice` | internal/cluster/fsm.go:64-205 | from any state, applying a list of commands a second time changes nothing |
| `Fsm.OverlapIsHarmless` | internal/cluster/raft.go:271-281 | a state that holds the first m commands, fed again from any earlier point, ends as the whole log does |
| `Fsm.LastConfigWrite` | internal/cluster/fsm.go:171-205 | after any log a config key holds the value last set, or nothing if it was deleted last |
| `Fsm.LastCatalogWrite` | internal/cluster/fsm.go:94-128 | after any log a catalog key holds the entry last stored under it, or nothing if it was deleted last |
| `Fsm.SameKeyIff` | internal/cluster/fsm.go:106-124 | two datasets share a catalog key if and only if they are the same, or one topic is the other, a slash and a piece that the other's dataset begins with |
| `Fsm.CatalogSeparatesIff` | internal/cluster/fsm.go:94-128 | over a set of datasets, every log leaves each its own last stored entry, or none if deleted last, if and only if no two of them can be confused in that way |
| `Fsm.PlainTopicsAreNotConfused` | internal/cluster/fsm.go:106-124 | datasets whose topics have no slash cannot be confused |
| `Fsm.LastJobPut` | internal/cluster/fsm.go:131-146 | a job is the one last put, and differs from it only in node and status, and only after an assignment |
| `Fsm.LastJobAssign` | internal/cluster/fsm.go:149-168 | the last assignment since the last put decides the node, and the status is "assigned" |
| `Fsm.UnknownJob` | internal/cluster/fsm.go:158-167 | assignments alone never create a job |
| `FsmStorage.Storage.StoreJob` | internal/cluster/storage.go:683-698 | an existing row keeps its job type and CEL expression and takes the rest; nothing else changes |
| `FsmStorage.StateMachine.Apply` | internal/cluster/fsm.go:64-215 | caches and tables change by exactly the command's effect; an error is returned if and only if the command is rejected or creates a known token |
| `FsmStorage.StateMachine.Restore` | internal/cluster/fsm.go:236-275 | the caches become the snapshot and each of its values is stored, whatever the order of the loops |
| `FsmStorage.ApplyKeepsCoherent` | internal/cluster/fsm.go:94-205 | a command keeps caches and tables in agreement |
| `FsmStorage.RestoreIsCoherent` | internal/cluster/fsm.go:250-272 | restoring over any tables brings caches and tables into agreement |
| `FsmStorage.HistoriesAreCoherent` | internal/cluster/fsm.go:94-275 | after every history of commands and restores from other nodes' snapshots, cached catalog and config values are the stored ones, and cached jobs agree with their rows except for job type and CEL expression |
| `FsmStorage.RowsPersist` | internal/cluster/storage.go:683-698 | no row is ever dropped, a job row keeps its first job type and CEL expression, config versions never go back |
| `FsmStorage.JobRowIff` | internal/cluster/storage.go:687-697 | after every history, a cached job equals its row if and only if its job type and CEL expression, as last put, are those it was first put or restored with on this node |
| `FsmStorage.StoredTypeLags` | internal/cluster/storage.go:687-697 | any job that is created and then updated to another type is cached with the new type and stored with the old one |
| `FsmStorage.StoredSpec` | internal/cluster/storage.go:683-698 | the row's job type and CEL expression are those of the node's first put of the job, or of the first restored snapshot that had it |
| `FsmStorage.TokensAreKept` | internal/cluster/fsm.go:208-215 | after every history the token table holds each token ever created, as first created, and nothing else |
| `FsmStorage.TokensAreCreatedOnce` | internal/cluster/storage.go:555-564 | creating a token succeeds if and only if none of that name was created before |
| `FsmStorage.VersionCountsWrites` | internal/cluster/storage.go:738-751 | a config row exists once its key was set or restored, and its version is the number of times that happened |
| `Recovery.Sub64` | internal/cluster/raft.go:296-296 | the difference, plus 2^64 when it would be negative |
| `Recovery.StepKeepsInv` | internal/cluster/raft.go:270-301 | every step of every interleaving whose compactions are harmless keeps labels at or below the applied state, snapshots at or above their labels, and the retained log a gapless tail |
| `Recovery.LatestSnapshotRecovers` | internal/cluster/raft.go:270-315 | after any run whose compactions are harmless, the latest snapshot plus the retained entries above its index, or plus all retained entries, rebuild the state of the full log |
| `Recovery.CompactSparesSuffixIff` | internal/cluster/raft.go:295-298 | compaction keeps every entry above the snapshot's index if and only if the bound does not wrap, or the store refuses it, or there is no such entry |
| `Recovery.EarlySnapshotLosesLog` | internal/cluster/raft.go:295-298 | for every setting above the store's limit (0, or 2^63 if it refuses the high bit) there is a run whose latest snapshot and log no longer give the committed state |
| `Recovery.EveryRunRecoversIff` | internal/cluster/raft.go:270-301 | every run can be recovered from its latest snapshot if and only if the number of trailing entries is at most that limit |
| `Recovery.WithinLimitIsSafe` | internal/cluster/raft.go:295-298 | within the limit every compaction of every run is harmless |
| `Recovery.LabelsKeepUp` | internal/cluster/raft.go:271-275 | in every interleaving a snapshot's index is at least that of every command published before it was begun |
| `Recovery.QuietSnapshot` | internal/cluster/raft.go:271-298 | taken while nothing is pending, a snapshot holds the state of the whole log under its last index, and exactly the last trailing entries are left; a refused bound leaves all, a wrapped one none |
| `Recovery.EveryLogCanBeCovered` | internal/cluster/raft.go:271-362 | for every log there is a run that applies it all and ends with such a snapshot |
| `Recovery.RetentionKeepsNewest` | internal/cluster/storage.go:448-470 | retention removes one superseded snapshot at a time and never leaves recovery with an older latest one |
| `Bitmap.WithBitMarks` | internal/domain/sync.go:98-112 | growing the slice and setting one bit adds exactly that index to the set |
| `Bitmap.MarkAllRefinesSet` | internal/domain/sync.go:85-112 | after any sequence of marks an index is set if and only if it was set before or is in the sequence |
| `Bitmap.Layout` | internal/domain/sync.go:85-112 | eight chunks to a byte, the first in the lowest bit |
| `Bitmap.UnmarkedIsComplement` | internal/domain/sync.go:145-153 | the missing list is ascending and holds exactly the unmarked indices below the total |
| `Bitmap.CompletedPlusMissing` | internal/domain/sync.go:115-153 | with all marks below the total, completed and missing chunks add up to it |
| `Bitmap.IsCompleteIff` | internal/domain/sync.go:140-142 | complete if and only if there are chunks and no more missing ones than stray marks; without stray marks, if and only if nothing is missing |
| `Bitmap.StrayMarkCompletes` | internal/domain/sync.go:98-112 | a mark past the end completes a download whose only chunk is missing |
| `Bitmap.Download.IsChunkCompleted` | internal/domain/sync.go:85-95 | true if and only if the index is nonnegative and marked |
| `Bitmap.Download.SetChunkCompleted` | internal/domain/sync.go:98-112 | adds a nonnegative index to the set, ignores a negative one, and recounts |
| `Bitmap.Download.CountCompletedChunks` | internal/domain/sync.go:115-129 | the number of marked indices, capped at the total |
| `Bitmap.Download.IsComplete` | internal/domain/sync.go:140-142 | with a current count and no stray mark, true if and only if there are chunks and none is missing |
| `Bitmap.Download.MissingChunks` | internal/domain/sync.go:145-153 | the ascending list of unmarked indices below the total |
| `Transfer.StepKeepsInv` | internal/p2p/transfer.go:110-366 | every caller, run and worker step keeps the invariant of the record and of each run |
| `Transfer.OnlyVerifiedChunks` | internal/p2p/transfer.go:329-411 | in every interleaving, from a new download or a sound stored record, each set bit is a chunk of the download whose data passed the hash check, and a Completed download has every bit set |
| `Transfer.MarksNeverCleared` | internal/p2p/transfer.go:155-217 | no pause, cancel or resume loses a bit |
| `Transfer.TakenOnce` | internal/p2p/transfer.go:262-267 | an index a worker receives belongs to the run's list and was received by no worker of that run before |
| `Transfer.NothingLost` | internal/p2p/transfer.go:255-366 | when an uncancelled run's workers are done, each chunk missing at its start was taken, tried at most MaxRetries times, and is marked or has an error |
| `Transfer.FailuresAreNamedIff` | internal/p2p/transfer.go:283-302 | a Failed download carries a chunk error in every interleaving if and only if workers and retries are both at least one (a record stored as Failed must carry one to begin with) |
| `TransferOutcome.FinishDecides` | internal/p2p/transfer.go:283-302 | when a run's workers are done, the download becomes Completed if and only if every chunk is there; otherwise Failed with one of the run's errors, or unchanged if the run was cancelled |
| `TransferOutcome.BeginFetchesMissing` | internal/p2p/transfer.go:249-278 | a run fetches exactly the chunks missing at its start, with as many workers as allowed and needed; if none is missing the download is Completed |
| `TransferOutcome.AttemptMarks` | internal/p2p/transfer.go:329-359 | an attempt marks the chunk in hand if and only if the reply is not empty and has the hash it claims |
| `TransferOutcome.GoodRepliesComplete` | internal/p2p/transfer.go:249-366 | a run that is not cancelled, has peers and gets a valid reply to each request completes the download, whatever callers and other runs do |
| `TransferOutcome.ErrorsAreEarned` | internal/p2p/transfer.go:320-366 | a chunk has an error only if the run took it and asked MaxRetries times, or had no peer |
| `TransferOutcome.CallersDecide` | internal/p2p/transfer.go:155-217 | pause and cancel stop the run on record, resume starts one if there is none, and no bit changes |
| `TransferOutcome.CancelledStartsNothing` | internal/p2p/transfer.go:314-319 | a cancelled run stays cancelled and its workers start on no further chunk |
| `TransferOutcome.ResumeSkipsDone` | internal/p2p/transfer.go:249-264 | a run never takes a chunk that was there when it began |
| `TransferProgress.StepUsesWork` | internal/p2p/transfer.go:249-366 | each step of a run uses up part of its remaining work, and no step of a caller or another run adds to it |
| `TransferProgress.RunsAreBounded` | internal/p2p/transfer.go:249-366 | in every interleaving a run takes at most MaxRetries + 3 steps for each chunk of the download and three for itself |
| `TransferProgress.NeverStuck` | internal/p2p/transfer.go:249-366 | a run that has not ended always has a step to take |
| `TransferResume.PatientRunsAreTracked` | internal/p2p/transfer.go:155-217 | if a download is resumed only when its earlier runs are spent, at most the newest run is alive and it is the one on record, in every interleaving |
| `TransferResume.UnspentRemovesRecord` | internal/p2p/transfer.go:249-307 | by its own steps alone a run that has not ended and has work or its removal ahead takes the record away from any other live run |
| `TransferResume.ResumeIsSafeIff` | internal/p2p/transfer.go:155-307 | after any patient run of the protocol, a resume leaves every live run reachable in all patient continuations if and only if each earlier run has ended or will find nothing missing |
| `TransferResume.ImpatientResumeLosesRun` | internal/p2p/transfer.go:304-307 | six steps after which a cancelled run has removed the record of its successor, which then works unreachably |
| `RateLimit.RateLimiter.Allow` | internal/p2p/grpc_auth.go:84-125 | refills by elapsed time up to the burst, admits if and only if at least one token is there, and charges one |
| `RateLimit.RateLimiter.Cleanup` | internal/p2p/grpc_auth.go:143-155 | removes exactly the buckets idle for more than two intervals, whatever the order |
| `RateLimit.HistoryKeepsOk` | internal/p2p/grpc_auth.go:93-107 | tokens stay between zero and the burst over every history, with cleanups or without |
| `RateLimit.BurstPasses` | internal/p2p/grpc_auth.go:97-109 | n requests at one moment all pass if and only if there are n tokens |
| `RateLimit.CleanupInvisible` | internal/p2p/grpc_auth.go:84-155 | with enough refill, a limiter that forgets answers as one that never does, over every history |
| `RateLimit.CleanupInvisibleIff` | internal/p2p/grpc_auth.go:84-155 | that holds for every history if and only if rate * 2 * interval >= burst or the limiter is off |
| `RateLimit.WindowBound` | internal/p2p/grpc_auth.go:84-155 | in any window of any history one peer passes at most burst + rate * length requests, without cleanups always, with cleanups if buckets refill within two intervals |
| `RateLimit.WindowBoundIff` | internal/p2p/grpc_auth.go:84-155 | with cleanups, that bound holds for every window of every history if and only if the limiter is on and rate * 2 * interval >= burst |
| `RateLimitExact.PassesIff` | internal/p2p/grpc_auth.go:84-110 | after every history a request passes if and only if with it the peer stays within burst + rate * length in each window that begins at one of its requests |
| `RateLimitExact.RefusalChangesNothing` | internal/p2p/grpc_auth.go:97-109 | leaving a refused request out of any history changes no other answer, if idle buckets refill in time or none are forgotten |
| `RateLimitExact.RefusalChangesNothingIff` | internal/p2p/grpc_auth.go:84-155 | with cleanups that holds for all histories if and only if rate * 2 * interval >= burst or the limiter is off |
| `Framing.HeaderRoundTrip` | internal/cluster/transport.go:184-191 | the four header bytes give back every 32-bit length |
| `Framing.HeaderOrder` | internal/cluster/transport.go:184-191 | headers compare byte by byte as the lengths do, that is, they are big-endian |
| `Framing.OneByteFrame` | internal/cluster/transport.go:300-320 | the bytes 0, 0, 0, 1, x are read as the message x |
| `Framing.DecodeFrameIff` | internal/cluster/transport.go:184-199 | a frame is read back with nothing else consumed if and only if its body has at most 64 MiB; a larger one is refused with its length |
| `Framing.RoundTripIff` | internal/cluster/transport.go:300-320 | a sequence of bodies arrives unchanged and in order if and only if each has at most 64 MiB |
| `Framing.Conn.ReadFull` | internal/cluster/transport.go:303-317 | fills the buffer with the next bytes of the stream however they are split, or drains it and fails |
| `Framing.Conn.ReadMessage` | internal/cluster/transport.go:300-320 | the outcome and the bytes left depend on the stream's content only, not on how it is split |
| `Framing.Conn.HandleConn` | internal/cluster/transport.go:249-274 | the loop gets exactly the messages before the first error |
| `Discovery.SortNodesByLatency` | internal/discovery/discovery.go:325-337 | the slice becomes a stable permutation with measured nodes ascending first and unmeasured ones last |
| `Discovery.StableIsPermutation` | internal/discovery/discovery.go:325-337 | keeping the nodes of each latency in order means keeping all nodes with their multiplicity |
| `Discovery.StableSortIsUnique` | internal/discovery/discovery.go:325-337 | only one list is a sorted stable permutation of another |
| `Discovery.DeduplicateNodes` | internal/discovery/discovery.go:409-429 | each address once, by the first seen of its nodes with the least measured latency, or of all its nodes if none was measured; sorted |
| `Discovery.KeptAreDetermined` | internal/discovery/discovery.go:409-429 | the nodes kept depend on the input only, not on the order in which the map is ranged over |
| `Discovery.OrderDoesNotMatter` | internal/discovery/discovery.go:412-420 | the latency kept for an address is the same for every order and repetition of the input |
| `Discovery.MergeResults` | internal/discovery/discovery.go:361-406 | nodes of all non-nil results deduplicated in the same way and sorted, errors in order, the longest duration, and exact counts by method |
| `Discovery.MethodCountsSum` | internal/discovery/discovery.go:396-400 | the method counts add up to the number of nodes |
| `Pruning.SortByScore` | internal/p2p/discovery.go:318-325 | the slice becomes an ascending permutation |
| `Pruning.GetPeersForPruning` | internal/p2p/discovery.go:291-334 | min(count, candidates) peers, none a bootstrap peer, no duplicates, and none scoring above a candidate left out, unknown peers counting as zero |
| `Challenges.ChallengeStore.Get` | internal/auth/challenge.go:110-128 | returns an unexpired challenge and removes it either way |
| `Challenges.ChallengeStore.Peek` | internal/auth/challenge.go:132-142 | returns an unexpired challenge and changes nothing |
| `Challenges.ChallengeStore.Cleanup` | internal/auth/challenge.go:179-189 | removes exactly the expired challenges |
| `Challenges.OneTimeUse` | internal/auth/challenge.go:108-128 | of two lookups that consume, at most one gets the challenge, in every history |
| `Challenges.AnswerIff` | internal/auth/challenge.go:70-149 | a lookup succeeds, with the challenge created, if and only if it was created at most the time to live ago and neither taken nor deleted since |
| `Challenges.CleanupInvisible` | internal/auth/challenge.go:163-189 | taking or skipping cleanup steps changes no answer |
| `ProxyCache.ProxyHandler.GetFromCache` | internal/p2p/mode_proxy.go:149-166 | a stored result that has not expired, marked as cached |
| `ProxyCache.ProxyHandler.EvictOldest` | internal/p2p/mode_proxy.go:196-210 | removes one entry of least expiry, whatever the order |
| `ProxyCache.ProxyHandler.PutInCache` | internal/p2p/mode_proxy.go:169-193 | evicts once if full, then stores with the configured or default lifetime |
| `ProxyCache.ProxyHandler.CleanupExpired` | internal/p2p/mode_proxy.go:332-342 | removes exactly the expired entries |
| `ProxyCache.HitIsLatestPut` | internal/p2p/mode_proxy.go:149-210 | every hit is the most recent result put for that key, put at most the TTL ago and not cleared since |
| `ProxyCache.FreshPutHits` | internal/p2p/mode_proxy.go:149-210 | with increasing put times, the latest result put for a key is a hit for the whole TTL if fewer puts than the limit followed, and a miss if as many other keys were put |
| `ProxyCache.DefaultsServe` | internal/p2p/mode_proxy.go:169-193 | with the default settings that means two minutes and 1000 entries |
| `ProxyCache.DefaultsExpire` | internal/p2p/mode_proxy.go:149-190 | and after two minutes the result is not served |
| `ProxyCache.FullPutEvicts` | internal/p2p/mode_proxy.go:173-192 | a put into a full cache costs one oldest entry even if it replaces an entry that is there |
| `ProxyCache.SizeIsBounded` | internal/p2p/mode_proxy.go:173-192 | the cache never holds more than its limit (or one, for a limit below one) |
| `Revocation.RevocationList.Merge` | internal/certs/revocation.go:221-240 | the fingerprints become the union, `added` is the growth, and the version goes up by one, in 64 bits, if something was added |
| `Revocation.RevocationList.Export` | internal/certs/revocation.go:206-217 | exactly the entries, in any order, with the version |
| `Revocation.RevocationList.Load` | internal/certs/revocation.go:263-285 | entries are stored by fingerprint and the version is taken over |
| `Revocation.LastLoadedWins` | internal/certs/revocation.go:263-285 | of several entries for one certificate the last is loaded |
| `Revocation.MergedAdds` | internal/certs/revocation.go:225-230 | known entries stay as they are, new ones come from the data |
| `Revocation.MergeTwice` | internal/certs/revocation.go:221-240 | a repeated merge changes nothing |
| `Revocation.ExportLoadRoundTrip` | internal/certs/revocation.go:206-285 | an export in any order loads back to the same entries |
| `Revocation.ListsGrow` | internal/certs/revocation.go:219-240 | under revocation and gossip no node forgets a fingerprint |
| `Revocation.OnlyRevoked` | internal/certs/revocation.go:219-240 | no node lists a fingerprint that no node revoked, however messages were delayed or repeated |
| `Revocation.GossipInforms` | internal/certs/revocation.go:219-240 | a merge gives a node everything the sender knew when it exported |
| `Revocation.ListIsReceived` | internal/certs/revocation.go:102-240 | after every history a node's fingerprints are the union of those it revoked and those in the messages it merged |
| `Revocation.OrderDoesNotMatter` | internal/certs/revocation.go:219-240 | two histories with the same events at a node, in any order and number, give it the same fingerprints |
| `Revocation.ListedIffReached` | internal/certs/revocation.go:206-240 | a node lists a fingerprint if and only if a chain of messages leads to it from a node that revoked it, each sent after its sender had learnt of it |
| `Revocation.Converges` | internal/certs/revocation.go:219-240 | a node lists exactly what was revoked anywhere if and only if such a chain leads to it for everything that was revoked |
| `Revocation.EntriesAreRevocations` | internal/certs/revocation.go:102-114 | every listed entry is one that some node revoked, with the time it carried or else that of the revocation |
| `Revocation.LastRevocationStands` | internal/certs/revocation.go:102-114 | a node's own last revocation of a certificate stands, whatever it merges later |
| `Revocation.VersionCountsChanges` | internal/certs/revocation.go:102-240 | the version is, modulo 2^64, the number of revocations plus the number of merges that enlarged the list |
| `Revocation.VersionTellsChange` | internal/certs/revocation.go:61-61 | with fewer than 2^64 events between them, two versions agree if and only if the node revoked nothing in between and its list is the same |

## Left out

- Leader election, membership changes and log replication: the Raft node is a placeholder, so the committed log is taken as given.
- `RaftNode.Restore` in the middle of a run: it resets the state machine to an old snapshot and nothing replays the log; only recovery of the final state is stated.
- Recovery.LatestSnapshotRecovers: is about the caches; rebuilt tables can keep rows of deleted entries, as `RowsPersist` says.
- FsmStorage.StateMachine.Restore: requires a snapshot keyed as the handlers key the caches, which `HistoriesAreCoherent` shows for every snapshot a node can take; for other data the outcome depends on map order.
- Pointers handed out by `GetJob` and `GetCatalog`: aliasing of cached entries by readers is not modelled.
- `TransferManager.Stop`, which cancels every run, and the callbacks.
- Other downloads of the same manager, and the check that one dataset hash is not started twice: downloads share no other state, so one download is modelled.
- Data races on the bitmap: setting a bit and recounting is one step, although the code takes no lock there.
- RateLimit.CleanupInvisible: takes each operation as one step; a cleanup between the lookup of a bucket and its lock could lose one charge.
- Discovery.DeduplicateNodes: latencies are natural numbers; negative durations are not modelled.
- Revocation: `Remove` and `Prune`, which a later merge can undo, are not part of the gossip model.
- Key type, nonce and signature algorithm of a challenge, timestamps other than those decisions depend on, and error message texts.
- Proxy query forwarding, favourites, pagination, and all field-by-field validation: easy to read off one branch.
- libp2p, gRPC, SSH, mDNS, certificates, key derivation, configuration loading and the terminal interface: library calls, I/O or display.
