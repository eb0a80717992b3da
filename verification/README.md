# wsldrive: a verified model of its core

wsldrive keeps an in-memory mirror of a remote directory tree and has to keep that mirror
coherent with a disk that other programs change. An agent next to the disk watches it,
coalesces events, stats the paths involved and broadcasts batches of invalidations. A client
applies the batches to its mirror, fetches snapshots while batches keep arriving, mutates
files itself, caches their contents and serves a file system from all this.

This project models that core in Dafny 4.11 and proves what it is meant to guarantee, on all
inputs and over all interleavings. `dafny verify dfyconfig.toml` checks everything.

Modules, bottom up:

| files | what they model |
|---|---|
| `Types`, `Finite`, `Path`, `CaseFold`, `PathMap` | names, attributes, path text, UTF-8 folding, the abstract mirror (component path to attributes) |
| `FlatMap` | the open-addressing hash table |
| `TreeModel`, `TreeIndex`, `TreeOps`, `TreeSnapshot`, `TreeExport`, `MetadataTree` | the index-based metadata tree, a class with the source's fields; ghost fields `kids`, `paths` and `at` carry the abstract view |
| `TreeKeys`, `ClientTree` | the tree's index keys as the hash table holds them; the tree under a batch, tied to the coherence protocol |
| `Cell`, `Coherence`, `CoherenceProof`, `CoherenceSpelling`, `CoherenceStranded`, `CoherenceRuns`, `CoherenceRecovery`, `CoherenceLimits` | the coherence protocol as a step system, its invariant, convergence, convergence by lookup mode, how a change can be lost, that every run can recover, and the runs that show which conditions convergence needs |
| `AckOrder`, `AckCapacity` | acknowledged mutations against concurrently resolved batches |
| `CoalescerEvents`, `CoalescerBatch`, `Coalescer`, `CoalescerHistory`, `Handover` | event coalescing, pruning, move repair, what a batch tells about the events behind it, and the link to the coherence protocol |
| `Wire`, `Messages`, `WireLayout`, `Codec`, `Streams` | wire format, its bytes written out, writer and reader classes, multi-frame streams |
| `ReadCache`, `CacheHistory`, `ReadVersions`, `ReadServe` | the LRU content cache and its runs; version validation racing with writes; the cache as the place where versions are validated |
| `Glob`, `Ignore` | glob matching and ignore rules |
| `WriteBack` | the write-back buffer of an open file |
| `Broadcast` | who may still be using a channel when its session returns |

Bytes are integers from 0 to 255, names and encoded messages sequences of bytes. Component
paths are sequences of names. Integer widths are written out where a width matters (wire
integers, the varint limit, frame and snapshot ceilings).

## What turned out not to hold

Several promises made in comments or documentation are not kept by the code. In each case the
model does what the code does, a lemma gives a concrete input or run, and the property is
proved under the condition it needs.

- Convergence at quiescence. The mirror can differ from the disk for good at a path
  (1) that an upsert named or had to create on its way and that was refused, because the mirror
  held a file above it at that moment (`refused`); (2) that a removal of another spelling took, because a mount
  looks removed paths up case-insensitively (`struck`); (3) whose removal was folded into a
  removal of a directory above it that is there again when the agent stats it, or that was moved
  away with its directory when another directory took that name within one batch (`stranded`);
  (4) that has become a special file, which the agent skips. `CoherenceProof.Convergence` proves
  the mirror right at every other path the rules do not skip, and `CoherenceLimits` has a run
  from a fresh mount for each case. Cases 1 and 2 are exact: where no change is stranded the
  mirror is wrong at every path in `refused` or `struck` whose disk entry is not a directory with
  default attributes (`CoherenceProof.ConvergenceExactly`). Case 3 comes about in three ways only
  (`CoherenceStranded.StrandedStep`). None of the three sets is for ever: a
  later change that settles the path takes it out, and a snapshot installed with nothing in
  flight empties all three, but for what went wrong since its stamp
  (`CoherenceProof.InstallRecovers`). Every run can be continued, with the disk left alone, to a
  state at rest in which all three are empty and the mirror shows the disk
  (`CoherenceRecovery.CanRecover`). Case 2 needs an event on a path that folds like a prefix of
  the path and is spelt otherwise; without one, or with exact lookup, convergence holds without
  it (`CoherenceSpelling.ConvergenceSpared`).
- Names the tree cannot hold. A Linux name such as `x\y` is dropped from a snapshot, and an event
  on it creates a file `y` in a directory `x` that does not exist
  (`CoherenceSpelling.BackslashedName`). Path text comes back as meant exactly when every
  component is plain (`Path.RoundTripsIff`); convergence is proved for disks of valid names.
- Ignored events. The flusher skips a path that the rules exclude either as a file or as a
  directory, while the scan asks with the real kind. A file whose name is excluded only as a
  directory is mirrored once and never updated (`CoherenceLimits.ExcludedKindStaysStale`). The
  convergence theorem speaks of paths excluded under neither reading.
- Acknowledgements. A record overwritten by an older acknowledgement lets a stale op through
  (`AckOrder.OverwrittenRecordFails`), so does a table that fills up and is emptied
  (`AckCapacity.FullTableFails`), and an op read after the mutation can be dropped
  (`AckOrder.FreshOpDropped`). The safety theorem covers exactly the mutations in force:
  recorded, and neither overwritten by an older acknowledgement nor dropped with a full table.
- Pruning. `dir-x` sorts between `dir` and `dir/a`, so removing `dir` does not always drop the
  older event on `dir/a` (`CoalescerBatch.IntruderStopsPruning`). `CoalescerBatch.PrunedBelow`
  says exactly when an event is dropped. The effect of the batch is the same either way.
- Moves. With no non-zero cookie in a batch, moves are left unmatched; `CoalescerBatch.MatchedIff`
  says exactly when all moves are matched.
- Globs. Literal equality is tested before the star, so matching is right for every pattern on
  exactly the texts without a `*` (`Glob.ExactIff`).
- Cached contents. If a file's mirrored version returns to one it had before, a hit can serve
  bytes older than a write that has returned (`ReadVersions.RevertedVersionServesStale`). A stale
  hit always takes such a return (`ReadVersions.StaleHitNeedsRecurrence`), and there is none as
  long as modification times only move on.
- Batch size. The per-op estimate used to cut batches falls short of the encoded size for some
  ops (`Streams.ReckonedShort`), exactly those of `Streams.ShortIff`, and never by more than a
  quarter (`Streams.OpSize`); frames still stay within the limit.

## Model

| member | source | states |
|---|---|---|
| CoherenceProof.InitInv | src/agent/client.cpp:113-178 | a freshly mounted client, its mirror empty and waiting for a first snapshot, satisfies the protocol invariant |
| CoherenceProof.NextInv | src/agent/server.cpp:97-178 | every step of disk, watcher, coalescer, flusher, channel, client and snapshot keeps the invariant, in any interleaving |
| CoherenceProof.Reachable | src/agent/server.cpp:97-178 | the invariant holds in every state of every run |
| CoherenceProof.Convergence | src/agent/client.cpp:977-1046 | whenever a run comes to rest with no snapshot outstanding, in either lookup mode, the mirror holds at every path exactly what the disk holds, unless that is a special file, the rules exclude the path as a file or as a directory, or a change of the path is recorded as stranded, refused or struck; every condition is spelt out on the state |
| CoherenceProof.ToldTruth | src/agent/client.cpp:977-1046 | at rest, what the changes received make of a path that is not stranded is what the disk holds |
| CoherenceProof.AstrayIsWrong | src/core/metadata_tree.cpp:260-297 | at rest, a path in refused or struck is on disk, and the mirror lacks it or holds a default directory |
| CoherenceProof.ConvergenceExactly | src/agent/client.cpp:1003-1035 | at rest, where nothing is stranded and the disk does not hold a default directory, mirror and disk agree at a path if and only if it is in neither refused nor struck |
| CoherenceProof.InstallRecovers | src/agent/client.cpp:145-164 | installing a snapshot with nothing in flight leaves stranded only what was stranded after the stamp, nothing struck, and nothing refused unless the replay was |
| CoherenceStranded.StrandedStep | src/agent/server.cpp:128-225 | in every run, a step strands a path the rules do not exclude only while no event of its own is owed, and only by taking a batch that neither removes nor enumerates a directory it was carried along with, by a stat that finds the directory it waited for there after all or special, or by an enumeration that should have met it and did not find it |
| CoherenceStranded.LeftBelow | src/agent/server.cpp:128-149 | what a stat leaves behind lies below something that is there, was taken for gone or new, and is no file |
| CoherenceStranded.TakeStrands | src/core/coalescer.cpp:55-72 | a batch strands a path only if it was carried along with a directory and every directory of the batch above it was merely touched |
| CoherenceStranded.MissedAlways | src/agent/client.cpp:145-164 | in every state of every run, what the snapshot under way may lack is among what is stranded, and a batch older than its stamp adds nothing to it |
| CoherenceRecovery.CanRecover | src/agent/client.cpp:113-178 | every run can be continued without touching the disk until nothing is in flight and nothing stranded, refused or struck, and the mirror then holds exactly the paths on disk on the way to which nothing is excluded or special, with their attributes |
| CoherenceRecovery.DiskMayChange | src/agent/server.cpp:91-95 | at any moment the disk may become any tree of valid names, and exactly the paths at which it differs are owed an event |
| CoherenceRecovery.EventMayCome | src/core/coalescer.cpp:10-73 | an event on any valid path may come in at any moment, and is kept unless events have been lost |
| CoherenceSpelling.ConvergenceSpared | src/mount/fuse_mount.cpp:577-582 | convergence without the struck condition, when lookups are exact throughout or no event is ever reported for a path that folds like a prefix of this one and is spelt otherwise |
| CoherenceSpelling.NeverStruck | src/core/metadata_tree.cpp:224-236 | under either of those conditions no path is ever struck, in any state of any run |
| CoherenceSpelling.StruckStep | src/agent/client.cpp:1017-1032 | a step strikes a path only by delivering, to a case-insensitive client, the removal of a path that folds like a prefix of it |
| CoherenceSpelling.RunSpelt | src/agent/server.cpp:117-218 | in every run the client is sent removals of reported paths only, and upserts of paths reported or found on disk |
| CoherenceSpelling.TextIsFaithful | src/core/metadata_tree.cpp:284-291 | in every run every path on its way to the client is read back from its text exactly as meant |
| CoherenceSpelling.BackslashedName | src/core/metadata_tree.cpp:310-326 | a name with a backslash is dropped by a snapshot load, and upserting its text creates a file in a directory nobody made |
| CoherenceProof.ChangeDiskAgrees | src/agent/server.cpp:91-95 | a disk change leaves each path agreeing or owed an event |
| CoherenceProof.TakeAgrees | src/core/coalescer.cpp:89-143 | taking a batch leaves every pending path planned, pruned below a planned removal, brought along by a directory that appeared, or recorded as stranded |
| CoherenceProof.ResolveAgrees | src/agent/server.cpp:117-161 | resolving a path against the disk decides it, and decides what a removal found real had pruned |
| CoherenceProof.ResolveSends | src/agent/server.cpp:117-161 | the flusher sends a planned path with the attributes it has on disk, or as removed if it is not there, or not at all if the rules exclude it as a file or as a directory or it is special; nothing else is sent |
| CoherenceProof.SettledNow | src/agent/server.cpp:128-149 | a path that stops waiting and is not stranded has just been given its true value, or removed because the directory above is gone |
| CoherenceProof.ExpandAgrees | src/agent/server.cpp:180-218 | entries added by enumerating an appeared directory are true of the disk when read |
| CoherenceProof.GiveUpAgrees | src/agent/server.cpp:219-225 | giving up on an enumeration announces a rescan that covers what was dropped |
| CoherenceProof.SendChunkAgrees | src/agent/server.cpp:228-251 | cutting a batch into frames of one generation changes nothing about what the client has still to apply |
| CoherenceProof.ReceiveAgrees | src/agent/client.cpp:977-1046 | applying and recording one frame keeps mirror and snapshot on course to agree with the disk |
| CoherenceProof.StampAgrees | src/agent/server.cpp:746-748 | a snapshot stamped before its scan misses nothing that a batch of a higher generation does not carry |
| CoherenceProof.VisitAgrees | src/agent/server.cpp:771-785 | the scan may read directory after directory while the disk changes: what it reads is current or covered by a newer batch |
| CoherenceProof.NewlySettled | src/agent/server.cpp:771-785 | a path settled by the scan is in the snapshot exactly as on disk, and nothing is in it below what is not a directory |
| CoherenceProof.InstallAgrees | src/agent/client.cpp:145-164 | loading the snapshot and replaying only batches newer than its stamp leaves the mirror right once what is still in flight has been applied |
| CoherenceProof.ReplayedTwice | src/agent/client.cpp:149-158 | changes already in the snapshot that arrive again before newer ones do no harm |
| Cell.CellChanges | src/agent/client.cpp:1003-1035 | applying a list of received changes, in either lookup mode, acts on every path as a keep, a fill-in directory or a fixed outcome, except where one of them was refused or struck and nothing made up for it |
| CoherenceRuns.MountRun | src/agent/client.cpp:113-178 | a run that mounts any disk nobody touches and shows everything on it that is neither excluded nor special |
| CoherenceRuns.FetchRun | src/agent/client.cpp:113-178 | with nothing else going on, fetching a snapshot replaces the mirror by everything on disk that is neither excluded nor special and leaves nothing stranded, refused or struck |
| CoherenceRuns.ShownIff | src/agent/server.cpp:771-785 | what a mount shows, spelt out: the paths on disk on the way to which nothing is special or excluded as the kind it has |
| CoherenceLimits.PipeKeepsOldFile | src/agent/server.cpp:146-147 | a run after which a file replaced by a pipe is still mirrored as a file |
| CoherenceLimits.ChildOfFormerFileLost | src/core/metadata_tree.cpp:260-282 | a run after which the child of a file that became a directory is missing from the mirror: its upsert was refused |
| CoherenceLimits.FoldedRemovalTakesOther | src/agent/client.cpp:1017-1032 | a run after which a file on disk is missing from the mirror because a file of another case was made and deleted |
| CoherenceLimits.ExcludedKindStaysStale | src/agent/server.cpp:118-122 | a run with the rule `a/` after which a file `a` is mirrored with old attributes |
| CoherenceLimits.UndoneRemovalKeepsChild | src/agent/server.cpp:128-149 | a run after which the mirror still shows what a removed and re-created directory held |
| CoherenceLimits.ReplacedDirectoryKeepsChild | src/core/coalescer.cpp:55-72 | a run after which two renames onto one name in one batch leave the first directory's child in the mirror |
| Cell.CellChange | src/agent/client.cpp:1003-1035 | one upsert or removal, as the lookup resolves it, acts on a path as its action says if and only if the path is not where it was refused or struck |
| Cell.ExactHits | src/agent/client.cpp:152-158 | looked up by exact spelling, as in the replay, every change is applied to the path it names |
| Cell.StruckByFolding | src/core/metadata_tree.cpp:224-236 | a batch strikes a path only if it removes a path that folds like a prefix of it and is spelt otherwise |
| ClientTree.ApplyBatch | src/agent/client.cpp:990-1035 | the batch loop on the tree itself: its contents become those of the changes as the lookups resolved them, each aimed as the protocol allows |
| ClientTree.ApplyInvalidation | src/agent/client.cpp:990-1035 | a batch on tree and records together: exactly the ops no record holds back are applied, each once and in the order of the batch, and exactly the overtaken records are retired |
| ClientTree.ApplyRemove | src/core/metadata_tree.cpp:293-297 | a removal takes the path it names, or else, case-insensitively, one held path of the same folding |
| ClientTree.RemovalAims | src/core/metadata_tree.cpp:238-258 | whatever a lookup resolves a removal to is the path itself or, when that is not held, one that folds alike |
| Cell.UpsertedTree | src/core/metadata_tree.cpp:284-291 | an upsert keeps the mirror a tree: everything present hangs below a directory |
| PathMap.UpsertedAt | src/core/metadata_tree.cpp:260-291 | what an upsert leaves at each path: the entry itself, directories on the way, nothing below a non-directory, everything else as it was |
| PathMap.UpsertBlocked | src/core/metadata_tree.cpp:260-291 | an upsert with something other than a directory on its way, or of the root, changes nothing |
| PathMap.RemovedAt | src/core/metadata_tree.cpp:185-191 | a removal takes a path and what is below it and nothing else; the root stays |
| PathMap.RenamedAt | src/core/metadata_tree.cpp:193-222 | a rename carries every path below its source to the same place below its target, leaves the others alone and makes no more |
| AckOrder.AfterAt | src/agent/client.cpp:997-1002 | which records survive a batch, path by path, whatever the order of its ops |
| AckOrder.AppliedAt | src/agent/client.cpp:997-1002 | an op is applied exactly when no record for its path is as new as its batch |
| AckOrder.AppliedInOrder | src/agent/client.cpp:992-1002 | the applied ops are the admitted ones in the order of the batch, each once per occurrence, through a strictly increasing index map |
| AckOrder.Table.Admit | src/agent/client.cpp:997-1002 | an op passes exactly when its batch is newer than the record of its path, and passing retires that record |
| AckOrder.Table.Note | src/agent/client.cpp:657-662 | the record table after noting a mutation, emptied first when it is over its cap |
| AckOrder.Table.Filter | src/agent/client.cpp:990-1002 | the batch loop applies exactly the admitted ops, in the order of the batch and each once per occurrence, and retires exactly the overtaken records |
| AckOrder.NextInv | src/agent/server.cpp:613-622 | every step of flusher, session threads and client keeps the ordering invariant |
| AckOrder.OrderingRule | src/core/protocol.hpp:197-203 | in every run, whatever a batch newer than an acknowledgement says was read after that mutation took effect |
| AckOrder.NothingStaleApplied | src/agent/client.cpp:992-1002 | in every run, an op applied to a path whose mutation is in force was read after the mutation took effect |
| AckOrder.RecordedInForce | src/agent/client.cpp:657-662 | a mutation is in force, under its own acknowledgement, from the moment it is recorded |
| AckOrder.StaysInForce | src/agent/client.cpp:657-662 | a step ends that only by recording another mutation, when the table is over its cap or the other is an older acknowledgement of the same path |
| AckOrder.OverwrittenRecordFails | src/agent/client.cpp:661-661 | a run in which recording an older acknowledgement over a newer one lets a stale op through |
| AckOrder.FreshOpDropped | src/agent/client.cpp:999-999 | a run in which an op read after the mutation is dropped |
| AckCapacity.FullTableFails | src/agent/client.cpp:657-662 | a run of 65538 mutations that empties the table and then applies an op read before a mutation that was in force |
| CoalescerEvents.OverflowSticks | src/core/coalescer.cpp:14-19 | after any events the coalescer is overflowed exactly when one of them was an overflow, and then holds nothing else |
| CoalescerEvents.PendingSummarises | src/core/coalescer.cpp:21-72 | without an overflow the pending entry of each path is determined by its history: last event, order, whether it is new, and which change is reported |
| Coalescer.PushedConsistent | src/core/coalescer.cpp:10-73 | a push keeps order numbers distinct and entries well formed |
| Coalescer.DeadlineExact | src/core/coalescer.cpp:75-87 | the deadline is the moment from which the batch is ready, if nothing more arrives |
| Coalescer.LatencyBound | src/core/coalescer.cpp:75-80 | no further events can postpone a batch past its latency bound |
| Coalescer.Coalescer.Push | src/core/coalescer.cpp:10-73 | the new state after one event, and the invariant |
| Coalescer.Coalescer.Ready | src/core/coalescer.cpp:75-80 | when a batch is ready |
| Coalescer.Coalescer.Deadline | src/core/coalescer.cpp:82-87 | the deadline, and that it is exact |
| Coalescer.Coalescer.Take | src/core/coalescer.cpp:89-143 | one rescan, or a batch in arrival order in which every pending path has its own op or a younger removal above it; an entry is missing exactly when an outermost younger removal sweeps it; each op reports the change and cookie of its entry, repaired as Coalescer.ReportedAt spells out; moves with a cookie are matched |
| Coalescer.ReportedAt | src/core/coalescer.cpp:132-140 | an op that is no move keeps the change of its entry and cookie 0; a move keeps change and cookie if both halves of its cookie are in the batch, becomes a removal or a creation if only its own half is, and without a cookie stays a move exactly when no op has a cookie |
| Coalescer.RepairedReports | src/core/coalescer.hpp:60-87 | the repair turns ops that carry the change and cookie of their entries into ops that report them so |
| CoalescerHistory.Times | src/core/coalescer.cpp:10-12 | after any events since a take the two clocks are the times of the first and of the last of them |
| CoalescerHistory.ReadyExactly | src/core/coalescer.cpp:75-80 | after any events a batch is ready exactly when one was an overflow, or enough distinct paths were touched, or the last event is as old as the quiet period, or the first as old as the latency limit |
| CoalescerHistory.LastEventTold | src/core/coalescer.cpp:21-72 | the op a batch holds for a path, determined by the last event on that path: removed, created, moved away, moved here, or, if it was only ever written, modified |
| CoalescerHistory.WritesDoNotHide | src/core/coalescer.cpp:55-72 | a path created and then written any number of times is reported as created |
| CoalescerHistory.RenameComesOut | src/core/coalescer.cpp:21-143 | the two events of a rename, whatever else happened and however often the new name was written since, come out as a removal and an arrival that are moves with the cookie of the events |
| CoalescerHistory.Rename | src/core/coalescer.cpp:10-143 | one rename pushed and taken through the class gives exactly its two halves |
| CoalescerBatch.Prune | src/core/coalescer.cpp:115-127 | the nested loop drops exactly the entries swept by an outermost removal that came after them |
| CoalescerBatch.Sweep | src/core/coalescer.cpp:121-126 | the inner loop walks exactly the entries directly behind a removal that lie below it |
| CoalescerBatch.DroppedCovered | src/core/coalescer.cpp:112-127 | whatever is dropped lies below a kept removal that is younger |
| CoalescerBatch.SameEffect | src/core/coalescer.cpp:112-130 | leaving out what a younger removal covers does not change what a sequence of ops does to a path-keyed mirror |
| CoalescerBatch.BatchEffect | src/core/coalescer.cpp:89-143 | applying the batch to any mirror equals applying every pending entry in arrival order |
| CoalescerBatch.PrunedBelow | src/core/coalescer.cpp:112-127 | an event is dropped if and only if an outermost, younger removal above it has no name sorting in between |
| CoalescerBatch.SweepsIff | src/core/coalescer.cpp:119-126 | the sweep from a removal reaches a path below it if and only if no name intrudes |
| CoalescerBatch.IntruderStopsPruning | src/core/coalescer.cpp:112-127 | an input on which an older event below a removed directory stays in the batch |
| CoalescerBatch.SortByPath | src/core/coalescer.cpp:112-114 | byte-wise sorting by path, nothing lost or added |
| CoalescerBatch.SortByOrder | src/core/coalescer.cpp:130-130 | sorting by arrival, nothing lost or added |
| CoalescerBatch.RepairMovePairs | src/core/coalescer.hpp:72-87 | the in-place repair degrades exactly the moves without a partner, and does nothing when no move has a cookie |
| CoalescerBatch.RepairMatches | src/core/coalescer.hpp:60-69 | after the repair every move with a cookie has its other half in the batch |
| CoalescerBatch.MatchedIff | src/core/coalescer.hpp:60-79 | all moves are matched after the repair exactly when some move had a cookie or there was no move |
| CoalescerBatch.CookielessMoveSurvives | src/core/coalescer.hpp:79-79 | an input on which a lone move without a cookie goes out as a move |
| CoalescerBatch.RepairIdempotent | src/core/coalescer.hpp:60-87 | repairing a second time changes nothing |
| Handover.BatchCanBeTaken | src/agent/server.cpp:109-113 | every batch the coalescer hands over is one the coherence protocol may take, op by op the same path and event, paths carried along by a moved directory included, and exactly which of those are left stranded |
| Path.Normalize | src/core/path.cpp:5-20 | the scanning loop joins exactly the components of its input, dropping empty ones and "." |
| Path.SplitParent | src/core/path.cpp:28-32 | splits at the last slash; the leaf has none |
| Path.ComponentsOfJoin | src/core/path.cpp:5-20 | normal forms split back into their components |
| Path.RoundTripsIff | src/core/path.cpp:5-20 | joined and normalised text names its components if and only if each is non-empty, is not ".", and holds no separator |
| Path.ValidNameIff | src/core/metadata_tree.cpp:39-44 | a name can be held exactly when path text of it is that one component, it is not "..", and it holds no NUL |
| Path.SplitOfJoin | src/core/path.cpp:28-32 | on a normal form the split peels off exactly the last component |
| Path.UnderIsPrefix | src/core/path.cpp:34-39 | on normal forms the text test for "at or below" is exactly the prefix order on components |
| CaseFold.DecodeOfEncode | src/core/unicode.cpp:9-59 | decoding inverts encoding on every scalar value, whatever follows |
| CaseFold.EncodeOfDecode | src/core/unicode.cpp:9-41 | only the shortest encoding of a scalar value decodes: no overlong form, no surrogate (section 3 of RFC 3629) |
| CaseFold.DecodesIffEncoded | src/core/unicode.cpp:9-41 | decoding succeeds exactly on strings that begin with an encoded scalar value |
| CaseFold.DecodeUtf8 | src/core/unicode.cpp:9-41 | the decoder advances past exactly one sequence or leaves its position alone |
| CaseFold.CasefoldAppend | src/core/unicode.cpp:97-115 | the folding loop appends the folding of its input, whose meaning CaseFold.FoldOfAscii and CaseFold.FoldOfEncoded state |
| CaseFold.FoldOfAscii | src/core/unicode.cpp:97-106 | on ASCII text folding adds 32 to each capital and leaves every other byte alone |
| CaseFold.AsciiAlikeIff | src/core/unicode.cpp:97-106 | two ASCII names fold alike if and only if they differ in nothing but the case of letters |
| CaseFold.FoldOfCapital | src/core/unicode.cpp:63-89 | each Latin-1, Latin Extended-A, Greek and Cyrillic capital folds to its small letter |
| CaseFold.CodepointsAlikeIff | src/core/unicode.cpp:63-89 | two code points fold alike if and only if they are a capital and its small letter, or belong with i and U+0130 or with s and U+017F; everything else stands alone |
| CaseFold.FoldOfEncoded | src/core/unicode.cpp:97-115 | folding a well-formed name folds its code points one by one |
| CaseFold.NamesAlikeIff | src/core/unicode.cpp:97-115 | two well-formed names fold alike if and only if they have as many code points and these fold alike one by one |
| CaseFold.EncodedLengths | src/core/unicode.cpp:43-59 | the bytes of one character of each encoded length |
| CaseFold.FoldNeverLengthens | src/core/unicode.cpp:97-115 | folding never lengthens any byte string |
| CaseFold.FoldIdempotent | src/core/unicode.cpp:97-115 | folding twice is folding once, on every byte string, malformed ones included |
| CaseFold.MalformedStays | src/core/unicode.cpp:100-112 | a byte that starts nothing still starts nothing once what follows is folded |
| CaseFold.FoldOfLowerAscii | src/core/metadata_tree.cpp:115-139 | the shortcut for lower-case ASCII names is right |
| FlatMap.RunIsShort | src/core/flat_map.hpp:29-40 | a run of probes without an empty slot is shorter than the table, so every probe loop ends |
| FlatMap.KeyReached | src/core/flat_map.hpp:29-40 | a stored key is met before any empty slot |
| FlatMap.AbsentAtEmpty | src/core/flat_map.hpp:36-37 | an empty slot proves a key absent |
| FlatMap.PutKeeps | src/core/flat_map.hpp:108-125 | writing a key into an empty slot or the first tombstone keeps every probe run intact |
| FlatMap.EraseKeeps | src/core/flat_map.hpp:54-69 | a tombstone removes one key, breaks no probe run and stays counted |
| FlatMap.U64Map.Find | src/core/flat_map.hpp:29-40 | answers as the finite map does |
| FlatMap.U64Map.Emplace | src/core/flat_map.hpp:102-126 | inserts or overwrites as the finite map does |
| FlatMap.U64Map.Erase | src/core/flat_map.hpp:54-69 | removes the key from the finite map |
| FlatMap.U64Map.GrowIfNeeded | src/core/flat_map.hpp:128-139 | room for one more key at three quarters load, contents unchanged |
| FlatMap.U64Map.Reserve | src/core/flat_map.hpp:71-76 | room for n keys, contents unchanged |
| FlatMap.U64Map.Rehash | src/core/flat_map.hpp:141-155 | rehashing, growing or not, keeps the contents and drops every tombstone |
| FlatMap.RunTable | src/core/flat_map.hpp:21-160 | over every run of operations and for any hash function the table answers as a finite map |
| TreeModel.LinkKeeps | src/core/metadata_tree.cpp:57-69 | appending a child keeps every sibling list doubly linked and counted |
| TreeModel.UnlinkKeeps | src/core/metadata_tree.cpp:71-84 | unlinking a child keeps every sibling list doubly linked and counted |
| TreeIndex.IndexFolds | src/core/metadata_tree.cpp:86-90 | the folded index names the first child in sibling order with each folding |
| TreeIndex.UnindexFolds | src/core/metadata_tree.cpp:92-113 | taking a child out hands its folded entry to the next sibling that folds alike |
| TreeOps.InsertKeeps | src/core/metadata_tree.cpp:115-139 | insert keeps the whole representation invariant |
| TreeOps.InsertView | src/core/metadata_tree.cpp:115-139 | insert adds exactly one path to the abstract map |
| TreeOps.DroppedView | src/core/metadata_tree.cpp:165-191 | releasing a subtree removes exactly the paths at or below it |
| TreeOps.EmptiedView | src/core/metadata_tree.cpp:150-163 | a directory that stops being one loses exactly what was below it |
| TreeOps.RenameKeeps | src/core/metadata_tree.cpp:193-222 | rename keeps the whole representation invariant |
| TreeOps.RenameView | src/core/metadata_tree.cpp:193-222 | rename moves the whole subtree, every relative path intact |
| TreeOps.ConsistentTree | src/core/metadata_tree.cpp:46-222 | the abstract map of a valid tree is tree-shaped |
| TreeOps.FoldedLookup | src/core/metadata_tree.cpp:224-236 | the folded index answers with the first child that folds like the query, and is silent exactly when none does |
| TreeOps.CollisionsAreSurplus | src/core/metadata_tree.cpp:86-113 | the collision counter is the sum over fold classes of size minus one |
| TreeOps.WalkIsMembership | src/core/metadata_tree.cpp:238-258 | without "..", walking from the root succeeds exactly on the paths present |
| TreeOps.ResolvesExactly | src/core/metadata_tree.cpp:238-258 | exact lookup without ".." finds the node at a path present and nothing otherwise |
| TreeOps.HeldIsValid | src/core/metadata_tree.cpp:39-44 | no valid tree holds a path with a name that is empty, ".", "..", or holds a separator or NUL |
| TreeOps.GreedyOne | src/core/metadata_tree.cpp:238-258 | the walk, exact child first and folded child otherwise, has one outcome |
| TreeOps.GreedyStops | src/core/metadata_tree.cpp:238-258 | a walk that finds nothing stopped at a component for which the node reached so far has no child of that name or folding |
| TreeOps.UpsertedPath | src/core/metadata_tree.cpp:260-291 | ensuring the directories and then upserting the leaf is the upsert on the abstract map; it fails exactly when an ancestor is no directory |
| MetadataTree.Tree.LinkChild | src/core/metadata_tree.cpp:57-69 | the node vector after linking |
| MetadataTree.Tree.UnlinkChild | src/core/metadata_tree.cpp:71-84 | the node vector after unlinking |
| MetadataTree.Tree.UnindexNode | src/core/metadata_tree.cpp:92-113 | both indexes and the collision counter after a node leaves them |
| MetadataTree.Tree.Insert | src/core/metadata_tree.cpp:115-139 | result and error for every input, the new abstract map, and the invariant |
| MetadataTree.Tree.Upsert | src/core/metadata_tree.cpp:141-148 | adds a child or refreshes the one with exactly this name |
| MetadataTree.Tree.SetAttributes | src/core/metadata_tree.cpp:150-163 | new attributes; a directory that stops being one loses its descendants |
| MetadataTree.Tree.ReleaseSubtree | src/core/metadata_tree.cpp:165-183 | the stack loop ends, frees each node of the subtree once and leaves a valid tree |
| MetadataTree.Tree.Remove | src/core/metadata_tree.cpp:185-191 | deletes everything at or below a node; the root cannot be removed |
| MetadataTree.Tree.Rename | src/core/metadata_tree.cpp:193-222 | every error case, and the moved subtree on success |
| MetadataTree.Tree.FindChild | src/core/metadata_tree.cpp:224-236 | the exact spelling if present, else the first child that folds alike, else nothing |
| MetadataTree.Tree.Lookup | src/core/metadata_tree.cpp:238-258 | the outcome, found or not, is that of the greedy walk: at each component the exact child, else the first that folds alike, ".." stepping up |
| MetadataTree.Tree.EnsureDirectoryPath | src/core/metadata_tree.cpp:260-282 | creates exactly the missing directories; otherwise says at which component it stopped, why, and what had been created by then |
| MetadataTree.Tree.UpsertPath | src/core/metadata_tree.cpp:284-291 | insert-with-implicit-ancestors on the abstract map, exactly when it succeeds, and for every failing input where it stopped, with which error and what it left behind |
| MetadataTree.Tree.RemovePath | src/core/metadata_tree.cpp:293-297 | delete-at-or-below what the greedy walk finds, and the error cases |
| MetadataTree.Tree.PathOf | src/core/metadata_tree.cpp:348-358 | the joined path of a live node |
| MetadataTree.Tree.LookupOwnPath | src/core/metadata_tree.cpp:348-358 | looking up the path of a live node finds that node in both modes |
| MetadataTree.Tree.Clear | src/core/metadata_tree.cpp:332-346 | an empty root |
| MetadataTree.Tree.LoadSnapshot | src/core/metadata_tree.cpp:299-330 | loads entry by entry, counts exactly the entries dropped, and refuses a parent that does not precede its entry |
| MetadataTree.Tree.ExportSnapshot | src/core/metadata_tree.hpp:118-135 | lists every node once, parents first, children in order |
| MetadataTree.Tree.CopyTo | src/core/metadata_tree.hpp:118-135 | exporting and loading elsewhere gives the same paths, attributes below the root and child order, nothing dropped |
| TreeKeys.PackInjective | src/core/metadata_tree.hpp:138-140 | a packed key determines parent and name |
| TreeKeys.PackUsable | src/core/flat_map.hpp:19-24 | a packed key is one of the two reserved keys if and only if it is one of the last two names below the node id that no node has |
| TreeKeys.PackedFind | src/core/metadata_tree.hpp:138-156 | a table holding the packed entries answers as the child index does |
| TreeKeys.PackedPut | src/core/metadata_tree.cpp:86-90 | adding an entry keeps table and index in step |
| TreeKeys.PackedErase | src/core/metadata_tree.cpp:92-113 | removing an entry keeps table and index in step |
| TreeSnapshot.LoadedPaths | src/core/metadata_tree.cpp:299-330 | the paths loaded and the entries dropped add up to the entries given |
| TreeExport.WalkComplete | src/core/metadata_tree.hpp:118-135 | when the queue of the walk is exhausted every node has been listed |
| TreeExport.SnapshotRoundTrip | src/core/metadata_tree.hpp:118-135 | loading any export of a valid tree rebuilds its paths, attributes and child order |
| Wire.LeRoundTrip | src/core/protocol.cpp:23-31 | fixed-width integers read back as written |
| Wire.LeOnto | src/core/protocol.cpp:27-31 | every byte string of a width is the encoding of its value |
| Wire.VarintRoundTrip | src/core/protocol.cpp:79-85 | every 64-bit value reads back from its varint (section 7.6 of DWARF Version 5), with exactly the bytes after it left |
| Wire.VarintStable | src/core/protocol.cpp:131-144 | an accepted varint fits 64 bits and is unchanged by more bytes |
| Wire.VarintShortest | src/core/protocol.cpp:79-85 | no accepted byte string for a value is shorter than its encoding |
| Wire.StringRoundTrip | src/core/protocol.cpp:89-160 | strings read back as written |
| Wire.ListRoundTrip | src/core/protocol.cpp:260-309 | lists read back element by element |
| WireLayout.LeBytes | src/core/protocol.cpp:23-25 | fixed-width integers are little-endian |
| WireLayout.VarintBytes | src/core/protocol.cpp:79-85 | a varint is the base-128 digits of its value, least significant first, the top bit set on all bytes but the last |
| WireLayout.AttributesLayout | src/core/protocol.cpp:171-176 | the bytes of attributes: kind, mode, size, modification time in two's complement |
| WireLayout.OpLayout | src/core/protocol.cpp:263-270 | the bytes of an op: kind, path, attributes of an upsert, change, cookie of a move |
| WireLayout.MessageLayout | src/core/protocol.cpp:225-272 | the order of the fields of a batch, a snapshot and a snapshot entry |
| WireLayout.BatchReadsBack | src/core/protocol.cpp:260-309 | a batch within the widths of its fields reads back field by field |
| WireLayout.SnapshotReadsBack | src/core/protocol.cpp:225-258 | a snapshot within the widths of its fields reads back as itself |
| Messages.AttributesRoundTrip | src/core/protocol.cpp:171-195 | attributes read back as written |
| Messages.SnapshotRoundTripBytes | src/core/protocol.cpp:225-258 | a snapshot payload reads back as itself; its count always passes the size check |
| Messages.SnapshotStable | src/core/protocol.hpp:265-277 | a snapshot once read is unchanged by more bytes |
| Messages.InvalidationRoundTrip | src/core/protocol.cpp:260-309 | a batch reads back with attributes for upserts only and cookies for moves only, and exactly the bytes after it left |
| Messages.InvalidationStable | src/core/protocol.cpp:274-309 | a batch once read is unchanged by more bytes |
| Messages.TruncatedInvalidationRefused | src/core/protocol.cpp:274-309 | every proper prefix of an encoded batch is refused |
| Messages.ReadManyRoundTrip | src/core/protocol.cpp:478-496 | a bulk request reads back up to 4096 paths and is refused beyond |
| Messages.ReadManyStable | src/core/protocol.cpp:483-496 | a bulk request once read is unchanged by more bytes |
| Messages.ReadManyResponseRoundTrip | src/core/protocol.cpp:498-525 | a bulk response reads back item by item, missing files included |
| Messages.ReadManyResponseStable | src/core/protocol.cpp:506-525 | a bulk response once read is unchanged by more bytes |
| Codec.Writer.Varint | src/core/protocol.cpp:79-85 | the loop appends the varint |
| Codec.Writer.Invalidation | src/core/protocol.cpp:260-272 | appends the encoded batch |
| Codec.Reader.Fixed | src/core/protocol.cpp:105-129 | reads a little-endian integer or reports truncation |
| Codec.Reader.Varint | src/core/protocol.cpp:131-144 | the shifting loop reads what the format says, at most ten bytes, the last carrying one bit |
| Codec.Reader.String | src/core/protocol.cpp:153-160 | reads a length-prefixed string or reports why not |
| Codec.Reader.Attributes | src/core/protocol.cpp:178-195 | reads attributes or reports why not |
| Codec.Reader.Invalidation | src/core/protocol.cpp:274-309 | reads a batch or reports why not |
| Codec.Reader.Snapshot | src/core/protocol.hpp:265-277 | reads a snapshot payload or reports why not |
| Codec.Reader.ReadMany | src/core/protocol.cpp:483-496 | reads a bulk request or reports why not |
| Codec.Exchange | src/core/protocol.cpp:260-309 | writing a batch and reading it back through the two classes |
| Streams.OpSize | src/agent/server.cpp:241-241 | the agent's estimate of an op's size is short by at most a quarter |
| Streams.ShortIff | src/agent/server.cpp:241-241 | the estimate falls short if and only if the op is an upsert whose variable-length fields need more than 21 bytes |
| Streams.ReckonedShort | src/agent/server.cpp:241-241 | an op whose encoding is longer than estimated |
| Streams.NextCut | src/agent/server.cpp:239-243 | a chunk goes as far as the budget allows and holds at least one op |
| Streams.BroadcastBatch | src/agent/server.cpp:228-251 | the chunks concatenate to the batch under one generation, and each fits a frame when no path exceeds half a frame |
| Streams.OpsOfAt | src/agent/server.cpp:228-251 | in the concatenation every op of a chunk stands behind those of the chunks before it, in its own order |
| Streams.Sender.OnEntry | src/agent/server.cpp:773-779 | buffers an entry and sends a frame exactly when the budget is reached |
| Streams.SendSnapshot | src/agent/server.cpp:746-786 | the frames carry the scanned entries in order; exactly the last one says nothing follows |
| Streams.FlattenAt | src/agent/server.cpp:746-786 | in the concatenation every entry of a frame stands behind those of the frames before it, in its own order |
| Streams.Pending.OnFrame | src/agent/client.cpp:905-947 | one frame of a streamed reply, ceilings and malformed frames included |
| Streams.StreamReassembles | src/agent/client.cpp:905-947 | the client ends with exactly the entries sent if and only if both ceilings hold, and no frame but the last completes the stream |
| Streams.Transfer | src/agent/server.cpp:746-786 | one snapshot sent and received through both ends |
| ReadCache.EvictedLongest | src/agent/client.cpp:354-366 | eviction leaves the longest non-empty prefix of the recency list that fits |
| ReadCache.RunBounded | src/agent/client.cpp:354-392 | after any run each path is cached once and the cache is within its limit or holds a single file |
| ReadCache.NeverInvents | src/agent/client.cpp:376-392 | whatever the cache holds for a path is what was last put there and not dropped since |
| CacheHistory.RunStore | src/agent/client.cpp:276-392 | any run of operations on the class: a lookup answers only with the bytes of the last put at its path, not dropped since, of exactly the modification time and size asked for, and an entry still held with that time and size is always found |
| CacheHistory.StepForPath | src/agent/client.cpp:354-392 | what one operation does to one path: a put replaces it, a drop forgets it, and otherwise it is untouched or evicted |
| CacheHistory.RemembersAll | src/agent/client.cpp:354-392 | as long as everything put fits, the cache holds exactly the last put of every path that was not dropped since |
| CacheHistory.ByRecency | src/agent/client.cpp:354-392 | after any run, of two held paths the one nearer the front has been put or hit since the last put or hit of the other, so eviction takes the least recently used |
| ReadCache.Store.EraseAt | src/agent/client.cpp:376-380 | map, recency list and byte count stay in step |
| ReadCache.Store.Evict | src/agent/client.cpp:354-366 | the eviction loop leaves that longest prefix |
| ReadCache.Store.CachePut | src/agent/client.cpp:382-392 | replaces the path's entry, puts it first and evicts |
| ReadCache.Store.Lookup | src/agent/client.cpp:276-295 | a hit needs an entry of exactly this modification time and size, returns its data and becomes most recent; anything else is a miss and changes nothing |
| ReadCache.Store.DropCached | src/agent/client.cpp:604-610 | drops one path |
| ReadCache.Store.DropCachedPrefix | src/agent/client.cpp:612-635 | drops exactly the paths at or below a directory, in whatever order the table is walked |
| ReadCache.Store.SetLimit | src/agent/client.cpp:368-374 | a new limit, and eviction down to it |
| ReadVersions.NewestKept | src/agent/client.cpp:203-208 | a bumped version has never been current before, as long as nothing else moves the modification time back |
| ReadVersions.NextInv | src/agent/client.cpp:688-741 | every step of read-ahead, write, read and outside update that brings no version back keeps the version invariant |
| ReadServe.ServeRead | src/agent/client.cpp:267-295 | serving a read from the store is a hit exactly when it is one in the version protocol |
| ReadServe.PutIsStep | src/agent/client.cpp:382-392 | caching a fetch is a step of the version protocol |
| ReadServe.OtherIsStep | src/agent/client.cpp:354-392 | whatever else happens to the store is a step of the version protocol, or none |
| ReadVersions.NoStaleHit | src/agent/client.cpp:267-341 | in every run in which no version comes back, whoever sets versions, a read that begins after a write has returned and hits the cache is served bytes fetched after the write took effect |
| ReadVersions.StaleHitNeedsRecurrence | src/agent/client.cpp:267-341 | in every run, a hit on older bytes is preceded by a version that becomes current again |
| ReadVersions.RisingNeverBack | src/agent/client.cpp:203-208 | no version comes back in a run in which everything but a write leaves the version alone or moves the modification time on |
| ReadVersions.RevertedVersionServesStale | src/agent/client.cpp:145-164 | a run in which installing a snapshot puts an old version back and a hit is stale |
| Glob.GlobSegment | src/core/ignore.cpp:9-27 | the loop with one remembered star terminates and computes the scan |
| Glob.MatchesGlobs | src/core/ignore.cpp:9-27 | the scan never matches too much, and on texts without a star matches exactly what the pattern means |
| Glob.PlainGlobs | src/core/ignore.cpp:9-27 | a pattern without a star means the texts of its own length that agree byte by byte, a question mark standing for any one |
| Glob.StarGlobs | src/core/ignore.cpp:9-27 | a star means any stretch, the empty one included |
| Glob.PlainMatches | src/core/ignore.cpp:9-27 | the scan matches a pattern without a star on exactly those texts |
| Glob.ScanExact | src/core/ignore.cpp:9-27 | going back to the last star only loses nothing |
| Glob.StarredTextRefused | src/core/ignore.cpp:12-15 | for every text with a star, a pattern that means it and is refused |
| Glob.ExactIff | src/core/ignore.cpp:9-27 | the scan is right for every pattern on exactly the texts without a star |
| Ignore.Split | src/core/ignore.cpp:29-39 | the non-empty runs between slashes |
| Ignore.SegmentsOfJoin | src/core/ignore.cpp:29-39 | on a normal form the segments are the components |
| Ignore.Ignored | src/core/ignore.cpp:75-107 | a path is ignored exactly when some pattern hits it |
| Ignore.AnchoredIff | src/core/ignore.cpp:80-96 | an anchored pattern hits a path exactly when its segments match the first components one by one, and a directory-only one only a directory |
| Ignore.AnchoredAtRootOnly | src/core/ignore.cpp:80-96 | an anchored pattern never hits below a first component it does not match |
| Ignore.FloatingAnyDepth | src/core/ignore.cpp:97-104 | a floating pattern decides the same at every depth |
| Ignore.FloatingOne | src/core/ignore.cpp:97-104 | a floating pattern hits a single name exactly when the name matches and the kind is right |
| Ignore.DirectoryOnlyIff | src/core/ignore.cpp:94-102 | a directory-only pattern hits a file exactly when it hits a directory above it |
| Ignore.KindDoesNotMatter | src/core/ignore.cpp:94-102 | any other pattern hits files and directories alike |
| Ignore.ExcludedBelow | src/core/ignore.cpp:75-107 | what is ignored takes everything below it along |
| Ignore.RulesDownward | src/core/ignore.cpp:75-107 | the rules are of the kind convergence relies on |
| WriteBack.ContiguousWrites | src/mount/fuse_mount.cpp:308-326 | two writes back to back are one, gaps and overwrites included |
| WriteBack.WriteAtByte | src/mount/fuse_mount.cpp:308-326 | a write puts its bytes at its offset, leaves the others alone and fills a gap with zeros |
| WriteBack.SliceBytes | src/mount/fuse_mount.cpp:407-420 | a read returns the bytes from its offset on, as many as asked for up to the end of the file and the cap of 16 MiB |
| WriteBack.Handle.FlushHandle | src/mount/fuse_mount.cpp:299-306 | a flush changes the file, not what the handle shows; a refused one changes nothing |
| WriteBack.Handle.OpWrite | src/mount/fuse_mount.cpp:308-326 | the handle shows the write applied; what happens when either flush is refused |
| WriteBack.Handle.OpRead | src/mount/fuse_mount.cpp:407-420 | a read sees every write: byte k of the answer is byte k behind the offset of what the handle shows |
| WriteBack.Handle.OpRelease | src/mount/fuse_mount.cpp:332-338 | afterwards the file is what the handle showed |
| WriteBack.Session | src/mount/fuse_mount.cpp:299-338 | over any sequence of writes, reads and flushes ended by a release, every read and the final file are those of writing through |
| Broadcast.NextInv | src/agent/server.cpp:253-342 | every step of sessions and broadcasts keeps targets registered or leaving |
| Broadcast.SendsToLiveChannels | src/agent/server.cpp:261-283 | in every run, every send is to a channel whose session has not returned |
| Broadcast.EveryPeerIsSentTo | src/agent/server.cpp:261-283 | in every run, a channel registered when a broadcast starts has been sent to by the time it finishes |
| Broadcast.ReturnedIsForgotten | src/agent/server.cpp:333-341 | a session that has returned is on no list any more |

## Left out

- CoherenceProof.Convergence: that no change of the path is stranded is sufficient, and two runs show it is needed; CoherenceStranded.StrandedStep says how it comes about. A stranded path may still be right by chance, when what was lost made no difference, so this one condition is not an equivalence.
- CoherenceProof.Convergence: a failed snapshot fetch leaves the mirror waiting for another one, and the theorem then says nothing; local mutations are treated in AckOrder instead, with no snapshot in flight.
- CoherenceProof.Convergence: disks hold valid names only, which is part of what a disk is in the model; what happens to other names is CoherenceSpelling.BackslashedName.
- CoherenceProof.ReceiveAgrees: in a case-insensitive client a removal of a path not held as spelt may take any held path of the same folding, or nothing; which one the tree picks is MetadataTree.Tree.Lookup.
- CoherenceProof.ExpandAgrees: which directories are enumerated (topmost only, by byte order) and which paths are skipped because the batch already names them are not modelled; any visible path may be added, and every path brought along by an appeared directory is either added, missed or dropped with a rescan.
- CoherenceProof.VisitAgrees: one_file_system is not modelled; the scan reads any set of paths whose directories it has read.
- MetadataTree.Tree.Insert: the two indexes are finite maps keyed by parent and name; that the hash table is a finite map is FlatMap.RunTable, and that packed keys represent such an index is in TreeKeys, for any interning that gives each name one id.
- MetadataTree.Tree.CopyTo: the root's own attributes are not part of a snapshot and come back as the default directory.
- CoalescerBatch.SortByPath: stands for the library sort; keys are distinct, so its result is determined.
- ReadVersions.NoStaleHit: one file; renames and removals of the path are not steps.
- ReadCache.Store.Lookup: splicing and erasing by list iterator are modelled as positions in a sequence; the separate cache of link targets is not modelled.
- WriteBack.Session: truncation of an open file and two handles on one file are not modelled.
- WriteBack.Handle.FlushHandle: a write the agent refuses is taken to change nothing on the agent's side; a write that fails half way is not modelled.
- Ignore.Ignored: parsing of the rules file is not modelled; patterns are given with at least one segment, as parsing leaves them.
- Frame headers, the handshake and its cryptography, hello, error, read, write, rename and link messages: the same primitives again, one field after another.
- Sockets, watchers, the scanner's system calls, file I/O on the agent, share-violation retries: the disk is an abstract map read at arbitrary moments, the channel a FIFO.
- Statistics, log lines, timeouts, back-off intervals and condition-variable liveness.
- Windows name escaping, the kernel notification bridge, the string pool, command-line tools and installers.
