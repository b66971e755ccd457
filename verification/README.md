# A verified model of the indexer, the gateway and the protocol between them

The repository has a host indexer (Muninn) and a gateway (Hugin). Muninn scans a directory tree,
builds a snapshot, validates it, computes a delta against an older snapshot, stores both in an ordered
key/value store and offers them to consumers through an outbox. Hugin pulls the outbox over a connection
that may break, acknowledges what it has seen, logs each record once, and materialises the tree. This
project models that path from end to end and proves what each part promises the next.

Methods and classes carry the program's loops, flags and in-place updates. Each is proved against a
function or predicate that says what it computes, and the lemmas beside it prove what that function is
worth. Concurrency (the pull protocol, the ingest coordinator, the upload workers, the send queue) is
modelled as step systems, and the results about it are invariants of every run.

`dafny verify dfyconfig.toml` checks the whole project.

## How the parts fit

- **Delta engine** (`DeltaEngine`, `DeltaLaws`, `DeltaInverse`, `DeltaOrder`). `IsDelta` says what `compute` returns:
  the greedy fingerprint matcher pairs the k-th removed with the k-th added entry of a fingerprint, and
  `std::sort` is any sorted permutation. When ids and paths are unique the result is unique, and
  inverting it is computing it the other way round. Which of several alike entries are paired, and in which
  order the lists come, is said on the fields of the entries.
- **Materializer** (`Materializer`, `ReplayTheorem`, `ReplayRuns`). `Replay` is what `apply_delta` does to
  one host's two maps. The main theorem is an equivalence: the replay of a computed delta always succeeds,
  and it gives exactly the two maps that loading the target gives if and only if the pair is `Replayable`.
  That condition looks only at the two snapshots and the delta. Three things are in it. A shared id keeps its type, and
  its name and parent if its path stays. The end of a rename is normal, named and hung by its path, and a
  rename between two ids changes no metadata, because a rename carries none. And when the old path of a
  rename is occupied in the target, it is by the end of a rename listed no earlier, because
  `id_by_path.erase` of the old path runs after the adds and after earlier renames. The last clause fails
  for real edits: a file that is moved away and replaced, and every swap of two names, lose a path
  (`ReplacedFileIsLost`, `TakenPathIsLost`, `SwapIsLost`).
- **Validator** (`Graph`, `Depth`, `Validators`, `TreeTheorem`, `DeltaValidator`, `Reports`, `DeltaReports`). The depth-first search with
  its frame stack reports a cycle exactly when the graph has one, and terminates because white nodes or pending
  children shrink. Header, identity and graph passes together accept exactly the rooted trees. What each
  code of a report means, and what is accepted, is said on the fields of the snapshot or the delta.
- **Builder** (`Paths`, `Builder`, `BuildTheorem`, `BuildOrder`, `BuildReplay`). Stable ids come from probing a hash. It is
  proved exactly which scans become snapshots that the validator accepts. For two scans there is a condition on
  their raw entries under which the delta between the builds replays: no two keys collide under the hash, no
  path passes to another file unless the old one is gone and the new one is no directory, and among entries
  without inodes what the rename heuristic may pair has equal metadata and a free old path.
- **Store** (`Cursor`, `Outbox`, `Retention`) and **protocol** (`Bridge`, `Protocol`, `Progress`). Any
  number of clients pull over sessions that break, restart without memory and race with compaction.
- **Ingest** (`Ingest`, `IngestRaces`), **glob matcher** (`Glob`), **codecs** (`Bytes`, `Serialization`,
  `SerializationStreams`, `ByteCodec`, `Frames`, `Wire`, `Layouts`, `Base64`), **budgets and timers** (`Upload`,
  `SendQueue`, `Backoff`).
- **End to end** (`MessageValidator`, `Pipeline`, `EndToEnd`). The gateway's check of decoded records, the
  captures that build, validate, compare, store and enqueue, and the way from a run of captures to the
  gateway's tree. An update enqueues its target snapshot and the delta right behind it, so the delta never
  finds its base, and the gateway shows the last captured snapshot whatever the deltas say.

## What was found

- Replaying a delta does not always refine loading the target; the exact condition is above.
- The gateway refuses the deltas of the pipeline. Each is enqueued behind the snapshot of its own target, and
  once that is loaded the delta's base is no longer shown. A delta is applied if and only if its base has the
  target's id or another host shows the base, as after a change of the host's name
  (`EndToEnd.DeltaAppliedIff`, `EndToEnd.UpdateHandled`, `EndToEnd.RenamedHostReplaysIff`). The tree is right
  all the same, since each snapshot arrives in full (`EndToEnd.GatewayShowsLastCapture`).
- `wildcard_match` compares the pattern's `*` with the text before it treats it as a wildcard, so it rejects
  some patterns that should match exactly on texts that contain a `*` (`Glob.AgreesIffNoStar`).
- A consumer that acknowledges 2^64-1 makes the fetch cursor start over at the first record
  (`Outbox.FetchAboveAckIff`, `Outbox.CompactKeepsFetchIff`), and allocating sequence 2^64-1 wraps the
  counter (`Outbox.EnqueueKeepsDenseIff`).
- The pipeline reads a base snapshot and stores the delta in two transactions; a deletion of the base in
  between, or a retention that does not count it among the newest, leaves a delta without its base
  (`Retention.DeletedBaseDangles`, `Retention.RetainedBaseDangles`, `Retention.OldBaseDangles`).
- The upload loop's unsigned subtraction lets an oversized file through when files are allowed and the file
  limit exceeds the total limit, and only then (`Upload.LoopIsSafeIff`).
- The policy that drops the oldest frame can drop the frame whose write is under way and start a second
  write beside it, under every limit that lets anything into the queue (`SendQueue.OrderedIff`).

## Model

| member | source | states |
|---|---|---|
| DeltaEngine.Compute | backend/Muninn/snapshot/delta_engine.cpp:120-256 | the loops return a delta as `IsDelta` describes it: entries matched by id, then pairs by equal fingerprint and equal rank in path order, each list a sorted permutation under its comparator |
| DeltaEngine.MatchRenames | backend/Muninn/snapshot/delta_engine.cpp:174-244 | the buckets and the two flag arrays pair the k-th removed with the k-th added entry of each fingerprint and leave over exactly the unpaired ones |
| DeltaEngine.SortDelta | backend/Muninn/snapshot/delta_engine.cpp:69-116 | the four lists are sorted under their own comparators and keep their elements |
| DeltaEngine.Invert | backend/Muninn/snapshot/delta_engine.cpp:258-299 | added and removed change places, before and after change places, and the lists are sorted again |
| DeltaEngine.PositionsByRank | backend/Muninn/snapshot/delta_engine.cpp:191-195 | a bucket holds at place c exactly the entry that c earlier entries share the fingerprint of |
| DeltaLaws.ComputeShape | backend/Muninn/snapshot/delta_engine.cpp:120-256 | with unique ids and paths: every listed entry is new or gone, every shared id with a new path is a rename, every shared id with new metadata or type is modified, renames are injective both ways |
| DeltaInverse.DeltaIsUnique | backend/Muninn/snapshot/delta_engine.cpp:120-256 | with unique ids and paths the input determines the delta, whatever order `std::sort` leaves ties in |
| DeltaInverse.InvertIsComputeBack | backend/Muninn/snapshot/delta_engine.cpp:174-299 | the inverse of the delta from base to target equals the delta from target to base, heuristic on or off |
| DeltaInverse.InvertTwice | backend/Muninn/snapshot/delta_engine.cpp:258-299 | inverting a computed delta twice gives it back |
| DeltaInverse.IdsSplit | backend/Muninn/snapshot/delta_engine.cpp:137-252 | base ids split without overlap into shared, removed and heuristic rename sources; target ids into shared, added and heuristic rename ends |
| DeltaInverse.EmptyIffSameContent | backend/Muninn/snapshot/delta_engine.cpp:120-256 | the delta is empty if and only if ids, paths, types and metadata agree |
| DeltaOrder.SharedAreListed | backend/Muninn/snapshot/delta_engine.cpp:137-172 | an id on both sides is a rename from its old path to its new exactly when the paths differ, and modified, with both metadata, exactly when metadata or types differ |
| DeltaOrder.FirstByPathIsPaired | backend/Muninn/snapshot/delta_engine.cpp:174-239 | of several entries that are gone and agree in type, size, modification time, name and known inode, a rename between two ids takes one whose path is less than the path of every one left among the removed; the same holds of the new path and the entries left among the added |
| DeltaOrder.NoAlikeLeft | backend/Muninn/snapshot/delta_engine.cpp:197-239 | with the heuristic on, no removed and no added entry that agree in type, size, modification time, name and known inode are both left over |
| DeltaOrder.PairsKeepOrder | backend/Muninn/snapshot/delta_engine.cpp:174-239 | of two renames between ids whose sources are alike, the old paths stand in the same order as the new ones |
| DeltaOrder.ListsAreOrdered | backend/Muninn/snapshot/delta_engine.cpp:69-116 | added and removed entries come by path, modified ones by id, and renames by old path, each strictly ascending |
| DeltaOrder.FingerprintIff | backend/Muninn/snapshot/delta_engine.cpp:46-58 | fingerprints agree exactly when type, size, modification time, hashed name and, as far as both numbers of it are known, the inode agree |
| Domain.StringLessIff | backend/Muninn/snapshot/delta_engine.cpp:69-116 | the order of strings, spelled out: at the first place where they differ the character is less, or the one is a proper prefix of the other |
| Materializer.MaterializerSink.ApplySnapshot | backend/Hugin/sinks/materializer_sink.cpp:35-63 | the host's state becomes the load of the snapshot, the latest host is recorded, an unnamed host is refused |
| Materializer.MaterializerSink.ApplyDelta | backend/Hugin/sinks/materializer_sink.cpp:65-169 | the host is found by name or by base id, its state becomes the replay of the delta, and a failed replay leaves what the loops had done so far |
| Materializer.MaterializerSink.ListChildren | backend/Hugin/sinks/materializer_sink.cpp:257-325 | a listing returns each entry as often as it is stored with the id of the directory at the normalised path as parent, directories first then by name, with each error case |
| Materializer.ParentIdIs | backend/Hugin/sinks/materializer_sink.cpp:140-158 | the parent of a renamed entry is the id known at the path in front of its last name, 0 when none is known; a bare name and the root have none |
| Materializer.ListedInOrder | backend/Hugin/sinks/materializer_sink.cpp:311-323 | in a listing no directory comes behind anything else, and within each group no name comes before a lesser one |
| Materializer.FailedReplayStays | backend/Hugin/sinks/materializer_sink.cpp:65-169 | a replay that fails leaves sequence, snapshot id and host as they were, always with the validation error; one that succeeds started at the base of the delta and ends at its target and the sequence |
| ReplayTheorem.ReplayShowsTargetIff | backend/Hugin/sinks/materializer_sink.cpp:65-169 | replaying a delta of the engine's shape on the load of base succeeds, and both maps show the target if and only if the pair is replayable |
| ReplayTheorem.ReplayClosed | backend/Hugin/sinks/materializer_sink.cpp:100-168 | which entry every id and which id every path has after a replay, in closed form |
| ReplayRuns.ReplayOfCompute | backend/Hugin/sinks/materializer_sink.cpp:65-169 | the same for every computed delta, as equality with the two maps that loading the target gives, with the bookkeeping fields |
| ReplayRuns.ChainShowsLast | backend/Hugin/sinks/materializer_sink.cpp:65-169 | any number of replayable deltas applied in a row to the first snapshot show the last one |
| ReplayRuns.ReplayThenUndo | backend/Muninn/snapshot/delta_engine.cpp:258-299 | replaying a replayable delta and then its inverse shows the base again exactly when the inverse is replayable |
| ReplayRuns.ReplayMutuallyInverse | backend/Hugin/sinks/materializer_sink.cpp:23-31 | after such a replay each map indexes the other |
| ReplayRuns.ListingFollowsPaths | backend/Hugin/sinks/materializer_sink.cpp:303-309 | in a path-shaped state the children by parent id are the entries whose parent path is the directory's path |
| ReplayRuns.CoherentReplays | backend/Hugin/sinks/materializer_sink.cpp:65-169 | a coherent pair, whose conditions do not look at the order of renames, is replayable and replays to the load of the target |
| ReplayRuns.ReplacedFileIsLost | backend/Hugin/sinks/materializer_sink.cpp:116-138 | a file moved away and replaced by a new one at its old path is never replayable |
| ReplayRuns.TakenPathIsLost | backend/Hugin/sinks/materializer_sink.cpp:116-138 | neither is a move onto a path that a rename sorted later leaves |
| ReplayRuns.SwapIsLost | backend/Hugin/sinks/materializer_sink.cpp:116-138 | a concrete swap of two file names after which the state does not show the target |
| Validators.HeaderPass | backend/Muninn/domain/validation/validators.cpp:53-164 | exactly which codes are reported, and an error exactly when a header field is bad or the first entry with the root id is not a parentless directory |
| Validators.IdentityPass | backend/Muninn/domain/validation/validators.cpp:170-208 | exactly which codes are reported, and an error exactly when an id is 0 or repeated or a parent is missing |
| Validators.PathPass | backend/Muninn/domain/validation/validators.cpp:214-314 | exactly which codes are reported, and an error exactly when a path is empty, relative, not normal, climbing or repeated, or a type is unknown |
| Validators.CheckParents | backend/Muninn/domain/validation/validators.cpp:328-368 | exactly which parent codes are reported, against the index that keeps the last entry of an id |
| Validators.DetectCycles | backend/Muninn/domain/validation/validators.cpp:370-433 | the search with the explicit frame stack reports a cycle if and only if the children graph has one; a depth warning means a walk of more than 4096 distinct ids below some entry, and without one and without a cycle every id is near the first listed entry that leads to it |
| Validators.SearchTurn | backend/Muninn/domain/validation/validators.cpp:391-432 | one turn keeps the colour, stack and depth invariants and decreases the white nodes or the pending children |
| Validators.GraphPass | backend/Muninn/domain/validation/validators.cpp:320-472 | errors, the cycle code, the parent codes, the ids reported as disconnected, each exactly, and what the depth warning means |
| Validators.TimestampPass | backend/Muninn/domain/validation/validators.cpp:474-508 | exactly which timestamp codes are reported at a given time, and never an error |
| TreeTheorem.DepthWarnedIff | backend/Muninn/domain/validation/validators.cpp:386-406 | for every tree, in whatever order it lists its entries, the depth warning is given if and only if some entry lies too deep below the first listed entry above it |
| TreeTheorem.RootFirstDepth | backend/Muninn/domain/validation/validators.cpp:386-406 | when the root is listed first, this is if and only if some entry lies too deep below the root |
| Graph.TopologicalNoCycle | backend/Muninn/domain/validation/validators.cpp:405-409 | a finishing order with children first excludes every cycle |
| Graph.FindReachable | backend/Muninn/domain/validation/validators.cpp:440-458 | the sweep returns exactly the ids that a path of children reaches from the root |
| TreeTheorem.AcceptedIffTree | backend/Muninn/domain/validation/validators.cpp:53-472 | header, identity and graph passes give no error if and only if the header fields are sound and the entries are a rooted tree |
| TreeTheorem.ClimbToRoot | backend/Muninn/domain/validation/validators.cpp:320-472 | without errors every chain of parents ends at the root |
| TreeTheorem.AcceptedIsConnected | backend/Muninn/domain/validation/validators.cpp:435-472 | without errors every id is reachable from the root |
| TreeTheorem.Validate | backend/Muninn/domain/validation/validators.cpp:740-762 | the five passes together accept exactly the rooted trees with sound headers and paths, at any time of the clock, never warn of a disconnected entry then, and report exactly the codes of their passes |
| Reports.AcceptedFields | backend/Muninn/domain/validation/validators.cpp:53-472 | a snapshot is accepted exactly when its id is not 0, its schema is major 1 readable from 1, its host is named, its entries form a rooted tree, and its paths are distinct, each `/` or plain names behind slashes, with one of the four types |
| Reports.HeaderReports | backend/Muninn/domain/validation/validators.cpp:53-164 | when each code of the header is reported, on the header fields and with the version numbers |
| Reports.RootReports | backend/Muninn/domain/validation/validators.cpp:53-164 | when the codes about the root are reported, by the first entry with the root id |
| Reports.IdentityReports | backend/Muninn/domain/validation/validators.cpp:170-208 | a zero id, two entries with one id, and a zero parent away from the root are reported exactly when they occur |
| Reports.PathReports | backend/Muninn/domain/validation/validators.cpp:214-314 | an entry with an empty path, two entries with one path, and each other fault of an entry with a path are reported exactly when some entry has them; permissions count as invalid above 0xFFFF |
| Reports.ParentReports | backend/Muninn/domain/validation/validators.cpp:328-368 | with distinct ids: a parent that is missing, no directory, or zero away from the root is reported exactly when some entry has it |
| Reports.TimestampReports | backend/Muninn/domain/validation/validators.cpp:474-508 | times out of order and times after now are reported exactly when some entry has them |
| DeltaValidator.DeltaPass | backend/Muninn/domain/validation/validators.cpp:515-738 | exactly which codes are reported, and an error exactly when ids are 0 or repeated, lists conflict, or an id is missing on its side |
| DeltaValidator.ReportRenameRepeats | backend/Muninn/domain/validation/validators.cpp:598-621 | the rename loop, which records a new id only after a fresh old one, still reports exactly the repeated ends and paths |
| DeltaReports.CodesMean | backend/Muninn/domain/validation/validators.cpp:515-738 | what each code of the pass says, on the four lists and the two snapshots: repeats in a list, ids in two lists, repeated ends and new paths of renames, ids the base or the target does not have |
| DeltaValidator.AcceptedDeltaPasses | backend/Muninn/snapshot/delta_engine.cpp:120-256 | every delta computed between two snapshots that the header, identity and path passes accept passes the referential pass without an error |
| Builder.Build | backend/Muninn/snapshot/snapshot_builder.cpp:116-211 | when every probe of this scan ends, the loops return a build as `IsBuild` describes it, diagnostics included |
| Builder.GenerateStableId | backend/Muninn/snapshot/snapshot_builder.cpp:40-73 | the id is the first candidate not in use, 0 becomes 1, the 32-bit salt wraps, and every used candidate adds one diagnostic |
| Builder.LinkEntries | backend/Muninn/snapshot/snapshot_builder.cpp:170-192 | each entry gets the id at its parent path or 0, and the root path decides the root id |
| Builder.GatherIsOk | backend/Muninn/snapshot/snapshot_builder.cpp:144-168 | the gathered entries have distinct non-zero ids and distinct paths and cover every scanned path |
| Builder.OrderDoesNotMatter | backend/Muninn/snapshot/snapshot_builder.cpp:124-136 | with distinct raw paths the result does not depend on the order of the scan |
| BuildTheorem.BuildIsKeyed | backend/Muninn/snapshot/snapshot_builder.cpp:116-211 | whatever was scanned, ids are distinct and non-zero, paths distinct, every entry comes from the scan and every scanned path is there |
| BuildTheorem.BuildAcceptedIff | backend/Muninn/snapshot/snapshot_builder.cpp:116-211 | header, identity and graph passes accept the build if and only if the scan names a host and the built paths form a tree under the root in use, the fallback root included |
| BuildTheorem.ScannedTreeIsAccepted | backend/Muninn/snapshot/snapshot_builder.cpp:170-204 | a scan whose root is a directory and whose other entries have directory parents builds an accepted snapshot; the path pass then asks only for absolute paths and known types |
| BuildTheorem.BuildReports | backend/Muninn/snapshot/snapshot_builder.cpp:144-204 | no scanned entry is lost unreported, and missing parents and a missing root are reported exactly |
| Builder.RoomyHashEnds | backend/Muninn/snapshot/snapshot_builder.cpp:40-73 | the probes of a scan end when no smaller set of ids uses up all the candidates of an entry |
| BuildOrder.CandidateIs | backend/Muninn/snapshot/snapshot_builder.cpp:49-52 | a probe asks for the hash of its key, with 1 in place of 0, and the first key carries no salt |
| BuildTheorem.BuiltUnderParent | backend/Muninn/snapshot/snapshot_builder.cpp:170-192 | in any build an entry at dir/name that is not the root in use has the id of the entry at dir as parent, and 0 when there is none; directly under / likewise; the root in use has none |
| BuildTheorem.BuiltRoot | backend/Muninn/snapshot/snapshot_builder.cpp:171-204 | the root is the entry at the scanned root path, and without one the first entry |
| BuildOrder.BuiltInOrder | backend/Muninn/snapshot/snapshot_builder.cpp:124-168 | the entries come in the order of the scanned paths; each is the first of all that were scanned at its path, with its type, metadata and name, and its id is the first of its candidates that no entry before it has |
| BuildOrder.PathsComeInOrder | backend/Muninn/snapshot/snapshot_builder.cpp:124-136 | scans of normal paths give entries in strictly ascending order of their paths |
| BuildOrder.BuildHeader | backend/Muninn/snapshot/snapshot_builder.cpp:116-122 | schema 1.0.0, the scanned host, the time given or else that of the scan, the id given or else the digest of the rest with 1 for 0 |
| BuildOrder.SameKeyIff | backend/Muninn/snapshot/snapshot_builder.cpp:28-38 | two entries at absolute paths first ask for one key exactly when they have one type and are one inode, or have no known inode and one path |
| BuildOrder.SaltedKeyIff | backend/Muninn/snapshot/snapshot_builder.cpp:58-64 | entries with one base key ask for one salted key exactly at one path with one salt, so hard links part after the first probe |
| BuildReplay.BuildIsPathShaped | backend/Muninn/snapshot/snapshot_builder.cpp:178-191 | an accepted build has the parents that the materializer recomputes after a rename, and its names as well if and only if they are the file names, as for every scan that names entries by path |
| BuildReplay.PlainGather | backend/Muninn/snapshot/snapshot_builder.cpp:40-73 | without hash collisions and hard links every entry gets the id of its first probe, and every probe ends |
| BuildReplay.KeptIsCoherent | backend/Hugin/sinks/materializer_sink.cpp:100-168 | path-shaped trees under one root are coherent when shared ids keep their type, a path keeps its entry unless that is gone and what is there now is no directory, and what the heuristic may pair has equal metadata and a free old path |
| BuildReplay.InodesIdentify | backend/Muninn/snapshot/delta_engine.cpp:46-58 | scanned entries with device and inode that have equal rename fingerprints have equal keys, so the heuristic pairs none of them |
| BuildReplay.ScansReplay | backend/Hugin/sinks/materializer_sink.cpp:65-169 | when a second clean scan of the same root follows the first cleanly (no key collision, no path passed on except from a file that is gone to one that is no directory, alike entries without inodes only where they may be paired), the delta between the builds, heuristic on or off, replays to the load of the second |
| Paths.NormalizeIdempotent | backend/Muninn/utils/path_utils.hpp:10-12 | lexical normalisation is idempotent on all strings |
| Paths.ParentOf | backend/Muninn/utils/path_utils.hpp:18-20 | the parent of dir/name is dir, and that of /name is / |
| Paths.FilenameOf | backend/Muninn/utils/path_utils.hpp:14-16 | the file name of a joined path is the name it was joined with |
| Paths.NormalizeDrops | backend/Muninn/utils/path_utils.hpp:10-12 | empty parts, single dots, and a name with the double dot behind it can be left out of a path |
| Paths.NormalizeEnds | backend/Muninn/utils/path_utils.hpp:10-12 | at the end of a path a dot, or a name with a double dot, leaves a slash |
| Paths.NormalizeKeeps | backend/Muninn/utils/path_utils.hpp:10-12 | absolute paths of plain names are normal, with or without a slash at the end |
| Paths.NormalIsPlain | backend/Muninn/utils/path_utils.hpp:10-12 | a normalised absolute path is / or plain names behind a slash each, with or without a slash at the end |
| Paths.NormalizeRelative | backend/Muninn/utils/path_utils.hpp:10-12 | relative paths with double dots only in front are normal; behind a double dot a slash goes away |
| Glob.WildcardMatch | backend/Muninn/filesystem/filesystem_scanner.cpp:112-155 | the loop with one remembered star; true implies a match, and a match implies true when the text has no star |
| Glob.SoundAnywhere | backend/Muninn/filesystem/filesystem_scanner.cpp:125-148 | from any loop state whose star and prefix have matched, success is a match of the whole text |
| Glob.CompleteAnywhere | backend/Muninn/filesystem/filesystem_scanner.cpp:125-148 | from any such state on a text without stars, if some match exists the loop finds one, with only the last star remembered |
| Glob.AgreesIffNoStar | backend/Muninn/filesystem/filesystem_scanner.cpp:112-155 | on a text the matcher agrees with the meaning of every pattern if and only if the text has no star, in both case modes |
| Glob.PlainPattern | backend/Muninn/filesystem/filesystem_scanner.cpp:112-155 | without stars a match means equal lengths and at each place a question mark, the same character, or, when case does not count, the two cases of one ASCII letter |
| Glob.OneStarPattern | backend/Muninn/filesystem/filesystem_scanner.cpp:112-155 | a pattern with one star matches when the text starts with what is in front of it and ends with what is behind it, without overlap |
| Glob.MatchesAnyGlob | backend/Muninn/filesystem/filesystem_scanner.cpp:157-171 | true exactly when some non-empty glob accepts the path or the name |
| Glob.PlainGlob | backend/Muninn/filesystem/filesystem_scanner.cpp:157-171 | a glob without a star accepts an entry exactly when it is not empty and spells out the path or the name, a question mark standing for any character |
| Outbox.LmdbStore.EnqueueTransportRecord | backend/Muninn/storage/lmdb_store.cpp:862-898 | the record is stored under the next sequence, which moves up and wraps |
| Outbox.LmdbStore.FetchTransportBatchForConsumer | backend/Muninn/storage/lmdb_store.cpp:1080-1161 | the cursor loop returns the fetch of the tables, and changes nothing |
| Outbox.LmdbStore.AckTransportUntilForConsumer | backend/Muninn/storage/lmdb_store.cpp:1163-1203 | the stored ack becomes the greater of the two; an unknown consumer is created |
| Outbox.LmdbStore.CompactTransportUpToMinAcked | backend/Muninn/storage/lmdb_store.cpp:1205-1311 | exactly the records at or below the least ack are deleted under the cursor |
| Outbox.EnqueueIs | backend/Muninn/storage/lmdb_store.cpp:862-898 | a new record is found under the sequence that was next, which moves on by one and wraps at 2^64; nothing else changes |
| Outbox.FetchIs | backend/Muninn/storage/lmdb_store.cpp:1080-1161 | whatever is stored: a fetch returns the stored records above the consumer's ack in ascending order with their own fields, skips none, and stops short of the limit only when there are no more |
| Outbox.AckIs | backend/Muninn/storage/lmdb_store.cpp:1163-1203 | an ack raises its consumer's mark, never lowers it, and touches nothing else |
| Outbox.ReachableIsDense | backend/Muninn/storage/lmdb_store.cpp:1024-1311 | in every reachable store the keys are a dense interval ending before the next sequence, whose low end never moves back |
| Outbox.EnqueueKeepsDenseIff | backend/Muninn/storage/lmdb_store.cpp:1024-1040 | allocation keeps the interval if and only if the sequence is not 2^64-1 |
| Outbox.FetchIsInterval | backend/Muninn/storage/lmdb_store.cpp:1118-1150 | a fetch in a dense store returns the sequences right above the ack, one by one, up to the batch size |
| Outbox.FetchAboveAckIff | backend/Muninn/storage/lmdb_store.cpp:1123-1130 | in any store, exactly when a fetch returns the least keys above the ack |
| Outbox.CompactKeepsFetchIff | backend/Muninn/storage/lmdb_store.cpp:1205-1311 | compaction keeps a registered consumer's fetch if and only if its ack is not 2^64-1, or the least ack is 0, or all that is stored lies above the least ack |
| Outbox.CompactDropsIff | backend/Muninn/storage/lmdb_store.cpp:1276-1297 | a record goes exactly when there is a consumer and all have acked it |
| Retention.SnapshotStore.ApplySnapshotRetention | backend/Muninn/storage/lmdb_store.cpp:1405-1600 | keeps the `keep` greatest snapshots and the deltas between them, with exact counts, and nothing changes when there are no more than `keep` |
| Retention.SnapshotStore.DeleteSnapshot | backend/Muninn/storage/lmdb_store.cpp:1313-1403 | removes the snapshot and exactly the deltas that touch it, with exact counts and each error |
| Retention.RetainKeepsNewest | backend/Muninn/storage/lmdb_store.cpp:1477-1497 | min(keep, all) snapshots survive, and none that goes is newer under time and id than one that stays |
| Retention.PutIs | backend/Muninn/storage/lmdb_store.cpp:637-755 | what is put is found under its own key, and what is under other keys stays |
| Retention.RetainKeepsLatest | backend/Muninn/storage/lmdb_store.cpp:1477-1497 | whatever a retention deletes was created before every snapshot it keeps, or at the same time with a smaller id; exactly the deltas between kept snapshots stay |
| Retention.DeleteExactly | backend/Muninn/storage/lmdb_store.cpp:1313-1403 | a deletion removes the snapshot and exactly the deltas from it and to it |
| Retention.RetainTwice | backend/Muninn/storage/lmdb_store.cpp:1405-1600 | retaining k1 and then k2 no greater is retaining k2, deltas included |
| Retention.RunKeepsClosed | backend/Muninn/storage/lmdb_store.cpp:637-755 | with atomic steps every stored delta has both endpoints stored, in every run |
| Retention.StoreKeepsClosedIff | backend/Muninn/api/indexing_pipeline.cpp:89-140 | a store step keeps that property if and only if the base is still stored or is the snapshot itself |
| Retention.DeletedBaseDangles | backend/Muninn/api/indexing_pipeline.cpp:89-140 | after a deletion between reading the base and storing, the property holds if and only if it was not the base that was deleted, or the base is the snapshot being stored |
| Retention.RetainedBaseDangles | backend/Muninn/api/indexing_pipeline.cpp:89-140 | after a retention in between, for any number to keep, if and only if nothing was to be deleted, fewer than that many snapshots are newer than the base, or the base is the snapshot being stored |
| Retention.OldBaseDangles | backend/Muninn/main.cpp:538-545 | for every positive number to keep there is a store in which a retention breaks it |
| Bridge.ProcessRead | backend/Muninn/transport/crud_command_processor.cpp:134-185 | a read acks what it carries, if not 0, and then fetches with the batch size the options give |
| Bridge.MuninnClient.ApplyCrudResult | backend/Hugin/net/muninn_client.cpp:558-594 | the callback gets the records; if the highest sequence is above the last ack, exactly one ack of it is queued and remembered |
| Bridge.AcksHighest | backend/Hugin/net/muninn_client.cpp:558-594 | a result is acked with the highest of its sequences, once, and only when that is above the last ack |
| Bridge.MuninnClient.ScheduleReconnect | backend/Hugin/net/muninn_client.cpp:408-439 | the connection flags fall, the 32-bit attempt counter moves, and the delay is the jittered backoff of that attempt |
| Bridge.MuninnClient.StartConnect | backend/Hugin/net/muninn_client.cpp:207-216 | a running client forgets the flags and the queue of the old connection |
| Protocol.StepKeeps | backend/Hugin/net/muninn_client.cpp:558-594 | every step of the system keeps the invariant: stored acks, acks in flight and client acks are covered by what was handed over, and every batch in flight is consecutive and true to the log |
| Protocol.AckedWasHanded | backend/Muninn/transport/ws_crud_server.cpp:484-557 | in every run each sequence from a consumer's registration to its stored ack was handed to that client's callback as it was enqueued |
| Protocol.NoHoles | backend/Hugin/net/muninn_client.cpp:558-585 | below any record the callback was given, every sequence since the registration was given as well |
| Protocol.NothingIsLost | backend/Muninn/storage/lmdb_store.cpp:1080-1311 | each sequence since the registration was handed over or is still stored above the ack, compaction notwithstanding |
| Progress.Pull | backend/Hugin/net/muninn_client.cpp:392-406 | one undisturbed pull hands over exactly the next batch, and the stored ack is then the greater of what it was and the last sequence handed over |
| Progress.EverythingArrives | backend/Hugin/net/muninn_client.cpp:207-216 | from every state in order there is a run of reconnecting and pulling, without new records, after which everything since the registration was handed over |
| Ingest.InMemoryIngestStore.AppendIfAbsentAndCheckpoint | backend/Hugin/storage/in_memory_ingest_store.cpp:34-47 | the first record of a key stays, the checkpoint is the maximum, empty hosts and sequence 0 are refused |
| Ingest.MakeKeyInjective | backend/Hugin/storage/in_memory_ingest_store.cpp:7-11 | the text key identifies host and sequence, whatever characters the host has |
| Ingest.IngestCoordinator.Ingest | backend/Hugin/ingest/ingest_coordinator.cpp:38-147 | one call's whole effect on store, cache and sink and its decision, every branch |
| Ingest.IngestCoordinator.ExpectedNextSequence | backend/Hugin/ingest/ingest_coordinator.cpp:149-160 | one above the cached value, which is loaded from the checkpoint on first use |
| Ingest.IngestKeepsOrder | backend/Hugin/ingest/ingest_coordinator.cpp:38-147 | one call keeps the log exact and the sink in order, replaces no stored frame, and every decision names the checkpoint |
| Ingest.SinkSeesEachOnceInOrder | backend/Hugin/ingest/ingest_coordinator.cpp:38-147 | without overlap the sink gets each sequence above the old checkpoint once, in order, with the frame of the log |
| Ingest.AcksEveryBatch | backend/Hugin/ingest/ingest_coordinator.cpp:63-143 | whatever is sent to a fresh coordinator: the n-th commit of a host acks exactly when n is a multiple of the batch size, a duplicate always acks and a gap never does |
| Ingest.DecisionByCheckpoint | backend/Hugin/ingest/ingest_coordinator.cpp:38-147 | a sequence up to the checkpoint is a duplicate, one beyond the next a gap, an invalid frame an error, and the next valid one a commit that acks up to itself; the decision names the next sequence |
| IngestRaces.StepKeeps | backend/Hugin/ingest/ingest_coordinator.cpp:51-143 | every step of any interleaving, and a restart at any point, keeps the invariant |
| IngestRaces.LogIsSafe | backend/Hugin/ingest/ingest_coordinator.cpp:38-147 | under every interleaving a host's log is exactly 1 to its checkpoint, a frame stored at any point of the run is never replaced after it, the cached value does not exceed the checkpoint, and every acked sequence is in the log |
| IngestRaces.SinkFirstSightingsInOrder | backend/Hugin/ingest/ingest_coordinator.cpp:103-144 | within one life of the process the sink first sees a host's sequences in order, none left out |
| Serialization.SnapshotRoundTrip | backend/Muninn/domain/serialization/serialization.cpp:348-415 | within the limits, reading a written snapshot followed by anything gives it back and leaves exactly that |
| Serialization.SnapshotPrefixRejected | backend/Muninn/domain/serialization/serialization.cpp:379-415 | every strict prefix of a written snapshot is rejected |
| Serialization.DeltaRoundTrip | backend/Muninn/domain/serialization/serialization.cpp:417-557 | the same round trip for deltas |
| Serialization.DeltaPrefixRejected | backend/Muninn/domain/serialization/serialization.cpp:475-557 | every strict prefix of a written delta is rejected |
| Serialization.SnapshotExtends | backend/Muninn/domain/serialization/serialization_helper.hpp:177-266 | bytes behind an accepted snapshot change nothing but what is left, for any input |
| SerializationStreams.SerializeSnapshot | backend/Muninn/domain/serialization/serialization.cpp:348-377 | the writer produces exactly those bytes, or the error of the first limit broken in the program's order |
| SerializationStreams.DeserializeSnapshot | backend/Muninn/domain/serialization/serialization.cpp:379-415 | the reader's result is the format's reading of the stream, error codes included |
| SerializationStreams.SerializeDelta | backend/Muninn/domain/serialization/serialization.cpp:417-473 | the same for writing deltas |
| SerializationStreams.DeserializeDelta | backend/Muninn/domain/serialization/serialization.cpp:475-557 | the same for reading deltas |
| Layouts.SnapshotErrorIs | backend/Muninn/domain/serialization/serialization.cpp:348-377 | which limit a snapshot is said to break: the host first, then the number of entries, then some path or name, in numbers |
| Layouts.HeaderIff | backend/Muninn/domain/serialization/serialization.cpp:95-111 | a header is read exactly when its eight bytes are the magic and version 1.0, and any other gives one and the same error |
| Layouts.StringRead | backend/Muninn/domain/serialization/serialization_helper.hpp:227-246 | how a string is read: its length, refused above 4194304 whatever follows, and that many bytes |
| Layouts.CountRead | backend/Muninn/domain/serialization/serialization.cpp:379-415 | a snapshot that announces more than five million entries is refused before any entry is read |
| Layouts.SnapshotLayout | backend/Muninn/domain/serialization/serialization.cpp:348-377 | where each field of every snapshot stands in its file, which starts with the bytes "PNSH" and version 1.0 |
| Layouts.DeltaLayout | backend/Muninn/domain/serialization/serialization.cpp:417-473 | where each field of every delta stands in its file, which starts with "TLDH" and version 1.0, and the order of the four lists |
| Layouts.EntryLayout | backend/Muninn/domain/serialization/serialization.cpp:66-73 | where each field of an entry stands |
| Layouts.MetadataLayout | backend/Muninn/domain/serialization/serialization.cpp:28-47 | where each field of the metadata stands; a hash stands behind a 1 and a 0 stands for none |
| Layouts.SnapshotFitsIff | backend/Muninn/domain/serialization/serialization_helper.hpp:19-20 | what can be written, in numbers: strings of at most 4194304 bytes and five million entries |
| Bytes.EncodeU64Little | backend/Muninn/domain/serialization/serialization_helper.hpp:66-75 | the eight shift-and-mask bytes are the little-endian digits |
| Bytes.DecodeU64Little | backend/Muninn/domain/serialization/serialization_helper.hpp:93-104 | the shifted sum is the number that the digits denote |
| Bytes.LittleRoundTrip | backend/Muninn/domain/serialization/serialization_helper.hpp:54-104 | little-endian digits of any width that holds the number denote it |
| Bytes.BigOfFrom | backend/Hugin/common/byte_codec.hpp:13-72 | the big-endian digits of what bytes denote are those bytes |
| ByteCodec.ReadString | backend/Hugin/common/byte_codec.hpp:96-107 | the moving offset takes a length and that many bytes, or fails |
| Frames.ParseMuninnFrame | backend/Hugin/protocol/muninn_frame.cpp:31-91 | the offset loop accepts exactly what `ParseFrame` describes |
| Frames.SerializeMuninnFrame | backend/Hugin/protocol/muninn_frame.cpp:19-29 | writes the frame's bytes |
| Frames.SerializeFrame | backend/Muninn/storage/lmdb_store.cpp:101-126 | the indexer writes the same bytes, with each length as the low half of a 64-bit number |
| Frames.ParseStoredFrame | backend/Muninn/storage/lmdb_store.cpp:128-172 | the indexer's fixed-position parser reads what `ParseStored` describes |
| Frames.ParseIffSerialized | backend/Hugin/protocol/muninn_frame.cpp:19-91 | the gateway reads bytes as a frame if and only if they are the serialisation of that frame, its kind is known and its lengths fit |
| Frames.StoredIffSerialized | backend/Muninn/storage/lmdb_store.cpp:101-172 | the same for the indexer's pair, and the two parsers differ only in checking the kind |
| Frames.KindsTaken | backend/Hugin/protocol/muninn_frame.cpp:31-91 | a written frame is taken by the gateway exactly when its kind is 1 or 2, and by the indexer's own reader whatever its kind |
| Layouts.FrameLayout | backend/Hugin/protocol/muninn_frame.cpp:19-29 | where each field of a transport frame stands |
| Wire.SerializeMessage | backend/Hugin/protocol/wire.cpp:55-136 | the eight encoders and the header write the message's bytes |
| Wire.ParseMessage | backend/Hugin/protocol/wire.cpp:138-317 | the header checks and the eight payload parsers return what `Parse` describes, error codes included |
| Wire.MessageRoundTrip | backend/Hugin/protocol/wire.cpp:263-317 | all eight messages round trip when their 32-bit lengths fit |
| Wire.AcceptedIsSerialized | backend/Hugin/protocol/wire.cpp:263-317 | an accepted frame is the serialisation of its message up to the flags byte and a non-canonical `accepted` byte |
| Layouts.MessageLayout | backend/Hugin/protocol/wire.cpp:55-136 | every message starts with "LESG", version 1, the number of its kind, no flags and the length of its payload |
| Layouts.HelloLayout | backend/Hugin/protocol/wire.cpp:67-87 | where the fields of both greetings stand |
| Layouts.DataLayout | backend/Hugin/protocol/wire.cpp:89-100 | where the fields of a data message stand |
| Layouts.ReplyLayout | backend/Hugin/protocol/wire.cpp:102-136 | where the fields of acks, refusals, errors and pings stand |
| Layouts.VersionError | backend/Hugin/protocol/wire.cpp:19-53 | the version error is given exactly for twelve bytes or more with the right magic and another version |
| Base64.Base64Encode | backend/shared/crud_protocol.hpp:115-148 | the chunk loop and the two tails produce the encoding |
| Base64.Base64Decode | backend/shared/crud_protocol.hpp:150-195 | the group loop returns what `Decode` describes, padding accepted in any group |
| Base64.DecodeEncode | backend/shared/crud_protocol.hpp:115-195 | decoding an encoding gives the bytes back, for all byte strings |
| Base64.GroupBits | backend/shared/crud_protocol.hpp:150-195 | the bits of every group: four symbols of six bits are the bytes of eight bits that the padding leaves |
| Base64.DecodesIff | backend/shared/crud_protocol.hpp:150-195 | a text decodes exactly when it has whole groups of the alphabet, with padding only in the last two places of a group |
| Base64.Vectors | backend/shared/crud_protocol.hpp:115-148 | the test vectors of section 10 of RFC 4648 |
| Base64.EstimateBounds | backend/Hugin/api/frontend_api_server.cpp:251-267 | the estimate bounds the decoded size of every accepted text, and meets it exactly when only the last group is padded |
| Upload.CheckRequest | backend/Hugin/api/frontend_api_server.cpp:1100-1152 | the request loop accepts exactly when there are not too many files and each passes, path included, with the estimates before it; otherwise the verdict is that on the first file that does not |
| Upload.AllPassIff | backend/Hugin/api/frontend_api_server.cpp:1100-1152 | which requests are accepted, on the fields: not too many files, every path relative without a double dot, every length that of base64, every estimate within the file limit, and the estimates up to it within the total unless it alone exceeds the total |
| Upload.VerdictMeans | backend/Hugin/api/frontend_api_server.cpp:1115-1145 | a bad path is reported before a bad length, that before a file that is too large, and that before a total that is |
| Upload.LoopIsSafeIff | backend/Hugin/api/frontend_api_server.cpp:1131-1145 | every accepted request stays within the total limit if and only if the file limit does not exceed it or no file is allowed |
| Upload.WorkersNeverReject | backend/Hugin/api/frontend_api_server.cpp:1183-1284 | after an accepted request no interleaving of workers rejects a file for its size, and the atomic total is exact |
| Backoff.BackoffDelay | backend/Hugin/net/muninn_client.cpp:441-468 | the loop equals min(max, delay * factor^(attempt-1)) in unbounded arithmetic, without wrapping |
| Backoff.ComputeReconnectDelay | backend/Hugin/net/muninn_client.cpp:441-489 | the returned delay for any draw within the jitter span, the sum taken in signed 64 bits |
| Backoff.NormalizedIs | backend/Hugin/net/muninn_client.cpp:76-88 | options in range stay, the others take the nearest value in range, and no delay takes 250 ms |
| Backoff.DelayMonotone | backend/Hugin/net/muninn_client.cpp:451-468 | a later attempt never waits less before jitter |
| Backoff.JitterWithinPercent | backend/Hugin/net/muninn_client.cpp:470-488 | the jittered delay is at least 1, and within the percentage of the delay when the greatest draw does not overflow, as whenever delay * 100 fits in 64 bits |
| Backoff.NoDrawOverflowsIff | backend/Hugin/net/muninn_client.cpp:479-484 | no draw overflows the signed sum if and only if delay plus span does not |
| Backoff.SpanExactIff | backend/Hugin/net/muninn_client.cpp:474-477 | the span is the rounded percentage if and only if the product fits in 64 bits |
| SendQueue.WebsocketSession.SendFrame | backend/Hugin/api/frontend_api_server.cpp:558-604 | the new state is that of `Send` under the session's policy, within the limits |
| SendQueue.WebsocketSession.WriteCompleted | backend/Hugin/api/frontend_api_server.cpp:652-666 | the new state is that of `OnWrite`, within the limits |
| SendQueue.EveryRun | backend/Hugin/api/frontend_api_server.cpp:558-666 | in every run and under every policy the byte count is the sum of the queue and the limits hold; unless the oldest is dropped, at most one write is under way and frames leave in order |
| SendQueue.OrderedIff | backend/Hugin/api/frontend_api_server.cpp:558-666 | at most one write under way and frames in order in every run if and only if the policy is not to drop the oldest or the queue has no room at all |
| SendQueue.SendExactly | backend/Hugin/api/frontend_api_server.cpp:558-604 | a frame within both limits joins the end of the queue whatever waits; beyond them only the policy that drops the oldest changes anything |
| SendQueue.DropOldestOverlaps | backend/Hugin/api/frontend_api_server.cpp:573-588 | under the policy that drops the oldest, for any limits and any frame they admit, a run of three sends has two writes under way |
| MessageValidator.ValidateAndDecode | backend/Hugin/ingest/message_validator.cpp:38-110 | decoding, validation, host check and routing key, with each error code |
| MessageValidator.RouteMatchesIff | backend/Hugin/ingest/message_validator.cpp:11-34 | the routing key that the indexer prints for a delta matches a decoded delta if and only if both have the same ends |
| MessageValidator.StoullReads | backend/Hugin/ingest/message_validator.cpp:20-24 | how a number in a key is read: spaces, a sign, digits up to the first other character; none or too large is an error and a minus negates modulo 2^64 |
| MessageValidator.FindArrowIff | backend/Hugin/ingest/message_validator.cpp:13-16 | the arrow is found where it first stands |
| MessageValidator.SnapshotTakenIff | backend/Hugin/ingest/message_validator.cpp:43-82 | the indexer's frame of a snapshot is decoded unchanged if and only if the validator accepts the snapshot and its host is the expected one |
| MessageValidator.SnapshotTakenWithKeyIff | backend/Hugin/ingest/message_validator.cpp:43-82 | with any routing key a frame of a snapshot is taken exactly when the snapshot is accepted, of the expected host if one is expected, and the key is empty or that host |
| MessageValidator.DeltaTakenIff | backend/Hugin/ingest/message_validator.cpp:84-110 | the indexer's frame of a delta is decoded unchanged if and only if the delta is sound by itself |
| MessageValidator.DeltaTakenWithKeyIff | backend/Hugin/ingest/message_validator.cpp:84-110 | a sound delta under the key of given ends is taken exactly when those are its own, and under a key without an arrow never |
| MessageValidator.CutPayloadIsRefused | backend/Hugin/ingest/message_validator.cpp:43-54 | a snapshot payload that is cut short anywhere is a parse error, whatever the other fields of the frame |
| EndToEnd.IngestTakesIff | backend/Hugin/ingest/ingest_coordinator.cpp:86-95 | the same for the raw frame of a snapshot on the ingest path |
| EndToEnd.OnCrudResult | backend/Hugin/main.cpp:604-650 | the callback decodes, validates and applies the records one by one and skips what it does not understand |
| Pipeline.IndexingPipeline.PutSnapshotAndDeltaWithTransport | backend/Muninn/storage/lmdb_store.cpp:637-755 | one transaction stores both and enqueues the target snapshot and then the delta; a limit of the format stops it before anything is stored |
| Pipeline.IndexingPipeline.CaptureSnapshotAndDelta | backend/Muninn/api/indexing_pipeline.cpp:62-151 | how an update ends, in the order of the checks: invalid snapshot, base missing or invalid, invalid delta, no change, too large, or stored; only the last changes the store |
| Pipeline.IndexingPipeline.CaptureSnapshot | backend/Muninn/api/indexing_pipeline.cpp:21-60 | the same for a full capture |
| Pipeline.CapturedHeader | backend/Muninn/api/indexing_pipeline.cpp:21-60 | a captured snapshot has the time and host of its scan and is named by the digest of the rest, with 1 in place of 0 |
| Pipeline.DeltaNeverInvalid | backend/Muninn/api/indexing_pipeline.cpp:99-117 | no update ends because its own delta is unsound |
| Pipeline.UnchangedIff | backend/Muninn/api/indexing_pipeline.cpp:62-151 | an update of sound snapshots ends as unchanged exactly when ids, paths, types and metadata agree with the base, and otherwise stores unless the format cannot hold it |
| EndToEnd.DeltaAppliedIff | backend/Hugin/sinks/materializer_sink.cpp:74-97 | behind its target snapshot a delta finds a host state to be applied to if and only if its base has the target's id or another host shows the base |
| EndToEnd.UpdateHandled | backend/Hugin/main.cpp:604-650 | what the gateway makes of the two records of an update: otherwise the state is the load of the target and nothing else changes, and for different ids the captured host shows the target whatever the delta says |
| EndToEnd.RenamedHostReplaysIff | backend/Hugin/sinks/materializer_sink.cpp:74-169 | when the host has changed its name, the delta reaches the state under the old name, whose maps become those of the target if and only if the pair is replayable |
| EndToEnd.StreamHandled | backend/Hugin/main.cpp:604-650 | over any captures of any hosts in which no delta meets its base, the gateway holds the loads of the snapshots in their order |
| EndToEnd.RunEnqueues | backend/Muninn/storage/lmdb_store.cpp:719-746 | what a run of captures puts in the outbox is exactly the stream of its snapshots, each update's delta right behind its target |
| EndToEnd.GatewayShowsLastCapture | backend/Hugin/main.cpp:604-650 | from the outbox of any run of captures of one host, in which no base is its own target, the gateway ends up with the load of the last captured snapshot and no other change |
| EndToEnd.PairShowsTargetIff | backend/Hugin/main.cpp:604-650 | the callback given the record of an accepted base and then that of the delta to an accepted target, which no capture enqueues: the host's maps are those of the target if and only if the pair is replayable |
| EndToEnd.PairShowsSecondScan | backend/Hugin/main.cpp:604-650 | the callback given such a pair from two scans, the second of which follows the first cleanly: the state is what loading the second build gives |

## Left out

- LMDB itself: transactions are atomic maps, a cursor is a least-key search, and a store never fails for reasons of I/O.
- The records in the outbox are kept as values; that their stored frames parse back is proved in `Frames`.
- The real filesystem: scanning, `stat`, canonical paths and symbolic links; a scan result is an input.
- Paths follow the POSIX reading of `std::filesystem` on byte strings; root names and a leading double slash are treated as a plain root.
- The FNV hash and the hash that names a snapshot are function parameters; every result holds for any hash, and `Builder.Build` assumes that each probe it makes on the scan ends, which is when the program's loop ends.
- BuildReplay.ScansReplay: a sufficient condition on scans and hash; the exact condition is `Replayable`, on the snapshots and the delta.
- EndToEnd.GatewayShowsLastCapture: the records are handled once and in order, as the client gets them in an undisturbed session; redelivery after a reconnect and compaction are in `Protocol` and `Progress`, not here.
- `std::sort` is any sorted permutation, `std::unordered_map` and LMDB iteration orders are arbitrary where a loop does not depend on them.
- Validators.GraphPass: for graphs with a cycle, which are errors anyway, the depth warning is only said to mean a long walk.
- The text of messages and diagnostics; the clock is a parameter.
- Materializer.MaterializerSink.ApplyDelta: the mutex is not modelled, since every call holds it from start to end.
- MaterializerSink queries besides `list_children` (`root_path`, `latest_host_id`, the last ids): simple reads.
- Protocol.AckedWasHanded: assumes one client per consumer id, and that a command carries ack 0 or the client's own last ack; acks that a frontend makes up are not modelled.
- Hello rejection, tokens, security modes and access roots: policy; a rejected hello is a connection that breaks.
- The create, update and delete commands appear in the protocol as replies with or without a fetch; their effect on the outbox is the enqueue step.
- Sequence numbers stop before 2^64-1 in the protocol; `Outbox.EnqueueKeepsDenseIff` says what happens there.
- Ingest.IngestCoordinator.Ingest: the sink's own failures only change a reason text, which is left out; validation of a frame is a function parameter.
- The persistent ingest store behaves as the in-memory one and is not modelled on its own.
- JSON, data transfer objects, HTTP routing, metrics, logging and command-line parsing.
- Upload.CheckRequest: items are taken as parsed, each with a path and a content.
- Backoff.ComputeReconnectDelay: signed overflow, which the language leaves open, is taken as wrapping.
- EndToEnd.OnCrudResult: the broadcast of the result to frontends.
- Upload.WorkersNeverReject: leaves out the file writes that follow the size checks, and the access roots.
- SendQueue.WebsocketSession.SendFrame: sizes are unbounded integers, as the sum of a queue and a frame in memory does not reach 2^64.
- Bit operations of the codecs are written as division and remainder.
- The command load balancer, the forwarder sink, the server stub and the web frontend: simple queues, stubs and user interface.
