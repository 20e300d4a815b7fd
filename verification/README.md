# Verified model of omemfs

omemfs is a content-addressed sync tool: it scans a working tree, stores blobs as
compressed and possibly encrypted chunk objects, describes directories as Merkle trees,
and keeps a STAT_CACHE so that unchanged files need not be read again. This project
models its hard parts in Dafny and proves what they promise.

* **STAT_CACHE and its seals.** `CacheSpec` gives every cache operation as a function on
  values, `CacheOps` the class that performs them in place. `SealProtocol` is a transition
  system in which one push, any number of lock-free read-only scans and losses of objects
  interleave step by step; its theorems range over all runs. `SealLaws` says what seals are worth
  and what every write leaves in the file, path by path. `Sampling` holds the sampling
  arithmetic, `CacheFormat` the printer, the full parser and the binary-searching scoped
  parser, `RacyClean` the timing argument behind trusting an mtime, in the cache and in a
  published clone root, `Provenance` where entries come from, `ScanJob` the three ways a
  file is resolved.
* **Filters.** `Glob` and `FilterLoad`: the greedy matcher against the declarative rule,
  scoped against full loading.
* **Line merge.** `LineRecords`, `LineOrder`, `LineMerge`, `MergeResult`, `MergeReadBack`:
  record splitting, segments against the edit scripts, conflict, conservation, order, and
  which inputs can be read back.
* **Objects.** `ObjectCodec`, `ChunkStore`, `ChunkOps`: tags, compression, chunking, two
  writers, one reader and the cached-blob check.
* **Trees.** `Trees`, `TreeEdit`, `TreeLaws`, `TreeUndo`, `TreeFlatten`, `TreeTotals`,
  `TreeCache`, `TreeOps`: navigation, splice and remove over a hash-addressed store, what they
  keep at all depths, flattening, totals over leaves, and what the in-process tree cache
  changes over whole runs.

`dafny verify dfyconfig.toml` checks everything.

## Assumptions

* The digest is a function parameter. Laws that need it to be collision-free ask for this
  on the finite set of byte strings involved (`Apart`), never on all strings.
* zstd and AES-256-GCM are pairs of functions that undo themselves; FastCDC is any function
  that cuts bytes into consecutive non-empty pieces, the same for the in-memory and the
  streaming chunker; the Myers diff is any valid edit script; JSON is a text format that
  parses back what it printed.
* `random_seal_epoch` returns a non-zero value never drawn before.
* Of several pieces the first has at least two bytes where reading back is claimed
  (`CutsEscape` says exactly what goes wrong otherwise); FastCDC's minimum is 1 MiB.
* No tree contains itself (`Ranked`): a parent's hash is computed from its children's.
* Time is an integer clock in nanoseconds that never runs backwards.
* Clone roots come from scans of the same run; a root pulled from another machine is outside
  the timing model. An answer is sound if it goes back to a read without passing through a root
  that was dated too early (not calm: its mtime plus the stamping slack reaches the moment the
  dating scan looked). Entries recorded after a read are right without any such condition. That
  the cached and adopted answers in question are sound is assumed by
  `RacyClean.SoundHitsAreTruthful` and `ScanJob.CacheKeepsItsPromises`, and that all roots are
  calm by `RacyClean.HitsAreTruthful`; the source ensures neither. `ScanJob.ProcessFileJob`
  takes the truth of its cache and clone root as given.

## Where the source does less than it says

* `encode_v1` checks the path cursor but casts the section offsets to 32 bits unchecked, so a
  file with a larger data offset is written and does not read back
  (`CacheFormat.ReadsBackExactly`).
* A loss of `objects/` during an epoch-rotating push, after it began its first file job and
  before it drew the new epoch, can end in trusted false seals
  (`SealProtocol.LossIsHarmlessExactly`).
* Push publishes the entries of recently modified files as clone root unchanged, and
  `can_skip_hash` judges only how old the mtime is at the next scan. A file rewritten under the
  published date is then taken for the old one without being read, and the wrong hash is
  recorded as a safe cache entry, whatever the stamping slack (`RacyClean.RacyRootDeceives`).
  A root never goes stale, and skipping the hash for it is safe, exactly when its mtime plus
  the slack lies before the moment the publishing scan looked (`RacyClean.NeverStaleExactly`,
  `RacyClean.SkippingIsSafeExactly`, `RacyClean.AdoptionsTruthfulExactly`).
* A clone-root entry without a date matches any file dated before 1970 of the same size, so for
  those files a root that is right about dated files is not enough
  (`ScanJob.DatedTruthSufficesExactly`).
* A merged history can fuse two records; a side is safe exactly when it does not end in a
  dangling backslash (`MergeReadBack.LocalSafeExactly`, `MergeReadBack.RemoteSafeExactly`).
* Scoped filter loading reads filters inside the reserved directories that the full walk
  skips; the two agree exactly for scopes that avoid them (`FilterLoad.ScopedAgreesExactly`).
* A scoped flatten through a blob fails instead of returning an empty map
  (`TreeFlatten.ScopedExactly`).
* The in-process tree cache hands out trees without checking their names. Over any run of loads,
  builds, splices, removals and flattens it goes unnoticed exactly when every tree built while
  it was on had valid names (`TreeCache.CacheUnnoticedExactly`); one splice with a cache that
  holds no such tree succeeds instead of failing exactly when a name behind the first is
  invalid and its path can be navigated (`TreeCache.CacheChangesSplice`).

## Model

| member | source | states |
|---|---|---|
| `SealProtocol.SealSafety` | src/stat_cache.rs:426-444 | over every run of pushes, scoped pushes, recoveries and read-only scans with separate re-read and write steps: when the on-disk epoch is non-zero and equals the marker, every SEALED entry is fully cached; whole losses of `objects/` are allowed, during a push too, wherever they are harmless |
| `SealProtocol.InvStep` | src/stat_cache.rs:531-543 | every enabled step of push, reader, recovery, object arrival or harmless loss keeps the invariant that ties file, marker, objects, in-memory caches and re-read snapshots together |
| `SealProtocol.TrustIsEarned` | src/scan.rs:1332-1515 | what a push accepts on trust is there: while the marker file exists, every file taken by a trusted scan and every seal it still holds is fully cached |
| `SealProtocol.LossIsHarmlessExactly` | src/stat_cache.rs:426-444 | losing the whole directory, between or inside file jobs, is survived by every continuation if and only if no epoch-rotating push has a file job begun, or a blob verified, that it has not yet finalized |
| `SealProtocol.LossBreaksRotation` | src/stat_cache.rs:531-543 | the counterexample behind the only-if: the torn jobs finish, the push applies, rotates and writes, and trusted seals name lost blobs |
| `SealProtocol.SealRecovery` | src/stat_cache.rs:237-270 | from an arbitrary, possibly lying disk and whatever is lost on the way: a push that withholds trust never skips its write, and every seal in the file it leaves, in scope or not, is one it wrote or verified itself; if nothing was lost meanwhile, all are true |
| `SealProtocol.ApplySeals` | src/scan.rs:408-435 | applying a batch seals exactly the reported files under their reported hashes and leaves every other entry alone |
| `Provenance.EntriesAreRecorded` | src/scan.rs:408-435 | over every run, losses and merges included, each entry of the file and of the push's cache is, its seal aside, one of the first file's or one a scan reported |
| `SealLaws.SealsAreWorthHaving` | src/stat_cache.rs:426-444 | over every run of undisturbed pushes and recoveries, from any disk: with file and marker as the last push left them, the next push with a clean sample trusts its cache, asks for no new epoch, and holds exactly the entries in its scope, seals included |
| `SealLaws.QuietPushWritesNothing` | src/stat_cache.rs:176-182 | a push that holds trust and finds every file sealed leaves file and marker as they are |
| `SealLaws.PushKeepsTheRest` | src/stat_cache.rs:237-270 | over the run of a push: whatever its cache holds is in the file afterwards, and any other path is there exactly if it was, unchanged or, if trust was withheld, unsealed |
| `SealLaws.OutsideSurvives` | src/stat_cache.rs:237-270 | a push whose jobs stay in its scope keeps every entry outside it, the seal too unless it withheld trust |
| `SealLaws.PushLeaves` | src/scan.rs:442-470 | a full push's apply, finalize and write steps leave the file and the marker the three calls leave |
| `SealLaws.RereadSurvives` | src/stat_cache.rs:237-270 | whoever writes meanwhile, a scoped push drops nothing its re-read saw, and keeps that epoch unless it withheld trust |
| `SealLaws.ReaderWritesItsChanges` | src/stat_cache.rs:191-206 | over the run of a read-only scan: every entry that differs from what it loaded is in the file afterwards, every path it did not change and the epoch are as its re-read saw them |
| `SealLaws.ReaderRecords` | src/scan.rs:408-435 | a read-only scan records a miss as observed and without a seal, a hit not at all, and touches no other path |
| `SealLaws.RecoveryKeepsEntries` | src/commands/push.rs:956-970 | a recovery keeps every entry, without its seal, and the epoch |
| `CacheSpec.TimeParts` | src/stat_cache.rs:980-993 | seconds and nanoseconds recompose the instant, with the nanoseconds in [0, 10^9) also before the epoch |
| `CacheSpec.Lookup` | src/stat_cache.rs:285-303 | a hit is exactly a safe entry whose size and mtime equal the file's, read as one instant |
| `CacheOps.StatCache.Read` | src/stat_cache.rs:115-153 | a fresh cache holds the file's entries, or those at or below a non-empty scope, its epoch, and no trust, and is neither dirty nor changed |
| `CacheOps.StatCache.Update` | src/stat_cache.rs:311-341 | the entry says what was observed and is unsafe exactly for a file less than three seconds old then; no other path is touched; dirty and changed exactly on a genuine difference |
| `CacheOps.StatCache.MarkSealed` | src/stat_cache.rs:348-358 | the seal flips, and cache and path count as changed, only for an existing unsealed entry |
| `CacheOps.ClearSeals` | src/stat_cache.rs:363-375 | every seal is cleared, nothing else changes, and the result says whether there was one |
| `CacheOps.StatCache.ClearAllSealed` | src/stat_cache.rs:363-375 | the same on the object, dirty exactly when a seal was cleared |
| `CacheOps.StatCache.ComputeSealsTrusted` | src/stat_cache.rs:426-444 | trust exactly when the epoch is real, the marker holds it and the sample is clean, and then no entry changes; a new epoch is asked for exactly when it does not hold it; withheld trust clears every visible seal and is remembered; a bad sample is a real miss, a clean one vouches for its blobs |
| `CacheOps.StatCache.FinalizeSealEpoch` | src/stat_cache.rs:531-543 | a rotation adopts the new epoch, dirties the cache and writes the marker; without a mismatch nothing happens |
| `CacheOps.StatCache.WriteIfDirty` | src/stat_cache.rs:176-182 | the file becomes the cache exactly when it is dirty |
| `CacheOps.StatCache.WriteScopedMerge` | src/stat_cache.rs:237-270 | path by path: what the cache holds is in the file, any other entry survives, unsealed only if seals were invalidated; so for the epoch |
| `CacheOps.StatCache.WriteReadonlyMerge` | src/stat_cache.rs:191-206 | path by path: a changed entry is this cache's, every other entry and the epoch are the file's |
| `CacheOps.StatCache.ApplyScanned` | src/scan.rs:408-435 | at every path of a batch: a miss is recorded as observed, a verified hit sealed, any other hit left alone; no other path is touched; in any order the batch function of the protocol |
| `CacheOps.StatCache.Refresh` | src/scan.rs:442-470 | apply, rotate, write: the file and marker each mode leaves behind |
| `CacheOps.ApplyStep` | src/scan.rs:408-435 | one file of a batch commutes with the rest, so the order of application is immaterial |
| `Sampling.SamplesRise` | src/stat_cache.rs:478-521 | neighbouring samples are at least 1 and at most ceil((n-1)/(s-1)) apart |
| `Sampling.SampleEnds` | src/stat_cache.rs:478-521 | the first and the last sealed entry are sampled, a single sample is the first |
| `Sampling.SamplesIncrease` | src/stat_cache.rs:478-521 | later samples have strictly larger positions |
| `Sampling.RunHoldsSample` | src/stat_cache.rs:478-521 | every run of gap-many neighbours contains a sample |
| `Sampling.GapIsLeast` | src/stat_cache.rs:478-521 | no smaller gap would do: neighbouring samples stay within `g` exactly for `g` at or above it |
| `Sampling.CountedCheck` | src/stat_cache.rs:561-596 | the cached-blob check with its probe count: exact, and one probe per object looked at |
| `Sampling.ProbesCount` | src/stat_cache.rs:561-596 | what a check costs: the object and all chunks of a cached blob, otherwise all up to the first missing one |
| `Sampling.ProbeSamples` | src/stat_cache.rs:478-521 | a miss is real, the first sample and every one before which the budget cannot be spent are checked, and the cost stays below the budget plus one blob |
| `Sampling.SampleVerify` | src/stat_cache.rs:478-521 | the same for the sorted sealed entries of a cache, the budget being eight probes for each that may be sampled, in 64-bit arithmetic |
| `Sampling.LostRunCaught` | src/stat_cache.rs:478-521 | a clean verdict on blobs of at most eight probes, with a limit below 2^61, excludes the loss of any gap-long run of sealed entries |
| `CacheFormat.EncodeV1` | src/stat_cache.rs:653-722 | the bytes are the declarative layout of the path-sorted entries; the error is exactly an overflowing path cursor |
| `CacheFormat.EncodeIndex` | src/stat_cache.rs:653-722 | the checked 32-bit cursor writes each path's offset and length or stops at the overflow |
| `CacheFormat.ParseV1` | src/stat_cache.rs:728-809 | the loop computes the declarative parse of any bytes, malformed ones included |
| `CacheFormat.ParseLayout` | src/stat_cache.rs:728-809 | round trip: a layout whose data offset fits in 32 bits parses to exactly its entries and epoch |
| `CacheFormat.ReadsBackExactly` | src/stat_cache.rs:653-722 | what the printer accepted reads back if and only if the data offset fits in 32 bits; the printer does not check this |
| `CacheFormat.AcceptedButLost` | src/stat_cache.rs:653-722 | such caches exist: 2^20 different paths of 4095 bytes are printed and not read back |
| `CacheFormat.RecordRoundTrip` | src/stat_cache.rs:653-722 | one 56-byte record decodes to the entry it came from, negative seconds and both flags included |
| `CacheFormat.RecordFields` | src/stat_cache.rs:653-722 | where a record holds what: big-endian numbers, the hash, the two flags in the last byte |
| `CacheFormat.SectionsAligned` | src/stat_cache.rs:653-722 | the paths follow the index at once, the data the paths at the next multiple of eight |
| `CacheFormat.HeadParsesExactly` | src/stat_cache.rs:728-809 | a header is accepted if and only if it is the printed one of sections that lie inside the file, the two reserved words aside |
| `CacheFormat.CollectExactly` | src/stat_cache.rs:728-809 | nothing is read if some readable path is not UTF-8, otherwise of every readable path its last entry |
| `CacheFormat.Utf8Exactly` | src/stat_cache.rs:728-809 | a text counts as UTF-8 if and only if it spells out Unicode scalar values in shortest form |
| `CacheFormat.LowerBound` | src/stat_cache.rs:814-955 | binary search over the index: the first entry not below the key, for every ascending index |
| `CacheFormat.ScopeBounds` | src/stat_cache.rs:814-955 | every in-scope path lies between the prefix and the prefix with its last byte incremented |
| `CacheFormat.ParseV1Scoped` | src/stat_cache.rs:814-955 | on every ascending file the scoped parse is the full parse restricted to the scope, with the same epoch |
| `CacheFormat.LayoutAscending` | src/stat_cache.rs:653-722 | printed files are ascending, so the scoped parser is exact on them |
| `RacyClean.ReadEntriesAreTruthful` | src/stat_cache.rs:1000-1007 | in every run of writers, clock and scans with torn reads, late recording and clone roots published by those scans and adopted under `can_skip_hash`, if writes stamp within two seconds of the clock: whatever roots were published, an entry a scan recorded after reading the file gives the hash of the current content whenever it hits, however long after |
| `RacyClean.ReadsTruthfulExactly` | src/stat_cache.rs:1000-1007 | over all runs, the three-second rule keeps entries recorded after a read right if and only if stamps stay within two seconds |
| `RacyClean.SoundHitsAreTruthful` | src/stat_cache.rs:311-341 | in every such run, whatever else was published: every entry that hits and every calm root with the file's date and size is right, if its answer goes back through hits and calm roots to a read |
| `RacyClean.HitsAreTruthful` | src/scan.rs:1393-1434 | about adopted and cached answers too: if all published roots were calm, every entry that hits, and every root with the file's date and size, gives the hash of the current content |
| `RacyClean.LaterStampsDeceive` | src/stat_cache.rs:1000-1007 | with one nanosecond more slack a run exists in which an entry recorded after a read hits and lies |
| `RacyClean.TruthfulExactly` | src/stat_cache.rs:311-341 | for hits of any origin in runs with calm roots, the rule is right if and only if stamps stay within two seconds |
| `RacyClean.StepKeeps` | src/scan.rs:1436-1515 | every event, publishing included, keeps the invariant between scans in progress, published roots and the file, for every slack |
| `RacyClean.StepTells` | src/scan.rs:1332-1515 | every event, whatever is published, keeps sound answers, sound entries and sound calm roots right |
| `RacyClean.NeverStaleExactly` | src/commands/push.rs:124-183 | a root that a reading scan published is right whenever it has the file's date and size, in every run whatever else is published, if and only if its mtime plus the slack lies before the scan's observation |
| `RacyClean.RacyRootDeceives` | src/scan.rs:1393-1434 | for every mtime, observation and slack that fail this, a run in which the root goes stale, is adopted by a later scan and is recorded as a safe entry that hits and lies |
| `RacyClean.SkippingIsSafeExactly` | src/scan.rs:1630-1661 | wherever `can_skip_hash` accepts such a root its hash is the file's, in every run, if and only if the same condition holds |
| `RacyClean.AdoptedEntriesAreTruthful` | src/scan.rs:1393-1434 | an entry recorded from a root that a calm reading scan published is right whenever it hits, in every run and for every slack |
| `RacyClean.AdoptionsTruthfulExactly` | src/scan.rs:1393-1434 | for each mtime and observation of the reading scan that published the root: entries recorded from it are right in every run if and only if the same condition holds |
| `ScanJob.ProcessFileJob` | src/scan.rs:1332-1515 | with a truthful cache and clone root, whichever of the three branches answers and whatever the file's date, the tree entry is the one reading and hashing gives, dated like the clone root's blob of that hash if that has a date and like the file otherwise; the cache or the clone root answers exactly where it may; with blob writing the recorded hash is fully cached afterwards; a read-only job leaves the store alone |
| `ScanJob.TouchingChangesNothing` | src/scan.rs:1683-1688 | where the clone root has a dated blob with the file's hash, two jobs that differ only in the file's mtime give the same entry |
| `ScanJob.UsableCacheEntry` | src/scan.rs:1357-1391 | a cache entry is used exactly if it is safe and has the file's size and mtime and, when writing blobs, has a trusted seal or a fully cached blob; then its hash is the file's |
| `ScanJob.UsableRootEntry` | src/scan.rs:1393-1434 | the clone root is used exactly for a blob of the file's size and date, the file being three seconds old and, when writing, the blob fully cached; then it equals reading, mtime included |
| `ScanJob.Capture` | src/scan.rs:1449-1472 | reading yields the logical hash and, when writing, a store in which it is fully cached |
| `ScanJob.FallbackIsRead` | src/scan.rs:1630-1661 | where the hash may be skipped, the fallback gives the entry reading gives, stable mtime included, if and only if the root's hash is the file's |
| `ScanJob.UndatedFilesDeceive` | src/scan.rs:1782-1787 | a root that is right about dated files is not enough before the epoch: undated files of equal size are taken for each other |
| `ScanJob.DatedTruthSufficesExactly` | src/scan.rs:1630-1661 | for all clone roots that are right about dated files, skipping the hash gives the entry reading gives if and only if the file is dated at or after the epoch |
| `ScanJob.PublishedRootIsTruthful` | src/scan.rs:1393-1434 | a clone root whose matching entry was published, calm and from a sound answer, in a run of the timing model is what the fallback needs |
| `ScanJob.JobPublishesItsEntry` | src/scan.rs:1664-1688 | the entry a job gives is the root the timing model publishes for it, date included |
| `ScanJob.RecordIsSound` | src/scan.rs:1332-1515 | the record a job returns meets what the seal protocol demands of its scan steps, in both modes |
| `Glob.MatchesByPieces` | src/filter.rs:120-157 | the declarative rule, each star any slash-free string, in terms of the literal pieces |
| `Glob.LiteralMatches` | src/filter.rs:120-157 | without a star only the text itself matches |
| `Glob.StarMatches` | src/filter.rs:120-157 | the first star stands for exactly the texts without a slash |
| `Glob.LeftmostIsBest` | src/filter.rs:120-157 | if any occurrence of a piece leads to a match, the leftmost one does, also for pieces containing slashes |
| `Glob.GlobMatch` | src/filter.rs:120-157 | the greedy loop accepts exactly the names the declarative rule accepts |
| `Glob.MatchPattern` | src/filter.rs:79-115 | an unanchored pattern matches exactly when some suffix at a component boundary does, an anchored one when the whole path does |
| `Glob.UnanchoredLaw` | src/filter.rs:79-115 | an unanchored pattern matches exactly the path or what follows one of its slashes |
| `Glob.DoubleStarLaw` | src/filter.rs:79-115 | a leading double star changes nothing |
| `Glob.AnchoredLaw` | src/filter.rs:79-115 | an anchored pattern matches the whole path |
| `Glob.MatchSection` | src/filter.rs:171-179 | the last matching pattern decides, by its negation |
| `Glob.SectionLaw` | src/filter.rs:171-179 | a further pattern decides if it matches, and changes nothing otherwise |
| `FilterLoad.ScopedAnswersLikeFull` | src/filter.rs:268-322 | for every tree, every scope off the reserved names and every path at or below it, scoped and full loading agree on ignored, aggregated and line-merged, ignored ancestors included |
| `FilterLoad.ReservedScopeDiffers` | src/filter.rs:385-426 | for every scope through a reserved name, at any depth, a tree and a path on which the two loads differ |
| `FilterLoad.ScopedAgreesExactly` | src/filter.rs:268-322 | scoped and full loading agree for all trees, paths and kinds if and only if the scope has no component `.omemfs` or `.omemfs-filter` |
| `FilterLoad.CollectIsSpine` | src/filter.rs:385-426 | the full walk answers for a path like the filters on its own spine |
| `FilterLoad.IgnoredIsNotEntered` | src/filter.rs:385-426 | nothing is loaded from a directory that is reserved or that a filter loaded before ignores, nor from below one |
| `FilterLoad.ScopedIsSpine` | src/filter.rs:268-322 | so does the scoped load |
| `FilterLoad.StripIsDrop` | src/filter.rs:352-371 | stripping a directory prefix as text is dropping its components |
| `FilterLoad.FilterSet.Test` | src/filter.rs:352-371 | true exactly when some loaded filter that covers the path matches it relative to its directory |
| `FilterLoad.AnswersBySection` | src/filter.rs:324-351 | each question is put to its own section of the filters whose directory the path is below |
| `FilterLoad.FilterSet.LoadFilterFile` | src/filter.rs:376-383 | a directory's own filter is appended, if any |
| `FilterLoad.FilterSet.CollectFilterFiles` | src/filter.rs:385-426 | the walk that prunes by what is loaded so far, pushing onto the shared list |
| `FilterLoad.FilterSet.Load` | src/filter.rs:250-254 | the full load |
| `FilterLoad.FilterSet.LoadScoped` | src/filter.rs:268-322 | the scoped load: ancestors one by one, then the scope's own subtree |
| `FilterLoad.ComponentsOfJoin` | src/filter.rs:268-322 | a scope string names exactly the components it was joined from |
| `LineRecords.SplitLines` | src/line_merge.rs:89-132 | the two-pass splitter computes the records of a file: a newline ends one unless it follows a backslash and is not the last byte |
| `LineRecords.JoinSplit` | src/line_merge.rs:137-143 | joining what was split gives the file back, with a newline added only where a non-empty file lacked its last one |
| `LineRecords.SplitCanonical` | src/line_merge.rs:89-132 | records of a file have only escaped newlines inside, and none but the last ends in a backslash |
| `LineRecords.SplitJoin` | src/line_merge.rs:137-143 | splitting undoes joining exactly for such lists |
| `LineMerge.AggregateSegments` | src/line_merge.rs:184-251 | for any valid edit script: the segments tile the base, rebuild the other side, never put two changes side by side, and keep, rewrite and add exactly what the operations do |
| `LineMerge.KeptExactly` | src/line_merge.rs:184-251 | a base position is kept exactly when an equal operation of the script covers it |
| `LineMerge.ChangesAreRuns` | src/line_merge.rs:184-251 | the change segments are exactly the maximal runs of the other operations |
| `LineMerge.RewrittenExactly` | src/line_merge.rs:184-251 | a base position is rewritten exactly when it lies in a maximal run that adds a record |
| `LineMerge.WrittenExactly` | src/line_merge.rs:308-314 | what the segments write is what the operations add, in script order |
| `LineMerge.HasConflict` | src/line_merge.rs:263-279 | conflict exactly when some base record is replaced with content on both sides |
| `LineMerge.MarkKept` | src/line_merge.rs:283-304 | a position is marked exactly when a kept run covers it |
| `LineMerge.PolicyASurvivors` | src/line_merge.rs:283-304 | the base records at least one side kept, in base order |
| `LineMerge.ChangedOtherLines` | src/line_merge.rs:308-314 | what a side wrote, in order |
| `LineMerge.SideIsKeptPlusWritten` | src/line_merge.rs:184-251 | each side is, as a multiset, what it kept plus what it wrote |
| `MergeResult.Merge` | src/line_merge.rs:39-77 | conflict exactly when runs of both scripts replace some base record with content; otherwise the joined base records an equal operation of either script covers, then what local's and remote's scripts add, stably sorted if any record has a timestamp |
| `MergeResult.MergeConserves` | src/line_merge.rs:39-77 | a clean result holds, as a multiset, exactly the base records an equal operation of either script covers plus what each script adds; no record of either side occurs less often |
| `MergeResult.MergeOrder` | src/line_merge.rs:39-77 | timestamp mode sorts by key and keeps the gathered order among equal keys |
| `MergeResult.MergedByTime` | src/line_merge.rs:56-74 | for every valid problem: records without a timestamp come first, the others by time; records of one time stay as in the base, then local, then remote |
| `MergeResult.MissingWasGivenUp` | src/line_merge.rs:263-304 | a record that occurs less often in a clean result than in the base was deleted or replaced by both scripts at one of its positions, with content by at most one |
| `MergeResult.AbsentWasGivenUp` | src/line_merge.rs:263-304 | a base record absent from a clean result was so at every position |
| `MergeResult.SideIsKeptPlusAdded` | src/line_merge.rs:184-251 | a side is, as a multiset, the base records its script's equal operations cover plus what it adds |
| `MergeResult.MergeSymmetric` | src/line_merge.rs:263-279 | exchanging the sides neither makes nor removes a conflict and merges the same records |
| `MergeResult.DeletionNeverConflicts` | src/line_merge.rs:263-279 | a side that only keeps and deletes never conflicts |
| `MergeResult.ReplacingBothConflicts` | src/line_merge.rs:263-279 | two sides that replace the same record with content always do |
| `MergeReadBack.MergeReadsBack` | src/line_merge.rs:39-77 | if neither side ends in a dangling backslash, whatever the base, the merged file splits into exactly the merged records |
| `MergeReadBack.LocalSafeExactly` | src/line_merge.rs:39-77 | local merges safely with every settled base and remote and all valid scripts if and only if its last record does not end in a backslash |
| `MergeReadBack.RemoteSafeExactly` | src/line_merge.rs:39-77 | remote merges safely with every base and every settled local if and only if its last record does not end in a backslash |
| `MergeReadBack.RemoteSafeSettledExactly` | src/line_merge.rs:39-77 | with settled bases there is one exception: a dangling last record of remote's with the largest timestamp stays last |
| `LineOrder.LatestStaysLast` | src/line_merge.rs:70-74 | a last record with the largest key stays last under the sort |
| `LineOrder.StableSortFacts` | src/line_merge.rs:70-74 | the sort ascends, keeps the records, and keeps the order of equal keys |
| `ObjectCodec.BlobRoundTrip` | src/object.rs:200-218 | the escape is undone for every content, and a stored blob is never taken for a manifest or chunk |
| `ObjectCodec.EscapeExactly` | src/object.rs:200-218 | a blob is stored as it is unless it starts with ED F0 to ED FF |
| `ObjectCodec.ChunkRoundTrip` | src/object.rs:221-236 | chunks come back and are never taken for manifests |
| `ObjectCodec.ManifestRoundTrip` | src/object.rs:247-275 | manifest bytes and hash lists correspond one to one |
| `ObjectCodec.CompressRoundTrip` | src/codec/compress.rs:48-110 | decompression gives the data back if and only if it is within the limit or was stored raw |
| `ObjectCodec.DecompressFails` | src/codec/compress.rs:74-90 | a frame fails as corrupt if it cannot be decompressed, as invalid if the result is too large |
| `ObjectCodec.CompressIsSmallest` | src/codec/compress.rs:48-72 | the smallest of the three candidates, dictionary before plain before raw among equals |
| `ObjectCodec.RawEscapeExactly` | src/codec/compress.rs:93-110 | raw bytes are stored as they are unless they start with ED D0 to ED DF |
| `ObjectCodec.EncodeRoundTrip` | src/codec/mod.rs:24-54 | decode undoes encode within the limit, with and without a key |
| `ObjectCodec.EncryptedUnderHash` | src/codec/encrypt.rs:51-59 | the nonce is the first twelve bytes of the object's hash |
| `ObjectCodec.PeekContradictsExactly` | src/codec/chunk.rs:573-598 | on arbitrary bytes the peek contradicts the full decode exactly for a manifest behind a raw escape |
| `ObjectCodec.PeekIsSound` | src/codec/chunk.rs:573-598 | on everything the compressor writes, a conclusive peek is right |
| `ObjectCodec.RawManifestIsNotRuledOut` | src/codec/chunk.rs:573-598 | no stored manifest is ever ruled out |
| `ChunkStore.CachedIsReadable` | src/codec/chunk.rs:636-691 | a blob is delivered as its content without error exactly when the object and all chunks its manifest names are present; otherwise the sink got a front part of the content before "not found" |
| `ChunkStore.StoredIsCached` | src/codec/chunk.rs:65-101 | storing into any store of this pipeline, whatever it lost, forgets nothing and leaves the blob fully cached |
| `ChunkStore.StoreThenRead` | src/codec/chunk.rs:671-691 | what was stored, whole or in pieces, encrypted or not, reads back as the content |
| `ChunkStore.PayloadsExactly` | src/codec/chunk.rs:671-691 | the delivered payloads join to the content if and only if no first piece cuts the escape in half |
| `ChunkStore.ChunkReadExactly` | src/object.rs:226-236 | a chunk is read exactly if its object decodes to the chunk tag and its bytes |
| `ChunkStore.DeliversUpToError` | src/codec/chunk.rs:636-663 | the sink is given every chunk up to the first that cannot be read, then that error |
| `ChunkOps.Pass1HashAndPrefix` | src/codec/chunk.rs:289-317 | for every way reads split the file: the logical hash of the whole content and the serialiser's escape decision |
| `ChunkOps.ReadFront` | src/codec/chunk.rs:335-347 | the two-byte probe loop fills its buffer whatever the reads deliver |
| `ChunkOps.Store.StoreWrite` | src/codec/mod.rs:58-79 | an object already present is left alone, otherwise its encoding is stored |
| `ChunkOps.Store.StoreChunked` | src/codec/chunk.rs:65-101 | whole below two pieces, else chunks and then the manifest |
| `ChunkOps.Store.TakePieces` | src/codec/chunk.rs:374-396 | the streaming loop: hash input, raw size, held first piece and stored chunks at every point |
| `ChunkOps.Store.StreamFileOnce` | src/codec/chunk.rs:330-405 | the logical hash and raw size of the content, a single piece or all chunk hashes; the error is exactly a cut escape and stores nothing |
| `ChunkOps.Store.FinishStreamedFile` | src/codec/chunk.rs:407-423 | the final object, whole or manifest |
| `ChunkOps.Store.StoreFileStreaming` | src/codec/chunk.rs:429-446 | two streaming attempts with stat comparison: result and objects of the first stable one |
| `ChunkOps.Store.StoreSnapshot` | src/codec/chunk.rs:150-196 | two attempts around the size threshold with stat comparison and retry: result and objects, orphan chunks included |
| `ChunkOps.Store.StoreSnapshotWith` | src/codec/chunk.rs:150-196 | the attempt loop for any attempts |
| `ChunkOps.SnapshotIsSound` | src/codec/chunk.rs:150-196 | a capture returns hash, size and mtime of one attempt in which neither mtime nor size changed and the read had that size, with its blob fully cached; it fails exactly when every attempt saw a change; it never harms the store |
| `ChunkOps.FailureLeavesChunks` | src/codec/chunk.rs:150-196 | a capture that fails leaves only chunks of the attempts it streamed, never a blob or a manifest |
| `ChunkOps.StableSnapshot` | src/codec/chunk.rs:150-196 | an unchanging file is captured at once, with the same hash and objects on both sides of the threshold |
| `ChunkOps.WritePathsAgree` | src/codec/chunk.rs:407-423 | for non-empty content the in-memory and the streaming rule store the same objects |
| `ChunkOps.Store.ForEachSerialisedChunk` | src/codec/chunk.rs:636-663 | the pieces handed to the sink in manifest order up to the first error, and that error |
| `ChunkOps.Store.ForEachBlobChunk` | src/codec/chunk.rs:671-691 | the content handed to the sink up to the first error, the escape stripped from the first piece only |
| `ChunkOps.Store.PeekRulesOutManifest` | src/codec/chunk.rs:573-598 | the peek on a stored object, whatever the reads deliver |
| `ChunkOps.Store.BlobFullyCached` | src/codec/chunk.rs:537-563 | exact on every store this pipeline wrote unencrypted: the object and every chunk its manifest names are present |
| `Trees.BuildLoads` | src/tree_ops.rs:328-345 | what is built is stored sorted, and reads back exactly when its names are valid |
| `Trees.CacheSkipsNames` | src/tree_ops.rs:315-345 | a tree served from the cache equals the tree read from the store if and only if its names are valid |
| `Trees.NamesRefused` | src/object.rs:440-478 | the refused names spelled out: empty, dot, dot-dot, slash or NUL inside, `.omemfs`, and `.omemfs-` inside except `.omemfs-filter` itself |
| `Trees.LoadsExactly` | src/tree_ops.rs:136-149 | a tree is read exactly if the object hashes to the name asked for, parses, and holds no refused name; "not found" exactly if it is absent |
| `Trees.AggregateMeans` | src/object.rs:573-585 | of any list: the latest mtime present, absent only if all are; bytes and leaves summed modulo 2^64, a symlink counting as a leaf of no bytes |
| `Trees.SortSorts` | src/object.rs:565-569 | unique names come out strictly ascending |
| `Trees.FindSorted` | src/object.rs:565-569 | sorting neither hides nor invents an entry |
| `TreeEdit.SpliceThenNavigate` | src/tree_ops.rs:219-267 | the spliced entry is found at its path, and an error if the path starts with an invalid name |
| `TreeEdit.SpliceKeepsOthers` | src/tree_ops.rs:219-267 | every path unrelated to the splice ends as before, in the same error too, unless a tree it lacked was built |
| `TreeEdit.SpliceSucceedsExactly` | src/tree_ops.rs:219-267 | a splice succeeds exactly when navigation along its path does and the names behind the first are valid |
| `TreeEdit.SpliceStores` | src/tree_ops.rs:219-267 | whatever a splice adds to the store is one of the texts it built |
| `TreeEdit.NavigateGrows` | src/tree_ops.rs:93-116 | in a store that only gained objects a walk ends as before unless the tree it lacked has come |
| `TreeLaws.RemoveThenNavigate` | src/tree_ops.rs:167-212 | the removed entry is no longer found |
| `TreeLaws.RemoveKeepsParents` | src/tree_ops.rs:167-212 | the trees on the way to what was removed stay, empty or not |
| `TreeLaws.RemoveKeepsOthers` | src/tree_ops.rs:167-212 | every path unrelated to the removal ends as before, in the same error too, unless a tree it lacked was built |
| `TreeLaws.RemoveStores` | src/tree_ops.rs:167-212 | whatever a removal adds to the store is one of the texts it built |
| `TreeLaws.RemoveFindsExactly` | src/tree_ops.rs:167-212 | "not there" exactly when navigation finds nothing, with the store untouched; an error exactly when navigation fails |
| `TreeLaws.SpliceTidy` | src/tree_ops.rs:219-267 | every tree of the store stays in strict name order, at all depths |
| `TreeLaws.RemoveTidy` | src/tree_ops.rs:167-212 | removal keeps it too |
| `TreeLaws.SpliceHonest` | src/tree_ops.rs:270-280 | every tree entry of the store keeps carrying the aggregates of the tree it names, stubs included |
| `TreeLaws.RemoveHonest` | src/tree_ops.rs:270-280 | removal keeps it too |
| `TreeLaws.AggregatesHold` | src/object.rs:573-585 | where the named tree is present, its entry has exactly its size, count and mtime aggregates |
| `TreeUndo.SpliceThenRemove` | src/tree_ops.rs:167-267 | splicing into a free spot and removing again, also much later, leads back to the same root hash |
| `TreeUndo.SortedDetermined` | src/object.rs:565-569 | a list in name order is determined by what is found in it |
| `TreeOps.TreeStore.LoadAllEntries` | src/tree_ops.rs:315-325 | for any cache whose entries are what the stored texts parse to: a tainted tree comes from the cache without the name check, any other as the object reads; loading taints nothing |
| `TreeOps.TreeStore.BuildAndStore` | src/tree_ops.rs:328-345 | hash and store as without the cache, for any names; the cache is tainted by exactly this tree, and only if it has an invalid name |
| `TreeOps.TaintAfterBuild` | src/tree_ops.rs:328-345 | why: of the cached trees that cannot be read, a build adds its own exactly when a name is invalid, and no other changes |
| `TreeOps.TreeStore.TreeMeta` | src/tree_ops.rs:270-280 | the latest mtime and the two sums of the tree as loading through the cache gives it, or the load error |
| `TreeOps.TreeStore.SpliceEntry` | src/tree_ops.rs:219-267 | for any path and any such cache: result, store and taint of the splice through the cache |
| `TreeOps.TreeStore.RemoveEntry` | src/tree_ops.rs:167-212 | for any path and any such cache: result, store and taint of the removal through the cache |
| `TreeOps.TreeStore.FlattenInto` | src/tree_ops.rs:363-388 | for any such cache: the leaves below a tree, as the cache shows it, added to the map, or the first error |
| `TreeOps.TreeStore.FlattenTreeEntries` | src/tree_ops.rs:353-361 | the full and the local flatten through any such cache |
| `TreeOps.TreeStore.FlattenTreeEntriesScoped` | src/tree_ops.rs:461-484 | the scoped flatten: navigation without the cache, the walk below with it |
| `TreeCache.CacheUnnoticedExactly` | src/tree_ops.rs:315-345 | over any run of loads, builds, splices, removals and flattens, the cache switched on and off at will: at every point every answer, every store and every load that could be asked is the cache-free one, if and only if every tree built while the cache was on had valid names |
| `TreeCache.CacheChangesSplice` | src/tree_ops.rs:219-267 | with an untainted cache one splice changes exactly when a name behind the first is invalid and the path can be navigated: then it succeeds instead of failing |
| `TreeCache.SpliceUnnoticed` | src/tree_ops.rs:219-267 | an untainted cache and valid names make the splice through the cache the plain one, store and built texts included |
| `TreeCache.RemoveUnnoticed` | src/tree_ops.rs:167-212 | and the removal |
| `TreeCache.FlattenUnnoticed` | src/tree_ops.rs:363-388 | and the flatten, full and local |
| `TreeCache.TaintIsNoticed` | src/tree_ops.rs:315-325 | a tree with an invalid name built while the cache was on loads from the cache and not without it |
| `TreeFlatten.ScopedIsRestriction` | src/tree_ops.rs:461-484 | if no proper prefix names a blob, the scoped flatten is the full one restricted to the path |
| `TreeFlatten.ScopedExactly` | src/tree_ops.rs:461-484 | if and only if: with a blob on the way the scoped flatten fails |
| `TreeFlatten.FlattenIsNavigation` | src/tree_ops.rs:93-116 | a flattened tree has a leaf at a path exactly when navigation finds that leaf there |
| `TreeFlatten.KeyIsPath` | src/tree_ops.rs:363-388 | every key of a flattened map is the joined path of a leaf that navigation finds there |
| `TreeFlatten.LocalIsSubmap` | src/tree_ops.rs:544-573 | the local flatten never fails on a present root, is part of the full result, and all of it when nothing is missing |
| `LineOrder.StableSortUnique` | src/line_merge.rs:70-74 | ascending keys and the old order within each key leave no other result than this sort |
| `LineOrder.TimestampOfLine` | src/line_merge.rs:327-344 | every line of the extended-history form yields its epoch, unless that exceeds 64 bits |
| `LineOrder.TimestampOnlyOfLines` | src/line_merge.rs:327-344 | and no other line has a timestamp |
| `LineOrder.DigitsExactly` | src/line_merge.rs:327-344 | at least one character, each from 0 to 9 |
| `ScanJob.CacheKeepsItsPromises` | src/scan.rs:1332-1515 | for any run of the seal protocol and any run of the timing model, whatever roots it published: if the entries on record that hit the file, and the clone root where it has the file's date and size, go back to reads through hits and calm roots, the push has a cache that is truthful about the file and seal-safe for the store, and a truthful clone root |
| `TreeTotals.TotalsAreOverLeaves` | src/object.rs:573-585 | nested aggregates are totals over the flattened map: the mtime is the latest found in it, the blob count the number of its paths, the size the sum of its blob sizes over all paths, each once; counts and sizes modulo 2^64 |
| `TreeTotals.HonestIsCounted` | src/tree_ops.rs:270-280 | the stores that every splice and removal keeps honest are ones where these totals hold |
| `TreeTotals.AggregateConcat` | src/object.rs:573-585 | aggregates of two lists combine, wrapping included |

## Left out

- `Pattern::parse` and `FilterFile::parse`: the text of filter files is taken as already parsed into patterns and sections.
- Scopes with `.` or `..` components, and directory symlinks: a scope is a list of plain names in `FilterLoad`.
- SealProtocol.LossIsHarmlessExactly: a file job torn by a loss may report any blob, also one it would have written afresh.
- I/O errors other than a missing object.
- ScanJob.ProcessFileJob: models a file that does not change while it is scanned; the previous-entry branches for a changing file are not part of this model, its capture is (`ChunkOps.SnapshotIsSound`).
- ScanJob.DatedTruthSufficesExactly: dates have no upper limit, where the date library's range ends far in the future.
- RacyClean.SkippingIsSafeExactly: like `RacyClean.AdoptionsTruthfulExactly`, asks that four more seconds can be told, which excludes only observations at the end of 64-bit time.
- RacyClean.ReadEntriesAreTruthful: an mtime set by hand or carried over by a rename is outside the assumption on stamps, and so is a root that was not published by a scan of the run.
- Tree objects in `Trees` are plain texts by hash; their compression is the subject of `ObjectCodec` and is not composed with the tree laws.
- `flatten_tree_entries_for_push` and its scoped form: they also keep tree entries; they would repeat the flatten laws.
- `navigate`, `ensure_path_in_store`, the lazy tree store, `ensure_local_then_read`: thin variants of what is modelled.
- The thread pool, open-file counting and the live-path race branches of `scan_dir`: scheduling and system calls.
- File-system layers, locks, cloud stores, packs, commands, progress display, stubs, base32, logging: not part of this model.
