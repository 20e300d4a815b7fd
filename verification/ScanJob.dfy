/**
 Resolving one regular file to its tree entry (`process_file_job` of src/scan.rs): the
 STAT_CACHE hit, the clone-root fallback and the full read give the same answer for a
 file that does not change meanwhile.
 */
module ScanJob {
  import opened Base
  import opened ObjectCodec
  import opened CacheSpec
  import opened ChunkStore
  import opened ChunkOps
  import Trees
  import RacyClean
  import SealProtocol
  import Provenance

  /** A file as the scan meets it. */
  datatype Job = Job(name: Trees.Name, rel: Path, content: Bytes, mtime: Option<Instant>, mode: Option<Bytes>)

  type Root = map<Path, Trees.TreeEntry>

  datatype Config = Config(cache: Option<Cache>, root: Option<Root>, writeBlobs: bool, now: Instant)

  /** Times before the Unix epoch have no date. */
  function DateTime(t: Option<Instant>): Option<int> {
    if t.None? then None else RacyClean.DateOf(t.value)
  }

  /** The clone root's mtime, if its entry has this hash. */
  function MtimeForEntry(root: Option<Root>, rel: Path, h: Hash): Option<int> {
    if root.Some? && rel in root.value && root.value[rel].Blob? && root.value[rel].hash == h
    then root.value[rel].mtime else None
  }

  function MtimeStable(clone: Option<int>, fs: Option<int>): Option<int> {
    if clone.Some? then clone else fs
  }

  /** A clone-root blob as the timing model knows it. */
  function AsRoot(e: Trees.TreeEntry): RacyClean.Root
    requires e.Blob?
  {
    RacyClean.Root(e.mtime, e.size, e.hash)
  }

  /** The clone root's entry may stand in for reading the file. */
  predicate CanSkipHash(cached: Trees.TreeEntry, size: nat, mtime: Option<Instant>, now: Instant) {
    cached.Blob? && mtime.Some? && RacyClean.Skips(AsRoot(cached), mtime.value, size, now)
  }

  // ----- what the caches claim ----------------------------------------------

  /** A cache entry that hits gives the file's hash. */
  ghost predicate TruthfulCache(u: Suite, c: Cache, job: Job)
    requires RacyClean.Fits(job.content)
  {
    job.mtime.Some? && Lookup(c.entries, job.rel, job.mtime.value, |job.content|).Some? ==>
      c.entries[job.rel].hash == BlobHash(u, job.content)
  }

  /** While seals are trusted, a sealed entry's blob is fully cached. */
  ghost predicate SealSafe(o: CacheSpec.Objects, c: Cache) {
    c.trusted ==> forall p :: p in c.entries && c.entries[p].sealed ==> FullyCached(o, c.entries[p].hash)
  }

  /** A clone-root blob of the same size and date is the same file. */
  ghost predicate TruthfulRoot(u: Suite, root: Root, job: Job) {
    job.rel in root && root[job.rel].Blob? && root[job.rel].size == |job.content|
    && root[job.rel].mtime == DateTime(job.mtime) ==>
      root[job.rel].hash == BlobHash(u, job.content)
  }

  /** The entry that reading and hashing the file gives. */
  function ReadEntry(u: Suite, root: Option<Root>, job: Job): Trees.TreeEntry {
    var h := BlobHash(u, job.content);
    Trees.Blob(job.name, h, MtimeStable(MtimeForEntry(root, job.rel, h), DateTime(job.mtime)), |job.content|, job.mode)
  }

  /** The clone root has a dated blob with the file's hash at its path. */
  ghost predicate HasDated(u: Suite, root: Option<Root>, job: Job) {
    && root.Some? && job.rel in root.value && root.value[job.rel].Blob?
    && root.value[job.rel].hash == BlobHash(u, job.content) && root.value[job.rel].mtime.Some?
  }

  /** There the date is stable: touching a file, or copying it over itself, does not change its entry. */
  lemma {:induction false} TouchingChangesNothing(u: Suite, root: Option<Root>, job: Job, mtime: Option<Instant>)
    requires HasDated(u, root, job)
    ensures ReadEntry(u, root, job.(mtime := mtime)) == ReadEntry(u, root, job)
    ensures ReadEntry(u, root, job).mtime == root.value[job.rel].mtime
  {
  }

  datatype Resolved = Resolved(entry: Trees.TreeEntry, scanned: Option<Scanned>)

  /** The entry the fallback branch gives, hash and date from the clone root. */
  function FallbackEntry(e: Trees.TreeEntry, job: Job): Trees.TreeEntry
    requires e.Blob?
  {
    Trees.Blob(job.name, e.hash, e.mtime, |job.content|, job.mode)
  }

  /**
   Where the hash may be skipped, the fallback gives the entry reading gives, its stable
   mtime included, exactly when the root's hash is the file's.
   */
  lemma {:induction false} FallbackIsRead(u: Suite, root: Root, job: Job, now: Instant)
    requires job.rel in root && CanSkipHash(root[job.rel], |job.content|, job.mtime, now)
    ensures ReadEntry(u, Some(root), job) == FallbackEntry(root[job.rel], job) <==>
            root[job.rel].hash == BlobHash(u, job.content)
  {
  }

  /** The truth about dated files only. */
  ghost predicate DatedTruth(u: Suite, root: Root, job: Job) {
    job.rel in root && root[job.rel].Blob? && root[job.rel].mtime.Some? ==> TruthfulRoot(u, root, job)
  }

  /**
   Before the epoch that is not enough: dates are absent on both sides and compare equal,
   so any blob of the same size is taken for the file.
   */
  lemma {:induction false} UndatedFilesDeceive(u: Suite, job: Job, other: Hash, now: Instant)
    requires job.mtime.Some? && job.mtime.value < 0 && now >= 0 && other != BlobHash(u, job.content)
    requires (now - job.mtime.value) / NANOS >= RACY_THRESHOLD_SECS
    ensures var root := map[job.rel := Trees.Blob(job.name, other, None, |job.content|, job.mode)];
            && DatedTruth(u, root, job) && CanSkipHash(root[job.rel], |job.content|, job.mtime, now)
            && root[job.rel].hash != ReadEntry(u, Some(root), job).hash
  {
    var root := map[job.rel := Trees.Blob(job.name, other, None, |job.content|, job.mode)];
    assert root[job.rel].mtime == DateTime(job.mtime) == None;
  }

  /** Wherever a root with the truth about dated files lets the hash be skipped, its entry is the one reading gives. */
  ghost predicate DatedTruthSuffices(u: Suite, job: Job) {
    forall root: Root, now |
      job.rel in root && DatedTruth(u, root, job) && CanSkipHash(root[job.rel], |job.content|, job.mtime, now) ::
      ReadEntry(u, Some(root), job) == FallbackEntry(root[job.rel], job)
  }

  /** The truth about dated files suffices exactly for files dated at or after the epoch. */
  lemma {:induction false} DatedTruthSufficesExactly(u: Suite, job: Job)
    requires job.mtime.Some?
    ensures DatedTruthSuffices(u, job) <==> job.mtime.value >= 0
  {
    if job.mtime.value >= 0 {
      forall root: Root, now |
        job.rel in root && DatedTruth(u, root, job) && CanSkipHash(root[job.rel], |job.content|, job.mtime, now)
        ensures ReadEntry(u, Some(root), job) == FallbackEntry(root[job.rel], job)
      {
        FallbackIsRead(u, root, job, now);
      }
    } else {
      var other := OtherHash(BlobHash(u, job.content));
      var now := 3 * NANOS;
      UndatedFilesDeceive(u, job, other, now);
      var root: Root := map[job.rel := Trees.Blob(job.name, other, None, |job.content|, job.mode)];
      assert job.rel in root && DatedTruth(u, root, job);
      assert CanSkipHash(root[job.rel], |job.content|, job.mtime, now);
    }
  }

  function OtherHash(h: Hash): (g: Hash)
    ensures g != h
  {
    if h[0] == 0 then [1] + h[1..] else [0] + h[1..]
  }

  /** What every job may rely on. */
  ghost predicate Setting(u: Suite, s: ChunkStore.Objects, src: map<Hash, Source>, cfg: Config, job: Job) {
    && Sound(u) && Pipeline(u, None, s, src) && Apart(u, Known(src) + Needed(u, job.content))
    && WithinLimit(u, job.content) && !CutsEscape(u, job.content) && RacyClean.Fits(job.content)
    && (cfg.cache.Some? ==> TruthfulCache(u, cfg.cache.value, job) && SealSafe(Shapes(u, src), cfg.cache.value))
    && (cfg.root.Some? ==> TruthfulRoot(u, cfg.root.value, job))
  }

  /** The cache answers: a safe entry with the file's size and mtime, and a blob that is there if it has to be. */
  ghost predicate CacheAnswers(u: Suite, src: map<Hash, Source>, cfg: Config, job: Job) {
    && cfg.cache.Some? && job.mtime.Some? && job.rel in cfg.cache.value.entries
    && SafeFor(cfg.cache.value.entries[job.rel], job.mtime.value, |job.content|)
    && var e := cfg.cache.value.entries[job.rel];
       cfg.writeBlobs ==> (e.sealed && cfg.cache.value.trusted) || FullyCached(Shapes(u, src), e.hash)
  }

  ghost predicate SafeFor(e: Entry, mtime: Instant, size: nat) {
    !e.isUnsafe && e.fsSize == size && e.mtimeSecs * NANOS + e.mtimeNanos == mtime && e.mtimeNanos < NANOS
  }

  /** What the cache answers is the file's hash, and its blob is there if it has to be. */
  lemma {:induction false} CacheAnswersRight(u: Suite, s: ChunkStore.Objects, src: map<Hash, Source>, cfg: Config,
      job: Job)
    requires Setting(u, s, src, cfg, job) && CacheAnswers(u, src, cfg, job)
    ensures var e := cfg.cache.value.entries[job.rel];
            e.hash == BlobHash(u, job.content) && (cfg.writeBlobs ==> FullyCached(Shapes(u, src), e.hash))
  {
    assert Lookup(cfg.cache.value.entries, job.rel, job.mtime.value, |job.content|).Some?;
  }

  /** The clone root answers: a blob with the file's size and date, the file three seconds old, and the blob there. */
  ghost predicate RootAnswers(u: Suite, src: map<Hash, Source>, cfg: Config, job: Job) {
    && cfg.root.Some? && job.mtime.Some? && job.rel in cfg.root.value && cfg.root.value[job.rel].Blob?
    && var e := cfg.root.value[job.rel];
       && e.size == |job.content| && e.mtime == (if job.mtime.value < 0 then None else Some(job.mtime.value))
       && cfg.now - job.mtime.value >= 3 * NANOS
       && (cfg.writeBlobs ==> FullyCached(Shapes(u, src), e.hash))
  }

  /** Read and hash, storing the blob only if the scan writes blobs. */
  method Capture(u: Suite, store: Store, writeBlobs: bool, content: Bytes, mtime: Option<Instant>, mode: Option<Bytes>,
                 pace: nat -> nat, ghost src: map<Hash, Source>)
    returns (h: Hash, ghost src': map<Hash, Source>)
    requires Sound(u) && Pipeline(u, None, store.objects, src) && Apart(u, Known(src) + Needed(u, content))
    requires WithinLimit(u, content) && !CutsEscape(u, content)
    modifies store
    ensures h == BlobHash(u, content) && Pipeline(u, None, store.objects, src') && Extends(src, src')
    ensures writeBlobs ==> FullyCached(Shapes(u, src'), h)
    ensures !writeBlobs ==> store.objects == old(store.objects) && src' == src
  {
    if writeBlobs {
      var split := |Pieces(u, content)| >= 2;
      StoredIsCached(u, None, store.objects, src, content, split);
      var stat := FileStat(mtime, |content|);
      var seen := Attempt(stat, content, stat, mode);
      StableSnapshot(u, None, store.objects, seen, seen, STREAMING_THRESHOLD);
      var r := store.StoreSnapshot(u, None, seen, seen, pace);
      h := r.value.hash;
      src' := AddBlob(u, src, content, split);
    } else {
      var escape: bool;
      h, escape := Pass1HashAndPrefix(u, content, pace);
      src' := src;
    }
  }

  /** The blob needs no check, or passes it. */
  method Held(u: Suite, store: Store, h: Hash, unchecked: bool, pace: nat -> nat, ghost src: map<Hash, Source>)
    returns (held: bool)
    requires Sound(u) && Pipeline(u, None, store.objects, src)
    ensures held <==> unchecked || FullyCached(Shapes(u, src), h)
  {
    if unchecked { return true; }
    held := store.BlobFullyCached(u, h, pace, src);
  }

  /** The cached entry that may be used without reading, if there is one. */
  method UsableCacheEntry(u: Suite, store: Store, cfg: Config, job: Job, pace: nat -> nat, ghost src: map<Hash, Source>)
    returns (e: Option<Entry>)
    requires Setting(u, store.objects, src, cfg, job)
    ensures e.Some? ==>
      && cfg.cache.Some? && job.mtime.Some? && job.rel in cfg.cache.value.entries
      && e.value == cfg.cache.value.entries[job.rel]
      && e.value.hash == BlobHash(u, job.content)
      && (cfg.writeBlobs ==> FullyCached(Shapes(u, src), e.value.hash))
    ensures e.Some? <==> CacheAnswers(u, src, cfg, job)
  {
    if cfg.cache.None? || job.mtime.None? { return None; }
    e := Lookup(cfg.cache.value.entries, job.rel, job.mtime.value, |job.content|);
    if e.None? { return; }
    assert SafeFor(e.value, job.mtime.value, |job.content|);
    var held := Held(u, store, e.value.hash, !cfg.writeBlobs || (e.value.sealed && cfg.cache.value.trusted), pace, src);
    if !held { return None; }
    CacheAnswersRight(u, store.objects, src, cfg, job);
  }

  /** The clone root's entry that may be used without reading, if there is one. */
  method UsableRootEntry(u: Suite, store: Store, cfg: Config, job: Job, pace: nat -> nat, ghost src: map<Hash, Source>)
    returns (e: Option<Trees.TreeEntry>)
    requires Setting(u, store.objects, src, cfg, job)
    ensures e.Some? ==>
      && job.mtime.Some? && e.value.Blob? && e.value.hash == BlobHash(u, job.content)
      && ReadEntry(u, cfg.root, job) == Trees.Blob(job.name, e.value.hash, e.value.mtime, |job.content|, job.mode)
      && (cfg.writeBlobs ==> FullyCached(Shapes(u, src), e.value.hash))
    ensures e.Some? <==> RootAnswers(u, src, cfg, job)
  {
    if cfg.root.None? || job.rel !in cfg.root.value { return None; }
    var entry := cfg.root.value[job.rel];
    if !CanSkipHash(entry, |job.content|, job.mtime, cfg.now) { return None; }
    FallbackIsRead(u, cfg.root.value, job, cfg.now);
    var held := Held(u, store, entry.hash, !cfg.writeBlobs, pace, src);
    if held { e := Some(entry); } else { e := None; }
  }

  /** What the caller learns about a job's record, in the terms of the seal protocol. */
  ghost predicate Recorded(u: Suite, cfg: Config, job: Job, f: Scanned, src: map<Hash, Source>,
      src': map<Hash, Source>) {
    && job.mtime.Some? && f.fsMtime == job.mtime.value && f.fsSize == |job.content|
    && f.hash == BlobHash(u, job.content) && f.observedAt == cfg.now && f.blobSealed == cfg.writeBlobs
    && (f.cacheHit ==>
          cfg.cache.Some? && job.rel in cfg.cache.value.entries && cfg.cache.value.entries[job.rel].hash == f.hash)
    && (cfg.writeBlobs ==> FullyCached(Shapes(u, src'), f.hash))
  }

  /**
   The job: whichever branch answers, the tree entry is the one reading and hashing gives,
   and with `writeBlobs` the recorded hash is fully cached afterwards. A read-only job
   leaves the store alone.
   */
  method ProcessFileJob(u: Suite, store: Store, cfg: Config, job: Job, pace: nat -> nat, ghost src: map<Hash, Source>)
    returns (r: Resolved, ghost src': map<Hash, Source>)
    requires Setting(u, store.objects, src, cfg, job)
    modifies store
    ensures r.entry == ReadEntry(u, cfg.root, job)
    ensures r.entry.Blob? && r.entry.name == job.name && r.entry.hash == BlobHash(u, job.content)
    ensures r.entry.size == |job.content| && r.entry.mode == job.mode
    ensures r.entry.mtime ==
            if HasDated(u, cfg.root, job) then cfg.root.value[job.rel].mtime
            else if job.mtime.Some? && job.mtime.value >= 0 then Some(job.mtime.value) else None
    ensures r.scanned.Some? <==> job.mtime.Some?
    ensures r.scanned.Some? ==>
      && (r.scanned.value.cacheHit <==> CacheAnswers(u, src, cfg, job))
      && (r.scanned.value.fallbackHit <==> !CacheAnswers(u, src, cfg, job) && RootAnswers(u, src, cfg, job))
    ensures r.scanned.Some? ==> Recorded(u, cfg, job, r.scanned.value, src, src')
    ensures Pipeline(u, None, store.objects, src') && Extends(src, src')
    ensures cfg.writeBlobs ==> FullyCached(Shapes(u, src'), r.entry.hash)
    ensures !cfg.writeBlobs ==> store.objects == old(store.objects)
  {
    src' := src;
    var hit := UsableCacheEntry(u, store, cfg, job, pace, src);
    if hit.Some? {
      var h := hit.value.hash;
      var mtime := MtimeStable(MtimeForEntry(cfg.root, job.rel, h), DateTime(job.mtime));
      r := Resolved(Trees.Blob(job.name, h, mtime, |job.content|, job.mode),
                    Some(Scanned(job.mtime.value, |job.content|, h, true, false, cfg.writeBlobs, cfg.now)));
      return;
    }
    var fallback := UsableRootEntry(u, store, cfg, job, pace, src);
    if fallback.Some? {
      var e := fallback.value;
      r := Resolved(Trees.Blob(job.name, e.hash, e.mtime, |job.content|, job.mode),
                    Some(Scanned(job.mtime.value, |job.content|, e.hash, false, true, cfg.writeBlobs, cfg.now)));
      return;
    }
    var h: Hash;
    h, src' := Capture(u, store, cfg.writeBlobs, job.content, job.mtime, job.mode, pace, src);
    var mtime := MtimeStable(MtimeForEntry(cfg.root, job.rel, h), DateTime(job.mtime));
    var scanned := if job.mtime.None? then None
                   else Some(Scanned(job.mtime.value, |job.content|, h, false, false, cfg.writeBlobs, cfg.now));
    r := Resolved(Trees.Blob(job.name, h, mtime, |job.content|, job.mode), scanned);
  }

  /** A store that forgets nothing only gains shapes. */
  lemma {:induction false} ExtendsGrows(u: Suite, src: map<Hash, Source>, src': map<Hash, Source>)
    requires Extends(src, src')
    ensures Grows(Shapes(u, src), Shapes(u, src'))
  {
  }

  /** The record meets what the seal protocol asks of a job, in both modes. */
  lemma {:induction false} RecordIsSound(u: Suite, cfg: Config, job: Job, f: Scanned, src: map<Hash, Source>,
      src': map<Hash, Source>)
    requires cfg.cache.Some? && Extends(src, src') && Recorded(u, cfg, job, f, src, src')
    ensures cfg.writeBlobs ==> JobSound(cfg.cache.value, job.rel, f, Shapes(u, src), Shapes(u, src'))
    ensures !cfg.writeBlobs ==> ReadonlyJob(cfg.cache.value, job.rel, f)
  {
    ExtendsGrows(u, src, src');
  }

  // ----- what the timing model makes of a job -----------------------------------

  /** The root a finished scan of the timing model publishes is the entry the job gives, date included. */
  lemma {:induction false} JobPublishesItsEntry(u: Suite, root: Root, job: Job, s: RacyClean.Scan)
    requires job.mtime.Some? && RacyClean.Fits(job.content)
    requires RacyClean.Answered(s) && s.stat == Some((job.mtime.value, |job.content|))
    requires s.answer.hash == BlobHash(u, job.content)
    requires s.root.Some? <==> job.rel in root && root[job.rel].Blob?
    requires s.root.Some? ==> s.root.value.root == AsRoot(root[job.rel])
    requires s.answer.FromRoot? ==>
               s.root.Some? && s.root.value.root.hash == s.answer.hash && s.root.value.root.date == DateTime(job.mtime)
    ensures RacyClean.PublicationOf(s).root == AsRoot(ReadEntry(u, Some(root), job))
  {
  }

  // ----- why the setting holds ----------------------------------------------

  /** What is on record for the path and hits the file was recorded soundly in a run of the timing model. */
  ghost predicate OnRecord(rec: Provenance.Records, rel: Path, w: RacyClean.World) {
    forall e :: (rel, e) in rec && w.file.Some? && RacyClean.Hits(e, w.file.value) ==>
      exists r :: r in w.sound && e == Provenance.Stem(r)
  }

  lemma {:induction false} RecordHits(u: Suite, c: Cache, job: Job, w: RacyClean.World, rec: Provenance.Records)
    requires RacyClean.Fits(job.content) && job.mtime.Some?
    requires w.file == Some(RacyClean.File(job.content, job.mtime.value))
    requires forall e :: e in w.sound ==> RacyClean.HitTells(content => BlobHash(u, content), e, w)
    requires Provenance.Stems(c.entries, rec) && OnRecord(rec, job.rel, w)
    ensures TruthfulCache(u, c, job)
  {
    if Lookup(c.entries, job.rel, job.mtime.value, |job.content|).Some? {
      var e := Provenance.Stem(c.entries[job.rel]);
      assert (job.rel, e) in rec && RacyClean.Hits(e, w.file.value);
      var r :| r in w.sound && e == Provenance.Stem(r);
      assert RacyClean.Hits(r, w.file.value);
    }
  }

  /**
   The clone root's entry for the path, if it is a blob with the file's date and size, is one
   that a scan of the run published, calm and soundly.
   */
  ghost predicate FromRun(slack: nat, root: Root, job: Job, w: RacyClean.World) {
    job.rel in root && root[job.rel].Blob? && root[job.rel].size == |job.content|
    && root[job.rel].mtime == DateTime(job.mtime) ==>
      exists p :: p in w.published && p.sound && RacyClean.Calm(slack, p) && p.root == AsRoot(root[job.rel])
  }

  lemma {:induction false} PublishedRootIsTruthful(u: Suite, slack: nat, root: Root, job: Job, w: RacyClean.World)
    requires job.mtime.Some? && w.file == Some(RacyClean.File(job.content, job.mtime.value))
    requires FromRun(slack, root, job, w)
    requires forall p :: p in w.published && p.sound && RacyClean.Calm(slack, p) ==>
               RacyClean.RootTrue(content => BlobHash(u, content), p.root, w.file)
    ensures TruthfulRoot(u, root, job)
  {
    if job.rel in root && root[job.rel].Blob? && root[job.rel].size == |job.content|
       && root[job.rel].mtime == DateTime(job.mtime) {
      var p :| p in w.published && p.sound && RacyClean.Calm(slack, p) && p.root == AsRoot(root[job.rel]);
      assert RacyClean.RootTrue(content => BlobHash(u, content), p.root, w.file);
    }
  }

  /**
   The runs behind a scan meet here. The results all scans reported, and the entries the
   first file held, are on record; those for this path that hit the file were recorded in a
   run of the clock and the file with answers that go back to reads, through the cache or
   through calm roots; and so was the clone root published, if it has the file's date and
   size. Whatever else that run published or recorded, the push's cache is truthful about the
   file and seal-safe for the store, and the clone root is truthful: what a job relies on.
   */
  lemma {:induction false} CacheKeepsItsPromises(
    u: Suite, job: Job, src: map<Hash, Source>, root: Root, slack: nat,
    w: RacyClean.World, es: seq<RacyClean.Event>, w': RacyClean.World,
    s: SealProtocol.State, steps: seq<SealProtocol.Event>, rec: Provenance.Records)
    requires slack <= RacyClean.SLACK && RacyClean.Start(w)
    requires RacyClean.Runs(content => BlobHash(u, content), slack, w, es, w')
    requires RacyClean.Fits(job.content) && job.mtime.Some?
    requires w'.file == Some(RacyClean.File(job.content, job.mtime.value))
    requires FromRun(slack, root, job, w')
    requires SealProtocol.Init(s) && SealProtocol.Runs(s, steps) && SealProtocol.Benign(s, steps)
    requires Provenance.Stems(s.repo.file.entries, rec) && OnRecord(rec, job.rel, w')
    requires forall i :: 0 <= i < |steps| ==> Provenance.EventStems(steps[i], rec)
    requires var t := SealProtocol.Final(s, steps);
             t.push.Scanning? && t.repo.marker.Some? && t.repo.objects == Shapes(u, src)
    ensures var c := SealProtocol.Final(s, steps).push.cache;
            TruthfulCache(u, c, job) && SealSafe(Shapes(u, src), c) && TruthfulRoot(u, root, job)
  {
    SealProtocol.TrustIsEarned(s, steps);
    RacyClean.SoundHitsAreTruthful(content => BlobHash(u, content), slack, w, es, w');
    Provenance.EntriesAreRecorded(s, steps, rec);
    RecordHits(u, SealProtocol.Final(s, steps).push.cache, job, w', rec);
    PublishedRootIsTruthful(u, slack, root, job, w');
  }
}
