/**
 The STAT_CACHE as a value: its entries, its seal state, and what each operation
 of `StatCache` does to them (src/stat_cache.rs). `CacheOps` holds the class that
 performs the operations in place and is proved against these functions.
 */
module CacheSpec {
  import opened Base

  // ----- entries ------------------------------------------------------------

  type I64 = x: int | -0x8000_0000_0000_0000 <= x < 0x8000_0000_0000_0000
  type U32 = x: int | 0 <= x < 0x1_0000_0000
  type U64 = x: int | 0 <= x < 0x1_0000_0000_0000_0000

  const NANOS := 1_000_000_000

  /** A system time: nanoseconds since the Unix epoch, negative before it. */
  type Instant = t: int | -0x7FFF_FFFF_FFFF_FFFF * NANOS <= t < 0x8000_0000_0000_0000 * NANOS

  /** The 16-byte seal epoch; all zero means "none recorded". */
  type Epoch = e: seq<byte> | |e| == 16 witness seq(16, _ => 0)

  const NO_EPOCH: Epoch := [0, 0, 0, 0, 0, 0, 0, 0, 0, 0, 0, 0, 0, 0, 0, 0]
  const RACY_THRESHOLD_SECS := 3

  datatype Entry = Entry(
    mtimeSecs: I64, mtimeNanos: U32, fsSize: U64, hash: Hash,
    isUnsafe: bool, sealed: bool)

  type Entries = map<Path, Entry>

  /** Split a time into whole seconds and a non-negative nanosecond part, by cases on its sign. */
  function TimeParts(t: Instant): (r: (I64, U32))
    ensures r.0 * NANOS + r.1 == t && r.1 < NANOS
  {
    if t >= 0 then (t / NANOS, t % NANOS)
    else
      var d := -t;
      if d % NANOS == 0 then (-(d / NANOS), 0)
      else (-(d / NANOS) - 1, NANOS - d % NANOS)
  }

  predicate IsRacilyClean(mtimeSecs: I64, now: Instant) {
    now < 0 || now / NANOS - mtimeSecs < RACY_THRESHOLD_SECS
  }

  /** A cached entry is a hit when it is safe and its size and mtime match. */
  function Lookup(es: Entries, p: Path, mtime: Instant, size: U64): (r: Option<Entry>)
    ensures r.Some? <==> p in es && !es[p].isUnsafe && es[p].fsSize == size
                         && es[p].mtimeSecs * NANOS + es[p].mtimeNanos == mtime && es[p].mtimeNanos < NANOS
    ensures r.Some? ==> r.value == es[p]
  {
    if p in es && !es[p].isUnsafe && es[p].fsSize == size
       && (es[p].mtimeSecs, es[p].mtimeNanos) == TimeParts(mtime)
    then Some(es[p]) else None
  }

  /** `path` is the scope itself or below it. */
  predicate PathInScope(path: Path, prefix: Path) {
    path == prefix || (|path| > |prefix| && path[|prefix|] == SLASH && StartsWith(path, prefix))
  }

  // ----- local objects ------------------------------------------------------

  /** What a stored object decodes to, as far as completeness is concerned. */
  datatype Shape = Single | Manifest(chunks: seq<Hash>)
  type Objects = map<Hash, Shape>

  /** The object is present and so is every chunk its manifest names. */
  predicate FullyCached(o: Objects, h: Hash) {
    h in o && (o[h].Manifest? ==> forall c :: c in o[h].chunks ==> c in o)
  }

  /** Objects are immutable: a store only gains keys. */
  ghost predicate Grows(o: Objects, o': Objects) {
    forall h :: h in o ==> h in o' && o'[h] == o[h]
  }

  // ----- the cache and its operations ---------------------------------------

  /** The content of the STAT_CACHE file; an absent or corrupt file reads as `EMPTY_FILE`. */
  datatype CacheFile = CacheFile(entries: Entries, epoch: Epoch)

  const EMPTY_FILE := CacheFile(map[], NO_EPOCH)

  /** The in-memory cache: every field of the source's struct. */
  datatype Cache = Cache(
    entries: Entries, dirty: bool, epoch: Epoch, trusted: bool,
    needsNewEpoch: bool, invalidated: bool, changed: set<Path>)

  function Load(f: CacheFile): Cache {
    Cache(f.entries, false, f.epoch, false, false, false, {})
  }

  /** The entries at or below `prefix`. */
  function Within(es: Entries, prefix: Path): Entries {
    map p | p in es && PathInScope(p, prefix) :: es[p]
  }

  /** No scope, or the root: the whole cache. */
  predicate Whole(scope: Option<Path>) { scope.None? || scope.value == [] }

  function InScope(es: Entries, scope: Option<Path>): Entries {
    if Whole(scope) then es else Within(es, scope.value)
  }

  function LoadScoped(f: CacheFile, scope: Option<Path>): Cache {
    Load(CacheFile(InScope(f.entries, scope), f.epoch))
  }

  function NewEntry(mtime: Instant, size: U64, hash: Hash, sealed: bool, observedAt: Instant): Entry {
    var (secs, nanos) := TimeParts(mtime);
    Entry(secs, nanos, size, hash, IsRacilyClean(secs, observedAt), sealed)
  }

  /** Insert or replace entries that differ from what is there: the cache becomes dirty if there are any. */
  function Overlay(c: Cache, m: Entries): Cache {
    Cache(c.entries + m, c.dirty || m != map[], c.epoch, c.trusted, c.needsNewEpoch, c.invalidated,
          c.changed + m.Keys)
  }

  /** Only a genuine difference counts as an edit. */
  function Diff(es: Entries, p: Path, e: Entry): Entries {
    if p in es && es[p] == e then map[] else map[p := e]
  }

  function SealEdit(es: Entries, p: Path): Entries {
    if p in es then Diff(es, p, es[p].(sealed := true)) else map[]
  }

  function Unsealed(es: Entries): (r: Entries)
    ensures r.Keys == es.Keys && forall p :: p in r ==> r[p] == es[p].(sealed := false)
  {
    map p | p in es :: es[p].(sealed := false)
  }

  predicate AnySealed(es: Entries) {
    exists p :: p in es && es[p].sealed
  }

  function ClearAllSealed(c: Cache): Cache {
    Cache(Unsealed(c.entries), c.dirty || AnySealed(c.entries), c.epoch, c.trusted,
          c.needsNewEpoch, c.invalidated, c.changed)
  }

  predicate EpochMatches(epoch: Epoch, marker: Option<Epoch>) {
    epoch != NO_EPOCH && marker == Some(epoch)
  }

  /** Trust needs a matching epoch and a clean sample; withholding it clears every visible seal. */
  function ComputeTrust(c: Cache, marker: Option<Epoch>, sampleOk: bool): Cache {
    if !EpochMatches(c.epoch, marker) then
      ClearAllSealed(c.(trusted := false, needsNewEpoch := true, invalidated := true))
    else
      var c' := c.(needsNewEpoch := false, trusted := sampleOk);
      if sampleOk then c' else ClearAllSealed(c'.(invalidated := true))
  }

  function Finalize(c: Cache, newEpoch: Epoch): Cache {
    if c.needsNewEpoch then c.(epoch := newEpoch, dirty := true, needsNewEpoch := false) else c
  }

  // ----- scan results -------------------------------------------------------

  datatype Scanned = Scanned(
    fsMtime: Instant, fsSize: U64, hash: Hash,
    cacheHit: bool, fallbackHit: bool, blobSealed: bool, observedAt: Instant)

  /** The edit one scan result makes: a miss records the file, a verified hit seals its entry. */
  function Edit(es: Entries, p: Path, f: Scanned): Entries {
    if !f.cacheHit then Diff(es, p, NewEntry(f.fsMtime, f.fsSize, f.hash, f.blobSealed, f.observedAt))
    else if f.blobSealed then SealEdit(es, p)
    else map[]
  }

  /** The edits of one batch, each path judged on its own. */
  function Edits(es: Entries, files: map<Path, Scanned>): Entries {
    map p | p in files && p in Edit(es, p, files[p]) :: Edit(es, p, files[p])[p]
  }

  /** One batch of scan results: the order of application is immaterial. */
  function ApplyAll(c: Cache, files: map<Path, Scanned>): Cache {
    Overlay(c, Edits(c.entries, files))
  }

  /**
   What a blob-writing file job guarantees about its result (`process_file_job`): the
   hash is fully cached when the job returns, unless it was taken from a sealed entry
   of a trusted cache.
   */
  ghost predicate JobSound(c: Cache, p: Path, f: Scanned, o: Objects, o': Objects) {
    && Grows(o, o')
    && f.blobSealed
    && (f.cacheHit ==> p in c.entries && c.entries[p].hash == f.hash)
    && (FullyCached(o', f.hash) || (f.cacheHit && c.trusted && c.entries[p].sealed))
  }

  /** What a read-only file job guarantees: it never asserts a seal the cache did not already hold. */
  ghost predicate ReadonlyJob(c: Cache, p: Path, f: Scanned) {
    if f.cacheHit then p in c.entries && (f.blobSealed ==> c.entries[p].sealed) else !f.blobSealed
  }

  // ----- writing back -------------------------------------------------------

  /** The merged file a scoped blob-writing scan leaves, given the file it re-read. */
  function ScopedMerge(c: Cache, full: CacheFile): CacheFile {
    if c.invalidated then CacheFile(Unsealed(full.entries) + c.entries, c.epoch)
    else CacheFile(full.entries + c.entries, full.epoch)
  }

  /** The merged file a read-only scan leaves: only the entries it changed are overlaid. */
  function ReadonlyMerge(c: Cache, latest: CacheFile): CacheFile {
    CacheFile(latest.entries + (map p | p in c.changed && p in c.entries :: c.entries[p]), latest.epoch)
  }
}
