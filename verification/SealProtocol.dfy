/**
 The seal protocol as a transition system: one lock-holding push at a time (full or
 scoped), any number of lock-free read-only scans, loss of objects, and a STAT_CACHE
 file that all of them read and rewrite in separate steps.

 `SealSafety` covers every run; `LossIsHarmlessExactly` says which losses of the whole
 `objects/` directory the protocol survives; `SealRecovery` covers runs that start from
 an arbitrary, possibly lying, disk.
 */
module SealProtocol {
  import opened Base
  import opened CacheSpec

  // ----- states -------------------------------------------------------------

  /** STAT_CACHE, the marker `objects/.seal_epoch`, and the objects themselves. */
  datatype Repo = Repo(file: CacheFile, marker: Option<Epoch>, objects: Objects)

  /**
   The phases of a blob-writing scan. `jobs` holds the file jobs under way and whether objects
   were lost since they began; `verified` records the blobs that finished jobs wrote or checked.
   */
  datatype Push =
    | Idle
    | Loaded(scope: Option<Path>, cache: Cache)
    | Scanning(scope: Option<Path>, cache: Cache, jobs: map<Path, bool>, files: map<Path, Scanned>,
      verified: set<(Path, Hash)>)
    | Finalized(scope: Option<Path>, cache: Cache, verified: set<(Path, Hash)>)
    | Merging(cache: Cache, full: CacheFile, verified: set<(Path, Hash)>)
    | Recovering(full: CacheFile)

  /** A read-only scan: the cache it loaded and edits, then the file it re-read before writing. */
  datatype Reader = Reader(cache: Cache, latest: Option<CacheFile>)

  /** `used` holds every epoch drawn so far; `random_seal_epoch` never repeats one. */
  datatype State = State(repo: Repo, push: Push, readers: map<nat, Reader>, used: set<Epoch>)

  datatype Event =
    | PushLoad(scope: Option<Path>)
    | PushTrust(sampleOk: bool)
    | PushBegin(path: Path)
    | PushScan(path: Path, file: Scanned, objects: Objects)
    | PushApply
    | PushFinalize(newEpoch: Epoch, markerWritten: bool)
    | PushReread
    | PushWrite
    | PushAbort
    | RecoverRead
    | RecoverWrite
    | ReadLoad(id: nat, readScope: Option<Path>)
    | ReadRecord(id: nat, path: Path, file: Scanned)
    | ReadReread(id: nat)
    | ReadWrite(id: nat)
    | AddObjects(objects: Objects)
    | LoseAll
    | LoseOne(hash: Hash)

  // ----- steps --------------------------------------------------------------

  ghost predicate Enabled(s: State, e: Event) {
    match e
    case PushLoad(_) => s.push.Idle?
    case PushTrust(sampleOk) => s.push.Loaded? && (!sampleOk ==> AnySealed(s.push.cache.entries))
    case PushBegin(p) => s.push.Scanning? && p !in s.push.jobs
    case PushScan(p, f, o) =>
      s.push.Scanning? && p in s.push.jobs &&
      (if s.push.jobs[p] then JobTorn(s.push.cache, p, f, s.repo.objects, o)
        else JobSound(s.push.cache, p, f, s.repo.objects, o))
    case PushApply => s.push.Scanning? && s.push.jobs == map[]
    case PushFinalize(n, _) =>
      s.push.Scanning? && s.push.jobs == map[] && s.push.files == map[] && n != NO_EPOCH && n !in s.used
    case PushReread => s.push.Finalized? && !Whole(s.push.scope) && s.push.cache.dirty
    case PushWrite => s.push.Merging? || (s.push.Finalized? && (Whole(s.push.scope) || !s.push.cache.dirty))
    case PushAbort => !s.push.Idle?
    case RecoverRead => s.push.Idle?
    case RecoverWrite => s.push.Recovering?
    case ReadLoad(id, _) => id !in s.readers
    case ReadRecord(id, p, f) => id in s.readers && ReadonlyJob(s.readers[id].cache, p, f)
    case ReadReread(id) => id in s.readers
    case ReadWrite(id) => id in s.readers && (s.readers[id].latest.Some? || s.readers[id].cache.changed == {})
    case AddObjects(o) => Grows(s.repo.objects, o)
    case LoseAll => true
    case LoseOne(_) => true
  }

  /** A file job during which objects were lost promises nothing about the blob it reports. */
  ghost predicate JobTorn(c: Cache, p: Path, f: Scanned, o: Objects, o': Objects) {
    Grows(o, o') && f.blobSealed && (f.cacheHit ==> p in c.entries && c.entries[p].hash == f.hash)
  }

  /** The job took the blob for granted because the cache's seal was trusted. */
  predicate OnTrust(c: Cache, p: Path, f: Scanned) { f.cacheHit && c.trusted && p in c.entries && c.entries[p].sealed }

  /** The push after a loss of objects: every job under way is torn. */
  function Torn(push: Push): Push {
    if push.Scanning? then push.(jobs := map p | p in push.jobs :: true) else push
  }

  ghost function Step(s: State, e: Event): State
    requires Enabled(s, e)
  {
    match e
    case PushLoad(scope) => s.(push := Loaded(scope, LoadScoped(s.repo.file, scope)))
    case PushTrust(sampleOk) =>
      s.(push := Scanning(s.push.scope, ComputeTrust(s.push.cache, s.repo.marker, sampleOk), map[], map[], {}))
    case PushBegin(p) => s.(push := s.push.(jobs := s.push.jobs[p := false]))
    case PushScan(p, f, o) =>
      var v := if OnTrust(s.push.cache, p, f) && !FullyCached(o, f.hash) then {} else {(p, f.hash)};
      s.(repo := s.repo.(objects := o),
         push := s.push.(jobs := s.push.jobs - {p}, files := s.push.files[p := f], verified := s.push.verified + v))
    case PushApply => s.(push := s.push.(cache := ApplyAll(s.push.cache, s.push.files), files := map[]))
    case PushFinalize(n, written) =>
      var rotate := s.push.cache.needsNewEpoch;
      s.(repo := if rotate && written then s.repo.(marker := Some(n)) else s.repo,
         push := Finalized(s.push.scope, Finalize(s.push.cache, n), s.push.verified),
         used := s.used + {n})
    case PushReread => s.(push := Merging(s.push.cache, s.repo.file, s.push.verified))
    case PushWrite => s.(repo := s.repo.(file := Written(s)), push := Idle)
    case PushAbort => s.(push := Idle)
    case RecoverRead => s.(push := Recovering(s.repo.file))
    case RecoverWrite =>
      s.(repo := s.repo.(file := CacheFile(Unsealed(s.push.full.entries), s.push.full.epoch)), push := Idle)
    case ReadLoad(id, scope) => s.(readers := s.readers[id := Reader(LoadScoped(s.repo.file, scope), None)])
    case ReadRecord(id, p, f) =>
      var r := s.readers[id];
      s.(readers := s.readers[id := r.(cache := Overlay(r.cache, Edit(r.cache.entries, p, f)))])
    case ReadReread(id) => s.(readers := s.readers[id := s.readers[id].(latest := Some(s.repo.file))])
    case ReadWrite(id) =>
      var r := s.readers[id];
      s.(repo := if r.cache.changed == {} then s.repo
                 else s.repo.(file := ReadonlyMerge(r.cache, r.latest.value)),
         readers := s.readers - {id})
    case AddObjects(o) => s.(repo := s.repo.(objects := o))
    case LoseAll => s.(repo := s.repo.(marker := None, objects := map[]), push := Torn(s.push))
    case LoseOne(h) => s.(repo := s.repo.(objects := s.repo.objects - {h}), push := Torn(s.push))
  }

  /** The file a push leaves: nothing when clean, its whole cache, or a merge into what it re-read. */
  ghost function Written(s: State): CacheFile
    requires Enabled(s, PushWrite)
  {
    if s.push.Merging? then ScopedMerge(s.push.cache, s.push.full)
    else if s.push.cache.dirty then CacheFile(s.push.cache.entries, s.push.cache.epoch)
    else s.repo.file
  }

  // ----- runs ---------------------------------------------------------------

  ghost predicate Runs(s: State, es: seq<Event>)
    decreases |es|
  {
    es == [] || (Enabled(s, es[0]) && Runs(Step(s, es[0]), es[1..]))
  }

  ghost function Final(s: State, es: seq<Event>): State
    requires Runs(s, es)
    decreases |es|
  {
    if es == [] then s else Final(Step(s, es[0]), es[1..])
  }

  /** A loss of `objects/` is survived unless a rotating push has begun a file job. */
  ghost predicate LossHarmless(s: State) {
    s.push.Scanning? && s.push.cache.needsNewEpoch ==> s.push.jobs == map[] && s.push.verified == {}
  }

  /** Every step is one the safety theorem admits: no partial loss, whole losses only when harmless. */
  ghost predicate Benign(s: State, es: seq<Event>)
    requires Runs(s, es)
    decreases |es|
  {
    es == [] ||
    (!es[0].LoseOne? && (es[0].LoseAll? ==> LossHarmless(s)) && Benign(Step(s, es[0]), es[1..]))
  }

  // ----- the invariants -----------------------------------------------------

  ghost predicate AllCached(o: Objects, es: Entries) {
    forall p :: p in es && es[p].sealed ==> FullyCached(o, es[p].hash)
  }

  ghost predicate FilesCached(o: Objects, files: map<Path, Scanned>) {
    forall p :: p in files ==> FullyCached(o, files[p].hash)
  }

  /** The seals of a file are true whenever its epoch is the marker's. */
  ghost predicate Honest(r: Repo, f: CacheFile) {
    EpochMatches(f.epoch, r.marker) ==> AllCached(r.objects, f.entries)
  }

  /** The property a user relies on: seals that the next push would trust are true. */
  ghost predicate Safe(s: State) {
    Honest(s.repo, s.repo.file)
  }

  ghost predicate Known(s: State, e: Epoch) {
    e == NO_EPOCH || e in s.used
  }

  ghost function AsFile(c: Cache): CacheFile {
    CacheFile(c.entries, c.epoch)
  }

  ghost predicate SealedVerified(es: Entries, v: set<(Path, Hash)>) {
    forall p :: p in es && es[p].sealed ==> (p, es[p].hash) in v
  }

  /** Scan results not yet applied agree with the cache they were computed from. */
  ghost predicate FilesMatch(c: Cache, files: map<Path, Scanned>) {
    forall p :: p in files ==>
      files[p].blobSealed && (files[p].cacheHit ==> p in c.entries && c.entries[p].hash == files[p].hash)
  }

  /** What every step keeps, losses included: bookkeeping of trust, dirtiness and verification. */
  ghost predicate Tracked(s: State) {
    match s.push
    case Idle => true
    case Loaded(_, c) => !c.invalidated && !c.trusted && !c.needsNewEpoch
    case Scanning(_, c, _, files, v) =>
      && (c.invalidated <==> !c.trusted) && (c.needsNewEpoch ==> c.invalidated) && (c.trusted ==> c.epoch != NO_EPOCH)
      && FilesMatch(c, files)
      && (c.invalidated ==>
            && SealedVerified(c.entries, v)
            && (forall p :: p in files ==> (p, files[p].hash) in v)
            && (!c.needsNewEpoch ==> c.dirty))
      && forall x :: x in v ==> x.0 in files || (x.0 in c.entries && c.entries[x.0].sealed)
    case Finalized(_, c, v) => !c.needsNewEpoch && (c.invalidated ==> c.dirty && SealedVerified(c.entries, v))
    case Merging(c, _, v) => !c.needsNewEpoch && (c.invalidated ==> SealedVerified(c.entries, v))
    case Recovering(_) => true
  }

  /** A cache whose trust held: the marker is still its epoch, or the directory has been lost since. */
  ghost predicate MarkerStands(s: State, c: Cache) {
    !c.invalidated ==> s.repo.marker == None || s.repo.marker == Some(c.epoch)
  }

  ghost predicate PushHonest(s: State) {
    match s.push
    case Idle => true
    case Loaded(_, c) => Known(s, c.epoch) && Honest(s.repo, AsFile(c))
    case Scanning(_, c, jobs, files, _) =>
      && Known(s, c.epoch) && MarkerStands(s, c)
      && (forall p :: p in jobs && jobs[p] ==> !c.needsNewEpoch && s.repo.marker == None)
      && (c.needsNewEpoch || EpochMatches(c.epoch, s.repo.marker) ==>
            AllCached(s.repo.objects, c.entries) && FilesCached(s.repo.objects, files))
    case Finalized(_, c, _) => Known(s, c.epoch) && MarkerStands(s, c) && Honest(s.repo, AsFile(c))
    case Merging(c, full, _) =>
      && Known(s, c.epoch) && MarkerStands(s, c) && Honest(s.repo, AsFile(c))
      && Known(s, full.epoch) && Honest(s.repo, full)
    case Recovering(full) => Known(s, full.epoch) && Honest(s.repo, full)
  }

  ghost predicate ReaderHonest(s: State, r: Reader) {
    && (r.latest.Some? ==> Known(s, r.latest.value.epoch) && Honest(s.repo, r.latest.value))
    && forall p :: p in r.cache.changed && p in r.cache.entries ==> !r.cache.entries[p].sealed
  }

  ghost predicate Inv(s: State) {
    && (s.repo.marker.Some? ==> Known(s, s.repo.marker.value))
    && Known(s, s.repo.file.epoch) && Safe(s)
    && Tracked(s) && PushHonest(s)
    && forall id :: id in s.readers ==> ReaderHonest(s, s.readers[id])
  }

  /** A repository at rest whose trusted seals are true, such as a new one. */
  ghost predicate Init(s: State) {
    && s.push.Idle? && s.readers == map[] && Safe(s)
    && Known(s, s.repo.file.epoch) && (s.repo.marker.Some? ==> Known(s, s.repo.marker.value))
  }

  // ----- small facts --------------------------------------------------------

  /** Applying a batch seals exactly what was sealed before or reported by the batch. */
  lemma {:induction false} ApplySeals(c: Cache, files: map<Path, Scanned>, p: Path)
    requires FilesMatch(c, files)
    requires p in c.entries || p in files
    ensures p in ApplyAll(c, files).entries
    ensures var e := ApplyAll(c, files).entries[p];
            if p in files then e.sealed && e.hash == files[p].hash else e == c.entries[p]
  {
    if p in files {
      assert p in Edit(c.entries, p, files[p]) ==> p in Edits(c.entries, files);
    }
  }

  // ----- preservation -------------------------------------------------------

  lemma {:induction false} TrackedStep(s: State, e: Event)
    requires Tracked(s) && Enabled(s, e)
    ensures Tracked(Step(s, e))
  {
    if e.PushApply? {
      forall p | p in s.push.cache.entries || p in s.push.files { ApplySeals(s.push.cache, s.push.files, p); }
    }
  }

  /** What a reader itself does. */
  lemma {:induction false} ReaderOwnStep(s: State, e: Event, id: nat)
    requires Inv(s) && Enabled(s, e) && (e.ReadLoad? || e.ReadRecord? || e.ReadReread?) && e.id == id
    ensures ReaderHonest(Step(s, e), Step(s, e).readers[id])
  {
  }

  /** What others do leaves a reader alone, and its snapshot honest. */
  lemma {:induction false} ReaderOtherStep(s: State, e: Event, id: nat)
    requires Inv(s) && Enabled(s, e) && !e.LoseOne? && (e.LoseAll? ==> LossHarmless(s)) && id in s.readers
    requires Step(s, e).readers.Keys >= {id} && Step(s, e).readers[id] == s.readers[id]
    ensures ReaderHonest(Step(s, e), s.readers[id])
  {
    assert ReaderHonest(s, s.readers[id]);
  }

  lemma {:induction false} ReadersStep(s: State, e: Event, id: nat)
    requires Inv(s) && Enabled(s, e) && !e.LoseOne? && (e.LoseAll? ==> LossHarmless(s))
    requires id in Step(s, e).readers
    ensures ReaderHonest(Step(s, e), Step(s, e).readers[id])
  {
    if (e.ReadLoad? || e.ReadRecord? || e.ReadReread?) && e.id == id {
      ReaderOwnStep(s, e, id);
    } else {
      ReaderOtherStep(s, e, id);
    }
  }

  lemma {:induction false} FileStep(s: State, e: Event)
    requires Inv(s) && Enabled(s, e) && !e.LoseOne? && (e.LoseAll? ==> LossHarmless(s))
    ensures Safe(Step(s, e)) && Known(Step(s, e), Step(s, e).repo.file.epoch)
  {
  }

  lemma {:induction false} PushJobStep(s: State, e: Event)
    requires Inv(s) && Enabled(s, e) && (e.PushScan? || e.PushApply?)
    ensures PushHonest(Step(s, e))
  {
    if e.PushApply? {
      forall p | p in s.push.cache.entries || p in s.push.files { ApplySeals(s.push.cache, s.push.files, p); }
    }
  }

  /** Trusting, rotating, re-reading and writing. */
  lemma {:induction false} PushPhaseStep(s: State, e: Event)
    requires Inv(s) && Enabled(s, e)
    requires e.PushLoad? || e.PushTrust? || e.PushBegin? || e.PushFinalize? || e.PushReread? || e.PushWrite?
    ensures PushHonest(Step(s, e))
  {
  }

  /** What ends the push, and what only readers do. */
  lemma {:induction false} PushRestStep(s: State, e: Event)
    requires Inv(s) && Enabled(s, e)
    requires e.PushAbort? || e.RecoverRead? || e.RecoverWrite? || e.ReadLoad? || e.ReadRecord? || e.ReadReread? ||
             e.ReadWrite?
    ensures PushHonest(Step(s, e))
  {
  }

  /** What happens to the objects under a push. */
  lemma {:induction false} PushObjectsStep(s: State, e: Event)
    requires Inv(s) && Enabled(s, e) && (e.AddObjects? || (e.LoseAll? && LossHarmless(s)))
    ensures PushHonest(Step(s, e))
  {
  }

  lemma {:induction false} PushStep(s: State, e: Event)
    requires Inv(s) && Enabled(s, e) && !e.LoseOne? && (e.LoseAll? ==> LossHarmless(s))
    ensures PushHonest(Step(s, e))
  {
    match e
    case PushScan(_, _, _) => PushJobStep(s, e);
    case PushApply => PushJobStep(s, e);
    case PushLoad(_) => PushPhaseStep(s, e);
    case PushTrust(_) => PushPhaseStep(s, e);
    case PushBegin(_) => PushPhaseStep(s, e);
    case PushFinalize(_, _) => PushPhaseStep(s, e);
    case PushReread => PushPhaseStep(s, e);
    case PushWrite => PushPhaseStep(s, e);
    case AddObjects(_) => PushObjectsStep(s, e);
    case LoseAll => PushObjectsStep(s, e);
    case _ => PushRestStep(s, e);
  }

  lemma {:induction false} InvStep(s: State, e: Event)
    requires Inv(s) && Enabled(s, e) && !e.LoseOne? && (e.LoseAll? ==> LossHarmless(s))
    ensures Inv(Step(s, e))
  {
    TrackedStep(s, e);
    FileStep(s, e);
    PushStep(s, e);
    forall id | id in Step(s, e).readers
      ensures ReaderHonest(Step(s, e), Step(s, e).readers[id])
    {
      ReadersStep(s, e, id);
    }
  }

  lemma {:induction false} InvRun(s: State, es: seq<Event>)
    requires Inv(s) && Runs(s, es) && Benign(s, es)
    ensures Inv(Final(s, es))
    decreases |es|
  {
    if es != [] {
      InvStep(s, es[0]);
      InvRun(Step(s, es[0]), es[1..]);
    }
  }

  // ----- the theorems -------------------------------------------------------

  /** In every run, whenever the on-disk epoch is the marker's, every SEALED entry is fully cached. */
  lemma {:induction false} SealSafety(s: State, es: seq<Event>)
    requires Init(s) && Runs(s, es) && Benign(s, es)
    ensures Safe(Final(s, es))
  {
    InvRun(s, es);
  }

  /**
   A push that trusts seals loses nothing by it: unless `objects/` was lost under it, every
   file it has accepted, checked or not, and every seal it still holds, is fully cached.
   */
  lemma {:induction false} TrustIsEarned(s: State, es: seq<Event>)
    requires Init(s) && Runs(s, es) && Benign(s, es)
    ensures var t := Final(s, es);
            t.push.Scanning? && t.push.cache.trusted && t.repo.marker.Some? ==>
              AllCached(t.repo.objects, t.push.cache.entries) && FilesCached(t.repo.objects, t.push.files)
  {
    InvRun(s, es);
  }

  lemma {:induction false} Prepend(s: State, e: Event, es: seq<Event>)
    requires Enabled(s, e) && Runs(Step(s, e), es) && Benign(Step(s, e), es)
    requires !e.LoseAll? && !e.LoseOne?
    ensures Runs(s, [e] + es) && Benign(s, [e] + es)
    ensures Final(s, [e] + es) == Final(Step(s, e), es)
  {
    assert ([e] + es)[1..] == es;
  }

  /** A push that writes a sealed entry under the marker's epoch, with no objects left, lies. */
  lemma {:induction false} WriteLies(s: State, p: Path)
    requires s.push.Finalized? && s.push.cache.dirty && s.push.cache.invalidated
    requires EpochMatches(s.push.cache.epoch, s.repo.marker) && s.repo.objects == map[]
    requires p in s.push.cache.entries && s.push.cache.entries[p].sealed
    ensures var es := if Whole(s.push.scope) then [PushWrite] else [PushReread] + [PushWrite];
            Runs(s, es) && Benign(s, es) && !Safe(Final(s, es))
  {
    var s' := if Whole(s.push.scope) then s else Step(s, PushReread);
    var f := Step(s', PushWrite).repo.file;
    assert p in f.entries && f.entries[p].sealed && f.epoch == s.push.cache.epoch;
    assert [PushWrite] + [] == [PushWrite];
    Prepend(s', PushWrite, []);
    if !Whole(s.push.scope) { Prepend(s, PushReread, [PushWrite]); }
  }

  /** A rotating push that has verified something and has no objects left: it applies, rotates, writes, and lies. */
  lemma {:induction false} RotationLies(s: State, n: Epoch) returns (es: seq<Event>)
    requires Tracked(s) && s.push.Scanning? && s.push.cache.needsNewEpoch && s.repo.objects == map[]
    requires s.push.jobs == map[] && s.push.verified != {} && n != NO_EPOCH && n !in s.used
    ensures Runs(s, es) && Benign(s, es) && !Safe(Final(s, es))
  {
    var x :| x in s.push.verified;
    ApplySeals(s.push.cache, s.push.files, x.0);
    var s1 := Step(s, PushApply);
    var s2 := Step(s1, PushFinalize(n, true));
    WriteLies(s2, x.0);
    es := if Whole(s.push.scope) then [PushWrite] else [PushReread] + [PushWrite];
    Prepend(s1, PushFinalize(n, true), es);
    es := [PushFinalize(n, true)] + es;
    Prepend(s, PushApply, es);
    es := [PushApply] + es;
  }

  /** The result of a job that checked or wrote its blob just before it was lost. */
  const LOST := Scanned(0, 0, seq(32, _ => 0), false, false, true, 0)

  /** The jobs under way finish first; each reports a blob that is gone. */
  lemma {:induction false} TornJobsLie(s: State, n: Epoch) returns (es: seq<Event>)
    requires Tracked(s) && s.push.Scanning? && s.push.cache.needsNewEpoch && s.repo.objects == map[]
    requires (forall p :: p in s.push.jobs ==> s.push.jobs[p]) && (s.push.jobs != map[] || s.push.verified != {})
    requires n != NO_EPOCH && n !in s.used
    ensures Runs(s, es) && Benign(s, es) && !Safe(Final(s, es))
    decreases |s.push.jobs|
  {
    if s.push.jobs == map[] {
      es := RotationLies(s, n);
    } else {
      var p :| p in s.push.jobs;
      var e := PushScan(p, LOST, map[]);
      TrackedStep(s, e);
      FewerJobs(s.push.jobs, p);
      es := TornJobsLie(Step(s, e), n);
      Prepend(s, e, es);
      es := [e] + es;
    }
  }

  lemma {:induction false} FewerJobs(jobs: map<Path, bool>, p: Path)
    requires p in jobs
    ensures |jobs - {p}| < |jobs|
  {
    assert (jobs - {p}).Keys == jobs.Keys - {p};
    assert |jobs.Keys - {p}| < |jobs.Keys|;
  }

  /** Losing `objects/` under a rotating push that has begun a file job can end in a trusted lie. */
  lemma {:induction false} LossBreaksRotation(s: State, n: Epoch) returns (es: seq<Event>)
    requires Inv(s) && !LossHarmless(s) && n != NO_EPOCH && n !in s.used
    ensures Runs(Step(s, LoseAll), es) && Benign(Step(s, LoseAll), es) && !Safe(Final(Step(s, LoseAll), es))
  {
    TrackedStep(s, LoseAll);
    es := TornJobsLie(Step(s, LoseAll), n);
  }

  /** A loss of the whole directory is survived by every continuation exactly when it is harmless. */
  lemma {:induction false} LossIsHarmlessExactly(s: State, n: Epoch)
    requires Inv(s) && n != NO_EPOCH && n !in s.used
    ensures LossHarmless(s) <==>
            forall es :: Runs(Step(s, LoseAll), es) && Benign(Step(s, LoseAll), es) ==>
              Safe(Final(Step(s, LoseAll), es))
  {
    if LossHarmless(s) {
      InvStep(s, LoseAll);
      forall es | Runs(Step(s, LoseAll), es) && Benign(Step(s, LoseAll), es)
        ensures Safe(Final(Step(s, LoseAll), es))
      {
        InvRun(Step(s, LoseAll), es);
      }
    } else {
      var es := LossBreaksRotation(s, n);
    }
  }

  // ----- recovery -----------------------------------------------------------

  ghost predicate NoLoss(es: seq<Event>) {
    forall i :: 0 <= i < |es| ==> !es[i].LoseAll? && !es[i].LoseOne?
  }

  /** Everything the current push has verified is still there. */
  ghost predicate VerifiedCached(s: State) {
    && (s.push.Scanning? || s.push.Finalized? || s.push.Merging? ==>
          forall x :: x in s.push.verified ==> FullyCached(s.repo.objects, x.1))
    && (s.push.Scanning? ==> forall p :: p in s.push.jobs ==> !s.push.jobs[p])
  }

  lemma {:induction false} TrackedRun(s: State, es: seq<Event>)
    requires Tracked(s) && Runs(s, es)
    ensures Tracked(Final(s, es))
    decreases |es|
  {
    if es != [] {
      TrackedStep(s, es[0]);
      TrackedRun(Step(s, es[0]), es[1..]);
    }
  }

  lemma {:induction false} VerifiedRun(s: State, es: seq<Event>)
    requires VerifiedCached(s) && Runs(s, es) && NoLoss(es)
    ensures VerifiedCached(Final(s, es))
    decreases |es|
  {
    if es != [] {
      assert VerifiedCached(Step(s, es[0])) by { assert !es[0].LoseAll? && !es[0].LoseOne?; }
      VerifiedRun(Step(s, es[0]), es[1..]);
    }
  }

  /**
   From any disk state at all, and whatever is lost on the way, a push that withholds trust
   never skips its write, and the file it leaves, in scope or not, holds only seals this
   push wrote or verified; if nothing was lost meanwhile, they are true.
   */
  lemma {:induction false} SealRecovery(s: State, es: seq<Event>)
    requires s.push.Idle? && Runs(s, es)
    requires var t := Final(s, es); (t.push.Finalized? || t.push.Merging?) && t.push.cache.invalidated
    ensures var t := Final(s, es);
            && (t.push.Finalized? ==> t.push.cache.dirty)
            && (Enabled(t, PushWrite) ==>
                  var f := Step(t, PushWrite).repo.file;
                  && f.epoch == t.push.cache.epoch
                  && SealedVerified(f.entries, t.push.verified)
                  && (NoLoss(es) ==> AllCached(t.repo.objects, f.entries)))
  {
    TrackedRun(s, es);
    if NoLoss(es) { VerifiedRun(s, es); }
  }
}
