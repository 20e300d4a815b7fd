/**
 Where cache entries come from: over every run of the seal protocol, whoever writes,
 merges, recovers or loses objects, each entry in any file, cache or snapshot is one that
 some scan recorded, its seal aside (src/stat_cache.rs, src/scan.rs).
 */
module Provenance {
  import opened Base
  import opened CacheSpec
  import opened SealProtocol

  /** An entry without its seal. */
  function Stem(e: Entry): Entry { e.(sealed := false) }

  type Records = set<(Path, Entry)>

  ghost predicate Stems(es: Entries, rec: Records) { forall p :: p in es ==> (p, Stem(es[p])) in rec }

  /** What a scan result would record is on record; a cache hit records nothing new. */
  ghost predicate ResultStems(p: Path, f: Scanned, rec: Records) {
    !f.cacheHit ==> (p, Stem(NewEntry(f.fsMtime, f.fsSize, f.hash, f.blobSealed, f.observedAt))) in rec
  }

  ghost predicate ResultsStem(files: map<Path, Scanned>, rec: Records) {
    forall p :: p in files ==> ResultStems(p, files[p], rec)
  }

  ghost predicate PushStems(push: Push, rec: Records) {
    match push
    case Idle => true
    case Loaded(_, c) => Stems(c.entries, rec)
    case Scanning(_, c, _, files, _) => Stems(c.entries, rec) && ResultsStem(files, rec)
    case Finalized(_, c, _) => Stems(c.entries, rec)
    case Merging(c, full, _) => Stems(c.entries, rec) && Stems(full.entries, rec)
    case Recovering(full) => Stems(full.entries, rec)
  }

  ghost predicate ReaderStems(r: Reader, rec: Records) {
    Stems(r.cache.entries, rec) && (r.latest.Some? ==> Stems(r.latest.value.entries, rec))
  }

  ghost predicate StateStems(s: State, rec: Records) {
    && Stems(s.repo.file.entries, rec) && PushStems(s.push, rec)
    && forall id :: id in s.readers ==> ReaderStems(s.readers[id], rec)
  }

  /** The results scans report in a run are on record. */
  ghost predicate EventStems(e: Event, rec: Records) {
    match e
    case PushScan(p, f, _) => ResultStems(p, f, rec)
    case ReadRecord(_, p, f) => ResultStems(p, f, rec)
    case _ => true
  }

  lemma {:induction false} EditStems(es: Entries, p: Path, f: Scanned, rec: Records)
    requires Stems(es, rec) && ResultStems(p, f, rec)
    ensures Stems(Edit(es, p, f), rec)
  {
    assert p in es ==> (p, Stem(es[p])) in rec;
  }

  lemma {:induction false} ApplyStems(c: Cache, files: map<Path, Scanned>, rec: Records)
    requires Stems(c.entries, rec) && ResultsStem(files, rec)
    ensures Stems(ApplyAll(c, files).entries, rec)
  {
    forall p | p in files
      ensures Stems(Edit(c.entries, p, files[p]), rec)
    {
      EditStems(c.entries, p, files[p], rec);
    }
  }

  lemma {:induction false} UnsealedStems(es: Entries, rec: Records)
    requires Stems(es, rec)
    ensures Stems(Unsealed(es), rec)
  {
  }

  lemma {:induction false} OverlayStems(a: Entries, b: Entries, rec: Records)
    requires Stems(a, rec) && Stems(b, rec)
    ensures Stems(a + b, rec)
  {
  }

  lemma {:induction false} WrittenStems(s: State, rec: Records)
    requires StateStems(s, rec) && Enabled(s, PushWrite)
    ensures Stems(Written(s).entries, rec)
  {
    if s.push.Merging? {
      UnsealedStems(s.push.full.entries, rec);
      OverlayStems(s.push.full.entries, s.push.cache.entries, rec);
      OverlayStems(Unsealed(s.push.full.entries), s.push.cache.entries, rec);
    }
  }

  lemma {:induction false} ReaderMergeStems(r: Reader, rec: Records)
    requires ReaderStems(r, rec) && r.latest.Some?
    ensures Stems(ReadonlyMerge(r.cache, r.latest.value).entries, rec)
  {
  }

  lemma {:induction false} TrustStems(c: Cache, marker: Option<Epoch>, ok: bool, rec: Records)
    requires Stems(c.entries, rec)
    ensures Stems(ComputeTrust(c, marker, ok).entries, rec)
  {
    UnsealedStems(c.entries, rec);
  }

  lemma {:induction false} FileStemsStep(s: State, e: Event, rec: Records)
    requires StateStems(s, rec) && Enabled(s, e) && EventStems(e, rec)
    ensures Stems(Step(s, e).repo.file.entries, rec)
  {
    match e
    case PushWrite => WrittenStems(s, rec);
    case RecoverWrite => UnsealedStems(s.push.full.entries, rec);
    case ReadWrite(id) => if s.readers[id].latest.Some? { ReaderMergeStems(s.readers[id], rec); }
    case _ =>
  }

  lemma {:induction false} PushStemsStep(s: State, e: Event, rec: Records)
    requires StateStems(s, rec) && Enabled(s, e) && EventStems(e, rec)
    ensures PushStems(Step(s, e).push, rec)
  {
    match e
    case PushTrust(ok) => TrustStems(s.push.cache, s.repo.marker, ok, rec);
    case PushApply => ApplyStems(s.push.cache, s.push.files, rec);
    case _ =>
  }

  lemma {:induction false} ReaderStemsStep(s: State, e: Event, rec: Records, id: nat)
    requires StateStems(s, rec) && Enabled(s, e) && EventStems(e, rec) && id in Step(s, e).readers
    ensures ReaderStems(Step(s, e).readers[id], rec)
  {
    if e.ReadRecord? && e.id == id {
      var r := s.readers[id];
      EditStems(r.cache.entries, e.path, e.file, rec);
      OverlayStems(r.cache.entries, Edit(r.cache.entries, e.path, e.file), rec);
    }
  }

  lemma {:induction false} StemsRun(s: State, es: seq<Event>, rec: Records)
    requires StateStems(s, rec) && Runs(s, es) && forall i :: 0 <= i < |es| ==> EventStems(es[i], rec)
    ensures StateStems(Final(s, es), rec)
    decreases |es|
  {
    if es != [] {
      assert EventStems(es[0], rec);
      FileStemsStep(s, es[0], rec);
      PushStemsStep(s, es[0], rec);
      forall id | id in Step(s, es[0]).readers
        ensures ReaderStems(Step(s, es[0]).readers[id], rec)
      {
        ReaderStemsStep(s, es[0], rec, id);
      }
      StemsRun(Step(s, es[0]), es[1..], rec);
    }
  }

  /** Every entry a push works with stems from the file it started from or a result reported since. */
  lemma {:induction false} EntriesAreRecorded(s: State, es: seq<Event>, rec: Records)
    requires s.push.Idle? && s.readers == map[] && Stems(s.repo.file.entries, rec)
    requires Runs(s, es) && forall i :: 0 <= i < |es| ==> EventStems(es[i], rec)
    ensures Stems(Final(s, es).repo.file.entries, rec) && PushStems(Final(s, es).push, rec)
  {
    StemsRun(s, es, rec);
  }
}
