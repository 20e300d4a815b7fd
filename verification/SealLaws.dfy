/**
 What the seal protocol is worth: seals that were written are trusted by the next push, a
 push over an unchanged tree writes nothing, and every write says path by path what becomes
 of the entries that were there (src/stat_cache.rs).
 */
module SealLaws {
  import opened Base
  import opened CacheSpec
  import opened SealProtocol

  // ----- seals are worth having ---------------------------------------------

  /** Events that neither break a push off nor take the marker or the file away from it. */
  predicate Tame(e: Event) {
    !e.PushAbort? && !e.LoseAll? && !e.ReadWrite? && (e.PushFinalize? ==> e.markerWritten)
  }

  ghost predicate AllTame(es: seq<Event>) { forall i :: 0 <= i < |es| ==> Tame(es[i]) }

  /** The file's epoch is the marker's. */
  ghost predicate Matched(s: State) { MarkedBy(s.repo.file.epoch, s.repo.marker) }

  /** A real epoch, and the marker holds it. */
  predicate MarkedBy(epoch: Epoch, marker: Option<Epoch>) { epoch != seq(16, _ => 0) && marker == Some(epoch) }

  /** How the epoch in hand, the file's and the marker's relate while pushes go on; `done` after the first. */
  ghost predicate EpochInv(s: State, done: bool) {
    match s.push
    case Idle => done ==> Matched(s)
    case Loaded(_, c) => c.epoch == s.repo.file.epoch
    case Scanning(_, c, _, _, _) => c.epoch == s.repo.file.epoch && (c.needsNewEpoch <==> !Matched(s))
    case Finalized(_, c, _) =>
      MarkedBy(c.epoch, s.repo.marker) && (c.epoch == s.repo.file.epoch || (c.dirty && c.invalidated))
    case Merging(c, full, _) =>
      MarkedBy(c.epoch, s.repo.marker) && full.epoch == s.repo.file.epoch
      && (c.epoch == full.epoch || c.invalidated)
    case Recovering(full) => full.epoch == s.repo.file.epoch && (done ==> Matched(s))
  }

  lemma {:induction false} EpochStep(s: State, e: Event, done: bool)
    requires Tracked(s) && EpochInv(s, done) && Enabled(s, e) && Tame(e)
    ensures EpochInv(Step(s, e), done || e.PushWrite?)
  {
  }

  lemma {:induction false} EpochRun(s: State, es: seq<Event>, done: bool)
    requires Tracked(s) && EpochInv(s, done) && Runs(s, es) && AllTame(es)
    ensures EpochInv(Final(s, es), done || exists i :: 0 <= i < |es| && es[i].PushWrite?)
    decreases |es|
  {
    if es != [] {
      EpochStep(s, es[0], done);
      TrackedStep(s, es[0]);
      EpochRun(Step(s, es[0]), es[1..], done || es[0].PushWrite?);
      if done || es[0].PushWrite? {
      } else if i :| 0 <= i < |es[1..]| && es[1..][i].PushWrite? {
        assert es[i + 1].PushWrite?;
      }
    }
  }

  /**
   Seals are worth having. Start anywhere, even from a lying disk, and let pushes and
   recoveries run undisturbed, the last of them to its end, then anything that leaves file
   and marker alone. The next push with a clean sample trusts the file: it clears nothing,
   asks for no new epoch, and works with exactly the entries in its scope, seals included.
   */
  lemma {:induction false} SealsAreWorthHaving(s: State, es: seq<Event>, later: State, scope: Option<Path>)
    requires s.push.Idle? && Runs(s, es) && AllTame(es) && Final(s, es).push.Idle?
    requires exists i :: 0 <= i < |es| && es[i].PushWrite?
    requires later.push.Idle? && later.repo.file == Final(s, es).repo.file
    requires later.repo.marker == Final(s, es).repo.marker
    ensures var c := Step(Step(later, PushLoad(scope)), PushTrust(true)).push.cache;
            && c.trusted && !c.needsNewEpoch && !c.invalidated && !c.dirty && c.epoch == later.repo.file.epoch
            && (forall p :: p in c.entries <==> p in later.repo.file.entries && InsideOf(p, scope))
            && forall p :: p in c.entries ==> c.entries[p] == later.repo.file.entries[p]
  {
    EpochRun(s, es, false);
  }

  /** In the scope: everywhere for none or the root, else the path itself or what lies below it. */
  predicate InsideOf(p: Path, scope: Option<Path>) {
    scope.None? || scope.value == [] || p == scope.value || StartsWith(p, scope.value + [SLASH])
  }

  lemma {:induction false} InScopeExactly(es: Entries, scope: Option<Path>, p: Path)
    ensures p in InScope(es, scope) <==> p in es && InsideOf(p, scope)
    ensures p in InScope(es, scope) ==> InScope(es, scope)[p] == es[p]
  {
    if scope.Some? && scope.value != [] {
      var a := scope.value;
      if StartsWith(p, a + [SLASH]) {
        assert p[..|a| + 1][..|a|] == p[..|a|] && (a + [SLASH])[..|a|] == a;
        assert p[..|a| + 1][|a|] == p[|a|];
      }
      if PathInScope(p, a) && p != a {
        assert p[..|a| + 1] == p[..|a|] + [p[|a|]];
      }
    }
  }

  // ----- a push over an unchanged tree --------------------------------------

  /** Every job finds its file sealed in the cache. */
  ghost predicate NothingNew(s: State, e: Event) {
    e.PushScan? && s.push.Scanning? ==>
      e.file.cacheHit && e.path in s.push.cache.entries && s.push.cache.entries[e.path].sealed
  }

  ghost predicate AllOld(s: State, es: seq<Event>)
    requires Runs(s, es)
    decreases |es|
  {
    es != [] ==> !es[0].PushAbort? && NothingNew(s, es[0]) && AllOld(Step(s, es[0]), es[1..])
  }

  /** The trusted cache as it was loaded. */
  ghost predicate Untouched(s: State, c: Cache) {
    match s.push
    case Scanning(_, d, _, files, _) =>
      d == c && forall p :: p in files ==> files[p].cacheHit && p in c.entries && c.entries[p].sealed
    case Finalized(_, d, _) => d == c
    case _ => false
  }

  lemma {:induction false} UntouchedStep(s: State, e: Event, c: Cache)
    requires Untouched(s, c) && !c.dirty && !c.needsNewEpoch
    requires Enabled(s, e) && !e.PushAbort? && !e.PushWrite? && NothingNew(s, e)
    ensures Untouched(Step(s, e), c)
  {
    if e.PushApply? {
      assert Edits(c.entries, s.push.files) == map[];
      assert c.entries + map[] == c.entries && c.changed + {} == c.changed;
    }
  }

  /** It writes nothing: with trust held and every file found sealed, the file and the marker stay as they are. */
  lemma {:induction false} QuietPushWritesNothing(s: State, es: seq<Event>, c: Cache)
    requires Untouched(s, c) && !c.dirty && !c.needsNewEpoch && Runs(s, es) && AllOld(s, es)
    requires forall i :: 0 <= i < |es| ==> !es[i].PushWrite? && !es[i].ReadWrite? && !es[i].LoseAll?
    requires Enabled(Final(s, es), PushWrite)
    ensures Step(Final(s, es), PushWrite).repo.file == s.repo.file
    ensures Step(Final(s, es), PushWrite).repo.marker == s.repo.marker
    decreases |es|
  {
    if es != [] {
      UntouchedStep(s, es[0], c);
      QuietPushWritesNothing(Step(s, es[0]), es[1..], c);
    }
  }

  // ----- what a push leaves in the file -------------------------------------

  /**
   Path by path: what the cache holds is in the new file; any other entry is there exactly if
   it was before, unchanged except that a push that withheld trust clears its seal.
   */
  ghost predicate Merged(before: Entries, after: Entries, c: Cache) {
    forall p ::
      && (p in after <==> p in before || p in c.entries)
      && (p in c.entries ==> p in after && after[p] == c.entries[p])
      && (p in before && p !in c.entries ==>
            p in after && after[p] == if c.invalidated then before[p].(sealed := false) else before[p])
  }

  /** The push's cache against the file it was loaded from. */
  ghost predicate FromFile(s: State, file: CacheFile, scope: Option<Path>) {
    && s.repo.file == file
    && match s.push
       case Loaded(sc, c) => sc == scope && c == LoadScoped(file, scope)
       case Scanning(sc, c, _, _, _) => sc == scope && Covers(c, InScope(file.entries, scope))
       case Finalized(sc, c, _) => sc == scope && Covers(c, InScope(file.entries, scope))
       case Merging(c, full, _) => !Whole(scope) && full == file
       case _ => false
  }

  /** The cache still has every path it was loaded with, and exactly what was loaded unless it says it is dirty. */
  ghost predicate Covers(c: Cache, loaded: Entries) {
    loaded.Keys <= c.entries.Keys && (!c.dirty ==> c.entries == loaded)
  }

  lemma {:induction false} FromFileStep(s: State, e: Event, file: CacheFile, scope: Option<Path>)
    requires FromFile(s, file, scope) && Enabled(s, e) && !e.PushAbort? && !e.PushWrite? && !e.ReadWrite?
    ensures FromFile(Step(s, e), file, scope)
  {
    if e.PushApply? && Edits(s.push.cache.entries, s.push.files) == map[] {
      assert s.push.cache.entries + map[] == s.push.cache.entries;
    }
    if e.PushTrust? && !AnySealed(s.push.cache.entries) {
      assert Unsealed(s.push.cache.entries) == s.push.cache.entries;
    }
  }

  lemma {:induction false} WriteMerges(s: State, file: CacheFile, scope: Option<Path>)
    requires Tracked(s) && FromFile(s, file, scope) && Enabled(s, PushWrite)
    ensures Merged(file.entries, Step(s, PushWrite).repo.file.entries, s.push.cache)
  {
  }

  /** A push loads its scope, runs, and writes: nothing it did not scan is lost, nothing it recorded is missing. */
  lemma {:induction false} PushKeepsTheRest(s: State, es: seq<Event>, file: CacheFile, scope: Option<Path>)
    requires Tracked(s) && FromFile(s, file, scope) && Runs(s, es)
    requires forall i :: 0 <= i < |es| ==> !es[i].PushAbort? && !es[i].PushWrite? && !es[i].ReadWrite?
    requires Enabled(Final(s, es), PushWrite)
    ensures Merged(file.entries, Step(Final(s, es), PushWrite).repo.file.entries, Final(s, es).push.cache)
    decreases |es|
  {
    if es == [] {
      WriteMerges(s, file, scope);
    } else {
      FromFileStep(s, es[0], file, scope);
      TrackedStep(s, es[0]);
      PushKeepsTheRest(Step(s, es[0]), es[1..], file, scope);
    }
  }

  /** Whoever else writes meanwhile: a scoped push drops nothing that its re-read saw. */
  lemma {:induction false} RereadSurvives(s: State, es: seq<Event>)
    requires s.push.Merging? && Runs(s, es) && forall i :: 0 <= i < |es| ==> !es[i].PushAbort? && !es[i].PushWrite?
    ensures var t := Final(s, es);
            && Enabled(t, PushWrite) && t.push == s.push
            && Merged(s.push.full.entries, Step(t, PushWrite).repo.file.entries, s.push.cache)
            && Step(t, PushWrite).repo.file.epoch ==
               if s.push.cache.invalidated then s.push.cache.epoch else s.push.full.epoch
    decreases |es|
  {
    if es != [] { RereadSurvives(Step(s, es[0]), es[1..]); }
  }

  /** The jobs of the push stay in its scope. */
  ghost predicate InsideEvents(es: seq<Event>, scope: Option<Path>) {
    forall i :: 0 <= i < |es| && es[i].PushScan? ==> InsideOf(es[i].path, scope)
  }

  ghost predicate InsidePush(s: State, scope: Option<Path>) {
    match s.push
    case Loaded(_, c) => forall p :: p in c.entries ==> InsideOf(p, scope)
    case Scanning(_, c, _, files, _) =>
      (forall p :: p in c.entries ==> InsideOf(p, scope)) && forall p :: p in files ==> InsideOf(p, scope)
    case Finalized(_, c, _) => forall p :: p in c.entries ==> InsideOf(p, scope)
    case Merging(c, _, _) => forall p :: p in c.entries ==> InsideOf(p, scope)
    case _ => false
  }

  lemma {:induction false} InsideRun(s: State, es: seq<Event>, scope: Option<Path>)
    requires InsidePush(s, scope) && Runs(s, es) && InsideEvents(es, scope)
    requires forall i :: 0 <= i < |es| ==> !es[i].PushAbort? && !es[i].PushWrite?
    ensures InsidePush(Final(s, es), scope)
    decreases |es|
  {
    if es != [] {
      assert es[0].PushScan? ==> InsideOf(es[0].path, scope);
      InsideRun(Step(s, es[0]), es[1..], scope);
    }
  }

  /** So a push of `scope` keeps every entry outside, its seal too unless it withheld trust. */
  lemma {:induction false} OutsideSurvives(s: State, es: seq<Event>, scope: Option<Path>, p: Path)
    requires s.push.Idle? && Runs(Step(s, PushLoad(scope)), es) && InsideEvents(es, scope) && !InsideOf(p, scope)
    requires forall i :: 0 <= i < |es| ==> !es[i].PushAbort? && !es[i].PushWrite? && !es[i].ReadWrite?
    requires Enabled(Final(Step(s, PushLoad(scope)), es), PushWrite)
    ensures var t := Final(Step(s, PushLoad(scope)), es);
            var before, after := s.repo.file.entries, Step(t, PushWrite).repo.file.entries;
            && (p in after <==> p in before)
            && (p in after ==>
                  after[p] == if t.push.cache.invalidated then before[p].(sealed := false) else before[p])
  {
    var s1 := Step(s, PushLoad(scope));
    forall q | q in s1.push.cache.entries
      ensures InsideOf(q, scope)
    {
      InScopeExactly(s.repo.file.entries, scope, q);
    }
    InsideRun(s1, es, scope);
    PushKeepsTheRest(s1, es, s.repo.file, scope);
  }

  // ----- what a reader leaves in the file -----------------------------------

  /** Where the reader's cache differs from what it loaded, it has marked the path; it forgets no path. */
  ghost predicate Marked(c: Cache, loaded: Entries) {
    && loaded.Keys <= c.entries.Keys && c.changed <= c.entries.Keys
    && forall p :: p in c.entries && !(p in loaded && c.entries[p] == loaded[p]) ==> p in c.changed
  }

  lemma {:induction false} MarkedRun(s: State, es: seq<Event>, id: nat, loaded: Entries)
    requires id in s.readers && Marked(s.readers[id].cache, loaded)
    requires Runs(s, es) && forall i :: 0 <= i < |es| ==> es[i] != ReadWrite(id)
    ensures id in Final(s, es).readers && Marked(Final(s, es).readers[id].cache, loaded)
    decreases |es|
  {
    if es != [] { MarkedRun(Step(s, es[0]), es[1..], id, loaded); }
  }

  /**
   A read-only scan writes what it found to differ and nothing else: every entry that differs
   from what it loaded is in the file afterwards; every path it did not mark, and the epoch,
   are as its re-read saw them.
   */
  lemma {:induction false} ReaderWritesItsChanges(s: State, scope: Option<Path>, id: nat, es: seq<Event>)
    requires id !in s.readers && Runs(Step(s, ReadLoad(id, scope)), es)
    requires forall i :: 0 <= i < |es| ==> es[i] != ReadWrite(id)
    requires Enabled(Final(Step(s, ReadLoad(id, scope)), es), ReadWrite(id))
    ensures var t := Final(Step(s, ReadLoad(id, scope)), es);
            var r, after := t.readers[id], Step(t, ReadWrite(id)).repo.file;
            var loaded := InScope(s.repo.file.entries, scope);
            && (r.cache.changed == {} ==> after == t.repo.file && r.cache.entries == loaded)
            && (r.cache.changed != {} ==>
                  && after.epoch == r.latest.value.epoch
                  && forall p ::
                       && (p in r.cache.entries && !(p in loaded && r.cache.entries[p] == loaded[p]) ==>
                             p in after.entries && after.entries[p] == r.cache.entries[p])
                       && (p !in r.cache.changed ==>
                             && (p in after.entries <==> p in r.latest.value.entries)
                             && (p in after.entries ==> after.entries[p] == r.latest.value.entries[p])))
  {
    MarkedRun(Step(s, ReadLoad(id, scope)), es, id, InScope(s.repo.file.entries, scope));
  }

  /** A recovery keeps every entry it re-read, without its seal, and the epoch. */
  lemma {:induction false} RecoveryKeepsEntries(s: State)
    requires s.push.Recovering?
    ensures var before, after := s.push.full, Step(s, RecoverWrite).repo.file;
            && after.epoch == before.epoch && after.entries.Keys == before.entries.Keys
            && forall p :: p in after.entries ==> after.entries[p] == before.entries[p].(sealed := false)
  {
  }

  // ----- what the steps do to the repository --------------------------------

  /** A full push's last three steps leave the file and the marker its three writes leave. */
  lemma {:induction false} PushLeaves(s: State, n: Epoch, written: bool)
    requires s.push.Scanning? && Whole(s.push.scope) && s.push.jobs == map[]
    requires n != NO_EPOCH && n !in s.used
    ensures var c := ApplyAll(s.push.cache, s.push.files);
            var t := Step(Step(Step(s, PushApply), PushFinalize(n, written)), PushWrite);
            && t.repo.objects == s.repo.objects && t.push.Idle? && n in t.used
            && t.repo.marker == (if c.needsNewEpoch && written then Some(n) else s.repo.marker)
            && t.repo.file == (if c.needsNewEpoch then CacheFile(c.entries, n)
                               else if c.dirty then CacheFile(c.entries, c.epoch) else s.repo.file)
  {
  }

  /** What a reader records: a miss as it was observed and without a seal, and no other path. */
  lemma {:induction false} ReaderRecords(s: State, id: nat, p: Path, f: Scanned)
    requires Enabled(s, ReadRecord(id, p, f))
    ensures var before, after := s.readers[id].cache.entries, Step(s, ReadRecord(id, p, f)).readers[id].cache.entries;
            && (!f.cacheHit ==>
                  p in after && after[p].hash == f.hash && after[p].fsSize == f.fsSize && !after[p].sealed
                  && after[p].mtimeSecs * NANOS + after[p].mtimeNanos == f.fsMtime)
            && (f.cacheHit ==> after == before)
            && forall q :: q != p ==> (q in after <==> q in before) && (q in after ==> after[q] == before[q])
  {
    var es := s.readers[id].cache.entries;
    if f.cacheHit {
      assert f.blobSealed ==> es[p].(sealed := true) == es[p];
      assert es + map[] == es;
    }
  }
}
