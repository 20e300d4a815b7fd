/**
 `StatCache` as the source runs it: an object whose methods edit its fields in place and
 rewrite the file. Each method is proved to do to the fields exactly what the function of
 `CacheSpec` does to the value, so the protocol theorems are about these methods.
 */
module CacheOps {
  import opened Base
  import opened CacheSpec
  import Sampling
  import SealLaws

  /** The on-disk state a cache is read from and written to. */
  class Disk {
    var file: CacheFile
    var marker: Option<Epoch>
    var objects: Objects
  }

  /** Clear the seals of a map, entry by entry. */
  method ClearSeals(was: Entries) returns (es: Entries, any: bool)
    ensures es == Unsealed(was) && any == AnySealed(was)
  {
    es, any := was, false;
    var todo := was.Keys;
    while todo != {}
      invariant todo <= was.Keys == es.Keys
      invariant forall p :: p in was ==> es[p] == if p in todo then was[p] else Unsealed(was)[p]
      invariant any == exists p :: p in was && p !in todo && was[p].sealed
      decreases |todo|
    {
      var p :| p in todo;
      if es[p].sealed {
        es := es[p := es[p].(sealed := false)];
        any := true;
      }
      todo := todo - {p};
    }
  }

  /** The entry says what was observed, and is unsafe exactly for a file less than three seconds old then. */
  ghost predicate Observed(e: Entry, mtime: Instant, size: U64, hash: Hash, sealed: bool, at: Instant) {
    && e.fsSize == size && e.hash == hash && e.sealed == sealed
    && e.mtimeSecs * NANOS + e.mtimeNanos == mtime && e.mtimeNanos < NANOS
    && (e.isUnsafe <==> at < 0 || at / NANOS < e.mtimeSecs + 3)
  }

  /** All paths but this one are as before. */
  ghost predicate SameElsewhere(es: Entries, was: Entries, p: Path) {
    forall q :: q != p ==> (q in es <==> q in was) && (q in es ==> es[q] == was[q])
  }

  /** What one file's result leaves at its path: a miss is recorded, a verified hit sealed, any other hit left alone. */
  ghost predicate AppliedAt(es: Entries, was: Entries, p: Path, f: Scanned) {
    if !f.cacheHit then p in es && Observed(es[p], f.fsMtime, f.fsSize, f.hash, f.blobSealed, f.observedAt)
    else (p in es <==> p in was) && (p in es ==> es[p] == if f.blobSealed then was[p].(sealed := true) else was[p])
  }

  ghost predicate ResultAt(es: Entries, was: Entries, p: Path, files: map<Path, Scanned>) {
    if p in files then AppliedAt(es, was, p, files[p]) else (p in es <==> p in was) && (p in es ==> es[p] == was[p])
  }

  class StatCache {
    var entries: Entries
    var dirty: bool
    var epoch: Epoch
    var trusted: bool
    var needsNewEpoch: bool
    var invalidated: bool
    var changed: set<Path>

    ghost function View(): Cache
      reads this
    {
      Cache(entries, dirty, epoch, trusted, needsNewEpoch, invalidated, changed)
    }

    /** `read` for no scope, `read_scoped` for one. */
    constructor Read(disk: Disk, scope: Option<Path>)
      ensures View() == LoadScoped(disk.file, scope)
      ensures !dirty && !trusted && !needsNewEpoch && !invalidated && changed == {} && epoch == disk.file.epoch
      ensures forall p :: p in entries ==> p in disk.file.entries && entries[p] == disk.file.entries[p]
      ensures forall p :: p in disk.file.entries ==> (p in entries <==> SealLaws.InsideOf(p, scope))
    {
      entries := InScope(disk.file.entries, scope);
      forall p { SealLaws.InScopeExactly(disk.file.entries, scope, p); }
      dirty, epoch := false, disk.file.epoch;
      trusted, needsNewEpoch, invalidated, changed := false, false, false, {};
    }

    /** Insert or replace an entry. */
    method Update(p: Path, mtime: Instant, size: U64, hash: Hash, sealed: bool, observedAt: Instant)
      modifies this
      ensures View() == Overlay(old(View()), Diff(old(entries), p, NewEntry(mtime, size, hash, sealed, observedAt)))
      ensures p in entries && Observed(entries[p], mtime, size, hash, sealed, observedAt)
      ensures SameElsewhere(entries, old(entries), p)
      ensures entries == old(entries) ==> dirty == old(dirty) && changed == old(changed)
      ensures entries != old(entries) ==> dirty && changed == old(changed) + {p}
    {
      var e := NewEntry(mtime, size, hash, sealed, observedAt);
      if p !in entries || entries[p] != e {
        dirty := true;
        changed := changed + {p};
      }
      ghost var before := entries;
      entries := entries[p := e];
      assert p in before && before[p] == e ==> entries == before;
    }

    /** Set the seal of an existing, unsealed entry. */
    method MarkSealed(p: Path) returns (flipped: bool)
      modifies this
      ensures View() == Overlay(old(View()), SealEdit(old(entries), p))
      ensures flipped == (p in old(entries) && !old(entries)[p].sealed)
      ensures entries == if flipped then old(entries)[p := old(entries)[p].(sealed := true)] else old(entries)
      ensures dirty == (old(dirty) || flipped) && changed == old(changed) + if flipped then {p} else {}
    {
      flipped := p in entries && !entries[p].sealed;
      if flipped {
        entries := entries[p := entries[p].(sealed := true)];
        dirty := true;
        changed := changed + {p};
      }
    }

    /** Clear every seal. */
    method ClearAllSealed() returns (any: bool)
      modifies this`entries, this`dirty
      ensures View() == CacheSpec.ClearAllSealed(old(View()))
      ensures any == exists p :: p in old(entries) && old(entries)[p].sealed
      ensures dirty == (old(dirty) || any)
    {
      entries, any := ClearSeals(entries);
      if any { dirty := true; }
    }

    /** Decide once whether this scan may trust seals; a bad verdict clears the visible ones. */
    method ComputeSealsTrusted(disk: Disk, sampleMax: U64) returns (ghost sampleOk: bool)
      modifies this
      ensures View() == ComputeTrust(old(View()), disk.marker, sampleOk)
      ensures !sampleOk ==>
                exists p :: p in Sampling.SealedPaths(old(entries)) && !FullyCached(disk.objects, old(entries)[p].hash)
      ensures sampleOk && EpochMatches(old(epoch), disk.marker) ==>
              Sampling.CleanSample(old(entries), disk.objects, sampleMax)
      ensures trusted <==> old(epoch) != seq(16, _ => 0) && disk.marker == Some(old(epoch)) && sampleOk
      ensures needsNewEpoch <==> !(old(epoch) != seq(16, _ => 0) && disk.marker == Some(old(epoch)))
      ensures trusted ==> entries == old(entries) && dirty == old(dirty) && invalidated == old(invalidated)
      ensures !trusted ==> invalidated && entries == Unsealed(old(entries))
    {
      sampleOk := true;
      if !(epoch != NO_EPOCH && disk.marker == Some(epoch)) {
        trusted, needsNewEpoch, invalidated := false, true, true;
        var _ := ClearAllSealed();
        return;
      }
      needsNewEpoch := false;
      var ok, _, _, _ := Sampling.SampleVerify(entries, disk.objects, sampleMax);
      sampleOk := ok;
      trusted := ok;
      if !ok {
        invalidated := true;
        var _ := ClearAllSealed();
      }
    }

    /** Rotate to `newEpoch` if this scan saw a mismatch; writing the marker is best-effort. */
    method FinalizeSealEpoch(disk: Disk, newEpoch: Epoch, markerWritten: bool)
      modifies this, disk`marker
      ensures View() == Finalize(old(View()), newEpoch)
      ensures disk.marker == if old(needsNewEpoch) && markerWritten then Some(newEpoch) else old(disk.marker)
      ensures !needsNewEpoch && entries == old(entries) && trusted == old(trusted) && invalidated == old(invalidated)
      ensures epoch == (if old(needsNewEpoch) then newEpoch else old(epoch)) && dirty == (old(needsNewEpoch || dirty))
    {
      if !needsNewEpoch { return; }
      if markerWritten { disk.marker := Some(newEpoch); }
      epoch, dirty, needsNewEpoch := newEpoch, true, false;
    }

    method WriteIfDirty(disk: Disk) returns (wrote: bool)
      modifies this`dirty, disk`file
      ensures wrote == old(dirty) && !dirty
      ensures disk.file == if old(dirty) then CacheFile(entries, epoch) else old(disk.file)
    {
      wrote := dirty;
      if dirty {
        disk.file := CacheFile(entries, epoch);
        dirty := false;
      }
    }

    /** Merge a scoped scan into the file as it is now. */
    method WriteScopedMerge(disk: Disk, scope: Path) returns (wrote: bool)
      modifies this`dirty, disk`file
      ensures wrote == old(dirty) && !dirty
      ensures disk.file == if !old(dirty) then old(disk.file)
                           else if scope == [] then CacheFile(entries, epoch)
                           else ScopedMerge(old(View()), old(disk.file))
      ensures wrote && scope != [] ==>
                && SealLaws.Merged(old(disk.file.entries), disk.file.entries, old(View()))
                && disk.file.epoch == if old(invalidated) then old(epoch) else old(disk.file.epoch)
    {
      if scope == [] {
        wrote := WriteIfDirty(disk);
        return;
      }
      if !dirty { return false; }
      var full := new StatCache.Read(disk, None);
      assert full.entries == disk.file.entries;
      if invalidated {
        var _ := full.ClearAllSealed();
        full.epoch := epoch;
      }
      disk.file := CacheFile(full.entries + entries, full.epoch);
      dirty := false;
      wrote := true;
    }

    /** Path by path: a changed path has this cache's entry, every other is as it was. */
    twostate predicate Overlaid(before: Entries, after: Entries)
      reads this
    {
      forall p ::
        if p in old(changed) && p in old(entries) then p in after && after[p] == old(entries)[p]
        else (p in after <==> p in before) && (p in after ==> after[p] == before[p])
    }

    /** Overlay the changed entries onto the file as it is now. */
    method WriteReadonlyMerge(disk: Disk) returns (wrote: bool)
      modifies this`dirty, this`changed, disk`file
      ensures wrote == (old(changed) != {})
      ensures disk.file == if wrote then ReadonlyMerge(old(View()), old(disk.file)) else old(disk.file)
      ensures changed == {} && (wrote ==> !dirty)
      ensures wrote ==> disk.file.epoch == old(disk.file.epoch) && Overlaid(old(disk.file.entries), disk.file.entries)
    {
      if changed == {} { return false; }
      var latest := disk.file.entries;
      var todo := changed;
      while todo != {}
        invariant todo <= changed
        invariant latest == disk.file.entries + map p | p in changed && p !in todo && p in entries :: entries[p]
        decreases |todo|
      {
        var p :| p in todo;
        if p in entries { latest := latest[p := entries[p]]; }
        todo := todo - {p};
      }
      disk.file := CacheFile(latest, disk.file.epoch);
      changed, dirty := {}, false;
      wrote := true;
    }

    /** Record one file's result. */
    method ApplyFile(p: Path, f: Scanned)
      modifies this
      ensures View() == Overlay(old(View()), Edit(old(entries), p, f))
      ensures AppliedAt(entries, old(entries), p, f) && SameElsewhere(entries, old(entries), p)
    {
      OverlayNothing(View());
      if !f.cacheHit {
        Update(p, f.fsMtime, f.fsSize, f.hash, f.blobSealed, f.observedAt);
      } else if f.blobSealed {
        var _ := MarkSealed(p);
      }
    }

    /** Record one scan's results, in whatever order the map yields them. */
    method ApplyScanned(files: map<Path, Scanned>)
      modifies this
      ensures View() == ApplyAll(old(View()), files)
      ensures forall p :: ResultAt(entries, old(entries), p, files)
    {
      ghost var c0 := View();
      OverlayNothing(c0);
      var todo := files.Keys;
      assert Edits(c0.entries, files - todo) == map[];
      while todo != {}
        invariant todo <= files.Keys
        invariant View() == ApplyAll(c0, files - todo)
        decreases |todo|
      {
        var p :| p in todo;
        ApplyStep(c0, files, todo, p);
        ApplyFile(p, files[p]);
        todo := todo - {p};
      }
      assert files - {} == files;
      forall p { AppliedAll(c0, files, p); }
    }

    /** Record a scan's results and persist the cache the way its mode requires. */
    method Refresh(files: map<Path, Scanned>, disk: Disk, writeBlobs: bool, newEpoch: Epoch, markerWritten: bool)
      modifies this, disk`marker, disk`file
      ensures var c := ApplyAll(old(View()), files);
              if writeBlobs then
                && disk.marker == (if c.needsNewEpoch && markerWritten then Some(newEpoch) else old(disk.marker))
                && disk.file == (if Finalize(c, newEpoch).dirty
                                 then CacheFile(c.entries, Finalize(c, newEpoch).epoch) else old(disk.file))
              else
                && disk.marker == old(disk.marker)
                && disk.file == (if c.changed != {} then ReadonlyMerge(c, old(disk.file)) else old(disk.file))
    {
      ApplyScanned(files);
      if writeBlobs {
        FinalizeSealEpoch(disk, newEpoch, markerWritten);
        var _ := WriteIfDirty(disk);
      } else {
        var _ := WriteReadonlyMerge(disk);
      }
    }
  }

  lemma {:induction false} OverlayNothing(c: Cache)
    ensures Overlay(c, map[]) == c
  {
  }

  /** A second overlay at another path extends the first. */
  lemma {:induction false} OverlayTwice(c: Cache, m: Entries, k: Entries)
    requires m.Keys !! k.Keys
    ensures Overlay(Overlay(c, m), k) == Overlay(c, m + k)
  {
    assert c.entries + m + k == c.entries + (m + k);
    assert c.changed + m.Keys + k.Keys == c.changed + (m + k).Keys;
    assert m == map[] && k == map[] <==> m + k == map[] by {
      if m != map[] { var p :| p in m; assert p in m + k; }
      if k != map[] { var p :| p in k; assert p in m + k; }
    }
  }

  /** What one result edits depends only on the entry at its path. */
  lemma {:induction false} EditLocal(es: Entries, es1: Entries, p: Path, f: Scanned)
    requires p in es <==> p in es1
    requires p in es ==> es[p] == es1[p]
    ensures Edit(es, p, f) == Edit(es1, p, f) && Edit(es, p, f).Keys <= {p}
  {
  }

  lemma {:induction false} EditsNext(es: Entries, files: map<Path, Scanned>, p: Path, f: Scanned)
    requires p !in files
    ensures Edits(es, files[p := f]) == Edits(es, files) + Edit(es, p, f)
  {
    EditLocal(es, es, p, f);
  }

  /** Applying one more path after a batch that does not contain it extends the batch. */
  lemma {:induction false} ApplyNext(c: Cache, files: map<Path, Scanned>, p: Path, f: Scanned)
    requires p !in files
    ensures var c1 := ApplyAll(c, files);
            Overlay(c1, Edit(c1.entries, p, f)) == ApplyAll(c, files[p := f])
  {
    EditsNext(c.entries, files, p, f);
    EditLocal(c.entries, ApplyAll(c, files).entries, p, f);
    OverlayTwice(c, Edits(c.entries, files), Edit(c.entries, p, f));
  }

  lemma {:induction false} ApplyStep(c: Cache, files: map<Path, Scanned>, todo: set<Path>, p: Path)
    requires p in todo && todo <= files.Keys
    ensures var c1 := ApplyAll(c, files - todo);
            Overlay(c1, Edit(c1.entries, p, files[p])) == ApplyAll(c, files - (todo - {p}))
  {
    ApplyNext(c, files - todo, p, files[p]);
    assert files - (todo - {p}) == (files - todo)[p := files[p]];
  }

  /** A batch leaves at every path what its result says. */
  lemma {:induction false} AppliedAll(c: Cache, files: map<Path, Scanned>, p: Path)
    ensures ResultAt(ApplyAll(c, files).entries, c.entries, p, files)
  {
    if p in files {
      EditLocal(c.entries, c.entries, p, files[p]);
      assert p in Edits(c.entries, files) <==> p in Edit(c.entries, p, files[p]);
    }
  }
}
