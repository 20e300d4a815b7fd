/**
 The store's operations in place: the in-memory and the streaming writer, the reader,
 the hash-only pass and the cached-blob check (src/codec/chunk.rs). Each is proved
 against the functions of `ChunkStore`.
 */
module ChunkOps {
  import opened Base
  import opened ObjectCodec
  import opened ChunkStore
  import CacheSpec

  const STREAM_READ_BUF := 1024 * 1024
  const STREAMING_THRESHOLD := 64 * 1024 * 1024

  // ----- short reads --------------------------------------------------------

  /** How many bytes a read delivers: at least one while any are left, otherwise as the system likes. */
  function Got(pace: nat -> nat, pos: nat, room: nat, left: nat): (n: nat)
    ensures n <= room && n <= left && (n == 0 <==> room == 0 || left == 0)
  {
    if room == 0 || left == 0 then 0
    else if pace(pos) == 0 then 1
    else Min(pace(pos), Min(room, left))
  }

  /** Fill a two-byte buffer as far as the data goes, in however many reads. */
  method ReadFront(data: Bytes, pace: nat -> nat) returns (buf: Bytes)
    ensures buf == if |data| < 2 then data else data[..2]
  {
    buf := [];
    while |buf| < 2
      invariant |buf| <= 2 && |buf| <= |data| && buf == data[..|buf|]
      decreases 2 - |buf|
    {
      var n := Got(pace, |buf|, 2 - |buf|, |data| - |buf|);
      if n == 0 { break; }
      assert data[..|buf|] + data[|buf|..|buf| + n] == data[..|buf| + n];
      buf := buf + data[|buf|..|buf| + n];
    }
  }

  /** The hash-only pass: whatever the sizes of its reads, the logical hash and the escape decision. */
  method Pass1HashAndPrefix(u: Suite, content: Bytes, pace: nat -> nat) returns (h: Hash, escape: bool)
    ensures h == BlobHash(u, content) && escape == Escaped(content)
  {
    var fed, pos := TAG_BLOB, 0;
    var first: Option<byte>, second: Option<byte> := None, None;
    while true
      invariant pos <= |content| && fed == TAG_BLOB + content[..pos]
      invariant first == (if pos == 0 then None else At(content, 0))
      invariant second == (if pos < 2 then None else At(content, 1))
      decreases |content| - pos
    {
      var n := Got(pace, pos, STREAM_READ_BUF, |content| - pos);
      if n == 0 { break; }
      var buf := content[pos..pos + n];
      if first.None? {
        first := Some(buf[0]);
        if n >= 2 { second := Some(buf[1]); }
      } else if second.None? {
        second := Some(buf[0]);
      }
      assert content[..pos] + buf == content[..pos + n];
      fed := fed + buf;
      pos := pos + n;
    }
    assert content[..pos] == content;
    h := u.sha(fed);
    escape := NeedsEscape(first, second);
  }

  // ----- the store ----------------------------------------------------------

  /** What the streaming pass hands over once the file was read. */
  datatype Pass2 = Single(serialised: Bytes) | Multi(hashes: seq<Hash>)

  datatype Streamed = Streamed(hash: Hash, chunks: Pass2, rawSize: nat)

  /** The bytes hashed so far: the tag and the pieces so far without the escape. */
  function Fed(done: Bytes, escape: bool): Bytes
    requires escape ==> |done| >= 2 || done == []
  {
    TAG_BLOB + if escape && done != [] then done[2..] else done
  }

  lemma {:induction false} FedStep(done: Bytes, piece: Bytes, escape: bool)
    requires piece != [] && (escape ==> if done == [] then |piece| >= 2 else |done| >= 2)
    ensures escape ==> |done + piece| >= 2
    ensures Fed(done + piece, escape) == Fed(done, escape) + if escape && done == [] then piece[2..] else piece
  {
    if done == [] {
      assert done + piece == piece;
    } else if escape {
      assert (done + piece)[2..] == done[2..] + piece;
    }
  }

  lemma {:induction false} FedAll(u: Suite, content: Bytes)
    requires Sound(u)
    ensures Concat(Pieces(u, content)) == SerialiseBlob(content)
    ensures Fed(SerialiseBlob(content), Escaped(content)) == TAG_BLOB + content
  {
    if Escaped(content) { assert SerialiseBlob(content)[2..] == content; }
  }

  lemma {:induction false} PutChunksSnoc(u: Suite, key: Option<Hash>, s: Objects, ps: seq<Bytes>, p: Bytes)
    ensures PutChunks(u, key, s, ps + [p]) == PutChunk(u, key, PutChunks(u, key, s, ps), p)
    ensures Hashes(u, ps + [p]) == Hashes(u, ps) + [ChunkHash(u, p)]
  {
    assert (ps + [p])[..|ps|] == ps;
  }

  // ----- capturing a file that may change -----------------------------------

  datatype FileStat = FileStat(mtime: Option<CacheSpec.Instant>, size: nat)

  /** What one attempt meets: the stat before, what the read returned, the stat after. */
  datatype Attempt = Attempt(before: FileStat, content: Bytes, after: FileStat, mode: Option<Bytes>)

  datatype StoredFile = StoredFile(hash: Hash, mtime: Option<CacheSpec.Instant>, size: nat, mode: Option<Bytes>)

  /** The stats agree and the read has the size they say. */
  predicate Stable(a: Attempt) { a.before == a.after && |a.content| == a.after.size }

  datatype Captured = Captured(result: Result<StoredFile>, objects: Objects)

  /** The first stable attempt is stored; attempts before it may leave chunks, never a manifest. */
  function Snapshot(u: Suite, key: Option<Hash>, s: Objects, attempts: seq<Attempt>, threshold: nat): Captured
    decreases |attempts|
  {
    if attempts == [] then Captured(Err(SourceChanged), s)
    else
      var a := attempts[0];
      var file := StoredFile(BlobHash(u, a.content), a.before.mtime, a.before.size, a.mode);
      var split := |Pieces(u, a.content)| != 1;
      if a.before.size < threshold then
        if Stable(a) then Captured(Ok(file), PutBlob(u, key, s, a.content, |Pieces(u, a.content)| >= 2))
        else Snapshot(u, key, s, attempts[1..], threshold)
      else if CutsEscape(u, a.content) then Captured(Err(InvalidObject), s)
      else if Stable(a) then Captured(Ok(file), PutBlob(u, key, s, a.content, split))
      else Snapshot(u, key, if split then PutChunks(u, key, s, Pieces(u, a.content)) else s, attempts[1..], threshold)
  }

  /** What a capture needs of its attempts. */
  ghost predicate Fit(u: Suite, known: set<Bytes>, attempts: seq<Attempt>) {
    && Apart(u, known + NeededBy(u, attempts))
    && forall a :: a in attempts ==> WithinLimit(u, a.content) && !CutsEscape(u, a.content)
  }

  ghost function NeededBy(u: Suite, attempts: seq<Attempt>): set<Bytes> {
    if attempts == [] then {} else Needed(u, attempts[0].content) + NeededBy(u, attempts[1..])
  }

  /** A later state of the same store, with nothing known that the attempts do not need. */
  ghost predicate Later(src: map<Hash, Source>, src': map<Hash, Source>, more: set<Bytes>) {
    Extends(src, src') && Known(src') <= Known(src) + more
  }

  lemma {:induction false} OrphansKeep(u: Suite, key: Option<Hash>, s: Objects, src: map<Hash, Source>, content: Bytes)
    requires Pipeline(u, key, s, src) && WithinLimit(u, content)
    ensures Pipeline(u, key, PutChunks(u, key, s, Pieces(u, content)), AddChunks(u, src, Pieces(u, content)))
    ensures Later(src, AddChunks(u, src, Pieces(u, content)), Needed(u, content))
  {
    PutChunksKeeps(u, key, s, src, Pieces(u, content));
    AddChunksExtends(u, src, Pieces(u, content));
  }

  /** The file's mtime or size changed during the read, or the read has another size. */
  predicate Moved(a: Attempt) {
    a.before.mtime != a.after.mtime || a.before.size != a.after.size || |a.content| != a.after.size
  }

  /** What a capture reports: a stable attempt fully cached, or that there was none. */
  ghost predicate Reports(u: Suite, o: Captured, src': map<Hash, Source>, attempts: seq<Attempt>) {
    if o.result.Err? then o.result == Err(SourceChanged) && (forall a :: a in attempts ==> Moved(a))
    else CacheSpec.FullyCached(Shapes(u, src'), o.result.value.hash)
         && exists a :: a in attempts && CapturedFrom(u, o.result.value, a)
  }

  /** What a capture leaves: a genuine store, and a stable file fully cached or none. */
  ghost predicate Sensible(u: Suite, key: Option<Hash>, o: Captured, src: map<Hash, Source>, src': map<Hash, Source>,
      attempts: seq<Attempt>) {
    Pipeline(u, key, o.objects, src') && Later(src, src', NeededBy(u, attempts)) && Reports(u, o, src', attempts)
  }

  lemma {:induction false} StableIsSensible(u: Suite, key: Option<Hash>, s: Objects, src: map<Hash, Source>,
      attempts: seq<Attempt>, threshold: nat)
    returns (src': map<Hash, Source>)
    requires Sound(u) && Pipeline(u, key, s, src) && Fit(u, Known(src), attempts) && attempts != []
    requires Stable(attempts[0])
    ensures Sensible(u, key, Snapshot(u, key, s, attempts, threshold), src, src', attempts)
  {
    var a := attempts[0];
    assert a in attempts;
    var split := if a.before.size < threshold then |Pieces(u, a.content)| >= 2 else |Pieces(u, a.content)| != 1;
    ApartSubset(u, Known(src) + Needed(u, a.content), Known(src) + NeededBy(u, attempts));
    StoredIsCached(u, key, s, src, a.content, split);
    src' := AddBlob(u, src, a.content, split);
    assert CapturedFrom(u, Snapshot(u, key, s, attempts, threshold).result.value, a);
  }

  lemma {:induction false} LaterTwice(src: map<Hash, Source>, mid: map<Hash, Source>, src': map<Hash, Source>,
      a: set<Bytes>, b: set<Bytes>)
    requires Later(src, mid, a) && Later(mid, src', b)
    ensures Later(src, src', a + b)
  {
  }

  /** What an unstable attempt leaves behind. */
  function Orphans(u: Suite, key: Option<Hash>, s: Objects, a: Attempt, threshold: nat): Objects {
    if a.before.size >= threshold && |Pieces(u, a.content)| != 1 then PutChunks(u, key, s, Pieces(u, a.content)) else s
  }

  lemma {:induction false} UnstableStep(u: Suite, key: Option<Hash>, s: Objects, attempts: seq<Attempt>, threshold: nat)
    requires attempts != [] && !Stable(attempts[0])
    requires attempts[0].before.size < threshold || !CutsEscape(u, attempts[0].content)
    ensures Snapshot(u, key, s, attempts, threshold) ==
            Snapshot(u, key, Orphans(u, key, s, attempts[0], threshold), attempts[1..], threshold)
  {
  }

  lemma {:induction false} UnstableKeeps(u: Suite, key: Option<Hash>, s: Objects, src: map<Hash, Source>, a: Attempt,
      threshold: nat)
    returns (mid: map<Hash, Source>)
    requires Pipeline(u, key, s, src) && WithinLimit(u, a.content)
    ensures Pipeline(u, key, Orphans(u, key, s, a, threshold), mid) && Later(src, mid, Needed(u, a.content))
  {
    mid := src;
    if a.before.size >= threshold && |Pieces(u, a.content)| != 1 {
      OrphansKeep(u, key, s, src, a.content);
      mid := AddChunks(u, src, Pieces(u, a.content));
    }
  }

  lemma {:induction false} FitRest(u: Suite, src: map<Hash, Source>, mid: map<Hash, Source>, attempts: seq<Attempt>)
    requires attempts != [] && Fit(u, Known(src), attempts) && Later(src, mid, Needed(u, attempts[0].content))
    ensures Fit(u, Known(mid), attempts[1..])
  {
    ApartSubset(u, Known(mid) + NeededBy(u, attempts[1..]), Known(src) + NeededBy(u, attempts));
  }

  lemma {:induction false} ReportsLater(u: Suite, o: Captured, src': map<Hash, Source>, attempts: seq<Attempt>)
    requires attempts != [] && !Stable(attempts[0]) && Reports(u, o, src', attempts[1..])
    ensures Reports(u, o, src', attempts)
  {
    assert attempts == [attempts[0]] + attempts[1..];
    if o.result.Ok? {
      var a :| a in attempts[1..] && CapturedFrom(u, o.result.value, a);
      assert a in attempts;
    }
  }

  lemma {:induction false} SensibleLater(u: Suite, key: Option<Hash>, o: Captured, src: map<Hash, Source>,
      mid: map<Hash, Source>, src': map<Hash, Source>, attempts: seq<Attempt>)
    requires attempts != [] && !Stable(attempts[0]) && Later(src, mid, Needed(u, attempts[0].content))
    requires Sensible(u, key, o, mid, src', attempts[1..])
    ensures Sensible(u, key, o, src, src', attempts)
  {
    LaterTwice(src, mid, src', Needed(u, attempts[0].content), NeededBy(u, attempts[1..]));
    ReportsLater(u, o, src', attempts);
  }

  /**
   A capture that succeeds returns the hash, size and mtime of one stable attempt, and its
   blob is fully cached; it fails exactly when no attempt was stable. Either way the store
   stays genuine and forgets nothing.
   */
  lemma {:induction false} SnapshotIsSound(u: Suite, key: Option<Hash>, s: Objects, src: map<Hash, Source>,
                                           attempts: seq<Attempt>, threshold: nat) returns (src': map<Hash, Source>)
    requires Sound(u) && Pipeline(u, key, s, src) && Fit(u, Known(src), attempts)
    ensures Sensible(u, key, Snapshot(u, key, s, attempts, threshold), src, src', attempts)
    decreases |attempts|
  {
    if attempts == [] {
      src' := src;
    } else if Stable(attempts[0]) {
      src' := StableIsSensible(u, key, s, src, attempts, threshold);
    } else {
      assert attempts[0] in attempts;
      var mid := UnstableKeeps(u, key, s, src, attempts[0], threshold);
      UnstableStep(u, key, s, attempts, threshold);
      FitRest(u, src, mid, attempts);
      src' := SnapshotIsSound(u, key, Orphans(u, key, s, attempts[0], threshold), mid, attempts[1..], threshold);
      SensibleLater(u, key, Snapshot(u, key, s, attempts, threshold), src, mid, src', attempts);
    }
  }

  /** A chunk of an attempt that was streamed. */
  ghost predicate StreamedChunk(u: Suite, attempts: seq<Attempt>, threshold: nat, h: Hash) {
    exists a, p :: a in attempts && a.before.size >= threshold && p in Pieces(u, a.content) && h == ChunkHash(u, p)
  }

  lemma {:induction false} PutChunksAdds(u: Suite, key: Option<Hash>, s: Objects, ps: seq<Bytes>, h: Hash)
    requires h in PutChunks(u, key, s, ps) && h !in s
    ensures exists p :: p in ps && h == ChunkHash(u, p)
    decreases |ps|
  {
    if ps != [] {
      var last := ps[|ps| - 1];
      if h in PutChunks(u, key, s, ps[..|ps| - 1]) {
        PutChunksAdds(u, key, s, ps[..|ps| - 1], h);
      } else {
        assert last in ps && h == ChunkHash(u, last);
      }
    }
  }

  /** A capture that fails leaves nothing but chunks of the attempts it streamed, never a blob or a manifest. */
  lemma {:induction false} FailureLeavesChunks(u: Suite, key: Option<Hash>, s: Objects, attempts: seq<Attempt>,
      threshold: nat, h: Hash)
    requires Snapshot(u, key, s, attempts, threshold).result == Err(SourceChanged)
    requires h in Snapshot(u, key, s, attempts, threshold).objects && h !in s
    ensures StreamedChunk(u, attempts, threshold, h)
    decreases |attempts|
  {
    var a := attempts[0];
    var left := Orphans(u, key, s, a, threshold);
    UnstableStep(u, key, s, attempts, threshold);
    if h in left {
      PutChunksAdds(u, key, s, Pieces(u, a.content), h);
      assert a in attempts;
    } else {
      FailureLeavesChunks(u, key, left, attempts[1..], threshold, h);
      var b, p :| b in attempts[1..] && b.before.size >= threshold && p in Pieces(u, b.content) && h == ChunkHash(u, p);
      assert b in attempts;
    }
  }

  ghost predicate CapturedFrom(u: Suite, file: StoredFile, a: Attempt) {
    && file.hash == BlobHash(u, a.content) && file.mode == a.mode
    && file.mtime == a.before.mtime == a.after.mtime && file.size == a.before.size == a.after.size == |a.content|
  }

  /**
   A file that does not change is captured by the first attempt, with the same objects on both
   sides of the threshold.
   */
  lemma {:induction false} StableSnapshot(u: Suite, key: Option<Hash>, s: Objects, a: Attempt, b: Attempt,
      threshold: nat)
    requires Sound(u) && Stable(a) && !CutsEscape(u, a.content) && (threshold > 0 || a.content != [])
    ensures Snapshot(u, key, s, [a, b], threshold) ==
            Captured(Ok(StoredFile(BlobHash(u, a.content), a.before.mtime, |a.content|, a.mode)),
                     PutBlob(u, key, s, a.content, |Pieces(u, a.content)| >= 2))
  {
    if a.content != [] { WritePathsAgree(u, key, s, a.content); }
  }

  class Store {
    var objects: Objects

    constructor ()
      ensures objects == map[]
    {
      objects := map[];
    }

    /** Encode and write, unless the object is there already. */
    method StoreWrite(u: Suite, key: Option<Hash>, h: Hash, d: Bytes)
      modifies this
      ensures objects == Put(u, key, old(objects), h, d)
    {
      if h in objects { return; }
      objects := objects[h := Encode(u, key, h, d)];
    }

    method StoreChunk(u: Suite, key: Option<Hash>, piece: Bytes) returns (h: Hash)
      modifies this
      ensures h == ChunkHash(u, piece) && objects == PutChunk(u, key, old(objects), piece)
    {
      h := ChunkHash(u, piece);
      if h !in objects { StoreWrite(u, key, h, SerialiseChunk(piece)); }
    }

    /** Store every piece, in order. */
    method StoreChunks(u: Suite, key: Option<Hash>, ps: seq<Bytes>) returns (hs: seq<Hash>)
      modifies this
      ensures hs == Hashes(u, ps) && objects == PutChunks(u, key, old(objects), ps)
    {
      hs := [];
      for i := 0 to |ps|
        invariant hs == Hashes(u, ps[..i]) && objects == PutChunks(u, key, old(objects), ps[..i])
      {
        PutChunksSnoc(u, key, old(objects), ps[..i], ps[i]);
        assert ps[..i + 1] == ps[..i] + [ps[i]];
        var h := StoreChunk(u, key, ps[i]);
        hs := hs + [h];
      }
      assert ps[..|ps|] == ps;
    }

    /** The in-memory writer: whole below two pieces, otherwise the chunks and then the manifest. */
    method StoreChunked(u: Suite, key: Option<Hash>, h: Hash, d: Bytes)
      modifies this
      ensures objects == if |u.cut(d)| < 2 then Put(u, key, old(objects), h, d)
                         else Put(u, key, PutChunks(u, key, old(objects), u.cut(d)), h,
                                  SerialiseManifest(Hashes(u, u.cut(d))))
    {
      var chunks := u.cut(d);
      if |chunks| < 2 {
        StoreWrite(u, key, h, d);
        return;
      }
      var hs := StoreChunks(u, key, chunks);
      StoreWrite(u, key, h, SerialiseManifest(hs));
    }

    /** One piece of the stream: hold back the first, store it once a second one comes. */
    method TakePiece(u: Suite, key: Option<Hash>, held: Option<Bytes>, hs: seq<Hash>, piece: Bytes, ghost s: Objects,
        ghost done: seq<Bytes>)
      returns (held': Option<Bytes>, hs': seq<Hash>)
      requires Holding(u, key, s, done, held, hs, objects)
      modifies this
      ensures Holding(u, key, s, done + [piece], held', hs', objects)
    {
      PutChunksSnoc(u, key, s, done, piece);
      if held.None? && hs == [] {
        assert Hashes(u, done) == [] ==> done == [];
        held' := Some(piece);
        hs' := hs;
      } else {
        held', hs' := None, hs;
        if held.Some? {
          PutChunksSnoc(u, key, s, [], held.value);
          assert done == [] + [held.value];
          var h := StoreChunk(u, key, held.value);
          hs' := hs' + [h];
        }
        var h := StoreChunk(u, key, piece);
        hs' := hs' + [h];
      }
    }

    /** The stream's loop; it fails on a first piece that cuts the escape, before anything is stored. */
    method TakePieces(u: Suite, key: Option<Hash>, ps: seq<Bytes>, escape: bool)
      returns (ok: bool, fed: Bytes, rawSize: nat, held: Option<Bytes>, hs: seq<Hash>)
      requires forall i :: 0 <= i < |ps| ==> ps[i] != []
      modifies this
      ensures ok <==> !(escape && ps != [] && |ps[0]| < 2)
      ensures ok ==> Holding(u, key, old(objects), ps, held, hs, objects) && FedSoFar(Concat(ps), escape, fed, rawSize)
      ensures !ok ==> objects == old(objects)
    {
      ok, fed, rawSize, held, hs := true, TAG_BLOB, 0, None, [];
      var first := true;
      for i := 0 to |ps|
        invariant first == (i == 0) && ok
        invariant Holding(u, key, old(objects), ps[..i], held, hs, objects)
        invariant FedSoFar(Concat(ps[..i]), escape, fed, rawSize) && (Concat(ps[..i]) == [] <==> i == 0)
        invariant i > 0 && escape ==> |ps[0]| >= 2
      {
        if first && escape && |ps[i]| < 2 { return false, fed, rawSize, held, hs; }
        var raw := if first && escape then ps[i][2..] else ps[i];
        first := false;
        FedStep(Concat(ps[..i]), ps[i], escape);
        ConcatSnoc(ps[..i], ps[i]);
        assert ps[..i + 1] == ps[..i] + [ps[i]];
        fed := fed + raw;
        rawSize := rawSize + |raw|;
        held, hs := TakePiece(u, key, held, hs, ps[i], old(objects), ps[..i]);
      }
      assert ps[..|ps|] == ps;
    }

    /** The streaming writer: everything but the manifest. */
    method StreamFileOnce(u: Suite, key: Option<Hash>, content: Bytes, pace: nat -> nat) returns (r: Result<Streamed>)
      requires Sound(u)
      modifies this
      ensures CutsEscape(u, content) ==> r == Err(InvalidObject) && objects == old(objects)
      ensures !CutsEscape(u, content) ==>
        && r.Ok? && r.value.hash == BlobHash(u, content) && r.value.rawSize == |content|
        && (if |Pieces(u, content)| == 1
            then r.value.chunks == Single(SerialiseBlob(content)) && objects == old(objects)
            else r.value.chunks == Multi(Hashes(u, Pieces(u, content)))
                 && objects == PutChunks(u, key, old(objects), Pieces(u, content)))
    {
      var probe := ReadFront(content, pace);
      var escape := NeedsEscape(At(probe, 0), At(probe, 1));
      assert escape == Escaped(content);
      var ps := u.cut((if escape then TAG_BLOB else []) + content);
      assert [] + content == content;
      assert ps == Pieces(u, content);
      CutsEscapeIsFirst(u, content);
      var ok, fed, rawSize, held, hs := TakePieces(u, key, ps, escape);
      if !ok { return Err(InvalidObject); }
      FedAll(u, content);
      if held.Some? { FirstPiece(u, content); }
      r := Ok(Streamed(u.sha(fed), if held.Some? then Single(held.value) else Multi(hs), rawSize));
    }

    method FinishStreamedFile(u: Suite, key: Option<Hash>, h: Hash, chunks: Pass2)
      modifies this
      ensures objects == Put(u, key, old(objects), h,
                             if chunks.Single? then chunks.serialised else SerialiseManifest(chunks.hashes))
    {
      StoreWrite(u, key, h, if chunks.Single? then chunks.serialised else SerialiseManifest(chunks.hashes));
    }

    /**
     Capture a stable version of a file: each attempt reads it once, in memory below the
     threshold and by streaming above it, and counts only if the file was the same before
     and after.
     */
    method StoreSnapshotWith(u: Suite, key: Option<Hash>, attempts: seq<Attempt>, threshold: nat, pace: nat -> nat)
      returns (r: Result<StoredFile>)
      requires Sound(u)
      modifies this
      ensures var o := Snapshot(u, key, old(objects), attempts, threshold); r == o.result && objects == o.objects
    {
      assert attempts[0..] == attempts;
      for i := 0 to |attempts|
        invariant Snapshot(u, key, old(objects), attempts, threshold) ==
                  Snapshot(u, key, objects, attempts[i..], threshold)
      {
        assert attempts[i..][1..] == attempts[i + 1..];
        var a := attempts[i];
        if a.before.size < threshold {
          if !Stable(a) { continue; }
          StoreChunked(u, key, BlobHash(u, a.content), SerialiseBlob(a.content));
          return Ok(StoredFile(BlobHash(u, a.content), a.before.mtime, a.before.size, a.mode));
        }
        var streamed := StreamFileOnce(u, key, a.content, pace);
        if streamed.Err? { return Err(streamed.error); }
        if !(a.before == a.after && streamed.value.rawSize == a.after.size) { continue; }
        FinishStreamedFile(u, key, streamed.value.hash, streamed.value.chunks);
        return Ok(StoredFile(streamed.value.hash, a.before.mtime, a.before.size, a.mode));
      }
      r := Err(SourceChanged);
    }

    /** The capture the scan uses: two attempts around the size threshold. */
    method StoreSnapshot(u: Suite, key: Option<Hash>, first: Attempt, second: Attempt, pace: nat -> nat)
      returns (r: Result<StoredFile>)
      requires Sound(u)
      modifies this
      ensures var o := Snapshot(u, key, old(objects), [first, second], STREAMING_THRESHOLD);
              r == o.result && objects == o.objects
    {
      r := StoreSnapshotWith(u, key, [first, second], STREAMING_THRESHOLD, pace);
    }

    /** The direct streaming writer: the same loop, always streaming. */
    method StoreFileStreaming(u: Suite, key: Option<Hash>, first: Attempt, second: Attempt, pace: nat -> nat)
      returns (r: Result<Hash>)
      requires Sound(u)
      modifies this
      ensures var o := Snapshot(u, key, old(objects), [first, second], 0);
              && objects == o.objects
              && r == if o.result.Ok? then Ok(o.result.value.hash) else Err(o.result.error)
    {
      var stored := StoreSnapshotWith(u, key, [first, second], 0, pace);
      r := if stored.Err? then Err(stored.error) else Ok(stored.value.hash);
    }

    // ----- reading ----------------------------------------------------------

    /** Hand the pieces to the sink one by one, up to the first that fails. */
    method ForEachSerialisedChunk(u: Suite, key: Option<Hash>, h: Hash) returns (d: Delivery)
      ensures d == Deliver(u, key, objects, h)
    {
      var raw := ReadObject(u, key, objects, h);
      if raw.Err? { return Delivery([], Some(raw.error)); }
      var m := DeserialiseManifest(raw.value);
      if m.None? { return Delivery([raw.value], None); }
      var hs, sink := m.value, [];
      for i := 0 to |hs|
        invariant DeliverChunks(u, key, objects, hs[..i]) == Delivery(sink, None)
      {
        assert hs[..i + 1][..i] == hs[..i];
        var tagged := ReadObject(u, key, objects, hs[i]);
        if tagged.Err? {
          FirstError(u, key, objects, hs, i + 1);
          return Delivery(sink, Some(tagged.error));
        }
        var piece := DeserialiseChunk(tagged.value);
        if piece.None? {
          FirstError(u, key, objects, hs, i + 1);
          return Delivery(sink, Some(InvalidObject));
        }
        sink := sink + [piece.value];
      }
      assert hs[..|hs|] == hs;
      d := Delivery(sink, None);
    }

    /** The sink sees the content: the escape is stripped from the first chunk only. */
    method ForEachBlobChunk(u: Suite, key: Option<Hash>, h: Hash) returns (d: BlobDelivery)
      ensures d == ReadBlob(u, key, objects, h)
    {
      var delivery := ForEachSerialisedChunk(u, key, h);
      var first, sink := true, [];
      var ps := delivery.pieces;
      ghost var all := Payloads(ps);
      for i := 0 to |ps|
        invariant first == (i == 0) && sink == Concat(all[..i])
      {
        var payload := if first then DeserialiseBlob(ps[i]) else ps[i];
        first := false;
        assert all[..i + 1] == all[..i] + [payload];
        ConcatSnoc(all[..i], payload);
        sink := sink + payload;
      }
      assert all[..|ps|] == all;
      d := BlobDelivery(sink, delivery.error);
    }

    /** Two bytes decide, unless they leave the question open. */
    method PeekRulesOutManifest(h: Hash, pace: nat -> nat) returns (r: Result<bool>)
      ensures r == if h in objects then Ok(PeekRulesOut(objects[h])) else Err(NotFound)
    {
      if h !in objects { return Err(NotFound); }
      var buf := ReadFront(objects[h], pace);
      if |buf| < 2 { return Ok(true); }
      if buf == TAG_MANIFEST { return Ok(false); }
      r := Ok(!(buf[0] == 0xED && (buf[1] == 0xDE || buf[1] == 0xDF)));
    }

    /**
     The cached-blob check is exact on every store this pipeline wrote unencrypted: the
     object and every chunk its manifest names are present.
     */
    method BlobFullyCached(u: Suite, h: Hash, pace: nat -> nat, ghost src: map<Hash, Source>) returns (cached: bool)
      requires Sound(u) && Pipeline(u, None, objects, src)
      ensures cached <==> CacheSpec.FullyCached(Shapes(u, src), h)
    {
      if h !in objects { return false; }
      ManifestsAreSplit(u, objects, src, h);
      var peek := PeekRulesOutManifest(h, pace);
      if peek.Err? { return false; }
      if peek.value { return true; }
      var raw := ReadObject(u, None, objects, h);
      if raw.Err? { return false; }
      var m := DeserialiseManifest(raw.value);
      if m.None? { return true; }
      cached := AllPresent(m.value);
    }

    method AllPresent(hs: seq<Hash>) returns (all: bool)
      ensures all <==> AllIn(hs, objects)
    {
      for i := 0 to |hs|
        invariant forall j :: 0 <= j < i ==> hs[j] in objects
      {
        if hs[i] !in objects { return false; }
      }
      all := true;
    }
  }

  /** The first piece is held back until a second one comes; from then on everything is stored. */
  ghost predicate Holding(u: Suite, key: Option<Hash>, s: Objects, done: seq<Bytes>, held: Option<Bytes>,
      hs: seq<Hash>, now: Objects) {
    if |done| == 1 then held == Some(done[0]) && hs == [] && now == s
    else held.None? && hs == Hashes(u, done) && now == PutChunks(u, key, s, done)
  }

  ghost predicate FedSoFar(done: Bytes, escape: bool, fed: Bytes, rawSize: nat) {
    && (escape ==> |done| >= 2 || done == [])
    && fed == Fed(done, escape) && |fed| == 2 + rawSize
  }

  lemma {:induction false} CutsEscapeIsFirst(u: Suite, content: Bytes)
    requires Sound(u)
    ensures var ps := Pieces(u, content); CutsEscape(u, content) <==> Escaped(content) && ps != [] && |ps[0]| < 2
  {
    if Pieces(u, content) != [] { FirstPiece(u, content); }
  }

  lemma {:induction false} SomePieces(u: Suite, content: Bytes)
    requires Sound(u) && content != []
    ensures Pieces(u, content) != []
  {
    assert Concat(Pieces(u, content)) == SerialiseBlob(content) != [];
  }

  /** Reading stops at the first chunk that fails. */
  lemma {:induction false} FirstError(u: Suite, key: Option<Hash>, s: Objects, hs: seq<Hash>, i: nat)
    requires i <= |hs| && DeliverChunks(u, key, s, hs[..i]).error.Some?
    ensures DeliverChunks(u, key, s, hs) == DeliverChunks(u, key, s, hs[..i])
    decreases |hs| - i
  {
    if i == |hs| {
      assert hs[..i] == hs;
    } else {
      assert hs[..i + 1][..i] == hs[..i];
      FirstError(u, key, s, hs, i + 1);
    }
  }

  /** What decodes to a manifest is a split blob; everything else is whole, and the peek agrees. */
  lemma {:induction false} ManifestsAreSplit(u: Suite, s: Objects, src: map<Hash, Source>, h: Hash)
    requires Sound(u) && Pipeline(u, None, s, src) && h in s
    ensures ReadObject(u, None, s, h) == Ok(Plain(u, src[h]))
    ensures DeserialiseManifest(Plain(u, src[h])) ==
            if src[h].BlobOf? && src[h].split then Some(Hashes(u, Pieces(u, src[h].content))) else None
    ensures PeekRulesOut(s[h]) ==> DeserialiseManifest(Plain(u, src[h])).None?
    ensures var m := DeserialiseManifest(Plain(u, src[h]));
            CacheSpec.FullyCached(Shapes(u, src), h) <==> m.None? || AllIn(m.value, s)
  {
    var x := src[h];
    ReadsPlain(u, None, s, src, h);
    assert Genuine(u, None, h, s[h], x);
    PeekIsSound(u, Plain(u, x));
    match x
    case ChunkOf(p) => ChunkRoundTrip(p);
    case TreeOf(t) => assert Plain(u, x)[..2] == TAG_TREE && TAG_TREE[1] != TAG_MANIFEST[1];
    case BlobOf(c, split) =>
      if split { ManifestRoundTrip(Plain(u, x), Hashes(u, Pieces(u, c))); } else { BlobRoundTrip(c); }
  }

  /** For non-empty content the two write paths leave the same objects. */
  lemma {:induction false} WritePathsAgree(u: Suite, key: Option<Hash>, s: Objects, content: Bytes)
    requires Sound(u) && content != []
    ensures PutBlob(u, key, s, content, |Pieces(u, content)| != 1) ==
            PutBlob(u, key, s, content, |Pieces(u, content)| >= 2)
  {
    SomePieces(u, content);
  }
}
