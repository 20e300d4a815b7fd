/**
 Writing content as chunks and manifests and reading it back (src/codec/chunk.rs,
 `store_write` and `store_read` of src/codec/mod.rs), over a store of encoded objects.
 */
module ChunkStore {
  import opened Base
  import opened ObjectCodec
  import CacheSpec

  /** Encoded objects by hash. */
  type Objects = map<Hash, Bytes>

  function BlobHash(u: Suite, content: Bytes): Hash { u.sha(TAG_BLOB + content) }

  function ChunkHash(u: Suite, piece: Bytes): Hash { u.sha(TAG_CHUNK + piece) }

  function Hashes(u: Suite, ps: seq<Bytes>): seq<Hash> { seq(|ps|, i requires 0 <= i < |ps| => ChunkHash(u, ps[i])) }

  /** Objects are immutable: a write of a hash that is present does nothing. */
  function Put(u: Suite, key: Option<Hash>, s: Objects, h: Hash, d: Bytes): Objects {
    if h in s then s else s[h := Encode(u, key, h, d)]
  }

  function PutChunk(u: Suite, key: Option<Hash>, s: Objects, p: Bytes): Objects {
    Put(u, key, s, ChunkHash(u, p), SerialiseChunk(p))
  }

  function PutChunks(u: Suite, key: Option<Hash>, s: Objects, ps: seq<Bytes>): Objects
    decreases |ps|
  {
    if ps == [] then s else PutChunk(u, key, PutChunks(u, key, s, ps[..|ps| - 1]), ps[|ps| - 1])
  }

  /** The pieces of a blob as it is stored. */
  function Pieces(u: Suite, content: Bytes): seq<Bytes> { u.cut(SerialiseBlob(content)) }

  /** A blob whole, or its chunks and then its manifest. */
  function PutBlob(u: Suite, key: Option<Hash>, s: Objects, content: Bytes, split: bool): Objects {
    var ps := Pieces(u, content);
    if split then Put(u, key, PutChunks(u, key, s, ps), BlobHash(u, content), SerialiseManifest(Hashes(u, ps)))
    else Put(u, key, s, BlobHash(u, content), SerialiseBlob(content))
  }

  function ReadObject(u: Suite, key: Option<Hash>, s: Objects, h: Hash): Result<Bytes> {
    if h in s then Decode(u, key, h, s[h]) else Err(NotFound)
  }

  function ReadChunk(u: Suite, key: Option<Hash>, s: Objects, h: Hash): Result<Bytes> {
    var r := ReadObject(u, key, s, h);
    if r.Err? then r
    else if DeserialiseChunk(r.value).None? then Err(InvalidObject)
    else Ok(DeserialiseChunk(r.value).value)
  }

  /** What a sink was given, and the error that ended it, if one did. */
  datatype Delivery = Delivery(pieces: seq<Bytes>, error: Option<Error>)

  /** The chunks in manifest order, up to the first that fails. */
  function DeliverChunks(u: Suite, key: Option<Hash>, s: Objects, hs: seq<Hash>): Delivery
    decreases |hs|
  {
    if hs == [] then Delivery([], None)
    else
      var front := DeliverChunks(u, key, s, hs[..|hs| - 1]);
      if front.error.Some? then front
      else
        var r := ReadChunk(u, key, s, hs[|hs| - 1]);
        if r.Err? then Delivery(front.pieces, Some(r.error)) else Delivery(front.pieces + [r.value], None)
  }

  /** A chunk is read exactly if its object decodes to the chunk tag and its bytes. */
  lemma {:induction false} ChunkReadExactly(u: Suite, key: Option<Hash>, s: Objects, h: Hash, p: Bytes)
    ensures ReadChunk(u, key, s, h) == Ok(p) <==> ReadObject(u, key, s, h) == Ok(TAG_CHUNK + p)
  {
    assert (TAG_CHUNK + p)[..2] == TAG_CHUNK && (TAG_CHUNK + p)[2..] == p;
    var r := ReadObject(u, key, s, h);
    if r.Ok? && StartsWith(r.value, TAG_CHUNK) { assert r.value == TAG_CHUNK + r.value[2..]; }
  }

  /** The sink is given every chunk up to the first that cannot be read, and then that error. */
  lemma {:induction false} DeliversUpToError(u: Suite, key: Option<Hash>, s: Objects, hs: seq<Hash>)
    ensures var d := DeliverChunks(u, key, s, hs);
            && |d.pieces| <= |hs|
            && (forall i :: 0 <= i < |d.pieces| ==> ReadChunk(u, key, s, hs[i]) == Ok(d.pieces[i]))
            && (d.error.None? ==> |d.pieces| == |hs|)
            && (d.error.Some? ==> |d.pieces| < |hs| && ReadChunk(u, key, s, hs[|d.pieces|]) == Err(d.error.value))
    decreases |hs|
  {
    if hs != [] { DeliversUpToError(u, key, s, hs[..|hs| - 1]); }
  }

  function Deliver(u: Suite, key: Option<Hash>, s: Objects, h: Hash): Delivery {
    var r := ReadObject(u, key, s, h);
    if r.Err? then Delivery([], Some(r.error))
    else
      var m := DeserialiseManifest(r.value);
      if m.None? then Delivery([r.value], None) else DeliverChunks(u, key, s, m.value)
  }

  /** What the sink is given: the blob escape is stripped from the first piece. */
  function Payloads(ps: seq<Bytes>): seq<Bytes> {
    if ps == [] then [] else [DeserialiseBlob(ps[0])] + ps[1..]
  }

  // ----- where objects come from --------------------------------------------

  /** What a stored object stands for; `split` blobs are stored as chunks and a manifest. */
  datatype Source = ChunkOf(piece: Bytes) | BlobOf(content: Bytes, split: bool) | TreeOf(text: Bytes)

  function Preimage(x: Source): Bytes {
    match x case ChunkOf(p) => TAG_CHUNK + p case BlobOf(c, _) => TAG_BLOB + c case TreeOf(t) => TAG_TREE + t
  }

  function Plain(u: Suite, x: Source): Bytes {
    match x
    case ChunkOf(p) => SerialiseChunk(p)
    case BlobOf(c, split) => if split then SerialiseManifest(Hashes(u, Pieces(u, c))) else SerialiseBlob(c)
    case TreeOf(t) => TAG_TREE + t
  }

  /** A split blob has several pieces, or none when an empty file was streamed. */
  ghost predicate Legit(u: Suite, x: Source) {
    x.BlobOf? ==> if x.split then |Pieces(u, x.content)| != 1 else |Pieces(u, x.content)| < 2
  }

  ghost predicate Genuine(u: Suite, key: Option<Hash>, h: Hash, b: Bytes, x: Source) {
    && Legit(u, x) && |Plain(u, x)| <= DECOMPRESS_MAX
    && h == u.sha(Preimage(x)) && b == Encode(u, key, h, Plain(u, x))
  }

  /** Every object was written by this pipeline, within the decompression limit. */
  ghost predicate Pipeline(u: Suite, key: Option<Hash>, s: Objects, src: map<Hash, Source>) {
    src.Keys == s.Keys && forall h :: h in s ==> Genuine(u, key, h, s[h], src[h])
  }

  function Known(src: map<Hash, Source>): set<Bytes> { set h | h in src :: Preimage(src[h]) }

  function Needed(u: Suite, content: Bytes): set<Bytes> {
    {TAG_BLOB + content} + Tagged(Pieces(u, content))
  }

  function Tagged(ps: seq<Bytes>): set<Bytes> { set p | p in ps :: TAG_CHUNK + p }

  /** The digest tells these byte strings apart. */
  ghost predicate Apart(u: Suite, xs: set<Bytes>) {
    forall x, y :: x in xs && y in xs && u.sha(x) == u.sha(y) ==> x == y
  }

  lemma {:induction false} ApartSubset(u: Suite, xs: set<Bytes>, ys: set<Bytes>)
    requires Apart(u, ys) && xs <= ys
    ensures Apart(u, xs)
  {
  }

  /** What of each object matters for completeness. */
  ghost function Shapes(u: Suite, src: map<Hash, Source>): CacheSpec.Objects {
    map h | h in src ::
      if src[h].BlobOf? && src[h].split then CacheSpec.Manifest(Hashes(u, Pieces(u, src[h].content)))
        else CacheSpec.Single
  }

  lemma {:induction false} SamePreimage(x: Source, y: Source)
    requires Preimage(x) == Preimage(y)
    ensures (x.ChunkOf? ==> y == x) && (x.BlobOf? ==> y.BlobOf? && y.content == x.content) && (x.TreeOf? ==> y == x)
  {
    var a, b := Preimage(x), Preimage(y);
    assert a[1] == b[1] && a[2..] == b[2..];
    assert x.ChunkOf? ==> a[2..] == x.piece;
    assert y.ChunkOf? ==> b[2..] == y.piece;
    assert x.BlobOf? ==> a[2..] == x.content;
    assert y.BlobOf? ==> b[2..] == y.content;
    assert x.TreeOf? ==> a[2..] == x.text;
    assert y.TreeOf? ==> b[2..] == y.text;
  }

  /** Under an address that only `x` can have, the store holds `x`. */
  lemma {:induction false} Found(u: Suite, key: Option<Hash>, s: Objects, src: map<Hash, Source>, x: Source,
      xs: set<Bytes>)
    requires Pipeline(u, key, s, src) && Apart(u, xs) && Known(src) <= xs && Preimage(x) in xs
    requires u.sha(Preimage(x)) in s
    ensures var y := src[u.sha(Preimage(x))];
            (x.ChunkOf? ==> y == x) && (x.BlobOf? ==> y.BlobOf? && y.content == x.content)
  {
    var h := u.sha(Preimage(x));
    assert Genuine(u, key, h, s[h], src[h]);
    assert Preimage(src[h]) in Known(src);
    SamePreimage(x, src[h]);
  }

  lemma {:induction false} ReadsPlain(u: Suite, key: Option<Hash>, s: Objects, src: map<Hash, Source>, h: Hash)
    requires Sound(u) && Pipeline(u, key, s, src) && h in s
    ensures ReadObject(u, key, s, h) == Ok(Plain(u, src[h]))
  {
    assert Genuine(u, key, h, s[h], src[h]);
    EncodeRoundTrip(u, key, h, Plain(u, src[h]));
  }

  // ----- reading ------------------------------------------------------------

  lemma {:induction false} ReadsChunk(u: Suite, key: Option<Hash>, s: Objects, src: map<Hash, Source>, p: Bytes,
      xs: set<Bytes>)
    requires Sound(u) && Pipeline(u, key, s, src) && Apart(u, xs) && Known(src) <= xs && TAG_CHUNK + p in xs
    ensures ReadChunk(u, key, s, ChunkHash(u, p)) == if ChunkHash(u, p) in s then Ok(p) else Err(NotFound)
  {
    var h := ChunkHash(u, p);
    if h in s {
      Found(u, key, s, src, ChunkOf(p), xs);
      ReadsPlain(u, key, s, src, h);
      ChunkRoundTrip(p);
    }
  }

  ghost predicate AllIn(hs: seq<Hash>, s: Objects) { forall h :: h in hs ==> h in s }

  lemma {:induction false} HashesSnoc(u: Suite, ps: seq<Bytes>, s: Objects)
    requires ps != []
    ensures var n := |ps| - 1;
            && Hashes(u, ps)[..n] == Hashes(u, ps[..n]) && Hashes(u, ps)[n] == ChunkHash(u, ps[n])
            && (AllIn(Hashes(u, ps), s) <==> AllIn(Hashes(u, ps[..n]), s) && ChunkHash(u, ps[n]) in s)
            && ps[..n] + [ps[n]] == ps
  {
    var n := |ps| - 1;
    var hs := Hashes(u, ps);
    assert hs[..n] == Hashes(u, ps[..n]);
    assert hs == hs[..n] + [hs[n]];
  }

  /** A chunk's hash reads as the chunk, or is not there. */
  ghost predicate Answers(u: Suite, key: Option<Hash>, s: Objects, p: Bytes) {
    ReadChunk(u, key, s, ChunkHash(u, p)) == if ChunkHash(u, p) in s then Ok(p) else Err(NotFound)
  }

  /** The first pieces, up to the first whose chunk is missing. */
  ghost predicate Partial(d: Delivery, ps: seq<Bytes>, complete: bool) {
    && |d.pieces| <= |ps| && d.pieces == ps[..|d.pieces|]
    && (if complete then d.error.None? && d.pieces == ps else d.error == Some(NotFound))
  }

  lemma {:induction false} ReadsChunks(u: Suite, key: Option<Hash>, s: Objects, ps: seq<Bytes>)
    requires forall p :: p in ps ==> Answers(u, key, s, p)
    ensures Partial(DeliverChunks(u, key, s, Hashes(u, ps)), ps, AllIn(Hashes(u, ps), s))
    decreases |ps|
  {
    if ps != [] {
      var n := |ps| - 1;
      assert ps[n] in ps && forall p :: p in ps[..n] ==> p in ps;
      ReadsChunks(u, key, s, ps[..n]);
      assert Answers(u, key, s, ps[n]);
      HashesSnoc(u, ps, s);
      var front := DeliverChunks(u, key, s, Hashes(u, ps[..n]));
      assert ps[..n][..|front.pieces|] == ps[..|front.pieces|];
    }
  }

  lemma {:induction false} AllAnswer(u: Suite, key: Option<Hash>, s: Objects, src: map<Hash, Source>, content: Bytes)
    requires Sound(u) && Pipeline(u, key, s, src) && Apart(u, Known(src) + Needed(u, content))
    ensures forall p :: p in Pieces(u, content) ==> Answers(u, key, s, p)
  {
    forall p | p in Pieces(u, content)
      ensures Answers(u, key, s, p)
    {
      assert TAG_CHUNK + p in Tagged(Pieces(u, content));
      ReadsChunk(u, key, s, src, p, Known(src) + Needed(u, content));
    }
  }

  lemma {:induction false} ReadsWhole(u: Suite, key: Option<Hash>, s: Objects, h: Hash, content: Bytes)
    requires ReadObject(u, key, s, h) == Ok(SerialiseBlob(content))
    ensures Deliver(u, key, s, h) == Delivery([SerialiseBlob(content)], None)
  {
    BlobRoundTrip(content);
  }

  lemma {:induction false} ReadsSplit(u: Suite, key: Option<Hash>, s: Objects, h: Hash, ps: seq<Bytes>)
    requires ReadObject(u, key, s, h) == Ok(SerialiseManifest(Hashes(u, ps)))
    requires forall p :: p in ps ==> Answers(u, key, s, p)
    ensures Partial(Deliver(u, key, s, h), ps, AllIn(Hashes(u, ps), s))
  {
    ManifestRoundTrip(SerialiseManifest(Hashes(u, ps)), Hashes(u, ps));
    ReadsChunks(u, key, s, ps);
  }

  /** How a blob is stored under its hash: whole or in pieces. */
  ghost function StoredPieces(u: Suite, src: map<Hash, Source>, content: Bytes): seq<Bytes> {
    var h := BlobHash(u, content);
    if h in src && src[h] == BlobOf(content, true) then Pieces(u, content) else [SerialiseBlob(content)]
  }

  /** Completeness of a stored object, by what it stands for. */
  lemma {:induction false} CachedBySource(u: Suite, s: Objects, src: map<Hash, Source>, h: Hash)
    requires src.Keys == s.Keys
    ensures CacheSpec.FullyCached(Shapes(u, src), h) <==>
            h in s && (src[h].BlobOf? && src[h].split ==> AllIn(Hashes(u, Pieces(u, src[h].content)), s))
  {
  }

  lemma {:induction false} ReadsStored(u: Suite, key: Option<Hash>, s: Objects, src: map<Hash, Source>, content: Bytes)
    requires Sound(u) && Pipeline(u, key, s, src) && Apart(u, Known(src) + Needed(u, content))
    requires BlobHash(u, content) in s
    ensures var h := BlobHash(u, content);
            && src[h].BlobOf? && src[h].content == content
            && Partial(Deliver(u, key, s, h), if src[h].split then Pieces(u, content) else [SerialiseBlob(content)],
                       src[h].split ==> AllIn(Hashes(u, Pieces(u, content)), s))
  {
    var h := BlobHash(u, content);
    Found(u, key, s, src, BlobOf(content, false), Known(src) + Needed(u, content));
    ReadsPlain(u, key, s, src, h);
    if src[h].split {
      AllAnswer(u, key, s, src, content);
      ReadsSplit(u, key, s, h, Pieces(u, content));
    } else {
      ReadsWhole(u, key, s, h, content);
    }
  }

  /** A blob's object delivers its pieces, all of them exactly when every object it needs is there. */
  lemma {:induction false} ReadsPieces(u: Suite, key: Option<Hash>, s: Objects, src: map<Hash, Source>, content: Bytes)
    requires Sound(u) && Pipeline(u, key, s, src) && Apart(u, Known(src) + Needed(u, content))
    ensures Partial(Deliver(u, key, s, BlobHash(u, content)), StoredPieces(u, src, content),
                    CacheSpec.FullyCached(Shapes(u, src), BlobHash(u, content)))
  {
    CachedBySource(u, s, src, BlobHash(u, content));
    if BlobHash(u, content) in s { ReadsStored(u, key, s, src, content); }
  }

  // ----- the escape across pieces -------------------------------------------

  /** The first of several pieces cuts the two-byte escape in half. */
  predicate CutsEscape(u: Suite, content: Bytes) {
    Escaped(content) && |Pieces(u, content)| >= 2 && |Pieces(u, content)[0]| < 2
  }

  lemma {:induction false} FirstPiece(u: Suite, content: Bytes)
    requires Sound(u) && Pieces(u, content) != []
    ensures var ps := Pieces(u, content);
            && SerialiseBlob(content) == ps[0] + Concat(ps[1..])
            && (StartsWith(ps[0], TAG_BLOB) <==> Escaped(content) && |ps[0]| >= 2)
            && (|ps| == 1 ==> ps[0] == SerialiseBlob(content))
  {
    var ps := Pieces(u, content);
    var d := SerialiseBlob(content);
    assert Concat(ps) == d;
    if |ps| == 1 { assert Concat(ps[1..]) == [] && ps[0] + [] == ps[0]; }
    if |ps[0]| >= 2 {
      assert ps[0][..2] == d[..2];
      assert d[..2] == [d[0], d[1]];
      assert StartsWith(ps[0], TAG_BLOB) ==> d[0] == 0xED && d[1] == 0xF0;
    }
  }

  lemma {:induction false} PayloadsJoin(ps: seq<Bytes>)
    requires ps != []
    ensures Concat(Payloads(ps)) == DeserialiseBlob(ps[0]) + Concat(ps[1..])
  {
    assert Payloads(ps)[1..] == ps[1..];
  }

  /** The payloads join to the content exactly when the escape is not cut in half. */
  lemma {:induction false} PayloadsExactly(u: Suite, content: Bytes)
    requires Sound(u)
    ensures Concat(Payloads(Pieces(u, content))) == content <==> !CutsEscape(u, content)
  {
    var ps := Pieces(u, content);
    var d := SerialiseBlob(content);
    assert Concat(ps) == d;
    if ps != [] {
      FirstPiece(u, content);
      PayloadsJoin(ps);
      if StartsWith(ps[0], TAG_BLOB) {
        assert d[2..] == ps[0][2..] + Concat(ps[1..]) && d[2..] == content;
      }
    }
  }

  lemma {:induction false} WholePayload(content: Bytes)
    ensures Concat(Payloads([SerialiseBlob(content)])) == content
  {
    BlobRoundTrip(content);
    PayloadsJoin([SerialiseBlob(content)]);
    assert content + Concat([]) == content;
  }

  /** The content behind a hash, as far as the blob reader gets, and what stopped it. */
  datatype BlobDelivery = BlobDelivery(content: Bytes, error: Option<Error>)

  function ReadBlob(u: Suite, key: Option<Hash>, s: Objects, h: Hash): BlobDelivery {
    var d := Deliver(u, key, s, h);
    BlobDelivery(Concat(Payloads(d.pieces)), d.error)
  }

  lemma {:induction false} ConcatPrefix(ps: seq<Bytes>, k: nat)
    requires k <= |ps|
    ensures StartsWith(Concat(ps), Concat(ps[..k]))
    decreases k
  {
    if k > 0 {
      ConcatPrefix(ps[1..], k - 1);
      assert ps[..k][1..] == ps[1..][..k - 1];
      var a, b := Concat(ps[1..]), Concat(ps[1..][..k - 1]);
      assert (ps[0] + a)[..|ps[0] + b|] == ps[0] + a[..|b|];
    }
  }

  lemma {:induction false} PayloadsPrefix(ps: seq<Bytes>, k: nat)
    requires k <= |ps|
    ensures StartsWith(Concat(Payloads(ps)), Concat(Payloads(ps[..k])))
  {
    if k > 0 {
      assert Payloads(ps[..k]) == Payloads(ps)[..k];
      ConcatPrefix(Payloads(ps), k);
    }
  }

  lemma {:induction false} StoredPayloads(u: Suite, src: map<Hash, Source>, content: Bytes)
    requires Sound(u) && !CutsEscape(u, content)
    ensures Concat(Payloads(StoredPieces(u, src, content))) == content
  {
    PayloadsExactly(u, content);
    WholePayload(content);
  }

  /**
   Fully cached means readable: a blob's hash reads without error exactly when the object
   and every chunk its manifest names are present, and then as its content; otherwise what
   the sink was given before the error is a front part of the content.
   */
  lemma {:induction false} CachedIsReadable(u: Suite, key: Option<Hash>, s: Objects, src: map<Hash, Source>,
      content: Bytes)
    requires Sound(u) && Pipeline(u, key, s, src) && Apart(u, Known(src) + Needed(u, content))
    requires !CutsEscape(u, content)
    ensures var d := ReadBlob(u, key, s, BlobHash(u, content));
            if CacheSpec.FullyCached(Shapes(u, src), BlobHash(u, content)) then d == BlobDelivery(content, None)
            else d.error == Some(NotFound) && StartsWith(content, d.content)
  {
    ReadsPieces(u, key, s, src, content);
    StoredPayloads(u, src, content);
    var d := Deliver(u, key, s, BlobHash(u, content));
    PayloadsPrefix(StoredPieces(u, src, content), |d.pieces|);
  }

  // ----- writing ------------------------------------------------------------

  function Add(u: Suite, src: map<Hash, Source>, x: Source): map<Hash, Source> {
    var h := u.sha(Preimage(x));
    if h in src then src else src[h := x]
  }

  lemma {:induction false} PutKeeps(u: Suite, key: Option<Hash>, s: Objects, src: map<Hash, Source>, x: Source)
    requires Pipeline(u, key, s, src) && Legit(u, x) && |Plain(u, x)| <= DECOMPRESS_MAX
    ensures Pipeline(u, key, Put(u, key, s, u.sha(Preimage(x)), Plain(u, x)), Add(u, src, x))
  {
    var h := u.sha(Preimage(x));
    var s', src' := Put(u, key, s, h, Plain(u, x)), Add(u, src, x);
    forall g | g in s'
      ensures Genuine(u, key, g, s'[g], src'[g])
    {
      assert g in s ==> Genuine(u, key, g, s[g], src[g]);
    }
  }

  function AddChunks(u: Suite, src: map<Hash, Source>, ps: seq<Bytes>): map<Hash, Source>
    decreases |ps|
  {
    if ps == [] then src else Add(u, AddChunks(u, src, ps[..|ps| - 1]), ChunkOf(ps[|ps| - 1]))
  }

  /** No object exceeds what the reader is willing to decompress. */
  ghost predicate WithinLimit(u: Suite, content: Bytes) {
    && |SerialiseManifest(Hashes(u, Pieces(u, content)))| <= DECOMPRESS_MAX
    && (forall p :: p in Pieces(u, content) ==> |SerialiseChunk(p)| <= DECOMPRESS_MAX)
    && (|Pieces(u, content)| < 2 ==> |SerialiseBlob(content)| <= DECOMPRESS_MAX)
  }

  /** A later state of the same store: nothing is forgotten. */
  ghost predicate Extends(src: map<Hash, Source>, src': map<Hash, Source>) {
    forall h :: h in src ==> h in src' && src'[h] == src[h]
  }

  lemma {:induction false} PutChunksKeeps(u: Suite, key: Option<Hash>, s: Objects, src: map<Hash, Source>,
      ps: seq<Bytes>)
    requires Pipeline(u, key, s, src) && forall p :: p in ps ==> |SerialiseChunk(p)| <= DECOMPRESS_MAX
    ensures Pipeline(u, key, PutChunks(u, key, s, ps), AddChunks(u, src, ps))
    decreases |ps|
  {
    if ps != [] {
      var front, last := ps[..|ps| - 1], ps[|ps| - 1];
      PutChunksKeeps(u, key, s, src, front);
      assert last in ps;
      PutKeeps(u, key, PutChunks(u, key, s, front), AddChunks(u, src, front), ChunkOf(last));
    }
  }

  lemma {:induction false} AddChunksExtends(u: Suite, src: map<Hash, Source>, ps: seq<Bytes>)
    ensures Extends(src, AddChunks(u, src, ps))
    ensures Known(AddChunks(u, src, ps)) <= Known(src) + Tagged(ps)
    decreases |ps|
  {
    if ps != [] {
      var front, last := ps[..|ps| - 1], ps[|ps| - 1];
      AddChunksExtends(u, src, front);
      AddKnown(u, AddChunks(u, src, front), ChunkOf(last));
      assert ps == front + [last];
      assert Tagged(ps) == Tagged(front) + {TAG_CHUNK + last};
    }
  }

  lemma {:induction false} AddKnown(u: Suite, src: map<Hash, Source>, x: Source)
    ensures Known(Add(u, src, x)) <= Known(src) + {Preimage(x)} && Extends(src, Add(u, src, x))
  {
  }

  lemma {:induction false} ChunksPresent(u: Suite, key: Option<Hash>, s: Objects, ps: seq<Bytes>, i: nat)
    requires i < |ps|
    ensures ChunkHash(u, ps[i]) in PutChunks(u, key, s, ps)
    decreases |ps|
  {
    if i < |ps| - 1 { ChunksPresent(u, key, s, ps[..|ps| - 1], i); }
  }

  /** Where the objects of a blob come from once it is stored. */
  function AddBlob(u: Suite, src: map<Hash, Source>, content: Bytes, split: bool): map<Hash, Source> {
    Add(u, if split then AddChunks(u, src, Pieces(u, content)) else src, BlobOf(content, split))
  }

  lemma {:induction false} PutBlobKeeps(u: Suite, key: Option<Hash>, s: Objects, src: map<Hash, Source>,
      content: Bytes, split: bool)
    requires Pipeline(u, key, s, src) && WithinLimit(u, content) && Legit(u, BlobOf(content, split))
    ensures Pipeline(u, key, PutBlob(u, key, s, content, split), AddBlob(u, src, content, split))
  {
    var ps := Pieces(u, content);
    if split {
      PutChunksKeeps(u, key, s, src, ps);
      PutKeeps(u, key, PutChunks(u, key, s, ps), AddChunks(u, src, ps), BlobOf(content, split));
    } else {
      PutKeeps(u, key, s, src, BlobOf(content, split));
    }
  }

  lemma {:induction false} AddBlobExtends(u: Suite, src: map<Hash, Source>, content: Bytes, split: bool)
    ensures Extends(src, AddBlob(u, src, content, split))
    ensures Known(AddBlob(u, src, content, split)) <= Known(src) + Needed(u, content)
  {
    var ps := Pieces(u, content);
    AddChunksExtends(u, src, ps);
    AddKnown(u, if split then AddChunks(u, src, ps) else src, BlobOf(content, split));
  }

  lemma {:induction false} BlobChunksPresent(u: Suite, key: Option<Hash>, s: Objects, content: Bytes)
    ensures AllIn(Hashes(u, Pieces(u, content)), PutBlob(u, key, s, content, true))
  {
    var ps := Pieces(u, content);
    forall h | h in Hashes(u, ps)
      ensures h in PutBlob(u, key, s, content, true)
    {
      var i :| 0 <= i < |ps| && Hashes(u, ps)[i] == h;
      ChunksPresent(u, key, s, ps, i);
    }
  }

  /**
   Storing a blob into any store this pipeline wrote, whatever was lost from it, keeps
   the store genuine, forgets nothing and leaves the blob fully cached.
   */
  lemma {:induction false} StoredIsCached(u: Suite, key: Option<Hash>, s: Objects, src: map<Hash, Source>,
      content: Bytes, split: bool)
    requires Sound(u) && Pipeline(u, key, s, src) && WithinLimit(u, content) && Legit(u, BlobOf(content, split))
    requires Apart(u, Known(src) + Needed(u, content))
    ensures var src' := AddBlob(u, src, content, split);
            && Pipeline(u, key, PutBlob(u, key, s, content, split), src') && Extends(src, src')
            && Known(src') <= Known(src) + Needed(u, content)
            && CacheSpec.FullyCached(Shapes(u, src'), BlobHash(u, content))
  {
    var s', src', h := PutBlob(u, key, s, content, split), AddBlob(u, src, content, split), BlobHash(u, content);
    PutBlobKeeps(u, key, s, src, content, split);
    AddBlobExtends(u, src, content, split);
    BlobChunksPresent(u, key, s, content);
    Found(u, key, s', src', BlobOf(content, split), Known(src) + Needed(u, content));
    assert Genuine(u, key, h, s'[h], src'[h]);
    if src'[h].split {
      if !split {
        assert Pieces(u, content) == [];
      }
      assert AllIn(Hashes(u, Pieces(u, content)), s');
    }
  }

  /** Store, then read: the content comes back unchanged, whole or in pieces. */
  lemma {:induction false} StoreThenRead(u: Suite, key: Option<Hash>, s: Objects, src: map<Hash, Source>,
      content: Bytes, split: bool)
    requires Sound(u) && Pipeline(u, key, s, src) && WithinLimit(u, content) && Legit(u, BlobOf(content, split))
    requires Apart(u, Known(src) + Needed(u, content)) && !CutsEscape(u, content)
    ensures ReadBlob(u, key, PutBlob(u, key, s, content, split), BlobHash(u, content)) == BlobDelivery(content, None)
  {
    StoredIsCached(u, key, s, src, content, split);
    var src' := AddBlob(u, src, content, split);
    ApartSubset(u, Known(src') + Needed(u, content), Known(src) + Needed(u, content));
    CachedIsReadable(u, key, PutBlob(u, key, s, content, split), src', content);
  }
}
