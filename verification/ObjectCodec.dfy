/**
 The type tags of stored objects: blobs, chunk manifests and chunks (src/object.rs), and
 the compress and encrypt stages below them (src/codec/compress.rs, src/codec/encrypt.rs,
 src/codec/mod.rs). The libraries are parameters: a digest, a compressor and a cipher.
 */
module ObjectCodec {
  import opened Base

  type Bytes = seq<byte>

  function Concat(ps: seq<Bytes>): Bytes {
    if ps == [] then [] else ps[0] + Concat(ps[1..])
  }

  lemma {:induction false} ConcatSnoc(ps: seq<Bytes>, p: Bytes)
    ensures Concat(ps + [p]) == Concat(ps) + p
  {
    if ps == [] {
      assert [] + [p] == [p] && Concat([p]) == p + Concat([]) == p;
    } else {
      assert (ps + [p])[1..] == ps[1..] + [p];
      ConcatSnoc(ps[1..], p);
    }
  }

  // ----- type tags ----------------------------------------------------------

  const TAG_BLOB: Bytes := [0xED, 0xF0]
  const TAG_TREE: Bytes := [0xED, 0xF1]
  const TAG_MANIFEST: Bytes := [0xED, 0xF2]
  const TAG_CHUNK: Bytes := [0xED, 0xF3]

  /** The two bytes a blob starts with would read as a type tag. */
  predicate NeedsEscape(first: Option<byte>, second: Option<byte>) {
    first == Some(0xED) && second.Some? && second.value >= 0xF0
  }

  function At(b: Bytes, i: nat): Option<byte> {
    if i < |b| then Some(b[i]) else None
  }

  predicate Escaped(content: Bytes) {
    NeedsEscape(At(content, 0), At(content, 1))
  }

  function SerialiseBlob(content: Bytes): Bytes {
    if Escaped(content) then TAG_BLOB + content else content
  }

  function DeserialiseBlob(stored: Bytes): Bytes {
    if StartsWith(stored, TAG_BLOB) then stored[2..] else stored
  }

  function SerialiseChunk(piece: Bytes): Bytes { TAG_CHUNK + piece }

  function DeserialiseChunk(stored: Bytes): Option<Bytes> {
    if StartsWith(stored, TAG_CHUNK) then Some(stored[2..]) else None
  }

  function SerialiseManifest(hashes: seq<Hash>): Bytes { TAG_MANIFEST + Digests(hashes) }

  function Digests(hashes: seq<Hash>): Bytes {
    if hashes == [] then [] else hashes[0] + Digests(hashes[1..])
  }

  function Blocks(b: Bytes): seq<Hash>
    requires |b| % 32 == 0
  {
    if b == [] then [] else [b[..32]] + Blocks(b[32..])
  }

  function DeserialiseManifest(stored: Bytes): Option<seq<Hash>> {
    if !StartsWith(stored, TAG_MANIFEST) || |stored[2..]| % 32 != 0 then None else Some(Blocks(stored[2..]))
  }

  /** The escape is undone for every content, and what is stored is never taken for a manifest or a chunk. */
  lemma {:induction false} BlobRoundTrip(content: Bytes)
    ensures DeserialiseBlob(SerialiseBlob(content)) == content
    ensures DeserialiseManifest(SerialiseBlob(content)) == None && DeserialiseChunk(SerialiseBlob(content)) == None
  {
    var s := SerialiseBlob(content);
    if Escaped(content) {
      assert s[2..] == content && s[..2] == TAG_BLOB;
    } else if |s| >= 2 {
      assert s[..2][0] == s[0] && s[..2][1] == s[1];
    }
  }

  /** A blob is stored as it is unless it starts with a type tag, ED F0 to ED FF. */
  lemma {:induction false} EscapeExactly(content: Bytes)
    ensures SerialiseBlob(content) == content <==> !(|content| >= 2 && content[0] == 0xED && content[1] >= 0xF0)
    ensures SerialiseBlob(content) != content ==> SerialiseBlob(content) == [0xED, 0xF0] + content
  {
  }

  lemma {:induction false} ChunkRoundTrip(piece: Bytes)
    ensures DeserialiseChunk(SerialiseChunk(piece)) == Some(piece)
    ensures DeserialiseManifest(SerialiseChunk(piece)) == None
  {
    var s := SerialiseChunk(piece);
    assert s[2..] == piece && s[..2] == TAG_CHUNK && s[..2][1] == 0xF3 && TAG_MANIFEST[1] == 0xF2;
  }

  lemma {:induction false} BlocksOfDigests(hashes: seq<Hash>)
    ensures |Digests(hashes)| == 32 * |hashes| && Blocks(Digests(hashes)) == hashes
  {
    if hashes != [] {
      BlocksOfDigests(hashes[1..]);
      var d := Digests(hashes);
      assert d[..32] == hashes[0] && d[32..] == Digests(hashes[1..]);
      assert hashes == [hashes[0]] + hashes[1..];
    }
  }

  lemma {:induction false} DigestsOfBlocks(b: Bytes)
    requires |b| % 32 == 0
    ensures Digests(Blocks(b)) == b && |Blocks(b)| == |b| / 32
  {
    if b != [] {
      DigestsOfBlocks(b[32..]);
      assert b == b[..32] + b[32..];
      assert ([b[..32]] + Blocks(b[32..]))[1..] == Blocks(b[32..]);
    }
  }

  /** Manifest bytes and hash lists correspond one to one. */
  lemma {:induction false} ManifestRoundTrip(stored: Bytes, hashes: seq<Hash>)
    ensures DeserialiseManifest(stored) == Some(hashes) <==> stored == SerialiseManifest(hashes)
  {
    BlocksOfDigests(hashes);
    var s := SerialiseManifest(hashes);
    assert s[..2] == TAG_MANIFEST && s[2..] == Digests(hashes);
    assert DeserialiseManifest(s) == Some(hashes);
    if DeserialiseManifest(stored) == Some(hashes) {
      DigestsOfBlocks(stored[2..]);
      assert stored == stored[..2] + stored[2..];
    }
  }

  // ----- the libraries ------------------------------------------------------

  /** The digest, the compressor (with or without the tree dictionary), the cipher and the chunker. */
  datatype Suite = Suite(
    sha: Bytes -> Hash,
    zip: (Bytes, bool) -> Bytes, unzip: (Bytes, bool) -> Option<Bytes>,
    encrypt: (Hash, Bytes, Bytes) -> Bytes, decrypt: (Hash, Bytes, Bytes) -> Option<Bytes>,
    cut: Bytes -> seq<Bytes>)

  const TAG_LEN := 16

  /** The decompressor undoes the compressor, the cipher its own encryption, and pieces join to the whole. */
  ghost predicate Sound(u: Suite) {
    && (forall d, dict :: u.unzip(u.zip(d, dict), dict) == Some(d))
    && (forall k, n, d :: u.decrypt(k, n, u.encrypt(k, n, d)) == Some(d) && |u.encrypt(k, n, d)| >= TAG_LEN)
    && (forall d :: Concat(u.cut(d)) == d && forall i :: 0 <= i < |u.cut(d)| ==> u.cut(d)[i] != [])
  }

  // ----- compress -----------------------------------------------------------

  const DECOMPRESS_MAX := 64 * 1024 * 1024

  datatype Error = AuthTagMismatch | InvalidObject | NotFound | CorruptFrame | SourceChanged
  datatype Result<+T> = Ok(value: T) | Err(error: Error)

  predicate NeedsRawEscape(d: Bytes) {
    |d| >= 2 && d[0] == 0xED && 0xD0 <= d[1] <= 0xDF
  }

  function EscapeRaw(d: Bytes): Bytes {
    if NeedsRawEscape(d) then [0xED, 0xD0] + d else d
  }

  function Min(a: nat, b: nat): nat { if a <= b then a else b }

  /** The smallest of the dictionary frame, the plain frame and the raw bytes, in that order of preference. */
  function Compress(u: Suite, d: Bytes): Bytes {
    var dict, plain, raw := [0xED, 0xDE] + u.zip(d, true), [0xED, 0xDF] + u.zip(d, false), EscapeRaw(d);
    var best := Min(Min(|dict|, |plain|), |raw|);
    if best == |dict| then dict else if best == |plain| then plain else raw
  }

  function Unframe(u: Suite, frame: Bytes, dict: bool): Result<Bytes> {
    var d := u.unzip(frame, dict);
    if d.None? then Err(CorruptFrame)
    else if |d.value| > DECOMPRESS_MAX then Err(InvalidObject)
    else Ok(d.value)
  }

  function Decompress(u: Suite, stored: Bytes): Result<Bytes> {
    if |stored| < 2 || stored[0] != 0xED then Ok(stored)
    else if stored[1] == 0xDE then Unframe(u, stored[2..], true)
    else if stored[1] == 0xDF then Unframe(u, stored[2..], false)
    else if stored[1] == 0xD0 then Ok(stored[2..])
    else Ok(stored)
  }

  /** Only a frame can fail: as corrupt if it cannot be decompressed, as invalid if the result is too large. */
  lemma {:induction false} DecompressFails(u: Suite, stored: Bytes, dict: bool)
    requires StartsWith(stored, [0xED, if dict then 0xDE else 0xDF])
    ensures var d := u.unzip(stored[2..], dict);
            Decompress(u, stored) == if d.None? then Err(CorruptFrame)
                                     else if |d.value| > 67_108_864 then Err(InvalidObject) else Ok(d.value)
  {
    assert stored[..2][0] == stored[0] && stored[..2][1] == stored[1];
  }

  /** Decompression gives the data back exactly when it fits the limit or was stored raw. */
  lemma {:induction false} CompressRoundTrip(u: Suite, d: Bytes)
    requires Sound(u)
    ensures Decompress(u, Compress(u, d)) == Ok(d) <==> |d| <= 67_108_864 || Compress(u, d) == EscapeRaw(d)
  {
    var c := Compress(u, d);
    if c == [0xED, 0xDE] + u.zip(d, true) {
      assert c[2..] == u.zip(d, true);
    } else if c == [0xED, 0xDF] + u.zip(d, false) {
      assert c[2..] == u.zip(d, false);
    } else if NeedsRawEscape(d) {
      assert c[2..] == d;
    }
    RawIsNoFrame(d);
  }

  /** No candidate is smaller, and among equals a frame with the dictionary goes before a plain one, that before raw. */
  lemma {:induction false} CompressIsSmallest(u: Suite, d: Bytes)
    ensures var c, dict, plain := Compress(u, d), [0xED, 0xDE] + u.zip(d, true), [0xED, 0xDF] + u.zip(d, false);
            && (c == dict || c == plain || c == EscapeRaw(d))
            && |c| <= |dict| && |c| <= |plain| && |c| <= |EscapeRaw(d)|
            && (|c| == |dict| ==> c == dict) && (|c| == |plain| < |dict| ==> c == plain)
  {
  }

  /** Raw bytes are stored as they are unless they start with ED D0 to ED DF. */
  lemma {:induction false} RawEscapeExactly(d: Bytes)
    ensures EscapeRaw(d) == d <==> !(|d| >= 2 && d[0] == 0xED && 0xD0 <= d[1] <= 0xDF)
    ensures EscapeRaw(d) != d ==> EscapeRaw(d) == [0xED, 0xD0] + d
  {
  }

  /** Raw bytes never look like a frame. */
  lemma {:induction false} RawIsNoFrame(d: Bytes)
    ensures |EscapeRaw(d)| >= 2 && EscapeRaw(d)[0] == 0xED ==> EscapeRaw(d)[1] != 0xDE && EscapeRaw(d)[1] != 0xDF
  {
  }

  // ----- encode and decode --------------------------------------------------

  /** The cipher's nonce is the front of the object's hash. */
  function Encode(u: Suite, key: Option<Hash>, h: Hash, d: Bytes): Bytes {
    if key.None? then Compress(u, d) else u.encrypt(key.value, h[..12], Compress(u, d))
  }

  function Decode(u: Suite, key: Option<Hash>, h: Hash, stored: Bytes): Result<Bytes> {
    if key.None? then Decompress(u, stored)
    else if |stored| < TAG_LEN then Err(AuthTagMismatch)
    else
      var d := u.decrypt(key.value, h[..12], stored);
      if d.None? then Err(AuthTagMismatch) else Decompress(u, d.value)
  }

  /** With or without a key, what was encoded within the limit decodes to itself. */
  lemma {:induction false} EncodeRoundTrip(u: Suite, key: Option<Hash>, h: Hash, d: Bytes)
    requires Sound(u) && |d| <= DECOMPRESS_MAX
    ensures Decode(u, key, h, Encode(u, key, h, d)) == Ok(d)
  {
    CompressRoundTrip(u, d);
  }

  /** The nonce is the first twelve bytes of the hash, so equal objects encrypt alike. */
  lemma {:induction false} EncryptedUnderHash(u: Suite, key: Hash, h: Hash, d: Bytes, nonce: Bytes)
    requires |nonce| == 12 && StartsWith(h, nonce)
    ensures Encode(u, Some(key), h, d) == u.encrypt(key, nonce, Encode(u, None, h, d))
  {
  }

  // ----- the two-byte peek --------------------------------------------------

  /** The first two stored bytes show that the object is no manifest. */
  predicate PeekRulesOut(stored: Bytes) {
    |stored| < 2 || (stored[..2] != TAG_MANIFEST && !(stored[0] == 0xED && (stored[1] == 0xDE || stored[1] == 0xDF)))
  }

  ghost predicate DecodesToManifest(u: Suite, stored: Bytes) {
    Decompress(u, stored).Ok? && DeserialiseManifest(Decompress(u, stored).value).Some?
  }

  /** The peek contradicts the full decode exactly on a manifest behind a raw escape. */
  lemma {:induction false} PeekContradictsExactly(u: Suite, stored: Bytes)
    ensures PeekRulesOut(stored) && DecodesToManifest(u, stored) <==>
            StartsWith(stored, [0xED, 0xD0]) && DeserialiseManifest(stored[2..]).Some?
  {
    if |stored| >= 2 {
      assert stored[..2] == [stored[0], stored[1]];
    }
  }

  /** The compressor never writes such bytes, so the peek is right about everything it wrote. */
  lemma {:induction false} PeekIsSound(u: Suite, d: Bytes)
    requires Sound(u)
    ensures PeekRulesOut(Compress(u, d)) ==> DeserialiseManifest(d) == None
    ensures PeekRulesOut(Compress(u, d)) ==> Decompress(u, Compress(u, d)) == Ok(d)
  {
    var c := Compress(u, d);
    CompressRoundTrip(u, d);
    if |d| >= 2 { assert d[..2] == [d[0], d[1]]; }
    if |c| >= 2 { assert c[..2] == [c[0], c[1]]; }
  }

  /** And conclusive for every uncompressed manifest: a raw manifest is never ruled out. */
  lemma {:induction false} RawManifestIsNotRuledOut(u: Suite, hashes: seq<Hash>)
    ensures !PeekRulesOut(Compress(u, SerialiseManifest(hashes)))
  {
    var d := SerialiseManifest(hashes);
    assert d[..2] == TAG_MANIFEST && d[1] == 0xF2;
    var c := Compress(u, d);
    if |c| >= 2 { assert c[..2] == [c[0], c[1]]; }
  }
}
