/**
 The STAT_CACHE binary format, version 1 (src/stat_cache.rs, design/07_stat_cache.md):
 a printer, a full parser, and a scoped parser that binary-searches the sorted index.
 */
module CacheFormat {
  import opened Base
  import opened CacheSpec

  const MAGIC: seq<byte> := [0x4F, 0x53, 0x54, 0x43]
  const TWO32 := 0x1_0000_0000
  const TWO64 := 0x1_0000_0000_0000_0000

  // ----- big-endian integers ------------------------------------------------

  /** The four bytes of `b` at `off` as a number, most significant first. */
  function U32At(b: seq<byte>, off: nat): (r: nat)
    requires off + 4 <= |b|
    ensures r < TWO32
  {
    b[off] as int * 0x100_0000 + b[off + 1] as int * 0x1_0000 + b[off + 2] as int * 0x100 + b[off + 3]
  }

  function U64At(b: seq<byte>, off: nat): (r: nat)
    requires off + 8 <= |b|
    ensures r < TWO64
  {
    U32At(b, off) * TWO32 + U32At(b, off + 4)
  }

  /** `n` cast to 32 bits: the one string of four bytes that stands for `n` modulo 2^32. */
  ghost function BE4(n: nat): (r: seq<byte>)
    ensures |r| == 4 && U32At(r, 0) == n % TWO32
  {
    BE4Exists(n);
    var r: seq<byte> :| |r| == 4 && U32At(r, 0) == n % TWO32;
    r
  }

  lemma {:induction false} BE4Exists(n: nat)
    ensures exists r: seq<byte> :: |r| == 4 && U32At(r, 0) == n % TWO32
  {
    var m := n % TWO32;
    var x := m / 256;
    var y := x / 256;
    var r: seq<byte> := [y / 256, y % 256, x % 256, m % 256];
    assert U32At(r, 0) == m;
  }

  lemma {:induction false} BE4Unique(r: seq<byte>, n: nat)
    requires |r| == 4 && U32At(r, 0) == n % TWO32
    ensures r == BE4(n)
  {
    var t := BE4(n);
    assert r[0] == t[0] && r[1] == t[1] && r[2] == t[2] && r[3] == t[3];
  }

  ghost function BE8(n: nat): (r: seq<byte>)
    requires n < TWO64
    ensures |r| == 8
  {
    BE4(n / TWO32) + BE4(n)
  }

  /** Two's complement in 64 bits. */
  function Wrap64(x: I64): nat { if x < 0 then x + TWO64 else x }

  function Unwrap64(n: nat): I64
    requires n < TWO64
  {
    if n < 0x8000_0000_0000_0000 then n else n - TWO64
  }

  // ----- concatenation ------------------------------------------------------

  function Flat(rs: seq<seq<byte>>): seq<byte> {
    if rs == [] then [] else Flat(rs[..|rs| - 1]) + rs[|rs| - 1]
  }

  /** Where the `i`-th piece starts. */
  function Offset(rs: seq<seq<byte>>, i: nat): nat
    requires i <= |rs|
  {
    |Flat(rs[..i])|
  }

  /** `part` lies in `b` at offset `at`. */
  ghost predicate Holds(b: seq<byte>, at: nat, part: seq<byte>) {
    at + |part| <= |b| && forall k :: 0 <= k < |part| ==> b[at + k] == part[k]
  }

  lemma {:induction false} HoldsPart(b: seq<byte>, at: nat, part: seq<byte>, i: nat, sub: seq<byte>)
    requires Holds(b, at, part) && Holds(part, i, sub)
    ensures Holds(b, at + i, sub)
  {
    forall k | 0 <= k < |sub|
      ensures b[at + i + k] == sub[k]
    {
      assert part[i + k] == sub[k];
    }
  }

  lemma {:induction false} HoldsSlice(b: seq<byte>, at: nat, part: seq<byte>)
    requires Holds(b, at, part)
    ensures b[at..at + |part|] == part
  {
  }

  /** The `i`-th piece is found at its offset. */
  lemma {:induction false} FlatAt(rs: seq<seq<byte>>, i: nat)
    requires i < |rs|
    ensures Holds(Flat(rs), Offset(rs, i), rs[i])
    decreases |rs|
  {
    var front := rs[..|rs| - 1];
    if i < |rs| - 1 {
      FlatAt(front, i);
      assert front[..i] == rs[..i];
    }
  }

  lemma {:induction false} FlatFixed(rs: seq<seq<byte>>, w: nat)
    requires forall k :: 0 <= k < |rs| ==> |rs[k]| == w
    ensures |Flat(rs)| == w * |rs|
  {
    if rs != [] {
      FlatFixed(rs[..|rs| - 1], w);
      assert w * |rs| == w + w * (|rs| - 1);
    }
  }

  lemma {:induction false} FlatSnoc(rs: seq<seq<byte>>, r: seq<byte>)
    ensures Flat(rs + [r]) == Flat(rs) + r
  {
    assert (rs + [r])[..|rs|] == rs;
  }

  /** The section table: entry count, PATHS offset, DATA offset. */
  datatype Head = Head(count: nat, paths: nat, data: nat)

  // ----- the layout ---------------------------------------------------------

  function Zeros(n: nat): seq<byte> { seq(n, _ => 0) }

  /** Total path bytes rounded up to a multiple of eight. */
  function Padded(n: nat): nat { (n + 7) / 8 * 8 }

  function Flags(e: Entry): U32 {
    (if e.isUnsafe then 1 else 0) + (if e.sealed then 2 else 0)
  }

  ghost function DataRecord(e: Entry): (r: seq<byte>)
    ensures |r| == 56
  {
    BE8(Wrap64(e.mtimeSecs)) + (BE4(e.mtimeNanos) + (BE8(e.fsSize) + (e.hash + BE4(Flags(e)))))
  }

  ghost function IndexRecords(ps: seq<Path>): (r: seq<seq<byte>>)
    ensures |r| == |ps|
    ensures forall i :: 0 <= i < |r| ==> |r[i]| == 8 && r[i] == BE4(Offset(ps, i)) + BE4(|ps[i]|)
  {
    seq(|ps|, i requires 0 <= i < |ps| => BE4(Offset(ps, i)) + BE4(|ps[i]|))
  }

  ghost function DataRecords(ps: seq<Path>, m: Entries): (r: seq<seq<byte>>)
    requires forall p :: p in ps ==> p in m
    ensures |r| == |ps|
    ensures forall i :: 0 <= i < |r| ==> |r[i]| == 56 && r[i] == DataRecord(m[ps[i]])
  {
    seq(|ps|, i requires 0 <= i < |ps| => DataRecord(m[ps[i]]))
  }

  function PathsOffset(ps: seq<Path>): nat { 32 + 8 * |ps| }

  function DataOffset(ps: seq<Path>): nat { PathsOffset(ps) + Padded(|Flat(ps)|) }

  /** The header's eight words; every count and offset is cast to 32 bits. */
  ghost function HeaderWords(h: Head): (r: seq<seq<byte>>)
    ensures |r| == 8 && forall k :: 0 <= k < 8 ==> |r[k]| == 4
  {
    [MAGIC, BE4(1), BE4(h.count), BE4(0), BE4(32), BE4(h.paths), BE4(h.data), BE4(0)]
  }

  function TrueHead(ps: seq<Path>): Head {
    Head(|ps|, PathsOffset(ps), DataOffset(ps))
  }

  function PathSection(ps: seq<Path>): seq<byte> {
    Flat(ps) + Zeros(Padded(|Flat(ps)|) - |Flat(ps)|)
  }

  /** The whole file for the entries `m` listed in the order `ps`. */
  ghost function Layout(ps: seq<Path>, m: Entries, epoch: Epoch): seq<byte>
    requires forall p :: p in ps ==> p in m
  {
    Flat(HeaderWords(TrueHead(ps)))
    + (Flat(IndexRecords(ps)) + (PathSection(ps) + (Flat(DataRecords(ps, m)) + (epoch + Zeros(16)))))
  }

  // ----- reading fields -----------------------------------------------------

  /** The sections a header announces lie inside the file, in order. */
  predicate Framed(b: seq<byte>, h: Head) {
    32 + 8 * h.count <= h.paths <= h.data && h.data + 56 * h.count + 32 <= |b|
  }

  function ParseHead(b: seq<byte>): (r: Option<Head>)
    ensures r.Some? ==> Framed(b, r.value)
  {
    if |b| < 64 || b[0..4] != MAGIC || U32At(b, 4) != 1 || U32At(b, 16) != 32 then None
    else
      var h := Head(U32At(b, 8), U32At(b, 20), U32At(b, 24));
      if Framed(b, h) then Some(h) else None
  }

  /** The path of index entry `i`, unless it points outside the PATHS section. */
  function PathAt(b: seq<byte>, h: Head, i: nat): (r: Option<Path>)
    requires Framed(b, h) && i < h.count
    ensures r.Some? ==> |r.value| < TWO32 && |r.value| <= h.data - h.paths
  {
    var off, len := U32At(b, 32 + 8 * i), U32At(b, 32 + 8 * i + 4);
    if off + len > h.data - h.paths then None else Some(b[h.paths + off..h.paths + off + len])
  }

  function EntryOf(r: seq<byte>): Entry
    requires |r| == 56
  {
    var flags := U32At(r, 52);
    Entry(Unwrap64(U64At(r, 0)), U32At(r, 8), U64At(r, 12), r[20..52], flags % 2 == 1, flags / 2 % 2 == 1)
  }

  function EntryAt(b: seq<byte>, h: Head, i: nat): Entry
    requires Framed(b, h) && i < h.count
  {
    EntryOf(b[h.data + 56 * i..h.data + 56 * i + 56])
  }

  function EpochAt(b: seq<byte>, h: Head): Epoch
    requires Framed(b, h)
  {
    b[h.data + 56 * h.count..h.data + 56 * h.count + 16]
  }

  predicate Cont(b: byte) { 0x80 <= b <= 0xBF }

  /** UTF-8 validity as section 4 of RFC 3629 defines it. */
  predicate ValidUtf8(s: seq<byte>) {
    s == []
    || (s[0] < 0x80 && ValidUtf8(s[1..]))
    || (|s| >= 2 && 0xC2 <= s[0] <= 0xDF && Cont(s[1]) && ValidUtf8(s[2..]))
    || (|s| >= 3 && 0xE0 <= s[0] <= 0xEF && Cont(s[1]) && Cont(s[2])
        && (s[0] == 0xE0 ==> s[1] >= 0xA0) && (s[0] == 0xED ==> s[1] <= 0x9F) && ValidUtf8(s[3..]))
    || (|s| >= 4 && 0xF0 <= s[0] <= 0xF4 && Cont(s[1]) && Cont(s[2]) && Cont(s[3])
        && (s[0] == 0xF0 ==> s[1] >= 0x90) && (s[0] == 0xF4 ==> s[1] <= 0x8F) && ValidUtf8(s[4..]))
  }

  /** Index and data entry `i` together. */
  function RecordAt(b: seq<byte>, h: Head, i: nat): Option<(Path, Entry)>
    requires Framed(b, h) && i < h.count
  {
    var p := PathAt(b, h, i);
    if p.None? then None else Some((p.value, EntryAt(b, h, i)))
  }

  function Records(b: seq<byte>, h: Head): (r: seq<Option<(Path, Entry)>>)
    requires Framed(b, h)
    ensures |r| == h.count && forall i :: 0 <= i < h.count ==> r[i] == RecordAt(b, h, i)
  {
    seq(h.count, i requires 0 <= i < h.count => RecordAt(b, h, i))
  }

  /** Unreadable records are dropped, later ones win, and a path that is not UTF-8 spoils the file. */
  function Collect(rs: seq<Option<(Path, Entry)>>): Option<Entries> {
    if rs == [] then Some(map[])
    else
      var prev, r := Collect(rs[..|rs| - 1]), rs[|rs| - 1];
      if prev.None? || r.None? then prev
      else if !ValidUtf8(r.value.0) then None
      else Some(prev.value[r.value.0 := r.value.1])
  }

  function Parse(b: seq<byte>): Option<CacheFile> {
    var h := ParseHead(b);
    if h.None? then None
    else
      var es := Collect(Records(b, h.value));
      if es.None? then None else Some(CacheFile(es.value, EpochAt(b, h.value)))
  }

  // ----- what the parser finds in a layout ----------------------------------

  lemma {:induction false} HoldsRecord(b: seq<byte>, at: nat, rs: seq<seq<byte>>, i: nat)
    requires Holds(b, at, Flat(rs)) && i < |rs|
    ensures Holds(b, at + Offset(rs, i), rs[i])
  {
    FlatAt(rs, i);
    HoldsPart(b, at, Flat(rs), Offset(rs, i), rs[i]);
  }

  lemma {:induction false} FiveParts(a: seq<byte>, b: seq<byte>, c: seq<byte>, d: seq<byte>, e: seq<byte>)
    ensures var s := a + (b + (c + (d + e)));
            && Holds(s, 0, a) && Holds(s, |a|, b) && Holds(s, |a| + |b|, c)
            && Holds(s, |a| + |b| + |c|, d) && Holds(s, |a| + |b| + |c| + |d|, e)
  {
  }

  /** The sections of a cache, each where the head says. */
  ghost predicate LaidAs(b: seq<byte>, h: Head, ps: seq<Path>, m: Entries, epoch: Epoch)
    requires forall p :: p in ps ==> p in m
  {
    && h.count == |ps| && |b| == h.data + 56 * h.count + 32
    && Holds(b, 0, Flat(HeaderWords(h)))
    && Holds(b, 32, Flat(IndexRecords(ps)))
    && Holds(b, h.paths, PathSection(ps))
    && Holds(b, h.data, Flat(DataRecords(ps, m)))
    && Holds(b, h.data + 56 * h.count, epoch + Zeros(16))
  }

  /** The sections of a written cache, each at its offset. */
  ghost predicate Laid(b: seq<byte>, ps: seq<Path>, m: Entries, epoch: Epoch)
    requires forall p :: p in ps ==> p in m
  {
    LaidAs(b, TrueHead(ps), ps, m, epoch)
  }

  lemma {:induction false} LayoutLaid(ps: seq<Path>, m: Entries, epoch: Epoch)
    requires forall p :: p in ps ==> p in m
    ensures Laid(Layout(ps, m, epoch), ps, m, epoch)
  {
    var head, index, data := Flat(HeaderWords(TrueHead(ps))), Flat(IndexRecords(ps)), Flat(DataRecords(ps, m));
    assert |head| == 32 by { FlatFixed(HeaderWords(TrueHead(ps)), 4); }
    assert |index| == 8 * |ps| by { FlatFixed(IndexRecords(ps), 8); }
    assert |data| == 56 * |ps| by { FlatFixed(DataRecords(ps, m), 56); }
    FiveParts(head, index, PathSection(ps), data, epoch + Zeros(16));
  }

  lemma {:induction false} WordValue(b: seq<byte>, at: nat, n: nat)
    requires Holds(b, at, BE4(n))
    ensures at + 4 <= |b| && U32At(b, at) == n % TWO32
  {
    var r := BE4(n);
    assert b[at] == r[0] && b[at + 1] == r[1] && b[at + 2] == r[2] && b[at + 3] == r[3];
  }

  lemma {:induction false} LongValue(b: seq<byte>, at: nat, n: nat)
    requires n < TWO64 && Holds(b, at, BE8(n))
    ensures at + 8 <= |b| && U64At(b, at) == n
  {
    assert U32At(b, at) == n / TWO32 by {
      HoldsPart(b, at, BE8(n), 0, BE4(n / TWO32));
      WordValue(b, at, n / TWO32);
    }
    assert U32At(b, at + 4) == n % TWO32 by {
      HoldsPart(b, at, BE8(n), 4, BE4(n));
      WordValue(b, at + 4, n);
    }
  }

  lemma {:induction false} HeaderWordAt(b: seq<byte>, h: Head, k: nat)
    requires Holds(b, 0, Flat(HeaderWords(h))) && k < 8
    ensures Holds(b, 4 * k, HeaderWords(h)[k])
  {
    FlatFixed(HeaderWords(h)[..k], 4);
    HoldsRecord(b, 0, HeaderWords(h), k);
  }

  /** The header a reader sees: the true values reduced to 32 bits. */
  ghost function Reduced(h: Head): Head {
    Head(h.count % TWO32, h.paths % TWO32, h.data % TWO32)
  }

  lemma {:induction false} HeadRoundTrip(b: seq<byte>, h: Head)
    requires Holds(b, 0, Flat(HeaderWords(h))) && |b| >= 64
    ensures ParseHead(b) == if Framed(b, Reduced(h)) then Some(Reduced(h)) else None
  {
    HeaderWordAt(b, h, 0);
    HoldsSlice(b, 0, MAGIC);
    HeaderWordAt(b, h, 1);
    WordValue(b, 4, 1);
    HeaderWordAt(b, h, 2);
    WordValue(b, 8, h.count);
    HeaderWordAt(b, h, 4);
    WordValue(b, 16, 32);
    HeaderWordAt(b, h, 5);
    WordValue(b, 20, h.paths);
    HeaderWordAt(b, h, 6);
    WordValue(b, 24, h.data);
  }

  lemma {:induction false} TwoWords(b: seq<byte>, at: nat, x: nat, y: nat)
    requires Holds(b, at, BE4(x) + BE4(y)) && x < TWO32 && y < TWO32
    ensures at + 8 <= |b| && U32At(b, at) == x && U32At(b, at + 4) == y
  {
    var r := BE4(x) + BE4(y);
    HoldsPart(b, at, r, 0, BE4(x));
    HoldsPart(b, at, r, 4, BE4(y));
    WordValue(b, at, x);
    WordValue(b, at + 4, y);
  }

  lemma {:induction false} FieldsDecode(r: seq<byte>, e: Entry)
    requires |r| == 56
    requires U64At(r, 0) == Wrap64(e.mtimeSecs) && U32At(r, 8) == e.mtimeNanos && U64At(r, 12) == e.fsSize
    requires r[20..52] == e.hash && U32At(r, 52) == Flags(e)
    ensures EntryOf(r) == e
  {
  }

  ghost predicate FieldsHeld(r: seq<byte>, e: Entry) {
    && Holds(r, 0, BE8(Wrap64(e.mtimeSecs))) && Holds(r, 8, BE4(e.mtimeNanos))
    && Holds(r, 12, BE8(e.fsSize)) && Holds(r, 20, e.hash) && Holds(r, 52, BE4(Flags(e)))
  }

  lemma {:induction false} RecordParts(e: Entry)
    ensures FieldsHeld(DataRecord(e), e)
  {
    FiveParts(BE8(Wrap64(e.mtimeSecs)), BE4(e.mtimeNanos), BE8(e.fsSize), e.hash, BE4(Flags(e)));
  }

  lemma {:induction false} NumbersRead(r: seq<byte>, e: Entry)
    requires |r| == 56 && Holds(r, 0, BE8(Wrap64(e.mtimeSecs))) && Holds(r, 8, BE4(e.mtimeNanos))
    requires Holds(r, 12, BE8(e.fsSize))
    ensures U64At(r, 0) == Wrap64(e.mtimeSecs) && U32At(r, 8) == e.mtimeNanos && U64At(r, 12) == e.fsSize
  {
    assert U64At(r, 0) == Wrap64(e.mtimeSecs) by { LongValue(r, 0, Wrap64(e.mtimeSecs)); }
    assert U32At(r, 8) == e.mtimeNanos by { WordValue(r, 8, e.mtimeNanos); }
    assert U64At(r, 12) == e.fsSize by { LongValue(r, 12, e.fsSize); }
  }

  lemma {:induction false} HashAndFlagsRead(r: seq<byte>, e: Entry)
    requires |r| == 56 && Holds(r, 20, e.hash) && Holds(r, 52, BE4(Flags(e)))
    ensures r[20..52] == e.hash && U32At(r, 52) == Flags(e)
  {
    HoldsSlice(r, 20, e.hash);
    WordValue(r, 52, Flags(e));
  }

  lemma {:induction false} FieldsRead(r: seq<byte>, e: Entry)
    requires |r| == 56 && FieldsHeld(r, e)
    ensures EntryOf(r) == e
  {
    NumbersRead(r, e);
    HashAndFlagsRead(r, e);
    FieldsDecode(r, e);
  }

  /** One data record decodes to the entry it was made from. */
  lemma {:induction false} RecordRoundTrip(e: Entry)
    ensures EntryOf(DataRecord(e)) == e
  {
    RecordParts(e);
    FieldsRead(DataRecord(e), e);
  }

  // ----- what the pieces of the parser accept -------------------------------

  /** A scalar value and the bytes that encode it. */
  datatype Unit = Unit(text: seq<byte>, code: nat)

  /** A Unicode scalar value: no surrogate, at most 10FFFF. */
  predicate Scalar(c: nat) { c < 0xD800 || 0xE000 <= c < 0x11_0000 }

  /** These bytes, and no shorter ones, encode `c`: section 3 of RFC 3629. */
  predicate UnitOf(u: seq<byte>, c: nat) {
    Scalar(c) &&
    if |u| == 1 then u[0] < 0x80 && c == u[0]
    else if |u| == 2 then
      0xC0 <= u[0] < 0xE0 && Cont(u[1]) && c >= 0x80 && c == (u[0] as int - 0xC0) * 64 + (u[1] as int - 0x80)
    else if |u| == 3 then
      0xE0 <= u[0] < 0xF0 && Cont(u[1]) && Cont(u[2]) && c >= 0x800
      && c == (u[0] as int - 0xE0) * 4096 + (u[1] as int - 0x80) * 64 + (u[2] as int - 0x80)
    else
      |u| == 4 && 0xF0 <= u[0] < 0xF8 && Cont(u[1]) && Cont(u[2]) && Cont(u[3]) && c >= 0x1_0000
      && c == (u[0] as int - 0xF0) * 262144 + (u[1] as int - 0x80) * 4096
              + (u[2] as int - 0x80) * 64 + (u[3] as int - 0x80)
  }

  /** The units spell out the text. */
  ghost predicate Spells(us: seq<Unit>, s: seq<byte>)
    decreases |us|
  {
    if us == [] then s == []
    else UnitOf(us[0].text, us[0].code) && StartsWith(s, us[0].text) && Spells(us[1..], s[|us[0].text|..])
  }

  /** The same, as one term for a quantifier to hang on. */
  ghost predicate Spelling(us: seq<Unit>, s: seq<byte>) { Spells(us, s) }

  lemma {:induction false} FirstUnit(s: seq<byte>) returns (u: seq<byte>, c: nat)
    requires ValidUtf8(s) && s != []
    ensures UnitOf(u, c) && StartsWith(s, u) && ValidUtf8(s[|u|..])
  {
    if s[0] < 0x80 {
      u, c := s[..1], s[0];
    } else if s[0] < 0xE0 {
      u, c := s[..2], (s[0] as int - 0xC0) * 64 + (s[1] as int - 0x80);
    } else if s[0] < 0xF0 {
      u, c := s[..3], (s[0] as int - 0xE0) * 4096 + (s[1] as int - 0x80) * 64 + (s[2] as int - 0x80);
    } else {
      u := s[..4];
      c := (s[0] as int - 0xF0) * 262144 + (s[1] as int - 0x80) * 4096
           + (s[2] as int - 0x80) * 64 + (s[3] as int - 0x80);
    }
  }

  lemma {:induction false} UnitValid(s: seq<byte>, u: seq<byte>, c: nat)
    requires UnitOf(u, c) && StartsWith(s, u) && ValidUtf8(s[|u|..])
    ensures ValidUtf8(s)
  {
    assert forall i :: 0 <= i < |u| ==> u[i] == s[..|u|][i] == s[i];
  }

  /** A text is valid exactly if it spells out some scalar values. */
  lemma {:induction false} Utf8Exactly(s: seq<byte>)
    ensures ValidUtf8(s) <==> exists us :: Spelling(us, s)
  {
    if ValidUtf8(s) {
      var us := Spelled(s);
      assert Spelling(us, s);
    }
    if us :| Spelling(us, s) { SpelledValid(us, s); }
  }

  lemma {:induction false} Spelled(s: seq<byte>) returns (us: seq<Unit>)
    requires ValidUtf8(s)
    ensures Spells(us, s)
    decreases |s|
  {
    us := [];
    if s != [] {
      var u, c := FirstUnit(s);
      var rest := Spelled(s[|u|..]);
      us := [Unit(u, c)] + rest;
      assert us[1..] == rest;
    }
  }

  lemma {:induction false} SpelledValid(us: seq<Unit>, s: seq<byte>)
    requires Spells(us, s)
    ensures ValidUtf8(s)
    decreases |us|
  {
    if us != [] {
      SpelledValid(us[1..], s[|us[0].text|..]);
      UnitValid(s, us[0].text, us[0].code);
    }
  }

  /** The last readable record of a path. */
  ghost predicate LastOf(rs: seq<Option<(Path, Entry)>>, i: nat, p: Path) {
    && i < |rs| && rs[i].Some? && rs[i].value.0 == p
    && forall j :: i < j < |rs| && rs[j].Some? ==> rs[j].value.0 != p
  }

  /** Every readable path is UTF-8. */
  ghost predicate AllUtf8(rs: seq<Option<(Path, Entry)>>) {
    forall i :: 0 <= i < |rs| && rs[i].Some? ==> ValidUtf8(rs[i].value.0)
  }

  /** Nothing is collected if some readable path is not UTF-8, otherwise of every readable path its last entry. */
  lemma {:induction false} CollectExactly(rs: seq<Option<(Path, Entry)>>, p: Path)
    ensures Collect(rs).Some? <==> AllUtf8(rs)
    ensures Collect(rs).Some? ==> (p in Collect(rs).value <==> exists i: nat :: LastOf(rs, i, p))
    ensures Collect(rs).Some? ==> forall i: nat :: LastOf(rs, i, p) ==> Collect(rs).value[p] == rs[i].value.1
    decreases |rs|
  {
    if rs != [] {
      CollectExactly(rs[..|rs| - 1], p);
      LastNext(rs, p);
      if rs[|rs| - 1].Some? && rs[|rs| - 1].value.0 == p { assert LastOf(rs, |rs| - 1, p); }
    }
  }

  lemma {:induction false} LastNext(rs: seq<Option<(Path, Entry)>>, p: Path)
    requires rs != []
    ensures var k := |rs| - 1;
            if rs[k].Some? && rs[k].value.0 == p then forall i: nat :: LastOf(rs, i, p) <==> i == k
            else forall i: nat :: LastOf(rs, i, p) <==> LastOf(rs[..k], i, p)
  {
  }

  /** The paths follow the index at once, the data the paths at the next multiple of eight. */
  lemma {:induction false} SectionsAligned(ps: seq<Path>)
    ensures PathsOffset(ps) == 32 + 8 * |ps| && DataOffset(ps) % 8 == 0
    ensures PathsOffset(ps) + |Flat(ps)| <= DataOffset(ps) < PathsOffset(ps) + |Flat(ps)| + 8
  {
  }

  /** A file's header is accepted exactly if it is the printed one of some sections that lie inside the file. */
  lemma {:induction false} HeadParsesExactly(b: seq<byte>, h: Head)
    requires h.count < TWO32 && h.paths < TWO32 && h.data < TWO32
    ensures ParseHead(b) == Some(h) <==>
            |b| >= 64 && Framed(b, h)
            && forall k :: 0 <= k < 8 && k != 3 && k != 7 ==> Holds(b, 4 * k, HeaderWords(h)[k])
  {
    if |b| >= 64 && Framed(b, h) {
      WordHeld(b, 4, 1);
      WordHeld(b, 8, h.count);
      WordHeld(b, 16, 32);
      WordHeld(b, 20, h.paths);
      WordHeld(b, 24, h.data);
      assert Holds(b, 0, MAGIC) <==> b[0..4] == MAGIC;
      WordsListed(b, h);
    }
  }

  lemma {:induction false} WordsListed(b: seq<byte>, h: Head)
    ensures (forall k :: 0 <= k < 8 && k != 3 && k != 7 ==> Holds(b, 4 * k, HeaderWords(h)[k])) <==>
            Holds(b, 0, MAGIC) && Holds(b, 4, BE4(1)) && Holds(b, 8, BE4(h.count)) && Holds(b, 16, BE4(32))
            && Holds(b, 20, BE4(h.paths)) && Holds(b, 24, BE4(h.data))
  {
    var w := HeaderWords(h);
    assert w[0] == MAGIC && w[1] == BE4(1) && w[2] == BE4(h.count);
    assert w[4] == BE4(32) && w[5] == BE4(h.paths) && w[6] == BE4(h.data);
    if forall k :: 0 <= k < 8 && k != 3 && k != 7 ==> Holds(b, 4 * k, w[k]) {
      assert Holds(b, 4 * 0, w[0]) && Holds(b, 4 * 1, w[1]) && Holds(b, 4 * 2, w[2]);
      assert Holds(b, 4 * 4, w[4]) && Holds(b, 4 * 5, w[5]) && Holds(b, 4 * 6, w[6]);
    }
  }

  lemma {:induction false} WordHeld(b: seq<byte>, at: nat, n: nat)
    requires at + 4 <= |b| && n < TWO32
    ensures U32At(b, at) == n <==> Holds(b, at, BE4(n))
  {
    if Holds(b, at, BE4(n)) { WordValue(b, at, n); }
    if U32At(b, at) == n {
      var r := b[at..at + 4];
      assert r[0] == b[at] && r[1] == b[at + 1] && r[2] == b[at + 2] && r[3] == b[at + 3];
      BE4Unique(r, n);
    }
  }

  /** Where a data record holds what: big-endian numbers, the hash, and the two flags in the last byte. */
  lemma {:induction false} RecordFields(e: Entry)
    ensures var r := DataRecord(e);
            && U64At(r, 0) == (if e.mtimeSecs < 0 then e.mtimeSecs + TWO64 else e.mtimeSecs)
            && U32At(r, 8) == e.mtimeNanos && U64At(r, 12) == e.fsSize && r[20..52] == e.hash
            && r[52..55] == [0, 0, 0] && r[55] == (if e.isUnsafe then 1 else 0) + (if e.sealed then 2 else 0)
  {
    var r := DataRecord(e);
    RecordParts(e);
    NumbersRead(r, e);
    HashAndFlagsRead(r, e);
    assert U32At(r, 52) == r[52] as int * 0x100_0000 + r[53] as int * 0x1_0000 + r[54] as int * 0x100 + r[55];
  }

  ghost predicate Utf8Paths(m: Entries) {
    forall p :: p in m ==> ValidUtf8(p)
  }

  /** All section offsets fit in 32 bits; the data offset is the largest. */
  ghost predicate Fits(ps: seq<Path>) {
    DataOffset(ps) < TWO32
  }

  /** The records are the paths `ps`, in order, with the values of `m`. */
  ghost predicate Recorded(rs: seq<Option<(Path, Entry)>>, ps: seq<Path>, m: Entries) {
    |rs| == |ps| && forall i :: 0 <= i < |ps| ==> ps[i] in m && rs[i] == Some((ps[i], m[ps[i]]))
  }

  lemma {:induction false} PathRoundTrip(b: seq<byte>, h: Head, i: nat, off: nat, p: Path)
    requires Framed(b, h) && i < h.count && off + |p| <= h.data - h.paths < TWO32
    requires Holds(b, 32 + 8 * i, BE4(off) + BE4(|p|)) && Holds(b, h.paths + off, p)
    ensures PathAt(b, h, i) == Some(p)
  {
    assert U32At(b, 32 + 8 * i) == off && U32At(b, 32 + 8 * i + 4) == |p| by {
      TwoWords(b, 32 + 8 * i, off, |p|);
    }
    assert b[h.paths + off..h.paths + off + |p|] == p by { HoldsSlice(b, h.paths + off, p); }
  }

  lemma {:induction false} EntryHeld(b: seq<byte>, h: Head, i: nat, r: seq<byte>)
    requires Framed(b, h) && i < h.count && |r| == 56 && Holds(b, h.data + 56 * i, r)
    ensures EntryAt(b, h, i) == EntryOf(r)
  {
    HoldsSlice(b, h.data + 56 * i, r);
  }

  lemma {:induction false} FixedRecordAt(b: seq<byte>, at: nat, rs: seq<seq<byte>>, w: nat, i: nat)
    requires Holds(b, at, Flat(rs)) && i < |rs| && forall k :: 0 <= k < |rs| ==> |rs[k]| == w
    ensures Holds(b, at + w * i, rs[i])
  {
    FlatFixed(rs[..i], w);
    HoldsRecord(b, at, rs, i);
  }

  ghost predicate IndexAt(b: seq<byte>, ps: seq<Path>, i: nat)
    requires i < |ps|
  {
    Holds(b, 32 + 8 * i, BE4(Offset(ps, i)) + BE4(|ps[i]|))
  }

  ghost predicate TextAt(b: seq<byte>, at: nat, ps: seq<Path>, i: nat)
    requires i < |ps|
  {
    Offset(ps, i) + |ps[i]| <= |Flat(ps)| && Holds(b, at + Offset(ps, i), ps[i])
  }

  lemma {:induction false} LaidIndex(b: seq<byte>, ps: seq<Path>, i: nat)
    requires Holds(b, 32, Flat(IndexRecords(ps))) && i < |ps|
    ensures IndexAt(b, ps, i)
  {
    FixedRecordAt(b, 32, IndexRecords(ps), 8, i);
  }

  lemma {:induction false} LaidText(b: seq<byte>, at: nat, ps: seq<Path>, i: nat)
    requires Holds(b, at, PathSection(ps)) && i < |ps|
    ensures TextAt(b, at, ps, i)
  {
    FlatAt(ps, i);
    HoldsPart(b, at, PathSection(ps), 0, Flat(ps));
    HoldsRecord(b, at, ps, i);
  }

  lemma {:induction false} LaidPath(b: seq<byte>, h: Head, ps: seq<Path>, i: nat)
    requires Framed(b, h) && h.count == |ps| && i < |ps| && |Flat(ps)| <= h.data - h.paths < TWO32
    requires IndexAt(b, ps, i) && TextAt(b, h.paths, ps, i)
    ensures PathAt(b, h, i) == Some(ps[i])
  {
    PathRoundTrip(b, h, i, Offset(ps, i), ps[i]);
  }

  lemma {:induction false} LaidEntry(b: seq<byte>, h: Head, ps: seq<Path>, m: Entries, i: nat)
    requires (forall p :: p in ps ==> p in m) && Framed(b, h) && h.count == |ps| && i < |ps|
    requires Holds(b, h.data, Flat(DataRecords(ps, m)))
    ensures EntryAt(b, h, i) == m[ps[i]]
  {
    FixedRecordAt(b, h.data, DataRecords(ps, m), 56, i);
    EntryHeld(b, h, i, DataRecord(m[ps[i]]));
    RecordRoundTrip(m[ps[i]]);
  }

  function Restrict(m: Entries, ps: seq<Path>): Entries {
    map p | p in m && p in ps :: m[p]
  }

  lemma {:induction false} RestrictSnoc(m: Entries, ps: seq<Path>, p: Path)
    requires p in m
    ensures Restrict(m, ps + [p]) == Restrict(m, ps)[p := m[p]]
  {
  }

  lemma {:induction false} Collected(rs: seq<Option<(Path, Entry)>>, ps: seq<Path>, m: Entries)
    requires Recorded(rs, ps, m) && Utf8Paths(m)
    ensures Collect(rs) == Some(Restrict(m, ps))
    decreases |rs|
  {
    if rs != [] {
      var k := |rs| - 1;
      Collected(rs[..k], ps[..k], m);
      assert ps == ps[..k] + [ps[k]];
      RestrictSnoc(m, ps[..k], ps[k]);
    }
  }

  lemma {:induction false} HeadExact(b: seq<byte>, h: Head)
    requires Holds(b, 0, Flat(HeaderWords(h))) && Framed(b, h) && h.data < TWO32
    ensures ParseHead(b) == Some(h)
  {
    ReducedSame(h);
    HeadRoundTrip(b, h);
  }

  lemma {:induction false} ReducedSame(h: Head)
    requires 8 * h.count <= h.paths <= h.data < TWO32
    ensures Reduced(h) == h
  {
  }

  /** What a reader extracts from the file: the sections, the records, the trailer. */
  ghost predicate Reads(b: seq<byte>, h: Head, ps: seq<Path>, m: Entries, epoch: Epoch) {
    ParseHead(b) == Some(h) && Recorded(Records(b, h), ps, m) && EpochAt(b, h) == epoch
  }

  lemma {:induction false} LaidRecorded(b: seq<byte>, h: Head, ps: seq<Path>, m: Entries)
    requires (forall p :: p in ps ==> p in m)
    requires Framed(b, h) && h.count == |ps| && |Flat(ps)| <= h.data - h.paths < TWO32
    requires Holds(b, 32, Flat(IndexRecords(ps))) && Holds(b, h.paths, PathSection(ps))
    requires Holds(b, h.data, Flat(DataRecords(ps, m)))
    ensures Recorded(Records(b, h), ps, m)
  {
    forall i | 0 <= i < |ps|
      ensures RecordAt(b, h, i) == Some((ps[i], m[ps[i]]))
    {
      assert PathAt(b, h, i) == Some(ps[i]) by {
        LaidIndex(b, ps, i);
        LaidText(b, h.paths, ps, i);
        LaidPath(b, h, ps, i);
      }
      assert EntryAt(b, h, i) == m[ps[i]] by { LaidEntry(b, h, ps, m, i); }
    }
  }

  lemma {:induction false} TrailerHeld(b: seq<byte>, h: Head, epoch: Epoch)
    requires Framed(b, h) && Holds(b, h.data + 56 * h.count, epoch + Zeros(16))
    ensures EpochAt(b, h) == epoch
  {
    HoldsPart(b, h.data + 56 * h.count, epoch + Zeros(16), 0, epoch);
    HoldsSlice(b, h.data + 56 * h.count, epoch);
  }

  lemma {:induction false} LaidFrame(ps: seq<Path>, b: seq<byte>)
    requires |b| == DataOffset(ps) + 56 * |ps| + 32 && Fits(ps)
    ensures Framed(b, TrueHead(ps)) && |Flat(ps)| <= DataOffset(ps) - PathsOffset(ps) < TWO32
  {
  }

  /** Sections that lie where the head says are read. */
  lemma {:induction false} HeldReads(b: seq<byte>, h: Head, ps: seq<Path>, m: Entries, epoch: Epoch)
    requires (forall p :: p in ps ==> p in m) && LaidAs(b, h, ps, m, epoch)
    requires Framed(b, h) && h.data < TWO32 && |Flat(ps)| <= h.data - h.paths
    ensures Reads(b, h, ps, m, epoch)
  {
    HeadExact(b, h);
    LaidRecorded(b, h, ps, m);
    TrailerHeld(b, h, epoch);
  }

  lemma {:induction false} LaidReads(b: seq<byte>, ps: seq<Path>, m: Entries, epoch: Epoch)
    requires (forall p :: p in ps ==> p in m) && Laid(b, ps, m, epoch) && Fits(ps)
    ensures Reads(b, TrueHead(ps), ps, m, epoch)
  {
    LaidFrame(ps, b);
    HeldReads(b, TrueHead(ps), ps, m, epoch);
  }

  lemma {:induction false} ParseReads(b: seq<byte>, h: Head, ps: seq<Path>, m: Entries, epoch: Epoch)
    requires Reads(b, h, ps, m, epoch) && Lists(ps, m.Keys) && Utf8Paths(m)
    ensures Parse(b) == Some(CacheFile(m, epoch))
  {
    Collected(Records(b, h), ps, m);
    assert Restrict(m, ps) == m;
  }

  /** Whenever the offsets fit in 32 bits, parsing a written cache gives back exactly its content. */
  lemma {:induction false} ParseLayout(ps: seq<Path>, m: Entries, epoch: Epoch)
    requires Lists(ps, m.Keys) && Fits(ps) && Utf8Paths(m)
    ensures Parse(Layout(ps, m, epoch)) == Some(CacheFile(m, epoch))
  {
    LayoutLaid(ps, m, epoch);
    LaidReads(Layout(ps, m, epoch), ps, m, epoch);
    ParseReads(Layout(ps, m, epoch), TrueHead(ps), ps, m, epoch);
  }

  // ----- the printer --------------------------------------------------------

  method PutWord(n: nat) returns (r: seq<byte>)
    ensures r == BE4(n)
  {
    var m := n % TWO32;
    var x := m / 256;
    var y := x / 256;
    r := [y / 256, y % 256, x % 256, m % 256];
    BE4Unique(r, n);
  }

  /** The path lengths as the printer adds them up, each cast to 32 bits. */
  ghost function CursorSum(ps: seq<Path>): nat {
    if ps == [] then 0 else CursorSum(ps[..|ps| - 1]) + |ps[|ps| - 1]| % TWO32
  }

  lemma {:induction false} CursorIsOffset(ps: seq<Path>) returns (k: nat)
    ensures |Flat(ps)| == CursorSum(ps) + TWO32 * k
  {
    if ps == [] {
      k := 0;
    } else {
      var last := |ps[|ps| - 1]|;
      k := CursorIsOffset(ps[..|ps| - 1]);
      k := k + last / TWO32;
    }
  }

  lemma {:induction false} BE4Cast(a: nat, b: nat)
    requires a % TWO32 == b % TWO32
    ensures BE4(a) == BE4(b)
  {
    BE4Unique(BE4(a), b);
  }

  lemma {:induction false} CursorWord(ps: seq<Path>, i: nat)
    requires i <= |ps|
    ensures BE4(CursorSum(ps[..i])) == BE4(Offset(ps, i))
  {
    var k := CursorIsOffset(ps[..i]);
    BE4Cast(CursorSum(ps[..i]), Offset(ps, i));
  }

  lemma {:induction false} CursorSnoc(ps: seq<Path>, i: nat)
    requires i < |ps|
    ensures CursorSum(ps[..i + 1]) == CursorSum(ps[..i]) + |ps[i]| % TWO32
  {
    assert ps[..i + 1][..i] == ps[..i];
  }

  lemma {:induction false} CursorMonotone(ps: seq<Path>, i: nat)
    requires i <= |ps|
    ensures CursorSum(ps[..i]) <= CursorSum(ps)
    decreases |ps| - i
  {
    if i < |ps| {
      CursorSnoc(ps, i);
      CursorMonotone(ps, i + 1);
    } else {
      assert ps[..i] == ps;
    }
  }

  lemma {:induction false} IndexSnoc(ps: seq<Path>, i: nat)
    requires i < |ps|
    ensures Flat(IndexRecords(ps)[..i + 1]) ==
            Flat(IndexRecords(ps)[..i]) + (BE4(CursorSum(ps[..i])) + BE4(|ps[i]|))
  {
    var rs := IndexRecords(ps);
    CursorWord(ps, i);
    assert rs[..i + 1] == rs[..i] + [rs[i]];
    FlatSnoc(rs[..i], rs[i]);
  }

  /** The INDEX section; the running cursor is checked, so an overflow is an error. */
  method EncodeIndex(ps: seq<Path>) returns (r: Option<seq<byte>>)
    ensures r == if CursorSum(ps) < TWO32 then Some(Flat(IndexRecords(ps))) else None
  {
    ghost var rs := IndexRecords(ps);
    var body: seq<byte> := [];
    var cursor := 0;
    for i := 0 to |ps|
      invariant cursor == CursorSum(ps[..i]) < TWO32
      invariant body == Flat(rs[..i])
    {
      var off := PutWord(cursor);
      var len := PutWord(|ps[i]|);
      IndexSnoc(ps, i);
      body := body + (off + len);
      CursorSnoc(ps, i);
      cursor := cursor + |ps[i]| % TWO32;
      if cursor >= TWO32 {
        CursorMonotone(ps, i + 1);
        return None;
      }
    }
    assert ps[..|ps|] == ps && rs[..|ps|] == rs;
    r := Some(body);
  }

  method EncodeEntry(e: Entry) returns (r: seq<byte>)
    ensures r == DataRecord(e)
  {
    var secs := Wrap64(e.mtimeSecs);
    var a := PutWord(secs / TWO32);
    var b := PutWord(secs);
    var c := PutWord(e.mtimeNanos);
    var d := PutWord(e.fsSize / TWO32);
    var f := PutWord(e.fsSize);
    var g := PutWord(Flags(e));
    r := (a + b) + (c + ((d + f) + (e.hash + g)));
  }

  method EncodeData(ps: seq<Path>, m: Entries) returns (body: seq<byte>)
    requires forall p :: p in ps ==> p in m
    ensures body == Flat(DataRecords(ps, m))
  {
    ghost var rs := DataRecords(ps, m);
    body := [];
    for i := 0 to |ps|
      invariant body == Flat(rs[..i])
    {
      var r := EncodeEntry(m[ps[i]]);
      assert rs[..i + 1] == rs[..i] + [rs[i]];
      FlatSnoc(rs[..i], rs[i]);
      body := body + r;
    }
    assert rs[..|ps|] == rs;
  }

  method EncodePaths(ps: seq<Path>) returns (body: seq<byte>)
    ensures body == PathSection(ps)
  {
    body := [];
    for i := 0 to |ps|
      invariant body == Flat(ps[..i])
    {
      assert ps[..i + 1] == ps[..i] + [ps[i]];
      FlatSnoc(ps[..i], ps[i]);
      body := body + ps[i];
    }
    assert ps[..|ps|] == ps;
    body := body + Zeros(Padded(|body|) - |body|);
  }

  method EncodeHeader(h: Head) returns (body: seq<byte>)
    ensures body == Flat(HeaderWords(h))
  {
    var one := PutWord(1);
    var count := PutWord(h.count);
    var zero := PutWord(0);
    var index := PutWord(32);
    var paths := PutWord(h.paths);
    var data := PutWord(h.data);
    var words := [MAGIC, one, count, zero, index, paths, data, zero];
    body := Flat(words);
  }

  /** Print a cache: the entries sorted by path bytes, or an error when the path section overflows. */
  method EncodeV1(m: Entries, epoch: Epoch) returns (r: Option<seq<byte>>)
    ensures exists ps :: Lists(ps, m.Keys)
    ensures forall ps :: Lists(ps, m.Keys) ==> r == if CursorSum(ps) < TWO32 then Some(Layout(ps, m, epoch)) else None
  {
    var sorted := SortPaths(m.Keys);
    forall ps | Lists(ps, m.Keys)
      ensures ps == sorted
    {
      ListingUnique(ps, sorted, m.Keys);
    }
    var paths := EncodePaths(sorted);
    var head := EncodeHeader(Head(|sorted|, 32 + 8 * |sorted|, 32 + 8 * |sorted| + |paths|));
    assert Head(|sorted|, 32 + 8 * |sorted|, 32 + 8 * |sorted| + |paths|) == TrueHead(sorted);
    var index := EncodeIndex(sorted);
    if index.None? { return None; }
    var data := EncodeData(sorted, m);
    r := Some(head + (index.value + (paths + (data + (epoch + Zeros(16))))));
  }

  // ----- exactly when a written cache reads back ----------------------------

  lemma {:induction false} CursorExact(ps: seq<Path>)
    requires forall p :: p in ps ==> |p| < TWO32
    ensures CursorSum(ps) == |Flat(ps)|
  {
    if ps != [] { CursorExact(ps[..|ps| - 1]); }
  }

  /** Distinct paths: at most one is empty. */
  lemma {:induction false} CountBound(ps: seq<Path>)
    requires StrictlySorted(ps)
    ensures |ps| <= |Flat(ps)| + 1
  {
    if |ps| > 1 {
      CountBound(ps[..|ps| - 1]);
      assert Less(ps[0], ps[|ps| - 1]);
    }
  }

  /** A parsed path fits in its section and its length in 32 bits; a parsed cache has records. */
  lemma {:induction false} ParsedBound(b: seq<byte>, h: Head, i: nat, p: Path)
    requires Framed(b, h) && i <= h.count && Collect(Records(b, h)[..i]).Some?
    requires p in Collect(Records(b, h)[..i]).value
    ensures i > 0 && |p| < TWO32 && |p| <= h.data - h.paths
  {
    var rs := Records(b, h);
    if i > 0 {
      CollectStep(rs, i - 1);
      RecordBound(b, h, i - 1);
      if rs[i - 1].None? || rs[i - 1].value.0 != p { ParsedBound(b, h, i - 1, p); }
    }
  }

  lemma {:induction false} RecordBound(b: seq<byte>, h: Head, i: nat)
    requires Framed(b, h) && i < h.count
    ensures var r := Records(b, h)[i]; r.Some? ==> |r.value.0| < TWO32 && |r.value.0| <= h.data - h.paths
  {
    assert Records(b, h)[i] == RecordAt(b, h, i);
  }

  /** The arithmetic of a header whose data offset was reduced: no section is left for the paths. */
  lemma {:induction false} ReducedSections(h: Head, b: seq<byte>, total: nat)
    requires h.paths == 32 + 8 * h.count && h.data == h.paths + Padded(total)
    requires h.data >= TWO32 > total && h.count <= TWO32 && Framed(b, Reduced(h))
    ensures h.count == TWO32 || (Reduced(h).paths == Reduced(h).data && total > 0)
  {
    if h.count < TWO32 {
      assert h.paths < TWO32;
      assert Padded(total) <= TWO32;
    }
  }

  lemma {:induction false} AllParsed(b: seq<byte>, h: Head, ps: seq<Path>, m: Entries)
    requires Framed(b, h) && Lists(ps, m.Keys) && Collect(Records(b, h)) == Some(m)
    ensures forall p :: p in ps ==> h.count > 0 && |p| < TWO32 && |p| <= h.data - h.paths
  {
    assert Records(b, h)[..h.count] == Records(b, h);
    forall p | p in ps
      ensures h.count > 0 && |p| < TWO32 && |p| <= h.data - h.paths
    {
      ParsedBound(b, h, h.count, p);
    }
  }

  /** A reduced header leaves either no records or no room for a non-empty path section. */
  lemma {:induction false} LostSections(b: seq<byte>, ps: seq<Path>, s: set<Path>, h: Head)
    requires Lists(ps, s) && CursorSum(ps) < TWO32 && h == TrueHead(ps) && h.data >= TWO32
    requires Framed(b, Reduced(h)) && forall p :: p in ps ==> |p| < TWO32
    ensures ps != [] && (Reduced(h).count == 0 || (Reduced(h).paths == Reduced(h).data && |Flat(ps)| > 0))
  {
    CursorExact(ps);
    CountBound(ps);
    ReducedSections(h, b, |Flat(ps)|);
  }

  lemma {:induction false} EmptyPaths(ps: seq<Path>)
    requires forall p :: p in ps ==> |p| <= 0
    ensures |Flat(ps)| == 0
  {
    FlatFixed(ps, 0);
  }

  lemma {:induction false} LostPaths(b: seq<byte>, ps: seq<Path>, m: Entries, h: Head)
    requires Lists(ps, m.Keys) && CursorSum(ps) < TWO32 && h == TrueHead(ps) && h.data >= TWO32
    requires Framed(b, Reduced(h))
    ensures Collect(Records(b, Reduced(h))) != Some(m)
  {
    if Collect(Records(b, Reduced(h))) == Some(m) {
      AllParsed(b, Reduced(h), ps, m);
      LostSections(b, ps, m.Keys, h);
      var first := ps[0];
      if Reduced(h).count > 0 { EmptyPaths(ps); }
    }
  }

  lemma {:induction false} ReducedReads(b: seq<byte>, ps: seq<Path>, m: Entries, epoch: Epoch)
    requires Lists(ps, m.Keys) && CursorSum(ps) < TWO32 && DataOffset(ps) >= TWO32
    requires Holds(b, 0, Flat(HeaderWords(TrueHead(ps)))) && |b| >= 64
    ensures Parse(b) != Some(CacheFile(m, epoch))
  {
    assert ParseHead(b).Some? ==> ParseHead(b).value == Reduced(TrueHead(ps)) by { HeadRoundTrip(b, TrueHead(ps)); }
    if ParseHead(b).Some? {
      LostPaths(b, ps, m, TrueHead(ps));
    }
  }

  /** A cache that was written reads back as itself if and only if its data offset fits in 32 bits. */
  lemma {:induction false} ReadsBackExactly(ps: seq<Path>, m: Entries, epoch: Epoch)
    requires Lists(ps, m.Keys) && Utf8Paths(m) && CursorSum(ps) < TWO32
    ensures Parse(Layout(ps, m, epoch)) == Some(CacheFile(m, epoch)) <==> Fits(ps)
  {
    if Fits(ps) {
      ParseLayout(ps, m, epoch);
    } else {
      LayoutLaid(ps, m, epoch);
      ReducedReads(Layout(ps, m, epoch), ps, m, epoch);
    }
  }

  // ----- an ordinary cache that is lost ------------------------------------

  predicate Ascii(s: seq<byte>) { forall i :: 0 <= i < |s| ==> s[i] < 0x80 }

  lemma {:induction false} AsciiIsUtf8(s: seq<byte>)
    requires Ascii(s)
    ensures ValidUtf8(s)
  {
    if s != [] { AsciiIsUtf8(s[1..]); }
  }

  /** Directories of 255 letters each, and the front of a file name. */
  function Directory(): Path { seq(4091, i => if i % 256 == 255 then SLASH else 0x61) }

  function Pow32(k: nat): nat { if k == 0 then 1 else 32 * Pow32(k - 1) }

  /** `k` digits to the base 32, the most significant first. */
  function Digits(i: nat, k: nat): (r: Path)
    ensures |r| == k && Ascii(r)
  {
    if k == 0 then [] else Digits(i / 32, k - 1) + [0x40 + i % 32]
  }

  lemma {:induction false} LessAppend(a: Path, b: Path, x: Path, y: Path)
    requires Less(a, b) && |a| == |b|
    ensures Less(a + x, b + y)
    decreases |a|
  {
    if a[0] == b[0] {
      LessAppend(a[1..], b[1..], x, y);
      assert (a + x)[1..] == a[1..] + x && (b + y)[1..] == b[1..] + y;
    }
  }

  lemma {:induction false} DigitsAscend(i: nat, j: nat, k: nat)
    requires i < j < Pow32(k)
    ensures Less(Digits(i, k), Digits(j, k))
    decreases k
  {
    if i / 32 < j / 32 {
      DigitsAscend(i / 32, j / 32, k - 1);
      LessAppend(Digits(i / 32, k - 1), Digits(j / 32, k - 1), [0x40 + i % 32], [0x40 + j % 32]);
    } else {
      LessCancel(Digits(i / 32, k - 1), [0x40 + i % 32], [0x40 + j % 32]);
    }
  }

  const MANY := 0x10_0000

  /** A path of 4095 bytes, with no name over 255. */
  function LongPath(i: nat): (p: Path)
    ensures |p| == 4095 && Ascii(p)
  {
    Directory() + Digits(i, 4)
  }

  lemma {:induction false} LongPathsAscend(i: nat, j: nat)
    requires i < j < MANY
    ensures Less(LongPath(i), LongPath(j))
  {
    assert Pow32(1) == 32 && Pow32(2) == 1024 && Pow32(3) == 32768 && Pow32(4) == MANY;
    DigitsAscend(i, j, 4);
    LessCancel(Directory(), Digits(i, 4), Digits(j, 4));
  }

  lemma {:induction false} CursorFixed(ps: seq<Path>, w: nat)
    requires w < TWO32 && forall k :: 0 <= k < |ps| ==> |ps[k]| == w
    ensures CursorSum(ps) == w * |ps|
  {
    if ps != [] {
      CursorFixed(ps[..|ps| - 1], w);
      assert w * |ps| == w * (|ps| - 1) + w;
    }
  }

  function LongPaths(): (ps: seq<Path>)
    ensures |ps| == MANY && forall i :: 0 <= i < MANY ==> ps[i] == LongPath(i)
  {
    seq(MANY, i requires 0 <= i < MANY => LongPath(i))
  }

  lemma {:induction false} LongPathsSorted()
    ensures StrictlySorted(LongPaths())
  {
    var ps := LongPaths();
    forall i, j | 0 <= i < j < |ps|
      ensures Less(ps[i], ps[j])
    {
      LongPathsAscend(i, j);
    }
  }

  lemma {:induction false} LongPathsOverflow()
    ensures CursorSum(LongPaths()) < TWO32 && !Fits(LongPaths())
  {
    CursorFixed(LongPaths(), 4095);
    FlatFixed(LongPaths(), 4095);
  }

  /**
   Such caches exist: a million paths of 4095 bytes, as a scan of one deep directory meets
   them, are accepted by the printer and lost by the parser.
   */
  lemma {:induction false} AcceptedButLost(e: Entry, epoch: Epoch) returns (ps: seq<Path>, m: Entries)
    ensures Lists(ps, m.Keys) && Utf8Paths(m) && CursorSum(ps) < TWO32 && !Fits(ps)
    ensures |ps| == MANY && forall p :: p in ps ==> |p| == 4095
    ensures Parse(Layout(ps, m, epoch)) != Some(CacheFile(m, epoch))
  {
    ps := LongPaths();
    m := map p | p in ps :: e;
    LongPathsSorted();
    LongPathsOverflow();
    forall p | p in m
      ensures ValidUtf8(p)
    {
      AsciiIsUtf8(p);
    }
    ReadsBackExactly(ps, m, epoch);
  }

  // ----- the parsers --------------------------------------------------------

  /** Read the whole file. */
  method ParseV1(b: seq<byte>) returns (r: Option<CacheFile>)
    ensures r == Parse(b)
  {
    var head := ParseHead(b);
    if head.None? { return None; }
    var h := head.value;
    ghost var rs := Records(b, h);
    var entries: Entries := map[];
    for i := 0 to h.count
      invariant Collect(rs[..i]) == Some(entries)
    {
      CollectStep(rs, i);
      var next := RecordAt(b, h, i);
      if next.None? { continue; }
      if !ValidUtf8(next.value.0) {
        CollectSpoiled(rs, i + 1);
        return None;
      }
      entries := entries[next.value.0 := next.value.1];
    }
    assert rs[..h.count] == rs;
    r := Some(CacheFile(entries, EpochAt(b, h)));
  }

  lemma {:induction false} CollectStep(rs: seq<Option<(Path, Entry)>>, i: nat)
    requires i < |rs|
    ensures var prev := Collect(rs[..i]);
            Collect(rs[..i + 1]) == if prev.None? || rs[i].None? then prev
                                    else if !ValidUtf8(rs[i].value.0) then None
                                    else Some(prev.value[rs[i].value.0 := rs[i].value.1])
  {
    assert rs[..i + 1][..i] == rs[..i];
  }

  lemma {:induction false} CollectSpoiled(rs: seq<Option<(Path, Entry)>>, i: nat)
    requires i <= |rs| && Collect(rs[..i]).None?
    ensures Collect(rs).None?
    decreases |rs| - i
  {
    if i < |rs| {
      assert rs[..i + 1][..i] == rs[..i];
      CollectSpoiled(rs, i + 1);
    } else {
      assert rs[..i] == rs;
    }
  }

  /** Every index entry is readable and the paths ascend strictly, as the printer writes them. */
  ghost predicate Ascending(rs: seq<Option<(Path, Entry)>>) {
    && (forall i :: 0 <= i < |rs| ==> rs[i].Some?)
    && forall i, j :: 0 <= i < j < |rs| ==> Less(rs[i].value.0, rs[j].value.0)
  }

  lemma {:induction false} BelowTo(rs: seq<Option<(Path, Entry)>>, mid: nat, key: Path)
    requires Ascending(rs) && mid < |rs| && Less(rs[mid].value.0, key)
    ensures forall i :: 0 <= i <= mid ==> Less(rs[i].value.0, key)
  {
    forall i | 0 <= i < mid
      ensures Less(rs[i].value.0, key)
    {
      LessTransitive(rs[i].value.0, rs[mid].value.0, key);
    }
  }

  lemma {:induction false} AboveFrom(rs: seq<Option<(Path, Entry)>>, mid: nat, key: Path)
    requires Ascending(rs) && mid < |rs| && !Less(rs[mid].value.0, key)
    ensures forall i :: mid <= i < |rs| ==> !Less(rs[i].value.0, key)
  {
    forall i | mid < i < |rs|
      ensures !Less(rs[i].value.0, key)
    {
      if Less(rs[i].value.0, key) { LessTransitive(rs[mid].value.0, rs[i].value.0, key); }
    }
  }

  /** First index entry whose path is not below `key`; an unreadable entry counts as above. */
  method LowerBound(b: seq<byte>, h: Head, key: Path) returns (lo: nat)
    requires Framed(b, h)
    ensures lo <= h.count
    ensures Ascending(Records(b, h)) ==>
              forall i :: 0 <= i < h.count ==> (i < lo <==> Less(Records(b, h)[i].value.0, key))
  {
    ghost var rs := Records(b, h);
    lo := 0;
    var hi := h.count;
    while lo < hi
      invariant lo <= hi <= h.count
      invariant Ascending(rs) ==> forall i :: 0 <= i < lo ==> Less(rs[i].value.0, key)
      invariant Ascending(rs) ==> forall i :: hi <= i < h.count ==> !Less(rs[i].value.0, key)
    {
      var mid := lo + (hi - lo) / 2;
      var p := PathAt(b, h, mid);
      assert rs[mid] == RecordAt(b, h, mid);
      if p.Some? && Less(p.value, key) {
        if Ascending(rs) { BelowTo(rs, mid, key); }
        lo := mid + 1;
      } else {
        if Ascending(rs) { AboveFrom(rs, mid, key); }
        hi := mid;
      }
    }
  }

  /** The prefix with its last byte incremented bounds every in-scope path from above. */
  lemma {:induction false} ScopeBounds(p: Path, prefix: Path)
    requires PathInScope(p, prefix)
    ensures !Less(p, prefix)
    ensures prefix != [] && prefix[|prefix| - 1] < 0xFF ==>
              Less(p, prefix[..|prefix| - 1] + [prefix[|prefix| - 1] + 1])
  {
    var rest := p[|prefix|..];
    assert p == prefix + rest && prefix == prefix + [];
    LessCancel(prefix, rest, []);
    if prefix != [] {
      var k := |prefix| - 1;
      assert p == prefix[..k] + ([prefix[k]] + rest);
      if prefix[k] < 0xFF { LessCancel(prefix[..k], [prefix[k]] + rest, [prefix[k] + 1]); }
    }
  }

  /** `es` holds exactly the in-scope records among positions `lo` to `hi`. */
  ghost predicate Gathered(rs: seq<Option<(Path, Entry)>>, prefix: Path, lo: nat, hi: nat, es: Entries)
    requires hi <= |rs| && Ascending(rs)
  {
    && (forall k :: lo <= k < hi && PathInScope(rs[k].value.0, prefix) ==>
          rs[k].value.0 in es && es[rs[k].value.0] == rs[k].value.1)
    && forall p :: p in es ==> exists k :: lo <= k < hi && rs[k].value.0 == p && PathInScope(p, prefix)
  }

  lemma {:induction false} GatherOne(rs: seq<Option<(Path, Entry)>>, prefix: Path, lo: nat, hi: nat, es: Entries)
    requires lo <= hi < |rs| && Ascending(rs) && Gathered(rs, prefix, lo, hi, es)
    ensures var (p, e) := rs[hi].value;
            Gathered(rs, prefix, lo, hi + 1, if PathInScope(p, prefix) then es[p := e] else es)
  {
    var (p, e) := rs[hi].value;
    forall k | lo <= k < hi
      ensures rs[k].value.0 != p
    {
      LessIrreflexive(p);
      assert Less(rs[k].value.0, p);
    }
  }

  /** The records of an ascending index are the entries of the full parse, one for one. */
  lemma {:induction false} CollectAscending(rs: seq<Option<(Path, Entry)>>, k: nat)
    requires Ascending(rs) && Collect(rs).Some? && k < |rs|
    ensures var (p, e) := rs[k].value;
            ValidUtf8(p) && p in Collect(rs).value && Collect(rs).value[p] == e
    decreases |rs|
  {
    var n := |rs| - 1;
    if k < n {
      CollectAscending(rs[..n], k);
      LessIrreflexive(rs[n].value.0);
      assert Less(rs[k].value.0, rs[n].value.0);
    }
  }

  lemma {:induction false} CollectOnly(rs: seq<Option<(Path, Entry)>>, p: Path)
    requires Ascending(rs) && Collect(rs).Some? && p in Collect(rs).value
    ensures exists k :: 0 <= k < |rs| && rs[k].value.0 == p
    decreases |rs|
  {
    var n := |rs| - 1;
    if rs[n].value.0 != p {
      CollectOnly(rs[..n], p);
      var k :| 0 <= k < n && rs[..n][k].value.0 == p;
      assert rs[k].value.0 == p;
    }
  }

  /** The two bounds lose nothing: what lies between them holds every in-scope entry. */
  lemma {:induction false} GatheredIsScope(rs: seq<Option<(Path, Entry)>>, prefix: Path, lo: nat, hi: nat, es: Entries)
    requires hi <= |rs| && Ascending(rs) && Collect(rs).Some? && Gathered(rs, prefix, lo, hi, es)
    requires forall k :: 0 <= k < |rs| && PathInScope(rs[k].value.0, prefix) ==> lo <= k < hi
    ensures es == Within(Collect(rs).value, prefix)
  {
    var all := Collect(rs).value;
    forall p | p in es
      ensures p in all && PathInScope(p, prefix) && es[p] == all[p]
    {
      var k :| lo <= k < hi && rs[k].value.0 == p && PathInScope(p, prefix);
      CollectAscending(rs, k);
    }
    forall p | p in all && PathInScope(p, prefix)
      ensures p in es
    {
      CollectOnly(rs, p);
      var k :| 0 <= k < |rs| && rs[k].value.0 == p;
    }
  }

  /**
   Read only the entries in scope. On every file whose index ascends, as the printer writes
   it, this is exactly the in-scope part of the full parse, with the same epoch.
   */
  method ParseV1Scoped(b: seq<byte>, prefix: Path) returns (r: Option<CacheFile>)
    ensures ParseHead(b).None? ==> r.None?
    ensures Parse(b).Some? && Ascending(Records(b, ParseHead(b).value)) ==>
              r == Some(CacheFile(Within(Parse(b).value.entries, prefix), Parse(b).value.epoch))
  {
    var head := ParseHead(b);
    if head.None? { return None; }
    var h := head.value;
    ghost var rs := Records(b, h);
    ghost var good := Ascending(rs) && Collect(rs).Some?;
    var start := LowerBound(b, h, prefix);
    var end := h.count;
    if prefix != [] && prefix[|prefix| - 1] < 0xFF {
      end := LowerBound(b, h, prefix[..|prefix| - 1] + [prefix[|prefix| - 1] + 1]);
    }
    if good {
      forall k | 0 <= k < |rs| && PathInScope(rs[k].value.0, prefix)
        ensures start <= k < end
      {
        ScopeBounds(rs[k].value.0, prefix);
      }
    }
    var entries: Entries := map[];
    var i := start;
    while i < end
      invariant start <= i <= h.count && (i <= end || i == start)
      invariant good ==> Gathered(rs, prefix, start, i, entries)
    {
      if good {
        GatherOne(rs, prefix, start, i, entries);
        CollectAscending(rs, i);
      }
      assert rs[i] == RecordAt(b, h, i);
      var p := PathAt(b, h, i);
      if p.Some? && ValidUtf8(p.value) && PathInScope(p.value, prefix) {
        entries := entries[p.value := EntryAt(b, h, i)];
      }
      i := i + 1;
    }
    if good { GatheredIsScope(rs, prefix, start, i, entries); }
    r := Some(CacheFile(entries, EpochAt(b, h)));
  }

  /** A written cache has an ascending index, so the scoped parser is exact on it. */
  lemma {:induction false} LayoutAscending(ps: seq<Path>, m: Entries, epoch: Epoch)
    requires Lists(ps, m.Keys) && Fits(ps)
    ensures var b := Layout(ps, m, epoch);
            ParseHead(b).Some? && Ascending(Records(b, ParseHead(b).value))
  {
    var b := Layout(ps, m, epoch);
    assert Reads(b, TrueHead(ps), ps, m, epoch) by {
      LayoutLaid(ps, m, epoch);
      LaidReads(b, ps, m, epoch);
    }
    RecordedAscends(Records(b, TrueHead(ps)), ps, m);
  }

  lemma {:induction false} RecordedAscends(rs: seq<Option<(Path, Entry)>>, ps: seq<Path>, m: Entries)
    requires Recorded(rs, ps, m) && StrictlySorted(ps)
    ensures Ascending(rs)
  {
  }
}
