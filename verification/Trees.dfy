/**
 Tree objects (src/object.rs): entries, name validation, name order, aggregates, and the
 hash-addressed store of their texts. The text format is a parameter that undoes itself.
 */
module Trees {
  import opened Base
  import opened ObjectCodec

  type Name = Path

  const WORD := 0x1_0000_0000_0000_0000

  /** Times are instants, absent where the platform gave none. Sizes and counts are 64-bit. */
  datatype TreeEntry =
    | Blob(name: Name, hash: Hash, mtime: Option<int>, size: nat, mode: Option<Bytes>)
    | Tree(name: Name, hash: Hash, mtime: Option<int>, size: nat, blobCount: nat)
    | Symlink(name: Name, target: Bytes, mtime: Option<int>)

  type Entries = seq<TreeEntry>

  function HashOf(e: TreeEntry): Option<Hash> { if e.Symlink? then None else Some(e.hash) }

  // ----- names --------------------------------------------------------------

  const METADATA_DIR: Name := [0x2E, 0x6F, 0x6D, 0x65, 0x6D, 0x66, 0x73]
  const RESERVED: Name := [0x2E, 0x6F, 0x6D, 0x65, 0x6D, 0x66, 0x73, 0x2D]
  const FILTER_FILE: Name := [0x2E, 0x6F, 0x6D, 0x65, 0x6D, 0x66, 0x73, 0x2D, 0x66, 0x69, 0x6C, 0x74, 0x65, 0x72]

  predicate Contains(s: Bytes, part: Bytes) { exists i :: 0 <= i <= |s| && StartsWith(s[i..], part) }

  /** What a tree read from anywhere may call an entry. */
  predicate ValidName(n: Name) {
    && n != [] && n != [0x2E] && n != [0x2E, 0x2E] && SLASH !in n && 0 !in n
    && n != METADATA_DIR && (n == FILTER_FILE || !Contains(n, RESERVED))
  }

  predicate ValidNames(es: Entries) { forall e :: e in es ==> ValidName(e.name) }

  function Ascii(s: string): (b: Bytes)
    requires forall i :: 0 <= i < |s| ==> s[i] < 128 as char
    ensures |b| == |s|
  {
    seq(|s|, i requires 0 <= i < |s| => s[i] as int)
  }

  /** The names that are refused, spelled out. */
  lemma {:induction false} NamesRefused(n: Name)
    ensures !ValidName(n) <==>
            || n == [] || n == Ascii(".") || n == Ascii("..") || n == Ascii(".omemfs")
            || '/' as int in n || 0 in n
            || (n != Ascii(".omemfs-filter") && exists a, b :: n == a + Ascii(".omemfs-") + b)
  {
    assert Ascii(".") == [0x2E] && Ascii("..") == [0x2E, 0x2E] && Ascii(".omemfs") == METADATA_DIR;
    assert Ascii(".omemfs-") == RESERVED && Ascii(".omemfs-filter") == FILTER_FILE;
    if i :| 0 <= i <= |n| && StartsWith(n[i..], RESERVED) {
      assert n == n[..i] + RESERVED + n[i + |RESERVED|..];
    }
    if a: Bytes, b: Bytes :| n == a + RESERVED + b {
      assert n[|a|..] == RESERVED + b;
      assert StartsWith(n[|a|..], RESERVED);
    }
  }

  // ----- lists of entries ---------------------------------------------------

  /** The first entry of that name. */
  function Find(es: Entries, n: Name): Option<TreeEntry> {
    if es == [] then None else if es[0].name == n then Some(es[0]) else Find(es[1..], n)
  }

  /** Replace the first entry of that name, or append. */
  function Upsert(es: Entries, n: Name, e: TreeEntry): Entries {
    if es == [] then [e] else if es[0].name == n then [e] + es[1..] else [es[0]] + Upsert(es[1..], n, e)
  }

  function Without(es: Entries, n: Name): Entries {
    if es == [] then [] else (if es[0].name == n then [] else [es[0]]) + Without(es[1..], n)
  }

  /** Names strictly ascending, so no name twice. */
  ghost predicate Sorted(es: Entries) {
    es != [] ==> (forall e :: e in es[1..] ==> Less(es[0].name, e.name)) && Sorted(es[1..])
  }

  ghost predicate Unique(es: Entries) {
    es != [] ==> (forall e :: e in es[1..] ==> e.name != es[0].name) && Unique(es[1..])
  }

  /** Insert before the first entry whose name is not smaller. */
  function InsertByName(e: TreeEntry, es: Entries): Entries {
    if es == [] || !Less(es[0].name, e.name) then [e] + es else [es[0]] + InsertByName(e, es[1..])
  }

  function SortByName(es: Entries): Entries {
    if es == [] then [] else InsertByName(es[0], SortByName(es[1..]))
  }

  lemma {:induction false} FindHolds(es: Entries, n: Name)
    ensures Find(es, n).Some? ==> Find(es, n).value in es && Find(es, n).value.name == n
    ensures Find(es, n).None? ==> forall e :: e in es ==> e.name != n
  {
    if es != [] { FindHolds(es[1..], n); }
  }

  lemma {:induction false} FindUpsert(es: Entries, n: Name, e: TreeEntry, m: Name)
    requires e.name == n
    ensures Find(Upsert(es, n, e), m) == if m == n then Some(e) else Find(es, m)
    ensures forall x :: x in Upsert(es, n, e) ==> x == e || x in es
  {
    if es != [] {
      FindUpsert(es[1..], n, e, m);
      assert es == [es[0]] + es[1..];
      assert ([e] + es[1..])[1..] == es[1..] && ([es[0]] + Upsert(es[1..], n, e))[1..] == Upsert(es[1..], n, e);
    }
  }

  lemma {:induction false} WithoutStep(es: Entries, n: Name)
    requires es != []
    ensures Without(es, n) == if es[0].name == n then Without(es[1..], n) else [es[0]] + Without(es[1..], n)
    ensures es[0].name != n ==> Without(es, n)[0] == es[0] && Without(es, n)[1..] == Without(es[1..], n)
  {
    var t := Without(es[1..], n);
    assert [] + t == t && ([es[0]] + t)[1..] == t;
  }

  lemma {:induction false} FindWithout(es: Entries, n: Name, m: Name)
    ensures Find(Without(es, n), m) == if m == n then None else Find(es, m)
    ensures forall x :: x in Without(es, n) ==> x in es && x.name != n
    decreases |es|
  {
    if es != [] {
      FindWithout(es[1..], n, m);
      WithoutStep(es, n);
      assert es == [es[0]] + es[1..];
    }
  }

  /** The list keeps its length exactly when the name is not in it. */
  lemma {:induction false} WithoutLength(es: Entries, n: Name)
    ensures |Without(es, n)| <= |es| && (|Without(es, n)| == |es| <==> Find(es, n).None?)
    decreases |es|
  {
    if es != [] {
      WithoutLength(es[1..], n);
      WithoutStep(es, n);
    }
  }

  lemma {:induction false} FindInsert(e: TreeEntry, es: Entries, m: Name)
    ensures Find(InsertByName(e, es), m) == if m == e.name then Some(e) else Find(es, m)
    ensures forall x :: x in InsertByName(e, es) ==> x == e || x in es
  {
    if es == [] || !Less(es[0].name, e.name) {
      assert ([e] + es)[1..] == es;
    } else {
      LessIrreflexive(e.name);
      FindInsert(e, es[1..], m);
      assert ([es[0]] + InsertByName(e, es[1..]))[1..] == InsertByName(e, es[1..]);
    }
  }

  /** Sorting hides and invents nothing. */
  lemma {:induction false} FindSorted(es: Entries, m: Name)
    ensures Find(SortByName(es), m) == Find(es, m)
    ensures forall x :: x in SortByName(es) ==> x in es
  {
    if es != [] {
      FindSorted(es[1..], m);
      FindInsert(es[0], SortByName(es[1..]), m);
    }
  }

  lemma {:induction false} InsertHolds(e: TreeEntry, es: Entries, x: TreeEntry)
    requires x == e || x in es
    ensures x in InsertByName(e, es)
  {
    if es != [] && Less(es[0].name, e.name) && x != es[0] { InsertHolds(e, es[1..], x); }
  }

  lemma {:induction false} SortHolds(es: Entries, x: TreeEntry)
    requires x in es
    ensures x in SortByName(es)
  {
    if x != es[0] { SortHolds(es[1..], x); }
    InsertHolds(es[0], SortByName(es[1..]), x);
  }

  /** Sorting changes nothing about the names. */
  lemma {:induction false} SortNames(es: Entries)
    ensures ValidNames(SortByName(es)) <==> ValidNames(es)
  {
    FindSorted(es, []);
    forall x | x in es
      ensures x in SortByName(es)
    {
      SortHolds(es, x);
    }
  }

  lemma {:induction false} InsertSorted(e: TreeEntry, es: Entries)
    requires Sorted(es) && forall x :: x in es ==> x.name != e.name
    ensures Sorted(InsertByName(e, es))
  {
    if es == [] {
    } else if !Less(es[0].name, e.name) {
      LessTotal(es[0].name, e.name);
      forall x | x in es
        ensures Less(e.name, x.name)
      {
        if x in es[1..] { LessTransitive(e.name, es[0].name, x.name); }
      }
      assert ([e] + es)[1..] == es;
    } else {
      InsertSorted(e, es[1..]);
      FindInsert(e, es[1..], []);
      assert ([es[0]] + InsertByName(e, es[1..]))[1..] == InsertByName(e, es[1..]);
    }
  }

  lemma {:induction false} SortSorts(es: Entries)
    requires Unique(es)
    ensures Sorted(SortByName(es))
  {
    if es != [] {
      SortSorts(es[1..]);
      FindSorted(es[1..], []);
      InsertSorted(es[0], SortByName(es[1..]));
    }
  }

  lemma {:induction false} SortedUnique(es: Entries)
    requires Sorted(es)
    ensures Unique(es)
  {
    if es != [] {
      SortedUnique(es[1..]);
      LessIrreflexive(es[0].name);
    }
  }

  lemma {:induction false} UpsertUnique(es: Entries, n: Name, e: TreeEntry)
    requires Unique(es) && e.name == n
    ensures Unique(Upsert(es, n, e))
  {
    if es != [] {
      if es[0].name == n {
        assert ([e] + es[1..])[1..] == es[1..];
      } else {
        UpsertUnique(es[1..], n, e);
        FindUpsert(es[1..], n, e, n);
        assert ([es[0]] + Upsert(es[1..], n, e))[1..] == Upsert(es[1..], n, e);
      }
    }
  }

  lemma {:induction false} WithoutUnique(es: Entries, n: Name)
    requires Unique(es)
    ensures Unique(Without(es, n))
  {
    if es != [] {
      WithoutUnique(es[1..], n);
      FindWithout(es[1..], n, n);
      var t := Without(es[1..], n);
      assert [] + t == t && ([es[0]] + t)[1..] == t;
    }
  }

  // ----- aggregates ---------------------------------------------------------

  datatype Meta = Meta(mtime: Option<int>, size: nat, blobCount: nat)

  function Later(a: Option<int>, b: Option<int>): Option<int> {
    if a.None? then b else if b.None? then a else if a.value < b.value then b else a
  }

  function SizeOf(e: TreeEntry): nat { if e.Symlink? then 0 else e.size }

  function CountOf(e: TreeEntry): nat { if e.Tree? then e.blobCount else 1 }

  /** The latest mtime, the sum of the sizes and of the leaf counts, in 64 bits. */
  function Aggregate(es: Entries): Meta {
    if es == [] then Meta(None, 0, 0)
    else
      var m := Aggregate(es[1..]);
      Meta(Later(es[0].mtime, m.mtime), (SizeOf(es[0]) + m.size) % WORD, (CountOf(es[0]) + m.blobCount) % WORD)
  }

  /** The latest of these times; absent if none is there. */
  ghost predicate LatestOf(t: Option<int>, times: set<Option<int>>) {
    if t.None? then forall x :: x in times ==> x.None?
    else t in times && forall x :: x in times && x.Some? ==> x.value <= t.value
  }

  function Times(es: Entries): set<Option<int>> { set e | e in es :: e.mtime }

  /** Bytes below these entries: a symlink has none. */
  function BytesOf(es: Entries): nat {
    if es == [] then 0
    else BytesOf(es[1..]) + match es[0] case Blob(_, _, _, n, _) => n case Tree(_, _, _, n, _) => n case Symlink(_,
      _, _) => 0
  }

  /** Leaves below these entries: blobs and symlinks are one each. */
  function LeavesBelow(es: Entries): nat {
    if es == [] then 0
    else LeavesBelow(es[1..]) + match es[0] case Tree(_, _, _, _, n) => n case _ => 1
  }

  /** What a tree entry carries: the latest time, and both totals modulo 2^64. */
  lemma {:induction false} AggregateMeans(es: Entries)
    ensures LatestOf(Aggregate(es).mtime, Times(es))
    ensures Aggregate(es).size == BytesOf(es) % 0x1_0000_0000_0000_0000
    ensures Aggregate(es).blobCount == LeavesBelow(es) % 0x1_0000_0000_0000_0000
  {
    if es != [] {
      AggregateMeans(es[1..]);
      assert Times(es) == Times(es[1..]) + {es[0].mtime};
      AddWrapped(SizeOf(es[0]), BytesOf(es[1..]));
      AddWrapped(CountOf(es[0]), LeavesBelow(es[1..]));
    }
  }

  lemma {:induction false} AddWrapped(x: nat, y: nat)
    ensures (x + y % WORD) % WORD == (x + y) % WORD
  {
  }

  function MetaOf(e: TreeEntry): Meta
    requires e.Tree?
  {
    Meta(e.mtime, e.size, e.blobCount)
  }

  // ----- the store of tree texts --------------------------------------------

  type Texts = map<Hash, Bytes>

  /** The digest and the text format. */
  datatype Forms = Forms(sha: Bytes -> Hash, format: Entries -> Bytes, parse: Bytes -> Option<Entries>)

  ghost predicate Faithful(f: Forms) { forall es :: f.parse(f.format(es)) == Some(es) }

  /** Read a tree: the text must hash to its key, parse, and hold only valid names. */
  function Load(f: Forms, s: Texts, h: Hash): Result<Entries> {
    if h !in s then Err(NotFound)
    else if f.sha(s[h]) != h || f.parse(s[h]).None? || !ValidNames(f.parse(s[h]).value) then Err(InvalidObject)
    else Ok(f.parse(s[h]).value)
  }

  /** Nothing is read that does not hash to the name it was asked for, or that holds a refused name. */
  lemma {:induction false} LoadsExactly(f: Forms, s: Texts, h: Hash, es: Entries)
    ensures Load(f, s, h) == Ok(es) <==>
            h in s && f.sha(s[h]) == h && f.parse(s[h]) == Some(es) && forall i :: 0 <= i < |es| ==>
              ValidName(es[i].name)
    ensures Load(f, s, h) == Err(NotFound) <==> h !in s
  {
  }

  function TextOf(f: Forms, es: Entries): Bytes { f.format(SortByName(es)) }

  /** Write a text under its hash unless that hash is present. */
  function PutText(f: Forms, s: Texts, t: Bytes): Texts {
    if f.sha(t) in s then s else s[f.sha(t) := t]
  }

  /** Every stored text hashes to its key. */
  ghost predicate Genuine(f: Forms, s: Texts) { forall h :: h in s ==> f.sha(s[h]) == h }

  ghost predicate Apart(f: Forms, ts: set<Bytes>) {
    forall x, y :: x in ts && y in ts && f.sha(x) == f.sha(y) ==> x == y
  }

  /** A store that only gained objects. */
  ghost predicate Grows(s: Texts, s': Texts) { forall h :: h in s ==> h in s' && s'[h] == s[h] }

  lemma {:induction false} LoadGrows(f: Forms, s: Texts, s': Texts, h: Hash)
    requires Grows(s, s') && h in s
    ensures Load(f, s', h) == Load(f, s, h)
  {
  }

  /** Parse a tree the way a cache hands it out: its names are not looked at. */
  function LoadTrusting(f: Forms, s: Texts, h: Hash): Result<Entries> {
    if h !in s then Err(NotFound)
    else if f.sha(s[h]) != h || f.parse(s[h]).None? then Err(InvalidObject)
    else Ok(f.parse(s[h]).value)
  }

  lemma {:induction false} LoadIsTrustingAndValid(f: Forms, s: Texts, h: Hash)
    ensures Load(f, s, h) == var r := LoadTrusting(f, s, h);
                             if r.Ok? && !ValidNames(r.value) then Err(InvalidObject) else r
  {
  }

  /** What is built is stored sorted; it can be read back exactly when its names are valid. */
  lemma {:induction false} BuildLoads(f: Forms, s: Texts, es: Entries)
    requires Faithful(f) && Genuine(f, s) && Apart(f, s.Values + {TextOf(f, es)})
    ensures var t := TextOf(f, es);
            && LoadTrusting(f, PutText(f, s, t), f.sha(t)) == Ok(SortByName(es))
            && Load(f, PutText(f, s, t), f.sha(t)) ==
              (if ValidNames(es) then Ok(SortByName(es)) else Err(InvalidObject))
            && Genuine(f, PutText(f, s, t)) && Grows(s, PutText(f, s, t))
            && PutText(f, s, t).Values <= s.Values + {t}
  {
    var t := TextOf(f, es);
    SortNames(es);
    if f.sha(t) in s {
      assert s[f.sha(t)] in s.Values;
      assert s[f.sha(t)] == t;
    }
  }

  /** A cached tree differs from a read one exactly when a name is invalid: the cache skips the check. */
  lemma {:induction false} CacheSkipsNames(f: Forms, s: Texts, es: Entries)
    requires Faithful(f) && Genuine(f, s) && Apart(f, s.Values + {TextOf(f, es)})
    ensures var t := TextOf(f, es);
            LoadTrusting(f, PutText(f, s, t), f.sha(t)) == Load(f, PutText(f, s, t), f.sha(t)) <==> ValidNames(es)
  {
    BuildLoads(f, s, es);
  }
}
