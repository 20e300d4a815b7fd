/**
 What the aggregates of a tree entry mean: totals over all leaves below it, however deep
 (`aggregate_*` of src/object.rs against the flatten of src/tree_ops.rs).
 */
module TreeTotals {
  import opened Base
  import opened ObjectCodec
  import opened Trees
  import opened TreeLaws
  import opened TreeFlatten

  // ----- totals of lists ----------------------------------------------------

  function Combine(a: Meta, b: Meta): Meta {
    Meta(Later(a.mtime, b.mtime), (a.size + b.size) % WORD, (a.blobCount + b.blobCount) % WORD)
  }

  lemma {:induction false} Reduced(es: Entries)
    ensures Aggregate(es).size < WORD && Aggregate(es).blobCount < WORD
  {
  }

  function Cons(e: TreeEntry, m: Meta): Meta {
    Meta(Later(e.mtime, m.mtime), (SizeOf(e) + m.size) % WORD, (CountOf(e) + m.blobCount) % WORD)
  }

  lemma {:induction false} AddAssociates(x: nat, y: nat, z: nat)
    ensures (x + (y + z) % WORD) % WORD == ((x + y) % WORD + z) % WORD
  {
  }

  lemma {:induction false} LaterAssociates(a: Option<int>, b: Option<int>, c: Option<int>)
    ensures Later(a, Later(b, c)) == Later(Later(a, b), c)
  {
  }

  lemma {:induction false} CombineCons(e: TreeEntry, m: Meta, n: Meta)
    ensures Cons(e, Combine(m, n)) == Combine(Cons(e, m), n)
  {
    AddAssociates(SizeOf(e), m.size, n.size);
    AddAssociates(CountOf(e), m.blobCount, n.blobCount);
    LaterAssociates(e.mtime, m.mtime, n.mtime);
  }

  lemma {:induction false} CombineNothing(es: Entries)
    ensures Combine(Meta(None, 0, 0), Aggregate(es)) == Aggregate(es)
  {
    Reduced(es);
  }

  /** Aggregates of two lists combine. */
  lemma {:induction false} AggregateConcat(a: Entries, b: Entries)
    ensures Aggregate(a + b) == Combine(Aggregate(a), Aggregate(b))
    decreases |a|
  {
    if a == [] {
      assert a + b == b;
      CombineNothing(b);
    } else {
      assert (a + b)[1..] == a[1..] + b;
      AggregateConcat(a[1..], b);
      assert Aggregate(a + b) == Cons(a[0], Aggregate(a[1..] + b)) && Aggregate(a) == Cons(a[0], Aggregate(a[1..]));
      CombineCons(a[0], Aggregate(a[1..]), Aggregate(b));
    }
  }

  /** The aggregate of one entry: a leaf's own size, or what a tree entry claims. */
  lemma {:induction false} AggregateOne(e: TreeEntry)
    ensures Aggregate([e]) == Meta(e.mtime, SizeOf(e) % WORD, CountOf(e) % WORD)
  {
    assert [e][1..] == [];
  }

  lemma {:induction false} AggregateSnoc(es: Entries)
    requires es != []
    ensures Aggregate(es) == Combine(Aggregate(es[..|es| - 1]), Aggregate([es[|es| - 1]]))
  {
    assert es == es[..|es| - 1] + [es[|es| - 1]];
    AggregateConcat(es[..|es| - 1], [es[|es| - 1]]);
  }

  // ----- the leaves below a tree --------------------------------------------

  /** All blobs and symlinks below a tree, in walking order. */
  ghost function Leaves(f: Forms, s: Texts, rank: Hash -> nat, h: Hash): Entries
    requires Ranked(f, s, rank)
    decreases rank(h), 1, 0
  {
    if Load(f, s, h).Err? then [] else LeavesOf(f, s, rank, rank(h), Load(f, s, h).value)
  }

  ghost function LeavesOf(f: Forms, s: Texts, rank: Hash -> nat, bound: nat, es: Entries): Entries
    requires Ranked(f, s, rank) && Under(es, rank, bound)
    decreases bound, 0, |es|
  {
    if es == [] then []
    else LeavesOf(f, s, rank, bound, es[..|es| - 1]) + LeafOrBelow(f, s, rank, bound, es[|es| - 1])
  }

  ghost function LeafOrBelow(f: Forms, s: Texts, rank: Hash -> nat, bound: nat, e: TreeEntry): Entries
    requires Ranked(f, s, rank) && (e.Tree? ==> rank(e.hash) < bound)
    decreases bound, 0, 0
  {
    if e.Tree? then Leaves(f, s, rank, e.hash) else [e]
  }

  /** Tree entries carry the aggregates of the trees they name, where those are present. */
  ghost predicate Counted(f: Forms, s: Texts) {
    forall h, e :: Load(f, s, h).Ok? && e in Load(f, s, h).value && e.Tree? && Load(f, s, e.hash).Ok? ==>
      MetaOf(e) == Aggregate(Load(f, s, e.hash).value)
  }

  ghost predicate CountedList(f: Forms, s: Texts, es: Entries) {
    forall e :: e in es && e.Tree? && Load(f, s, e.hash).Ok? ==> MetaOf(e) == Aggregate(Load(f, s, e.hash).value)
  }

  /** Every store whose entries are honest is counted. */
  lemma {:induction false} HonestIsCounted(f: Forms, truth: Hash -> Meta, s: Texts)
    requires Honest(f, truth, s) && Knows(f, truth, s.Values)
    ensures Counted(f, s)
  {
    forall h, e | Load(f, s, h).Ok? && e in Load(f, s, h).value && e.Tree? && Load(f, s, e.hash).Ok?
      ensures MetaOf(e) == Aggregate(Load(f, s, e.hash).value)
    {
      AggregatesHold(f, truth, s, h, e);
    }
  }

  // ----- totals -------------------------------------------------------------

  lemma {:induction false} TotalsOfList(f: Forms, s: Texts, rank: Hash -> nat, bound: nat, es: Entries, prefix: Path)
    requires Ranked(f, s, rank) && Counted(f, s) && Under(es, rank, bound) && CountedList(f, s, es)
    requires FlattenList(f, s, rank, bound, es, prefix, false).Ok?
    ensures Aggregate(es) == Aggregate(LeavesOf(f, s, rank, bound, es))
    decreases bound, 0, |es|
  {
    if es != [] {
      var n := |es| - 1;
      TotalsOfList(f, s, rank, bound, es[..n], prefix);
      TotalsOfEntry(f, s, rank, bound, es[n], prefix);
      AggregateSnoc(es);
      AggregateConcat(LeavesOf(f, s, rank, bound, es[..n]), LeafOrBelow(f, s, rank, bound, es[n]));
    }
  }

  lemma {:induction false} TotalsOfEntry(f: Forms, s: Texts, rank: Hash -> nat, bound: nat, e: TreeEntry, prefix: Path)
    requires Ranked(f, s, rank) && Counted(f, s) && (e.Tree? ==> rank(e.hash) < bound) && CountedList(f, s, [e])
    requires FlattenEntry(f, s, rank, bound, e, prefix, false).Ok?
    ensures Aggregate([e]) == Aggregate(LeafOrBelow(f, s, rank, bound, e))
    decreases bound, 0, 0
  {
    if e.Tree? {
      var es := Load(f, s, e.hash).value;
      TotalsOfList(f, s, rank, rank(e.hash), es, JoinPath(prefix, e.name));
      assert e in [e];
      ClaimIsAggregate(e, es);
    }
  }

  lemma {:induction false} ClaimIsAggregate(e: TreeEntry, es: Entries)
    requires e.Tree? && MetaOf(e) == Aggregate(es)
    ensures Aggregate([e]) == Aggregate(es)
  {
    AggregateOne(e);
    Reduced(es);
  }

  ghost predicate AllLeaves(es: Entries) { forall e :: e in es ==> !e.Tree? }

  lemma {:induction false} LeavesAreLeaves(f: Forms, s: Texts, rank: Hash -> nat, bound: nat, es: Entries)
    requires Ranked(f, s, rank) && Under(es, rank, bound)
    ensures AllLeaves(LeavesOf(f, s, rank, bound, es))
    decreases bound, 0, |es|
  {
    if es != [] {
      LeavesAreLeaves(f, s, rank, bound, es[..|es| - 1]);
      BelowAreLeaves(f, s, rank, bound, es[|es| - 1]);
    }
  }

  lemma {:induction false} BelowAreLeaves(f: Forms, s: Texts, rank: Hash -> nat, bound: nat, e: TreeEntry)
    requires Ranked(f, s, rank) && (e.Tree? ==> rank(e.hash) < bound)
    ensures AllLeaves(LeafOrBelow(f, s, rank, bound, e))
    decreases bound, 0, 0
  {
    if e.Tree? && Load(f, s, e.hash).Ok? {
      LoadedUnder(f, s, rank, e.hash);
      LeavesAreLeaves(f, s, rank, rank(e.hash), Load(f, s, e.hash).value);
    }
  }

  lemma {:induction false} CountOfLeaves(es: Entries)
    requires AllLeaves(es)
    ensures Aggregate(es).blobCount == |es| % WORD
  {
    if es != [] { CountOfLeaves(es[1..]); }
  }

  // ----- one path for every leaf --------------------------------------------

  ghost predicate NoDuplicates(ks: seq<Path>) { forall i, j :: 0 <= i < j < |ks| ==> ks[i] != ks[j] }

  /** The keys of the map, each once, and the leaves found under them, in the same order. */
  ghost predicate Enumerates(m: Flat, ks: seq<Path>, leaves: Entries) {
    && |ks| == |leaves| && NoDuplicates(ks) && (forall k :: k in ks <==> k in m)
    && forall i :: 0 <= i < |ks| ==> ks[i] in m && leaves[i] == m[ks[i]]
  }

  ghost function EntriesAt(m: Flat, ks: seq<Path>): Entries
    requires forall k :: k in ks ==> k in m
  {
    seq(|ks|, i requires 0 <= i < |ks| => m[ks[i]])
  }

  lemma {:induction false} JoinLeaves(front: Flat, last: Flat, ks: seq<Path>, ls: seq<Path>, a: Entries, b: Entries)
    requires last.Keys !! front.Keys && Enumerates(front, ks, a) && Enumerates(last, ls, b)
    ensures Enumerates(front + last, ks + ls, a + b)
  {
    var m, ns, c := front + last, ks + ls, a + b;
    forall i, j | 0 <= i < j < |ns|
      ensures ns[i] != ns[j]
    {
      assert ns[i] in front || ns[i] in last;
    }
    forall i | 0 <= i < |ns|
      ensures ns[i] in m && c[i] == m[ns[i]]
    {
      assert if i < |ks| then ns[i] == ks[i] && c[i] == a[i] else ns[i] == ls[i - |ks|] && c[i] == b[i - |ks|];
    }
  }

  lemma {:induction false} SizeOfList(f: Forms, s: Texts, rank: Hash -> nat, bound: nat, es: Entries, prefix: Path)
    returns (ks: seq<Path>)
    requires Ranked(f, s, rank) && Tidy(f, s) && Under(es, rank, bound) && Distinct(es)
    requires FlattenList(f, s, rank, bound, es, prefix, false).Ok?
    ensures Enumerates(FlattenList(f, s, rank, bound, es, prefix, false).value, ks, LeavesOf(f, s, rank, bound, es))
    decreases bound, 0, |es|
  {
    ks := [];
    if es != [] {
      var n := |es| - 1;
      FrontDistinct(es, rank, bound);
      var front := SizeOfList(f, s, rank, bound, es[..n], prefix);
      var last := SizeOfEntry(f, s, rank, bound, es[n], prefix);
      LastIsApart(f, s, rank, bound, es, prefix);
      ks := front + last;
      JoinLeaves(FlattenList(f, s, rank, bound, es[..n], prefix, false).value,
                 FlattenEntry(f, s, rank, bound, es[n], prefix, false).value,
                 front, last, LeavesOf(f, s, rank, bound, es[..n]), LeafOrBelow(f, s, rank, bound, es[n]));
    }
  }

  /** The last entry adds only new keys. */
  lemma {:induction false} LastIsApart(f: Forms, s: Texts, rank: Hash -> nat, bound: nat, es: Entries, prefix: Path)
    requires Ranked(f, s, rank) && Under(es, rank, bound) && Distinct(es) && es != []
    requires FlattenList(f, s, rank, bound, es, prefix, false).Ok?
    ensures var n := |es| - 1;
            && Under(es[..n], rank, bound) && FlattenList(f, s, rank, bound, es[..n], prefix, false).Ok?
            && FlattenEntry(f, s, rank, bound, es[n], prefix, false).Ok?
            && FlattenEntry(f, s, rank, bound, es[n], prefix, false).value.Keys
               !! FlattenList(f, s, rank, bound, es[..n], prefix, false).value.Keys
  {
    var n := |es| - 1;
    FrontDistinct(es, rank, bound);
    forall k | k in FlattenEntry(f, s, rank, bound, es[n], prefix, false).value
      ensures k !in FlattenList(f, s, rank, bound, es[..n], prefix, false).value
    {
      EntryKeys(f, s, rank, bound, es[n], prefix, false, k);
      ListMisses(f, s, rank, bound, es[..n], prefix, false, es[n].name, k);
    }
  }

  lemma {:induction false} SizeOfEntry(f: Forms, s: Texts, rank: Hash -> nat, bound: nat, e: TreeEntry, prefix: Path)
    returns (ks: seq<Path>)
    requires Ranked(f, s, rank) && Tidy(f, s) && (e.Tree? ==> rank(e.hash) < bound)
    requires FlattenEntry(f, s, rank, bound, e, prefix, false).Ok?
    ensures Enumerates(FlattenEntry(f, s, rank, bound, e, prefix, false).value, ks, LeafOrBelow(f, s, rank, bound, e))
    decreases bound, 0, 0
  {
    if e.Tree? {
      LoadedDistinct(f, s, e.hash);
      ks := SizeOfList(f, s, rank, rank(e.hash), Load(f, s, e.hash).value, JoinPath(prefix, e.name));
    } else {
      ks := [JoinPath(prefix, e.name)];
    }
  }

  lemma {:induction false} ListSize(ks: seq<Path>, s: set<Path>)
    requires NoDuplicates(ks) && forall k :: k in ks <==> k in s
    ensures |s| == |ks|
    decreases |ks|
  {
    if ks == [] {
      assert s == {};
    } else {
      var n := |ks| - 1;
      var rest := s - {ks[n]};
      assert ks == ks[..n] + [ks[n]];
      assert ks[n] !in ks[..n];
      ListSize(ks[..n], rest);
    }
  }

  lemma {:induction false} EnumeratedEntries(m: Flat, ks: seq<Path>, leaves: Entries)
    requires Enumerates(m, ks, leaves)
    ensures NoDuplicates(ks) && (forall k :: k in ks <==> k in m) && EntriesAt(m, ks) == leaves
  {
  }

  lemma {:induction false} CountOfKeys(m: Flat, ks: seq<Path>, leaves: Entries)
    requires Enumerates(m, ks, leaves)
    ensures |m| == |ks|
  {
    ListSize(ks, m.Keys);
    assert |m| == |m.Keys|;
  }

  /**
   The totals of a tree are totals over its flattened map: the mtime is the latest of those
   found in it; the blob count is the number of its paths; and the size is the sum of the blob
   sizes over the list of all paths, each once. Counts and sizes are modulo 2^64.
   */
  lemma {:induction false} TotalsAreOverLeaves(f: Forms, s: Texts, rank: Hash -> nat, root: Hash)
    returns (ks: seq<Path>)
    requires Ranked(f, s, rank) && Tidy(f, s) && Counted(f, s) && Flatten(f, s, rank, root, [], false).Ok?
    ensures var m := Flatten(f, s, rank, root, [], false).value;
            var totals := Aggregate(Load(f, s, root).value);
            && NoDuplicates(ks) && (forall k :: k in ks <==> k in m) && |ks| == |m|
            && AllLeaves(EntriesAt(m, ks)) && totals == Aggregate(EntriesAt(m, ks)) && totals.blobCount == |m| % WORD
            && LatestOf(totals.mtime, set k | k in m :: m[k].mtime)
            && totals.size == BlobBytes(EntriesAt(m, ks)) % 0x1_0000_0000_0000_0000
  {
    ks := LeavesOfRoot(f, s, rank, root);
    var m, leaves := Flatten(f, s, rank, root, [], false).value, Leaves(f, s, rank, root);
    CountOfLeaves(leaves);
    CountOfKeys(m, ks, leaves);
    EnumeratedEntries(m, ks, leaves);
    AggregateMeans(leaves);
    LeafBytes(leaves);
    TimesOfKeys(m, ks, leaves);
  }

  lemma {:induction false} TimesOfKeys(m: Flat, ks: seq<Path>, leaves: Entries)
    requires Enumerates(m, ks, leaves)
    ensures Times(leaves) == set k | k in m :: m[k].mtime
  {
    forall k | k in m
      ensures m[k].mtime in Times(leaves)
    {
      var i: nat :| i < |ks| && ks[i] == k;
      assert leaves[i] in leaves;
    }
    forall e | e in leaves
      ensures exists k :: k in m && m[k].mtime == e.mtime
    {
      var i: nat :| i < |leaves| && leaves[i] == e;
      assert ks[i] in m;
    }
  }

  /** The sizes of the blobs among these entries. */
  function BlobBytes(es: Entries): nat {
    if es == [] then 0 else (if es[0].Blob? then es[0].size else 0) + BlobBytes(es[1..])
  }

  lemma {:induction false} LeafBytes(es: Entries)
    requires AllLeaves(es)
    ensures BytesOf(es) == BlobBytes(es)
  {
    if es != [] { LeafBytes(es[1..]); }
  }

  lemma {:induction false} LeavesOfRoot(f: Forms, s: Texts, rank: Hash -> nat, root: Hash) returns (ks: seq<Path>)
    requires Ranked(f, s, rank) && Tidy(f, s) && Counted(f, s) && Flatten(f, s, rank, root, [], false).Ok?
    ensures Enumerates(Flatten(f, s, rank, root, [], false).value, ks, Leaves(f, s, rank, root))
    ensures Aggregate(Load(f, s, root).value) ==
            Aggregate(Leaves(f, s, rank, root)) && AllLeaves(Leaves(f, s, rank, root))
  {
    var es := Load(f, s, root).value;
    LoadedUnder(f, s, rank, root);
    LoadedDistinct(f, s, root);
    TotalsOfList(f, s, rank, rank(root), es, []);
    LeavesAreLeaves(f, s, rank, rank(root), es);
    ks := SizeOfList(f, s, rank, rank(root), es, []);
  }
}
