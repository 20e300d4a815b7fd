/**
 The tree operations in place (src/tree_ops.rs): an object store and, when enabled, an
 in-process cache of parsed trees. Each method does to the store, the cache and the answer
 what the function of `TreeCache` says, for every cache whose entries are what the stored
 texts parse to.
 */
module TreeOps {
  import opened Base
  import opened ObjectCodec
  import opened Trees
  import opened TreeEdit
  import opened TreeLaws
  import opened TreeFlatten
  import opened TreeCache

  class TreeStore {
    var objects: Texts
    /** `None` while the cache is disabled. */
    var cache: Option<map<Hash, Entries>>

    /** Cached entries are what the stored text parses to. */
    ghost predicate Coherent(f: Forms)
      reads this
    {
      cache.Some? ==> forall h :: h in cache.value ==> LoadTrusting(f, objects, h) == Ok(cache.value[h])
    }

    /** The cached trees that could not be read from the store. */
    ghost function TaintNow(f: Forms): Taint
      reads this
    {
      if cache.None? then None else Some(Unreadable(f, objects, cache.value.Keys))
    }

    constructor (objects: Texts)
      ensures this.objects == objects && cache == None
    {
      this.objects := objects;
      cache := None;
    }

    method EnableCache(ghost f: Forms)
      modifies this`cache
      ensures cache == Some(map[]) && Coherent(f) && TaintNow(f) == Some({})
    {
      cache := Some(map[]);
      assert TaintNow(f).value == {};
    }

    method DropCache(ghost f: Forms)
      modifies this`cache
      ensures cache == None && Coherent(f) && TaintNow(f) == None
    {
      cache := None;
    }

    method CachePut(h: Hash, es: Entries)
      modifies this`cache
      ensures old(cache).None? ==> cache.None?
      ensures old(cache).Some? ==>
        cache == Some(if h in old(cache).value then old(cache).value else old(cache).value[h := es])
    {
      if cache.Some? && h !in cache.value { cache := Some(cache.value[h := es]); }
    }

    /** The cached entries if there are any, otherwise the object. Loading taints nothing. */
    method LoadAllEntries(f: Forms, h: Hash) returns (r: Result<Entries>)
      requires Coherent(f)
      modifies this`cache
      ensures Coherent(f) && TaintNow(f) == old(TaintNow(f)) && r == See(f, objects, old(TaintNow(f)), h)
    {
      if cache.Some? && h in cache.value {
        LoadIsTrustingAndValid(f, objects, h);
        return Ok(cache.value[h]);
      }
      r := Load(f, objects, h);
      if r.Ok? {
        LoadIsTrustingAndValid(f, objects, h);
        ghost var before := TaintNow(f);
        CachePut(h, r.value);
        assert cache.Some? ==> TaintNow(f).value == before.value;
      }
    }

    /** Sort, serialise, hash; write unless present. A tree with an invalid name taints the cache. */
    method BuildAndStore(f: Forms, es: Entries) returns (h: Hash)
      requires Coherent(f) && Sane(f, objects, {TextOf(f, es)})
      modifies this
      ensures h == f.sha(TextOf(f, es)) && objects == PutText(f, old(objects), TextOf(f, es))
      ensures Coherent(f) && TaintNow(f) == AddTaint(f, old(TaintNow(f)), {TextOf(f, es)})
    {
      BuildLoads(f, objects, es);
      if cache.Some? { TaintAfterBuild(f, objects, cache.value.Keys, es); }
      var sorted := SortByName(es);
      var bytes := f.format(sorted);
      h := f.sha(bytes);
      if h !in objects { objects := objects[h := bytes]; }
      CachePut(h, sorted);
      assert cache.Some? ==> cache.value.Keys == old(cache).value.Keys + {h};
    }

    /** The aggregates of a tree, from the cache if it is there. */
    method TreeMeta(f: Forms, h: Hash) returns (r: Result<Meta>)
      requires Coherent(f)
      modifies this`cache
      ensures Coherent(f) && TaintNow(f) == old(TaintNow(f))
      ensures var es := See(f, objects, old(TaintNow(f)), h);
              && (r == if es.Ok? then Ok(Aggregate(es.value)) else Err(es.error))
              && (r.Ok? ==>
                    && LatestOf(r.value.mtime, Times(es.value))
                    && r.value.size == BytesOf(es.value) % 0x1_0000_0000_0000_0000
                    && r.value.blobCount == LeavesBelow(es.value) % 0x1_0000_0000_0000_0000)
    {
      var es := LoadAllEntries(f, h);
      if es.Err? { return Err(es.error); }
      AggregateMeans(es.value);
      r := Ok(Aggregate(es.value));
    }

    /** Build the parent of a child that was just rebuilt. */
    method RebuildParent(f: Forms, es: Entries, n: Name, h: Hash, ghost c: Taint, ghost built: set<Bytes>)
      returns (r: Result<Hash>)
      requires Coherent(f) && TaintNow(f) == AddTaint(f, c, built)
      requires Sane(f, objects, ParentVia(f, c, es, n, Outcome(Ok(h), objects, built)).built)
      modifies this
      ensures Coherent(f)
      ensures var o := ParentVia(f, c, es, n, Outcome(Ok(h), old(objects), built));
              r == o.result && objects == o.store && TaintNow(f) == AddTaint(f, c, o.built)
    {
      var meta := TreeMeta(f, h);
      if meta.Err? { return Err(meta.error); }
      var child := Tree(n, h, meta.value.mtime, meta.value.size, meta.value.blobCount);
      ghost var text := TextOf(f, Upsert(es, n, child));
      Smaller(f, objects, built + {text}, objects, {text});
      AddTaintTwice(f, c, built, {text});
      var g := BuildAndStore(f, Upsert(es, n, child));
      r := Ok(g);
    }

    /** Splice an entry in, for any path and any coherent cache. */
    method SpliceEntry(f: Forms, base: Option<Hash>, p: seq<Name>, e: TreeEntry) returns (r: Result<Hash>)
      requires Coherent(f) && p != [] && Sane(f, objects, SpliceVia(f, objects, TaintNow(f), base, p, e).built)
      modifies this
      ensures Coherent(f)
      ensures var o := SpliceVia(f, old(objects), old(TaintNow(f)), base, p, e);
              r == o.result && objects == o.store && TaintNow(f) == AddTaint(f, old(TaintNow(f)), o.built)
      decreases |p|
    {
      ghost var c := TaintNow(f);
      AddNoTaint(f, c);
      var es: Result<Entries> := Ok([]);
      if base.Some? { es := LoadAllEntries(f, base.value); }
      if es.Err? { return Err(es.error); }
      if |p| == 1 {
        assert {} + {TextOf(f, Upsert(es.value, p[0], e))} == {TextOf(f, Upsert(es.value, p[0], e))};
        var h := BuildAndStore(f, Upsert(es.value, p[0], e));
        return Ok(h);
      }
      SpliceReady(f, objects, c, base, p, e);
      ghost var below := SpliceVia(f, objects, c, Below(es.value, p[0]), p[1..], e);
      r := SpliceEntry(f, Below(es.value, p[0]), p[1..], e);
      if r.Err? { return; }
      r := RebuildParent(f, es.value, p[0], r.value, c, below.built);
    }

    /** Take an entry away, for any path and any coherent cache. */
    method RemoveEntry(f: Forms, base: Hash, p: seq<Name>) returns (r: Result<Option<Hash>>)
      requires Coherent(f) && p != [] && Sane(f, objects, RemoveVia(f, objects, TaintNow(f), base, p).built)
      modifies this
      ensures Coherent(f)
      ensures var o := RemoveVia(f, old(objects), old(TaintNow(f)), base, p);
              r == o.result && objects == o.store && TaintNow(f) == AddTaint(f, old(TaintNow(f)), o.built)
      decreases |p|
    {
      ghost var c := TaintNow(f);
      AddNoTaint(f, c);
      var es := LoadAllEntries(f, base);
      if es.Err? { return Err(es.error); }
      if |p| == 1 {
        var left := Without(es.value, p[0]);
        if |left| == |es.value| { return Ok(None); }
        assert {} + {TextOf(f, left)} == {TextOf(f, left)};
        var h := BuildAndStore(f, left);
        return Ok(Some(h));
      }
      var child := Below(es.value, p[0]);
      if child.None? { return Ok(None); }
      RemoveReady(f, objects, c, base, p);
      ghost var below := RemoveVia(f, objects, c, child.value, p[1..]);
      r := RemoveEntry(f, child.value, p[1..]);
      if r.Err? || r.value.None? { return; }
      var h := RebuildParent(f, es.value, p[0], r.value.value, c, below.built);
      r := if h.Err? then Err(h.error) else Ok(Some(h.value));
    }

    // ----- flattening -------------------------------------------------------

    /** Add every leaf below the tree to `out`. */
    method FlattenInto(f: Forms, ghost rank: Hash -> nat, h: Hash, prefix: Path, local: bool, out: Flat)
      returns (r: Result<Flat>)
      requires Coherent(f) && RankedVia(f, objects, TaintNow(f), rank)
      modifies this`cache
      ensures Coherent(f) && TaintNow(f) == old(TaintNow(f))
      ensures r == AddTo(out, FlattenVia(f, objects, old(TaintNow(f)), rank, h, prefix, local))
      decreases rank(h), 1
    {
      ghost var c := TaintNow(f);
      var entries := LoadAllEntries(f, h);
      if entries.Err? { return Err(entries.error); }
      var es := entries.value;
      r := Ok(out);
      assert es[..0] == [] && out + map[] == out;
      for i := 0 to |es|
        invariant Coherent(f) && TaintNow(f) == c && r.Ok?
        invariant Under(es, rank, rank(h)) && Under(es[..i], rank, rank(h))
        invariant FlattenListVia(f, objects, c, rank, rank(h), es[..i], prefix, local).Ok?
        invariant r == AddTo(out, FlattenListVia(f, objects, c, rank, rank(h), es[..i], prefix, local))
      {
        ListStep(f, objects, c, rank, rank(h), es, prefix, local, i, out);
        r := FlattenOne(f, rank, rank(h), es[i], prefix, local, r.value);
        if r.Err? {
          ListError(f, objects, c, rank, rank(h), es, prefix, local, i + 1);
          return;
        }
      }
      assert es[..|es|] == es;
    }

    /** A leaf is added under its path; a tree is descended into, by a local walk only if it is present. */
    method FlattenOne(f: Forms, ghost rank: Hash -> nat, ghost bound: nat, e: TreeEntry, prefix: Path, local: bool,
        out: Flat)
      returns (r: Result<Flat>)
      requires Coherent(f) && RankedVia(f, objects, TaintNow(f), rank) && (e.Tree? ==> rank(e.hash) < bound)
      modifies this`cache
      ensures Coherent(f) && TaintNow(f) == old(TaintNow(f))
      ensures r == AddTo(out, FlattenEntryVia(f, objects, old(TaintNow(f)), rank, bound, e, prefix, local))
      decreases bound, 0
    {
      var relPath := JoinPath(prefix, e.name);
      if !e.Tree? {
        assert out[relPath := e] == out + map[relPath := e];
        return Ok(out[relPath := e]);
      }
      if local && e.hash !in objects {
        assert out + map[] == out;
        return Ok(out);
      }
      r := FlattenInto(f, rank, e.hash, relPath, local, out);
    }

    method FlattenTreeEntries(f: Forms, ghost rank: Hash -> nat, root: Hash, local: bool) returns (r: Result<Flat>)
      requires Coherent(f) && RankedVia(f, objects, TaintNow(f), rank)
      modifies this`cache
      ensures Coherent(f) && TaintNow(f) == old(TaintNow(f))
      ensures r == FlattenVia(f, objects, old(TaintNow(f)), rank, root, [], local)
    {
      AddToEmpty(FlattenVia(f, objects, TaintNow(f), rank, root, [], local));
      r := FlattenInto(f, rank, root, [], local, map[]);
    }

    method FlattenTreeEntriesScoped(f: Forms, ghost rank: Hash -> nat, root: Hash, p: seq<Name>)
      returns (r: Result<Flat>)
      requires Coherent(f) && RankedVia(f, objects, TaintNow(f), rank)
      modifies this`cache
      ensures Coherent(f) && TaintNow(f) == old(TaintNow(f))
      ensures r == ScopedVia(f, objects, old(TaintNow(f)), rank, root, p)
    {
      var e := Navigate(f, objects, root, p);
      if e.Err? { return Err(e.error); }
      if e.value.None? { return Ok(map[]); }
      if !e.value.value.Tree? { return Ok(map[JoinAll([], p) := e.value.value]); }
      AddToEmpty(FlattenVia(f, objects, TaintNow(f), rank, e.value.value.hash, JoinAll([], p), false));
      r := FlattenInto(f, rank, e.value.value.hash, JoinAll([], p), false, map[]);
    }
  }

  ghost function Unreadable(f: Forms, s: Texts, keys: set<Hash>): set<Hash> { set h | h in keys && Load(f, s, h).Err? }

  /** Building a tree makes exactly that tree unreadable in the cache, and only if it has an invalid name. */
  lemma {:induction false} TaintAfterBuild(f: Forms, s: Texts, keys: set<Hash>, es: Entries)
    requires Sane(f, s, {TextOf(f, es)}) && forall h :: h in keys ==> LoadTrusting(f, s, h).Ok?
    ensures var t := TextOf(f, es);
            Some(Unreadable(f, PutText(f, s, t), keys + {f.sha(t)})) == AddTaint(f, Some(Unreadable(f, s, keys)), {t})
  {
    var t := TextOf(f, es);
    BuildLoads(f, s, es);
    SortNames(es);
    var s' := PutText(f, s, t);
    forall h | h in keys
      ensures Load(f, s', h) == Load(f, s, h)
    {
      LoadGrows(f, s, s', h);
    }
    LoadIsTrustingAndValid(f, s', f.sha(t));
    assert Unreadable(f, s', keys + {f.sha(t)}) == AddTaint(f, Some(Unreadable(f, s, keys)), {t}).value;
  }

  ghost function AddTo(out: Flat, r: Result<Flat>): Result<Flat> {
    if r.Err? then r else Ok(out + r.value)
  }

  lemma {:induction false} AddToEmpty(r: Result<Flat>)
    ensures AddTo(map[], r) == r
  {
    if r.Ok? { assert map[] + r.value == r.value; }
  }

  lemma {:induction false} AddNoTaint(f: Forms, c: Taint)
    ensures AddTaint(f, c, {}) == c
  {
    if c.Some? { assert AddTaint(f, c, {}).value == c.value; }
  }

  lemma {:induction false} AddTaintTwice(f: Forms, c: Taint, a: set<Bytes>, b: set<Bytes>)
    ensures AddTaint(f, AddTaint(f, c, a), b) == AddTaint(f, c, a + b)
  {
    if c.Some? { assert AddTaint(f, AddTaint(f, c, a), b).value == AddTaint(f, c, a + b).value; }
  }

  /** The child level of a splice, and the build after it, tell their texts apart. */
  lemma {:induction false} SpliceReady(f: Forms, s: Texts, c: Taint, base: Option<Hash>, p: seq<Name>, e: TreeEntry)
    requires |p| > 1 && SeeBase(f, s, c, base).Ok? && Sane(f, s, SpliceVia(f, s, c, base, p, e).built)
    ensures var es := SeeBase(f, s, c, base).value;
            var below := SpliceVia(f, s, c, Below(es, p[0]), p[1..], e);
            Sane(f, s, below.built) && Sane(f, below.store, SpliceVia(f, s, c, base, p, e).built)
  {
    var es := SeeBase(f, s, c, base).value;
    var below := SpliceVia(f, s, c, Below(es, p[0]), p[1..], e);
    ParentBuilt(f, c, es, p[0], below);
    Smaller(f, s, SpliceVia(f, s, c, base, p, e).built, s, below.built);
    SpliceGrows(f, s, c, Below(es, p[0]), p[1..], e);
    Smaller(f, s, SpliceVia(f, s, c, base, p, e).built, below.store, SpliceVia(f, s, c, base, p, e).built);
  }

  lemma {:induction false} RemoveReady(f: Forms, s: Texts, c: Taint, base: Hash, p: seq<Name>)
    requires |p| > 1 && See(f, s, c, base).Ok? && Below(See(f, s, c, base).value, p[0]).Some?
    requires Sane(f, s, RemoveVia(f, s, c, base, p).built)
    ensures var below := RemoveVia(f, s, c, Below(See(f, s, c, base).value, p[0]).value, p[1..]);
            Sane(f, s, below.built) && Sane(f, below.store, RemoveVia(f, s, c, base, p).built)
  {
    var es := See(f, s, c, base).value;
    var below := RemoveVia(f, s, c, Below(es, p[0]).value, p[1..]);
    if Removes(below) { ParentBuilt(f, c, es, p[0], Unfound(below)); }
    Smaller(f, s, RemoveVia(f, s, c, base, p).built, s, below.built);
    RemoveGrows(f, s, c, Below(es, p[0]).value, p[1..]);
    Smaller(f, s, RemoveVia(f, s, c, base, p).built, below.store, RemoveVia(f, s, c, base, p).built);
  }

  lemma {:induction false} ListStep(
    f: Forms, s: Texts, c: Taint, rank: Hash -> nat, bound: nat, es: Entries, prefix: Path, local: bool, i: nat,
    out: Flat)
    requires RankedVia(f, s, c, rank) && Under(es, rank, bound) && i < |es|
    requires FlattenListVia(f, s, c, rank, bound, es[..i], prefix, local).Ok?
    ensures Under(es[..i + 1], rank, bound) && (es[i].Tree? ==> rank(es[i].hash) < bound)
    ensures var front := FlattenListVia(f, s, c, rank, bound, es[..i], prefix, local).value;
            AddTo(out, FlattenListVia(f, s, c, rank, bound, es[..i + 1], prefix, local)) ==
            AddTo(out + front, FlattenEntryVia(f, s, c, rank, bound, es[i], prefix, local))
  {
    assert es[..i + 1][..i] == es[..i];
    var front := FlattenListVia(f, s, c, rank, bound, es[..i], prefix, local).value;
    var last := FlattenEntryVia(f, s, c, rank, bound, es[i], prefix, local);
    if last.Ok? { assert out + (front + last.value) == out + front + last.value; }
  }

  lemma {:induction false} ListError(
    f: Forms, s: Texts, c: Taint, rank: Hash -> nat, bound: nat, es: Entries, prefix: Path, local: bool, i: nat)
    requires RankedVia(f, s, c, rank) && Under(es, rank, bound) && i <= |es|
    requires FlattenListVia(f, s, c, rank, bound, es[..i], prefix, local).Err?
    ensures FlattenListVia(f, s, c, rank, bound, es, prefix, local) ==
            FlattenListVia(f, s, c, rank, bound, es[..i], prefix, local)
    decreases |es| - i
  {
    if i == |es| {
      assert es[..i] == es;
    } else {
      assert es[..i + 1][..i] == es[..i];
      ListError(f, s, c, rank, bound, es, prefix, local, i + 1);
    }
  }
}
