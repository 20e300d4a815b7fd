/**
 Removing what was spliced in: the tree that comes back has the hash it had before
 (src/tree_ops.rs, `splice_entry` and `remove_entry`).
 */
module TreeUndo {
  import opened Base
  import opened ObjectCodec
  import opened Trees
  import opened TreeEdit
  import opened TreeLaws

  /** Lists in name order are determined by what is found in them. */
  lemma {:induction false} SortedDetermined(a: Entries, b: Entries)
    requires Sorted(a) && Sorted(b) && forall n :: Find(a, n) == Find(b, n)
    ensures a == b
    decreases |a|
  {
    assert a != [] ==> Find(b, a[0].name).Some?;
    assert b != [] ==> Find(a, b[0].name).Some?;
    if a != [] && b != [] {
      FirstAgrees(a, b);
      forall n
        ensures Find(a[1..], n) == Find(b[1..], n)
      {
        FindTail(a, n);
        FindTail(b, n);
      }
      SortedDetermined(a[1..], b[1..]);
      assert a == [a[0]] + a[1..] && b == [b[0]] + b[1..];
    }
  }

  lemma {:induction false} FindTail(a: Entries, n: Name)
    requires a != [] && Sorted(a)
    ensures Find(a[1..], n) == if n == a[0].name then None else Find(a, n)
  {
    FindHolds(a[1..], n);
    LessIrreflexive(n);
  }

  lemma {:induction false} FirstAgrees(a: Entries, b: Entries)
    requires a != [] && b != [] && Sorted(a) && Sorted(b) && forall n :: Find(a, n) == Find(b, n)
    ensures a[0] == b[0]
  {
    var x, y := a[0], b[0];
    assert Find(a, x.name) == Some(x) && Find(b, y.name) == Some(y);
    FirstIsLeast(a, y.name);
    FirstIsLeast(b, x.name);
    LessAsymmetric(x.name, y.name);
  }

  lemma {:induction false} LessAsymmetric(a: Name, b: Name)
    ensures !(Less(a, b) && Less(b, a))
  {
    LessIrreflexive(a);
    if Less(a, b) && Less(b, a) { LessTransitive(a, b, a); }
  }

  lemma {:induction false} FirstIsLeast(a: Entries, n: Name)
    requires a != [] && Sorted(a) && Find(a, n).Some?
    ensures n == a[0].name || Less(a[0].name, n)
  {
    FindHolds(a[1..], n);
  }

  /** Adding a new name and taking it away again. */
  lemma {:induction false} UndoUpsert(es: Entries, e: TreeEntry)
    requires Sorted(es) && Find(es, e.name).None?
    ensures SortByName(Without(SortByName(Upsert(es, e.name, e)), e.name)) == es
  {
    var up := SortByName(Upsert(es, e.name, e));
    var down := SortByName(Without(up, e.name));
    SortedUnique(es);
    UpsertUnique(es, e.name, e);
    SortSorts(Upsert(es, e.name, e));
    SortedUnique(up);
    WithoutUnique(up, e.name);
    SortSorts(Without(up, e.name));
    forall n
      ensures Find(down, n) == Find(es, n)
    {
      FindSorted(Without(up, e.name), n);
      FindWithout(up, e.name, n);
      FindSorted(Upsert(es, e.name, e), n);
      FindUpsert(es, e.name, e, n);
    }
    SortedDetermined(down, es);
  }

  /** Replacing an entry and putting the old one back. */
  lemma {:induction false} UndoReplace(es: Entries, old': TreeEntry, e: TreeEntry)
    requires Sorted(es) && e.name == old'.name && Find(es, e.name) == Some(old')
    ensures SortByName(Upsert(SortByName(Upsert(es, e.name, e)), e.name, old')) == es
  {
    var up := SortByName(Upsert(es, e.name, e));
    var down := SortByName(Upsert(up, e.name, old'));
    SortedUnique(es);
    UpsertUnique(es, e.name, e);
    SortSorts(Upsert(es, e.name, e));
    SortedUnique(up);
    UpsertUnique(up, e.name, old');
    SortSorts(Upsert(up, e.name, old'));
    forall n
      ensures Find(down, n) == Find(es, n)
    {
      FindSorted(Upsert(up, e.name, old'), n);
      FindUpsert(up, e.name, old', n);
      FindSorted(Upsert(es, e.name, e), n);
      FindUpsert(es, e.name, e, n);
    }
    SortedDetermined(down, es);
  }

  /** Stored texts are the ones the format writes. */
  ghost predicate Canonical(f: Forms, s: Texts) {
    forall h :: Load(f, s, h).Ok? ==> s[h] == f.format(Load(f, s, h).value)
  }

  /** Every name before the last is a tree whose entry carries its aggregates, and the last is not taken. */
  ghost predicate FreeSpot(f: Forms, s: Texts, base: Hash, p: seq<Name>)
    requires p != []
    decreases |p|
  {
    && Load(f, s, base).Ok?
    && var e := Find(Load(f, s, base).value, p[0]);
       if |p| == 1 then e.None?
       else
         && e.Some? && e.value.Tree? && Load(f, s, e.value.hash).Ok?
         && MetaOf(e.value) == Aggregate(Load(f, s, e.value.hash).value)
         && FreeSpot(f, s, e.value.hash, p[1..])
  }

  /**
   Splicing an entry into a free spot and removing it again, in the store the splice left
   or any later one, leads back to the very same root.
   */
  lemma {:induction false} SpliceThenRemove(f: Forms, s: Texts, base: Hash, p: seq<Name>, e: TreeEntry, later: Texts)
    requires ValidPath(p) && e.name == p[|p| - 1] && Tidy(f, s) && Canonical(f, s) && FreeSpot(f, s, base, p)
    requires var o := Splice(f, s, Some(base), p, e);
             Sane(f, s, o.built) && o.result.Ok? && Grows(o.store, later)
             && Sane(f, later, Remove(f, later, o.result.value, p).built)
    ensures Remove(f, later, Splice(f, s, Some(base), p, e).result.value, p).result == Ok(Some(base))
    decreases |p|
  {
    var o := Splice(f, s, Some(base), p, e);
    var es := Load(f, s, base).value;
    SpliceBuilds(f, s, Some(base), p, e);
    LoadGrows(f, o.store, later, o.result.value);
    if |p| == 1 {
      UndoUpsert(es, e);
      UndoLeaf(f, s, base, p, e, later);
    } else {
      UndoBelow(f, s, base, p, e, later);
    }
  }

  lemma {:induction false} UndoLeaf(f: Forms, s: Texts, base: Hash, p: seq<Name>, e: TreeEntry, later: Texts)
    requires |p| == 1 && e.name == p[0] && Canonical(f, s) && Genuine(f, s) && Load(f, s, base).Ok?
    requires var up := SortByName(Upsert(Load(f, s, base).value, p[0], e));
             && Load(f, later, Splice(f, s, Some(base), p, e).result.value) == Ok(up)
             && SortByName(Without(up, p[0])) == Load(f, s, base).value
    ensures Remove(f, later, Splice(f, s, Some(base), p, e).result.value, p).result == Ok(Some(base))
  {
    var es := Load(f, s, base).value;
    var up := SortByName(Upsert(es, p[0], e));
    FindSorted(Upsert(es, p[0], e), p[0]);
    FindUpsert(es, p[0], e, p[0]);
    WithoutLength(up, p[0]);
    assert TextOf(f, Without(up, p[0])) == s[base];
  }

  lemma {:induction false} UndoBelow(f: Forms, s: Texts, base: Hash, p: seq<Name>, e: TreeEntry, later: Texts)
    requires |p| > 1
    requires ValidPath(p) && e.name == p[|p| - 1] && Tidy(f, s) && Canonical(f, s) && FreeSpot(f, s, base, p)
    requires var o := Splice(f, s, Some(base), p, e);
             Sane(f, s, o.built) && o.result.Ok? && Grows(o.store, later)
             && Sane(f, later, Remove(f, later, o.result.value, p).built)
             && Load(f, later, o.result.value) == Ok(SortByName(SplicedList(f, s, Some(base), p, e)))
    ensures Remove(f, later, Splice(f, s, Some(base), p, e).result.value, p).result == Ok(Some(base))
    decreases |p|, 0
  {
    var o := Splice(f, s, Some(base), p, e);
    var es := Load(f, s, base).value;
    var child := Find(es, p[0]).value;
    var below := Splice(f, s, Some(child.hash), p[1..], e);
    SpliceBelow(f, s, Some(base), p, e);
    TreeEdit.BuiltBelow(f, s, Some(base), p, e);
    SplicedFind(f, s, Some(base), p, e, p[0]);
    var up := Load(f, later, o.result.value).value;
    assert Below(up, p[0]) == Some(below.result.value);
    RemoveBelow(f, later, o.result.value, p);
    SpliceThenRemove(f, s, child.hash, p[1..], e, later);
    var undone := Remove(f, later, below.result.value, p[1..]);
    LoadGrows(f, s, undone.store, child.hash);
    RemoveStep(f, later, o.result.value, p, Load(f, s, child.hash).value);
    FindHolds(es, p[0]);
    assert ChildEntry(p[0], child.hash, Load(f, s, child.hash).value) == child;
    UndoReplace(es, child, ChildEntry(p[0], below.result.value, Load(f, below.store, below.result.value).value));
    assert TextOf(f, Upsert(up, p[0], child)) == s[base];
  }

  /** The parent a removal rebuilds around the child it got back. */
  lemma {:induction false} RemoveStep(f: Forms, s: Texts, root: Hash, p: seq<Name>, child: Entries)
    requires |p| > 1 && Load(f, s, root).Ok? && Below(Load(f, s, root).value, p[0]).Some?
    requires var o := Remove(f, s, Below(Load(f, s, root).value, p[0]).value, p[1..]);
             Removes(o) && Load(f, o.store, o.result.value.value) == Ok(child)
    ensures var es := Load(f, s, root).value;
            var h := Remove(f, s, Below(es, p[0]).value, p[1..]).result.value.value;
            Remove(f, s, root, p).result == Ok(Some(f.sha(TextOf(f, Upsert(es, p[0], ChildEntry(p[0], h, child))))))
  {
  }
}
