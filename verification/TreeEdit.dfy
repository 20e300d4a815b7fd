/**
 Editing hash-addressed trees (src/tree_ops.rs): `navigate_entry`, `splice_entry` and
 `remove_entry` as functions of the store, and the laws that connect them.
 */
module TreeEdit {
  import opened Base
  import opened ObjectCodec
  import opened Trees

  /** Follow the names; nothing is found behind a symlink. */
  function Navigate(f: Forms, s: Texts, root: Hash, p: seq<Name>): Result<Option<TreeEntry>>
    decreases |p|
  {
    if p == [] then Ok(None)
    else
      var es := Load(f, s, root);
      if es.Err? then Err(es.error)
      else
        var e := Find(es.value, p[0]);
        if e.None? || |p| == 1 then Ok(e)
        else if HashOf(e.value).None? then Ok(None)
        else Navigate(f, s, HashOf(e.value).value, p[1..])
  }

  /** The tree whose absence stops the walk, if that is what stops it. */
  ghost function Lacked(f: Forms, s: Texts, root: Hash, p: seq<Name>): Option<Hash>
    decreases |p|
  {
    if p == [] then None
    else if root !in s then Some(root)
    else if Load(f, s, root).Err? then None
    else
      var e := Find(Load(f, s, root).value, p[0]);
      if e.None? || |p| == 1 || HashOf(e.value).None? then None else Lacked(f, s, HashOf(e.value).value, p[1..])
  }

  /** A result, the store it leaves, and every text that was built on the way. */
  datatype Outcome<+R> = Outcome(result: Result<R>, store: Texts, built: set<Bytes>)

  function Build(f: Forms, s: Texts, es: Entries, built: set<Bytes>): Outcome<Hash> {
    var t := TextOf(f, es);
    Outcome(Ok(f.sha(t)), PutText(f, s, t), built + {t})
  }

  /** The entry for a rebuilt child, with the aggregates of the tree it names. */
  function ChildEntry(n: Name, h: Hash, es: Entries): TreeEntry {
    var m := Aggregate(es);
    Tree(n, h, m.mtime, m.size, m.blobCount)
  }

  /** The tree an existing entry of that name leads to, if any. */
  function Below(es: Entries, n: Name): Option<Hash> {
    var e := Find(es, n);
    if e.None? then None else HashOf(e.value)
  }

  function LoadBase(f: Forms, s: Texts, base: Option<Hash>): Result<Entries> {
    if base.None? then Ok([]) else Load(f, s, base.value)
  }

  /** Put `e` at `p`, rebuilding every tree on the way up; a missing tree starts empty. */
  function Splice(f: Forms, s: Texts, base: Option<Hash>, p: seq<Name>, e: TreeEntry): Outcome<Hash>
    requires p != []
    decreases |p|
  {
    var es := LoadBase(f, s, base);
    if es.Err? then Outcome(Err(es.error), s, {})
    else if |p| == 1 then Build(f, s, Upsert(es.value, p[0], e), {})
    else
      var below := Splice(f, s, Below(es.value, p[0]), p[1..], e);
      if below.result.Err? then below
      else
        var child := Load(f, below.store, below.result.value);
        if child.Err? then Outcome(Err(child.error), below.store, below.built)
        else
          Build(f, below.store, Upsert(es.value, p[0], ChildEntry(p[0], below.result.value, child.value)), below.built)
  }

  /** Take the entry at `p` away; `None` if there is none. Emptied trees stay. */
  function Remove(f: Forms, s: Texts, base: Hash, p: seq<Name>): Outcome<Option<Hash>>
    requires p != []
    decreases |p|
  {
    var es := Load(f, s, base);
    if es.Err? then Outcome(Err(es.error), s, {})
    else if |p| == 1 then
      if |Without(es.value, p[0])| == |es.value| then Outcome(Ok(None), s, {})
      else Found(Build(f, s, Without(es.value, p[0]), {}))
    else if Below(es.value, p[0]).None? then Outcome(Ok(None), s, {})
    else
      var below := Remove(f, s, Below(es.value, p[0]).value, p[1..]);
      if below.result.Err? || below.result.value.None? then below
      else
        var child := Load(f, below.store, below.result.value.value);
        if child.Err? then Outcome(Err(child.error), below.store, below.built)
        else
          Found(Build(f, below.store,
                      Upsert(es.value, p[0], ChildEntry(p[0], below.result.value.value, child.value)), below.built))
  }

  function Found(o: Outcome<Hash>): Outcome<Option<Hash>> {
    Outcome(if o.result.Err? then Err(o.result.error) else Ok(Some(o.result.value)), o.store, o.built)
  }

  // ----- what the laws ask for ----------------------------------------------

  predicate ValidPath(p: seq<Name>) { p != [] && forall n :: n in p ==> ValidName(n) }

  /** Neither path leads through the other. */
  predicate Unrelated(p: seq<Name>, q: seq<Name>) {
    !StartsWith(p, q) && !StartsWith(q, p)
  }

  /** Stored texts hash to their keys, and the digest tells apart all texts involved. */
  ghost predicate Sane(f: Forms, s: Texts, built: set<Bytes>) {
    Faithful(f) && Genuine(f, s) && Apart(f, s.Values + built)
  }

  ghost predicate Absent(h: Option<Hash>, s: Texts) { h.Some? ==> h.value !in s }

  /** In a store that grew, a walk ends as before, in an error too, unless the tree it lacked has come. */
  lemma {:induction false} NavigateGrows(f: Forms, s: Texts, s': Texts, root: Hash, q: seq<Name>)
    requires Grows(s, s') && Absent(Lacked(f, s, root, q), s')
    ensures Navigate(f, s', root, q) == Navigate(f, s, root, q) && Lacked(f, s', root, q) == Lacked(f, s, root, q)
    decreases |q|
  {
    if q != [] && root in s {
      LoadGrows(f, s, s', root);
      if Load(f, s, root).Ok? {
        var e := Find(Load(f, s, root).value, q[0]);
        if e.Some? && |q| > 1 && HashOf(e.value).Some? { NavigateGrows(f, s, s', HashOf(e.value).value, q[1..]); }
      }
    }
  }

  /** Only a walk that finds nothing to read lacks a tree. */
  lemma {:induction false} LackedIsNotFound(f: Forms, s: Texts, root: Hash, q: seq<Name>)
    ensures Lacked(f, s, root, q).Some? <==> Navigate(f, s, root, q) == Err(NotFound)
    ensures Absent(Lacked(f, s, root, q), s)
    decreases |q|
  {
    if q != [] && Load(f, s, root).Ok? {
      var e := Find(Load(f, s, root).value, q[0]);
      if e.Some? && |q| > 1 && HashOf(e.value).Some? { LackedIsNotFound(f, s, HashOf(e.value).value, q[1..]); }
    }
  }

  lemma {:induction false} ApartSubset(f: Forms, xs: set<Bytes>, ys: set<Bytes>)
    requires Apart(f, ys) && xs <= ys
    ensures Apart(f, xs)
  {
  }

  lemma {:induction false} Smaller(f: Forms, s: Texts, b: set<Bytes>, s': Texts, b': set<Bytes>)
    requires Sane(f, s, b) && Genuine(f, s') && s'.Values + b' <= s.Values + b
    ensures Sane(f, s', b')
  {
    ApartSubset(f, s'.Values + b', s.Values + b);
  }

  /** A build on top of a recursive result. */
  lemma {:induction false} BuildStep(f: Forms, s: Texts, mid: Texts, es: Entries, built: set<Bytes>)
    requires var o := Build(f, mid, es, built); Sane(f, s, o.built)
    requires Genuine(f, mid) && Grows(s, mid) && mid.Values <= s.Values + built
    ensures var o := Build(f, mid, es, built);
            && LoadTrusting(f, o.store, o.result.value) == Ok(SortByName(es))
            && Load(f, o.store, o.result.value) == (if ValidNames(es) then Ok(SortByName(es)) else Err(InvalidObject))
            && Genuine(f, o.store) && Grows(mid, o.store) && Grows(s, o.store) && o.store.Values <= s.Values + o.built
  {
    var t := TextOf(f, es);
    ApartSubset(f, mid.Values + {t}, s.Values + Build(f, mid, es, built).built);
    BuildLoads(f, mid, es);
  }

  lemma {:induction false} LoadedValid(f: Forms, s: Texts, base: Option<Hash>)
    ensures LoadBase(f, s, base).Ok? ==> ValidNames(LoadBase(f, s, base).value)
  {
  }

  lemma {:induction false} UpsertValid(es: Entries, n: Name, e: TreeEntry)
    requires ValidNames(es) && e.name == n
    ensures ValidNames(Upsert(es, n, e)) <==> ValidName(n)
  {
    FindUpsert(es, n, e, n);
    FindHolds(Upsert(es, n, e), n);
  }

  lemma {:induction false} WithoutValid(es: Entries, n: Name)
    requires ValidNames(es)
    ensures ValidNames(Without(es, n))
  {
    FindWithout(es, n, n);
  }

  // ----- one level of an edit -----------------------------------------------

  /** The list the top level of a successful splice builds. */
  ghost function SplicedList(f: Forms, s: Texts, base: Option<Hash>, p: seq<Name>, e: TreeEntry): Entries
    requires p != [] && Splice(f, s, base, p, e).result.Ok?
  {
    var es := LoadBase(f, s, base).value;
    if |p| == 1 then Upsert(es, p[0], e)
    else
      var below := Splice(f, s, Below(es, p[0]), p[1..], e);
      Upsert(es, p[0], ChildEntry(p[0], below.result.value, Load(f, below.store, below.result.value).value))
  }

  /** The store a splice leaves has grown; its result reads as the list it built if the first name is valid. */
  lemma {:induction false} SpliceBuilds(f: Forms, s: Texts, base: Option<Hash>, p: seq<Name>, e: TreeEntry)
    requires p != [] && e.name == p[|p| - 1] && Sane(f, s, Splice(f, s, base, p, e).built)
    ensures var o := Splice(f, s, base, p, e);
            && Genuine(f, o.store) && Grows(s, o.store) && o.store.Values <= s.Values + o.built
            && (o.result.Ok? ==>
                  Load(f, o.store, o.result.value) ==
                  (if ValidName(p[0]) then Ok(SortByName(SplicedList(f, s, base, p, e))) else Err(InvalidObject)))
    decreases |p|
  {
    var es := LoadBase(f, s, base);
    if es.Ok? {
      LoadedValid(f, s, base);
      if |p| == 1 {
        UpsertValid(es.value, p[0], e);
        BuildStep(f, s, s, Upsert(es.value, p[0], e), {});
      } else {
        var below := Splice(f, s, Below(es.value, p[0]), p[1..], e);
        BuiltBelow(f, s, base, p, e);
        Smaller(f, s, Splice(f, s, base, p, e).built, s, below.built);
        SpliceBuilds(f, s, Below(es.value, p[0]), p[1..], e);
        if below.result.Ok? && ValidName(p[1]) {
          var c := ChildEntry(p[0], below.result.value, Load(f, below.store, below.result.value).value);
          UpsertValid(es.value, p[0], c);
          BuildStep(f, s, below.store, Upsert(es.value, p[0], c), below.built);
        }
      }
    }
  }

  /** The child level of a splice, ready for the induction. */
  lemma {:induction false} SpliceBelow(f: Forms, s: Texts, base: Option<Hash>, p: seq<Name>, e: TreeEntry)
    requires |p| > 1 && e.name == p[|p| - 1] && Sane(f, s, Splice(f, s, base, p, e).built)
    requires LoadBase(f, s, base).Ok?
    ensures var below := Splice(f, s, Below(LoadBase(f, s, base).value, p[0]), p[1..], e);
            && e.name == p[1..][|p[1..]| - 1] && Sane(f, s, below.built)
            && Grows(s, below.store) && Genuine(f, below.store) && below.store.Values <= s.Values + below.built
            && (below.result.Ok? ==> (Load(f, below.store, below.result.value).Ok? <==> ValidName(p[1])))
            && (below.result.Ok? && !ValidName(p[1]) ==> Splice(f, s, base, p, e).result == Err(InvalidObject))
  {
    var below := Splice(f, s, Below(LoadBase(f, s, base).value, p[0]), p[1..], e);
    BuiltBelow(f, s, base, p, e);
    Smaller(f, s, Splice(f, s, base, p, e).built, s, below.built);
    SpliceBuilds(f, s, Below(LoadBase(f, s, base).value, p[0]), p[1..], e);
  }

  lemma {:induction false} BuiltBelow(f: Forms, s: Texts, base: Option<Hash>, p: seq<Name>, e: TreeEntry)
    requires |p| > 1 && LoadBase(f, s, base).Ok?
    ensures var below := Splice(f, s, Below(LoadBase(f, s, base).value, p[0]), p[1..], e);
            && below.built <= Splice(f, s, base, p, e).built
            && Grows(below.store, Splice(f, s, base, p, e).store)
            && (below.result.Ok? && Load(f, below.store, below.result.value).Ok? ==>
              Splice(f, s, base, p, e).result.Ok?)
            && (below.result.Err? ==> Splice(f, s, base, p, e) == below)
            && (Splice(f, s, base, p, e).result.Ok? ==>
              below.result.Ok? && Load(f, below.store, below.result.value).Ok?)
  {
  }

  lemma {:induction false} SplicedFind(f: Forms, s: Texts, base: Option<Hash>, p: seq<Name>, e: TreeEntry, n: Name)
    requires p != [] && e.name == p[|p| - 1] && Splice(f, s, base, p, e).result.Ok?
    ensures var found := Find(SortByName(SplicedList(f, s, base, p, e)), n);
            var es := LoadBase(f, s, base).value;
            if n != p[0] then found == Find(es, n)
            else if |p| == 1 then found == Some(e)
            else found.Some? && found.value.Tree? &&
                 HashOf(found.value) == Some(Splice(f, s, Below(es, p[0]), p[1..], e).result.value)
  {
    var es := LoadBase(f, s, base).value;
    FindSorted(SplicedList(f, s, base, p, e), n);
    if |p| == 1 {
      FindUpsert(es, p[0], e, n);
    } else {
      var below := Splice(f, s, Below(es, p[0]), p[1..], e);
      FindUpsert(es, p[0], ChildEntry(p[0], below.result.value, Load(f, below.store, below.result.value).value), n);
    }
  }

  // ----- splice laws --------------------------------------------------------

  /** What was spliced in is found, unless its path starts with a name no tree can be read with. */
  lemma {:induction false} SpliceThenNavigate(f: Forms, s: Texts, base: Option<Hash>, p: seq<Name>, e: TreeEntry)
    requires p != [] && e.name == p[|p| - 1] && Sane(f, s, Splice(f, s, base, p, e).built)
    requires Splice(f, s, base, p, e).result.Ok?
    ensures var o := Splice(f, s, base, p, e);
            Navigate(f, o.store, o.result.value, p) == if ValidName(p[0]) then Ok(Some(e)) else Err(InvalidObject)
    decreases |p|
  {
    var o := Splice(f, s, base, p, e);
    SpliceBuilds(f, s, base, p, e);
    SplicedFind(f, s, base, p, e, p[0]);
    if |p| > 1 {
      var es := LoadBase(f, s, base).value;
      var below := Splice(f, s, Below(es, p[0]), p[1..], e);
      SpliceBelow(f, s, base, p, e);
      BuiltBelow(f, s, base, p, e);
      SpliceThenNavigate(f, s, Below(es, p[0]), p[1..], e);
      LackedIsNotFound(f, below.store, below.result.value, p[1..]);
      NavigateGrows(f, below.store, o.store, below.result.value, p[1..]);
    }
  }

  /** What a path without a tree to start from leads to: nothing. */
  ghost function NavigateFrom(f: Forms, s: Texts, base: Option<Hash>, q: seq<Name>): Result<Option<TreeEntry>> {
    if base.None? then Ok(None) else Navigate(f, s, base.value, q)
  }

  ghost function LackedFrom(f: Forms, s: Texts, base: Option<Hash>, q: seq<Name>): Option<Hash> {
    if base.None? then None else Lacked(f, s, base.value, q)
  }

  /** Two walks that end the same way and for the same reason. */
  ghost predicate SameWalk(f: Forms, s': Texts, root: Hash, s: Texts, base: Option<Hash>, q: seq<Name>) {
    Navigate(f, s', root, q) == NavigateFrom(f, s, base, q) && Lacked(f, s', root, q) == LackedFrom(f, s, base, q)
  }

  lemma {:induction false} UnrelatedTail(p: seq<Name>, q: seq<Name>)
    requires p != [] && q != [] && Unrelated(p, q) && p[0] == q[0]
    ensures |p| > 1 && |q| > 1 && Unrelated(p[1..], q[1..])
  {
    assert q[1..][..0] == [] && p[1..][..0] == [];
    StartsTail(p, q);
    StartsTail(q, p);
  }

  lemma {:induction false} StartsTail(p: seq<Name>, q: seq<Name>)
    requires p != [] && q != [] && p[0] == q[0]
    ensures StartsWith(p, q) <==> StartsWith(p[1..], q[1..])
  {
    assert |q| <= |p| ==> p[..|q|] == [p[0]] + p[1..][..|q| - 1];
    assert q == [q[0]] + q[1..];
  }

  lemma {:induction false} NavigateStep(f: Forms, s: Texts, base: Option<Hash>, q: seq<Name>)
    requires |q| > 1 && LoadBase(f, s, base).Ok?
    ensures var below := Below(LoadBase(f, s, base).value, q[0]);
            && NavigateFrom(f, s, base, q) == NavigateFrom(f, s, below, q[1..])
            && LackedFrom(f, s, base, q) == LackedFrom(f, s, below, q[1..])
  {
  }

  /**
   Every path unrelated to the splice ends as before, in an error too, unless a tree it
   lacked has been built meanwhile.
   */
  lemma {:induction false} SpliceKeepsOthers(f: Forms, s: Texts, base: Option<Hash>, p: seq<Name>, e: TreeEntry,
      q: seq<Name>)
    requires p != [] && e.name == p[|p| - 1] && Sane(f, s, Splice(f, s, base, p, e).built) && ValidName(p[0])
    requires Splice(f, s, base, p, e).result.Ok? && Unrelated(p, q)
    requires Absent(LackedFrom(f, s, base, q), Splice(f, s, base, p, e).store)
    ensures var o := Splice(f, s, base, p, e); SameWalk(f, o.store, o.result.value, s, base, q)
    decreases |p|
  {
    var o := Splice(f, s, base, p, e);
    var es := LoadBase(f, s, base).value;
    assert q != [] by { assert p[..0] == []; }
    SpliceBuilds(f, s, base, p, e);
    SplicedFind(f, s, base, p, e, q[0]);
    if q[0] == p[0] {
      UnrelatedTail(p, q);
      var below := Splice(f, s, Below(es, p[0]), p[1..], e);
      SpliceBelow(f, s, base, p, e);
      BuiltBelow(f, s, base, p, e);
      NavigateStep(f, s, base, q);
      SpliceKeepsOthers(f, s, Below(es, p[0]), p[1..], e, q[1..]);
      NavigateGrows(f, below.store, o.store, below.result.value, q[1..]);
      NavigateStep(f, o.store, Some(o.result.value), q);
    } else {
      OtherBranch(f, s, o.store, base, o.result.value, q);
    }
  }

  /** Two trees with the same entry of a name lead to the same places through it. */
  lemma {:induction false} OtherBranch(f: Forms, s: Texts, s': Texts, base: Option<Hash>, root: Hash, q: seq<Name>)
    requires q != [] && Grows(s, s') && LoadBase(f, s, base).Ok? && Load(f, s', root).Ok?
    requires Absent(LackedFrom(f, s, base, q), s')
    requires Find(Load(f, s', root).value, q[0]) == Find(LoadBase(f, s, base).value, q[0])
    ensures SameWalk(f, s', root, s, base, q)
  {
    var e := Find(LoadBase(f, s, base).value, q[0]);
    if e.Some? && |q| > 1 && HashOf(e.value).Some? { NavigateGrows(f, s, s', HashOf(e.value).value, q[1..]); }
  }

  /** Whatever a splice adds to the store is one of the texts it built. */
  lemma {:induction false} SpliceStores(f: Forms, s: Texts, base: Option<Hash>, p: seq<Name>, e: TreeEntry, h: Hash)
    requires p != [] && h in Splice(f, s, base, p, e).store && h !in s
    ensures exists t :: t in Splice(f, s, base, p, e).built && f.sha(t) == h
    decreases |p|
  {
    var es := LoadBase(f, s, base);
    if es.Ok? && |p| > 1 {
      var below := Splice(f, s, Below(es.value, p[0]), p[1..], e);
      if h in below.store {
        SpliceStores(f, s, Below(es.value, p[0]), p[1..], e, h);
        BuiltBelow(f, s, base, p, e);
      } else {
        var c := ChildEntry(p[0], below.result.value, Load(f, below.store, below.result.value).value);
        assert TextOf(f, Upsert(es.value, p[0], c)) in Splice(f, s, base, p, e).built;
      }
    } else if es.Ok? {
      assert TextOf(f, Upsert(es.value, p[0], e)) in Splice(f, s, base, p, e).built;
    }
  }

  /** All names behind the first are valid. */
  predicate ValidTail(p: seq<Name>) { forall i :: 1 <= i < |p| ==> ValidName(p[i]) }

  /**
   A splice succeeds exactly when every tree it has to go through can be read, and every
   name that a rebuilt parent has to read back is valid.
   */
  lemma {:induction false} SpliceSucceedsExactly(f: Forms, s: Texts, base: Option<Hash>, p: seq<Name>, e: TreeEntry)
    requires p != [] && e.name == p[|p| - 1] && Sane(f, s, Splice(f, s, base, p, e).built)
    ensures Splice(f, s, base, p, e).result.Ok? <==> NavigateFrom(f, s, base, p).Ok? && ValidTail(p)
    ensures NavigateFrom(f, s, base, p).Ok? && !ValidTail(p) ==> Splice(f, s, base, p, e).result == Err(InvalidObject)
    decreases |p|
  {
    var es := LoadBase(f, s, base);
    if es.Ok? && |p| > 1 {
      SpliceBelow(f, s, base, p, e);
      BuiltBelow(f, s, base, p, e);
      NavigateStep(f, s, base, p);
      SpliceSucceedsExactly(f, s, Below(es.value, p[0]), p[1..], e);
      TailStep(p);
    }
  }

  lemma {:induction false} TailStep(p: seq<Name>)
    requires |p| > 1
    ensures ValidTail(p) <==> ValidName(p[1]) && ValidTail(p[1..])
  {
    assert forall i :: 1 <= i < |p| - 1 ==> p[1..][i] == p[i + 1];
    assert forall i :: 2 <= i < |p| ==> p[i] == p[1..][i - 1];
  }
}
