/**
 Flattening a tree into a map from paths to leaf entries (src/tree_ops.rs): the full walk,
 the walk limited to one path, and the walk that stops where a tree is not held locally.
 */
module TreeFlatten {
  import opened Base
  import opened ObjectCodec
  import opened Trees
  import opened TreeEdit
  import opened TreeLaws
  import CacheSpec

  type Flat = map<Path, TreeEntry>

  function JoinPath(prefix: Path, n: Name): Path {
    if prefix == [] then n else prefix + [SLASH] + n
  }

  function JoinAll(prefix: Path, p: seq<Name>): Path
    decreases |p|
  {
    if p == [] then prefix else JoinAll(JoinPath(prefix, p[0]), p[1..])
  }

  /** Trees do not contain themselves: a parent's hash is computed from its children's. */
  ghost predicate Ranked(f: Forms, s: Texts, rank: Hash -> nat) {
    forall h, e :: Load(f, s, h).Ok? && e in Load(f, s, h).value && e.Tree? ==> rank(e.hash) < rank(h)
  }

  ghost predicate Under(es: Entries, rank: Hash -> nat, bound: nat) {
    forall e :: e in es && e.Tree? ==> rank(e.hash) < bound
  }

  /** The leaves below a tree; a `local` walk skips trees whose object is absent. */
  ghost function Flatten(f: Forms, s: Texts, rank: Hash -> nat, h: Hash, prefix: Path, local: bool): Result<Flat>
    requires Ranked(f, s, rank)
    decreases rank(h), 1, 0
  {
    var es := Load(f, s, h);
    if es.Err? then Err(es.error) else FlattenList(f, s, rank, rank(h), es.value, prefix, local)
  }

  ghost function FlattenList(f: Forms, s: Texts, rank: Hash -> nat, bound: nat, es: Entries, prefix: Path,
      local: bool): Result<Flat>
    requires Ranked(f, s, rank) && Under(es, rank, bound)
    decreases bound, 0, |es|
  {
    if es == [] then Ok(map[])
    else
      var front := FlattenList(f, s, rank, bound, es[..|es| - 1], prefix, local);
      if front.Err? then front
      else
        var last := FlattenEntry(f, s, rank, bound, es[|es| - 1], prefix, local);
        if last.Err? then last else Ok(front.value + last.value)
  }

  ghost function FlattenEntry(f: Forms, s: Texts, rank: Hash -> nat, bound: nat, e: TreeEntry, prefix: Path,
      local: bool): Result<Flat>
    requires Ranked(f, s, rank) && (e.Tree? ==> rank(e.hash) < bound)
    decreases bound, 0, 0
  {
    if !e.Tree? then Ok(map[JoinPath(prefix, e.name) := e])
    else if local && e.hash !in s then Ok(map[])
    else Flatten(f, s, rank, e.hash, JoinPath(prefix, e.name), local)
  }

  /** The walk limited to one path: go there, then flatten what is found. */
  ghost function Scoped(f: Forms, s: Texts, rank: Hash -> nat, h: Hash, prefix: Path, p: seq<Name>): Result<Flat>
    requires Ranked(f, s, rank)
  {
    var e := Navigate(f, s, h, p);
    if e.Err? then Err(e.error)
    else if e.value.None? then Ok(map[])
    else if e.value.value.Tree? then Flatten(f, s, rank, e.value.value.hash, JoinAll(prefix, p), false)
    else Ok(map[JoinAll(prefix, p) := e.value.value])
  }

  // ----- paths and scopes ---------------------------------------------------

  ghost predicate Plain(n: Name) { n != [] && SLASH !in n }

  lemma {:induction false} JoinInScope(prefix: Path, n: Name, k: Path)
    requires prefix != [] && CacheSpec.PathInScope(k, JoinPath(prefix, n))
    ensures CacheSpec.PathInScope(k, prefix) && |prefix| < |k|
  {
    var a := JoinPath(prefix, n);
    assert k[..|a|] == a;
    assert k[..|prefix|] == a[..|prefix|] == prefix && k[|prefix|] == a[|prefix|] == SLASH;
  }

  function NextSlash(k: Path, i: nat): nat
    decreases |k| - i
  {
    if i >= |k| || k[i] == SLASH then i else NextSlash(k, i + 1)
  }

  lemma {:induction false} NextSlashIs(k: Path, i: nat, e: nat)
    requires i <= e <= |k| && (e == |k| || k[e] == SLASH) && forall j :: i <= j < e ==> k[j] != SLASH
    ensures NextSlash(k, i) == e
    decreases e - i
  {
    if i < e { NextSlashIs(k, i + 1, e); }
  }

  function NameStart(prefix: Path): nat { if prefix == [] then 0 else |prefix| + 1 }

  /** A path in the scope of a name has that name between two slashes. */
  lemma {:induction false} NameInPath(prefix: Path, n: Name, k: Path)
    requires Plain(n) && CacheSpec.PathInScope(k, JoinPath(prefix, n))
    ensures NameStart(prefix) <= NextSlash(k, NameStart(prefix)) <= |k|
    ensures n == k[NameStart(prefix)..NextSlash(k, NameStart(prefix))]
  {
    var a, l := JoinPath(prefix, n), NameStart(prefix);
    assert k[..|a|] == a && a[l..] == n;
    assert k[l..l + |n|] == k[..|a|][l..];
    forall j | l <= j < |a|
      ensures k[j] != SLASH
    {
      assert k[j] == n[j - l];
    }
    NextSlashIs(k, l, |a|);
  }

  /** Names beside each other have disjoint scopes. */
  lemma {:induction false} ScopesDisjoint(prefix: Path, n: Name, m: Name, k: Path)
    requires Plain(n) && Plain(m) && CacheSpec.PathInScope(k, JoinPath(prefix, n))
    requires CacheSpec.PathInScope(k, JoinPath(prefix, m))
    ensures n == m
  {
    NameInPath(prefix, n, k);
    NameInPath(prefix, m, k);
  }

  lemma {:induction false} JoinAllInScope(prefix: Path, p: seq<Name>, k: Path)
    requires p != [] && (forall n :: n in p ==> n != []) && CacheSpec.PathInScope(k, JoinAll(prefix, p))
    ensures CacheSpec.PathInScope(k, JoinPath(prefix, p[0])) && (|p| > 1 ==> |JoinPath(prefix, p[0])| < |k|)
    decreases |p|
  {
    var j := JoinPath(prefix, p[0]);
    assert JoinAll(prefix, p) == JoinAll(j, p[1..]);
    if |p| > 1 {
      assert p[0] in p && forall n :: n in p[1..] ==> n in p;
      JoinAllInScope(j, p[1..], k);
      JoinInScope(j, p[1], k);
    } else {
      assert JoinAll(j, []) == j && p[1..] == [];
    }
  }

  ghost function Restrict(m: Flat, scope: Path): Flat { map k | k in m && CacheSpec.PathInScope(k, scope) :: m[k] }

  // ----- which entry a key comes from ---------------------------------------

  lemma {:induction false} LoadedUnder(f: Forms, s: Texts, rank: Hash -> nat, h: Hash)
    requires Ranked(f, s, rank) && Load(f, s, h).Ok?
    ensures Under(Load(f, s, h).value, rank, rank(h)) && forall e :: e in Load(f, s, h).value ==> Plain(e.name)
  {
  }

  lemma {:induction false} EntryKeys(f: Forms, s: Texts, rank: Hash -> nat, bound: nat, e: TreeEntry, prefix: Path,
      local: bool, k: Path)
    requires Ranked(f, s, rank) && (e.Tree? ==> rank(e.hash) < bound) && Plain(e.name)
    requires var r := FlattenEntry(f, s, rank, bound, e, prefix, local); r.Ok? && k in r.value
    ensures CacheSpec.PathInScope(k, JoinPath(prefix, e.name))
    decreases bound, 0, 0
  {
    if e.Tree? {
      LoadedUnder(f, s, rank, e.hash);
      ListKeys(f, s, rank, rank(e.hash), Load(f, s, e.hash).value, JoinPath(prefix, e.name), local, k);
    }
  }

  lemma {:induction false} ListKeys(f: Forms, s: Texts, rank: Hash -> nat, bound: nat, es: Entries, prefix: Path,
      local: bool, k: Path)
    requires Ranked(f, s, rank) && Under(es, rank, bound) && (forall e :: e in es ==> Plain(e.name)) && prefix != []
    requires var r := FlattenList(f, s, rank, bound, es, prefix, local); r.Ok? && k in r.value
    ensures CacheSpec.PathInScope(k, prefix)
    decreases bound, 0, |es|
  {
    var last := es[|es| - 1];
    var r := FlattenEntry(f, s, rank, bound, last, prefix, local);
    if k in r.value {
      EntryKeys(f, s, rank, bound, last, prefix, local, k);
      JoinInScope(prefix, last.name, k);
    } else {
      ListKeys(f, s, rank, bound, es[..|es| - 1], prefix, local, k);
    }
  }

  /** No entry of the list has the name: nothing in the name's scope. */
  lemma {:induction false} ListMisses(f: Forms, s: Texts, rank: Hash -> nat, bound: nat, es: Entries, prefix: Path,
      local: bool, n: Name, k: Path)
    requires Ranked(f, s, rank) && Under(es, rank, bound) && (forall e :: e in es ==> Plain(e.name) && e.name != n)
    requires Plain(n)
    requires FlattenList(f, s, rank, bound, es, prefix, local).Ok? && CacheSpec.PathInScope(k, JoinPath(prefix, n))
    ensures k !in FlattenList(f, s, rank, bound, es, prefix, local).value
    decreases |es|
  {
    if es != [] {
      var last := es[|es| - 1];
      ListMisses(f, s, rank, bound, es[..|es| - 1], prefix, local, n, k);
      EntryMisses(f, s, rank, bound, last, prefix, local, n, k);
    }
  }

  ghost predicate Distinct(es: Entries) {
    && (forall i, j :: 0 <= i < j < |es| ==> es[i].name != es[j].name)
    && forall e :: e in es ==> Plain(e.name)
  }

  lemma {:induction false} FrontDistinct(es: Entries, rank: Hash -> nat, bound: nat)
    requires es != [] && Distinct(es) && Under(es, rank, bound)
    ensures Distinct(es[..|es| - 1]) && Under(es[..|es| - 1], rank, bound)
    ensures forall i :: 0 <= i < |es| - 1 ==> es[..|es| - 1][i] == es[i] && es[i].name != es[|es| - 1].name
  {
  }

  /** In the scope of one of its names, a list holds exactly what that entry contributes. */
  lemma {:induction false} ListRestricts(f: Forms, s: Texts, rank: Hash -> nat, bound: nat, es: Entries, prefix: Path,
      local: bool, i: nat, k: Path)
    requires Ranked(f, s, rank) && Under(es, rank, bound) && Distinct(es) && i < |es|
    requires FlattenList(f, s, rank, bound, es, prefix, local).Ok?
    requires CacheSpec.PathInScope(k, JoinPath(prefix, es[i].name))
    ensures var r := FlattenEntry(f, s, rank, bound, es[i], prefix, local);
            var m := FlattenList(f, s, rank, bound, es, prefix, local).value;
            r.Ok? && (k in m <==> k in r.value) && (k in m ==> m[k] == r.value[k])
    decreases |es|
  {
    var n := |es| - 1;
    if i == n {
      ListMisses(f, s, rank, bound, es[..n], prefix, local, es[n].name, k);
    } else {
      FrontDistinct(es, rank, bound);
      ListRestricts(f, s, rank, bound, es[..n], prefix, local, i, k);
      EntryMisses(f, s, rank, bound, es[n], prefix, local, es[i].name, k);
    }
  }

  lemma {:induction false} EntryMisses(f: Forms, s: Texts, rank: Hash -> nat, bound: nat, e: TreeEntry, prefix: Path,
      local: bool, n: Name, k: Path)
    requires Ranked(f, s, rank) && (e.Tree? ==> rank(e.hash) < bound) && Plain(e.name) && Plain(n) && e.name != n
    requires FlattenEntry(f, s, rank, bound, e, prefix, local).Ok? && CacheSpec.PathInScope(k, JoinPath(prefix, n))
    ensures k !in FlattenEntry(f, s, rank, bound, e, prefix, local).value
  {
    if k in FlattenEntry(f, s, rank, bound, e, prefix, local).value {
      EntryKeys(f, s, rank, bound, e, prefix, local, k);
      ScopesDisjoint(prefix, n, e.name, k);
    }
  }

  lemma {:induction false} UniqueDistinct(es: Entries, i: nat, j: nat)
    requires Unique(es) && i < j < |es|
    ensures es[i].name != es[j].name
  {
    if i > 0 { UniqueDistinct(es[1..], i - 1, j - 1); } else { assert es[j] == es[1..][j - 1]; }
  }

  lemma {:induction false} LoadedDistinct(f: Forms, s: Texts, h: Hash)
    requires Tidy(f, s) && Load(f, s, h).Ok?
    ensures Distinct(Load(f, s, h).value)
  {
    var es := Load(f, s, h).value;
    SortedUnique(es);
    forall i, j | 0 <= i < j < |es|
      ensures es[i].name != es[j].name
    {
      UniqueDistinct(es, i, j);
    }
  }

  /** In the scope of a name, a flattened tree holds what the entry of that name contributes. */
  lemma {:induction false} NameRestricts(f: Forms, s: Texts, rank: Hash -> nat, h: Hash, prefix: Path, n: Name, k: Path)
    requires Ranked(f, s, rank) && Tidy(f, s) && Plain(n) && Flatten(f, s, rank, h, prefix, false).Ok?
    requires CacheSpec.PathInScope(k, JoinPath(prefix, n))
    ensures var m := Flatten(f, s, rank, h, prefix, false).value;
            var e := Find(Load(f, s, h).value, n);
            if e.None? then k !in m
            else
              && e.value.name == n && (e.value.Tree? ==> rank(e.value.hash) < rank(h))
              && var r := FlattenEntry(f, s, rank, rank(h), e.value, prefix, false);
                 r.Ok? && (k in m <==> k in r.value) && (k in m ==> m[k] == r.value[k])
  {
    var es := Load(f, s, h).value;
    LoadedUnder(f, s, rank, h);
    LoadedDistinct(f, s, h);
    FindHolds(es, n);
    var e := Find(es, n);
    if e.None? {
      ListMisses(f, s, rank, rank(h), es, prefix, false, n, k);
    } else {
      var i :| 0 <= i < |es| && es[i] == e.value;
      ListRestricts(f, s, rank, rank(h), es, prefix, false, i, k);
    }
  }

  // ----- the scoped walk ----------------------------------------------------

  /** No name before the last leads to a blob. */
  ghost predicate ClearWay(f: Forms, s: Texts, h: Hash, p: seq<Name>)
    decreases |p|
  {
    |p| > 1 && Load(f, s, h).Ok? && Find(Load(f, s, h).value, p[0]).Some? ==>
      var e := Find(Load(f, s, h).value, p[0]).value;
      !e.Blob? && (e.Tree? ==> ClearWay(f, s, e.hash, p[1..]))
  }

  /** The same answer for one key: in the scoped walk and in the full one. */
  ghost predicate SameAt(a: Flat, b: Flat, k: Path) { (k in a <==> k in b) && (k in a ==> a[k] == b[k]) }

  /** Through a tree, the scoped walk goes on below it. */
  lemma {:induction false} ScopedStep(f: Forms, s: Texts, rank: Hash -> nat, h: Hash, prefix: Path, p: seq<Name>)
    requires Ranked(f, s, rank) && |p| > 1 && Load(f, s, h).Ok?
    ensures var e := Find(Load(f, s, h).value, p[0]);
            if e.None? || e.value.Symlink? then Scoped(f, s, rank, h, prefix, p) == Ok(map[])
            else Scoped(f, s, rank, h, prefix, p) == Scoped(f, s, rank, e.value.hash, JoinPath(prefix, p[0]), p[1..])
  {
    assert JoinAll(prefix, p) == JoinAll(JoinPath(prefix, p[0]), p[1..]);
  }

  lemma {:induction false} ScopedOne(f: Forms, s: Texts, rank: Hash -> nat, h: Hash, prefix: Path, n: Name)
    requires Ranked(f, s, rank) && Load(f, s, h).Ok?
    ensures var e := Find(Load(f, s, h).value, n);
            && (e.Some? && e.value.Tree? ==> rank(e.value.hash) < rank(h))
            && (e.Some? ==> e.value.name == n)
            && Scoped(f, s, rank, h, prefix, [n]) ==
               if e.None? then Ok(map[]) else FlattenEntry(f, s, rank, rank(h), e.value, prefix, false)
  {
    FindHolds(Load(f, s, h).value, n);
    assert JoinAll(prefix, [n]) == JoinAll(JoinPath(prefix, n), [n][1..]) == JoinPath(prefix, n);
  }

  lemma {:induction false} ScopedAgrees(f: Forms, s: Texts, rank: Hash -> nat, h: Hash, prefix: Path, p: seq<Name>,
      k: Path)
    requires Ranked(f, s, rank) && Tidy(f, s) && ValidPath(p) && ClearWay(f, s, h, p)
    requires Flatten(f, s, rank, h, prefix, false).Ok? && CacheSpec.PathInScope(k, JoinAll(prefix, p))
    ensures Scoped(f, s, rank, h, prefix, p).Ok?
    ensures SameAt(Scoped(f, s, rank, h, prefix, p).value, Flatten(f, s, rank, h, prefix, false).value, k)
    decreases |p|
  {
    assert p[0] in p && forall n :: n in p[1..] ==> n in p;
    JoinAllInScope(prefix, p, k);
    NameRestricts(f, s, rank, h, prefix, p[0], k);
    if |p| == 1 {
      assert p == [p[0]];
      ScopedOne(f, s, rank, h, prefix, p[0]);
    } else {
      ScopedStep(f, s, rank, h, prefix, p);
      var e := Find(Load(f, s, h).value, p[0]);
      if e.Some? && e.value.Tree? {
        assert JoinAll(prefix, p) == JoinAll(JoinPath(prefix, p[0]), p[1..]);
        ScopedAgrees(f, s, rank, e.value.hash, JoinPath(prefix, p[0]), p[1..], k);
      }
    }
  }

  /** The scoped walk holds nothing outside its scope. */
  lemma {:induction false} ScopedInside(f: Forms, s: Texts, rank: Hash -> nat, h: Hash, prefix: Path, p: seq<Name>,
      k: Path)
    requires Ranked(f, s, rank) && ValidPath(p) && Scoped(f, s, rank, h, prefix, p).Ok?
    requires k in Scoped(f, s, rank, h, prefix, p).value
    ensures CacheSpec.PathInScope(k, JoinAll(prefix, p))
  {
    var e := Navigate(f, s, h, p).value.value;
    if e.Tree? {
      LoadedUnder(f, s, rank, e.hash);
      JoinAllNonEmpty(prefix, p);
      ListKeys(f, s, rank, rank(e.hash), Load(f, s, e.hash).value, JoinAll(prefix, p), false, k);
    }
  }

  lemma {:induction false} JoinAllNonEmpty(prefix: Path, p: seq<Name>)
    requires (prefix != [] || p != []) && forall n :: n in p ==> n != []
    ensures JoinAll(prefix, p) != []
    decreases |p|
  {
    if p != [] {
      assert p[0] in p && forall n :: n in p[1..] ==> n in p;
      JoinAllNonEmpty(JoinPath(prefix, p[0]), p[1..]);
    }
  }

  /** If no proper prefix of the path names a blob, the scoped walk is the full one restricted to the path. */
  lemma {:induction false} ScopedIsRestriction(f: Forms, s: Texts, rank: Hash -> nat, root: Hash, p: seq<Name>)
    requires Ranked(f, s, rank) && Tidy(f, s) && ValidPath(p) && ClearWay(f, s, root, p)
    requires Flatten(f, s, rank, root, [], false).Ok?
    ensures Scoped(f, s, rank, root, [], p) == Ok(Restrict(Flatten(f, s, rank, root, [], false).value, JoinAll([], p)))
  {
    var full := Flatten(f, s, rank, root, [], false).value;
    var rel := JoinAll([], p);
    ScopedAgrees(f, s, rank, root, [], p, rel);
    var scoped := Scoped(f, s, rank, root, [], p).value;
    forall k
      ensures (k in scoped <==> k in Restrict(full, rel)) && (k in scoped ==> scoped[k] == Restrict(full, rel)[k])
    {
      if CacheSpec.PathInScope(k, rel) {
        ScopedAgrees(f, s, rank, root, [], p, k);
      } else if k in scoped {
        ScopedInside(f, s, rank, root, [], p, k);
      }
    }
    assert scoped == Restrict(full, rel);
  }

  /** No blob's hash is that of a readable tree. */
  ghost predicate BlobsAreNoTrees(f: Forms, s: Texts) {
    forall h, e :: Load(f, s, h).Ok? && e in Load(f, s, h).value && e.Blob? ==> Load(f, s, e.hash).Err?
  }

  /** A blob on the way makes the scoped walk fail. */
  lemma {:induction false} BlobOnTheWayFails(f: Forms, s: Texts, root: Hash, p: seq<Name>)
    requires BlobsAreNoTrees(f, s) && ValidPath(p) && !ClearWay(f, s, root, p)
    ensures Navigate(f, s, root, p).Err?
    decreases |p|
  {
    var e := Find(Load(f, s, root).value, p[0]).value;
    FindHolds(Load(f, s, root).value, p[0]);
    if e.Tree? { BlobOnTheWayFails(f, s, e.hash, p[1..]); }
  }

  /** The scoped walk is the restriction exactly when no proper prefix names a blob; otherwise it fails. */
  lemma {:induction false} ScopedExactly(f: Forms, s: Texts, rank: Hash -> nat, root: Hash, p: seq<Name>)
    requires Ranked(f, s, rank) && Tidy(f, s) && ValidPath(p) && BlobsAreNoTrees(f, s)
    requires Flatten(f, s, rank, root, [], false).Ok?
    ensures Scoped(f, s, rank, root, [], p) == Ok(Restrict(Flatten(f, s, rank, root, [], false).value, JoinAll([], p)))
            <==> ClearWay(f, s, root, p)
  {
    if ClearWay(f, s, root, p) {
      ScopedIsRestriction(f, s, rank, root, p);
    } else {
      BlobOnTheWayFails(f, s, root, p);
    }
  }

  /** A flattened tree answers like navigation: the leaf at a path, and nothing for trees and absent paths. */
  lemma {:induction false} FlattenIsNavigation(f: Forms, s: Texts, rank: Hash -> nat, root: Hash, p: seq<Name>)
    requires Ranked(f, s, rank) && Tidy(f, s) && ValidPath(p) && ClearWay(f, s, root, p)
    requires Flatten(f, s, rank, root, [], false).Ok?
    ensures var m := Flatten(f, s, rank, root, [], false).value;
            var e := Navigate(f, s, root, p);
            && e.Ok?
            && (JoinAll([], p) in m <==> e.value.Some? && !e.value.value.Tree?)
            && (JoinAll([], p) in m ==> m[JoinAll([], p)] == e.value.value)
  {
    var rel := JoinAll([], p);
    ScopedAgrees(f, s, rank, root, [], p, rel);
    var e := Navigate(f, s, root, p).value;
    if e.Some? && e.value.Tree? {
      var m := Scoped(f, s, rank, root, [], p).value;
      if rel in m {
        JoinAllNonEmpty([], p);
        LoadedUnder(f, s, rank, e.value.hash);
        StrictlyBelow(f, s, rank, rank(e.value.hash), Load(f, s, e.value.hash).value, rel, rel);
      }
    }
  }

  lemma {:induction false} StrictlyBelow(f: Forms, s: Texts, rank: Hash -> nat, bound: nat, es: Entries, prefix: Path,
      k: Path)
    requires Ranked(f, s, rank) && Under(es, rank, bound) && (forall e :: e in es ==> Plain(e.name)) && prefix != []
    requires var r := FlattenList(f, s, rank, bound, es, prefix, false); r.Ok? && k in r.value
    ensures |prefix| < |k|
    decreases |es|
  {
    var last := es[|es| - 1];
    if k in FlattenEntry(f, s, rank, bound, last, prefix, false).value {
      EntryKeys(f, s, rank, bound, last, prefix, false, k);
      JoinInScope(prefix, last.name, k);
    } else {
      StrictlyBelow(f, s, rank, bound, es[..|es| - 1], prefix, k);
    }
  }

  /** Which entry of a list a key comes from. */
  lemma {:induction false} ListOrigin(f: Forms, s: Texts, rank: Hash -> nat, bound: nat, es: Entries, prefix: Path,
      k: Path) returns (i: nat)
    requires Ranked(f, s, rank) && Under(es, rank, bound)
    requires FlattenList(f, s, rank, bound, es, prefix, false).Ok?
    requires k in FlattenList(f, s, rank, bound, es, prefix, false).value
    ensures i < |es| && FlattenEntry(f, s, rank, bound, es[i], prefix, false).Ok?
    ensures k in FlattenEntry(f, s, rank, bound, es[i], prefix, false).value
    ensures FlattenEntry(f, s, rank, bound, es[i], prefix, false).value[k] ==
            FlattenList(f, s, rank, bound, es, prefix, false).value[k]
    decreases |es|
  {
    i := |es| - 1;
    if k !in FlattenEntry(f, s, rank, bound, es[i], prefix, false).value {
      i := ListOrigin(f, s, rank, bound, es[..|es| - 1], prefix, k);
    }
  }

  lemma {:induction false} FindAt(es: Entries, i: nat)
    requires i < |es| && forall j, k :: 0 <= j < k < |es| ==> es[j].name != es[k].name
    ensures Find(es, es[i].name) == Some(es[i])
    decreases |es|
  {
    if i > 0 { FindAt(es[1..], i - 1); }
  }

  /** Every key of a flattened map is the path of a leaf that navigation finds there. */
  lemma {:induction false} KeyIsPath(f: Forms, s: Texts, rank: Hash -> nat, h: Hash, prefix: Path, k: Path)
    returns (p: seq<Name>)
    requires Ranked(f, s, rank) && Tidy(f, s)
    requires Flatten(f, s, rank, h, prefix, false).Ok? && k in Flatten(f, s, rank, h, prefix, false).value
    ensures ValidPath(p) && k == JoinAll(prefix, p) && ClearWay(f, s, h, p)
    ensures Navigate(f, s, h, p) == Ok(Some(Flatten(f, s, rank, h, prefix, false).value[k]))
    ensures !Flatten(f, s, rank, h, prefix, false).value[k].Tree?
    decreases rank(h)
  {
    var es := Load(f, s, h).value;
    LoadedUnder(f, s, rank, h);
    LoadedDistinct(f, s, h);
    var i := ListOrigin(f, s, rank, rank(h), es, prefix, k);
    var e := es[i];
    FindAt(es, i);
    if e.Tree? {
      var q := KeyIsPath(f, s, rank, e.hash, JoinPath(prefix, e.name), k);
      p := [e.name] + q;
      PathCons(f, s, h, prefix, e, q);
    } else {
      p := [e.name];
      assert JoinAll(prefix, p) == JoinAll(JoinPath(prefix, e.name), []) == JoinPath(prefix, e.name) by {
        assert p[1..] == [];
      }
    }
  }

  /** A path through a tree entry. */
  lemma {:induction false} PathCons(f: Forms, s: Texts, h: Hash, prefix: Path, e: TreeEntry, q: seq<Name>)
    requires Load(f, s, h).Ok? && e in Load(f, s, h).value && Find(Load(f, s, h).value, e.name) == Some(e) && e.Tree?
    requires ValidPath(q) && ClearWay(f, s, e.hash, q)
    ensures var p := [e.name] + q;
            && ValidPath(p) && ClearWay(f, s, h, p)
            && JoinAll(prefix, p) == JoinAll(JoinPath(prefix, e.name), q)
            && Navigate(f, s, h, p) == Navigate(f, s, e.hash, q)
  {
    assert ([e.name] + q)[1..] == q;
  }

  // ----- the local walk -----------------------------------------------------

  ghost predicate Submap(a: Flat, b: Flat) { forall k :: k in a ==> k in b && a[k] == b[k] }

  lemma {:induction false} RankedPart(f: Forms, s: Texts, all: Texts, rank: Hash -> nat)
    requires Grows(s, all) && Ranked(f, all, rank)
    ensures Ranked(f, s, rank)
  {
    forall h, e | Load(f, s, h).Ok? && e in Load(f, s, h).value && e.Tree?
      ensures rank(e.hash) < rank(h)
    {
      LoadGrows(f, s, all, h);
    }
  }

  lemma {:induction false} LocalEntry(f: Forms, s: Texts, all: Texts, rank: Hash -> nat, bound: nat, e: TreeEntry,
      prefix: Path)
    requires Grows(s, all) && Ranked(f, all, rank) && Ranked(f, s, rank) && Tidy(f, all)
    requires (e.Tree? ==> rank(e.hash) < bound)
    requires FlattenEntry(f, all, rank, bound, e, prefix, false).Ok?
    ensures var l := FlattenEntry(f, s, rank, bound, e, prefix, true);
            var m := FlattenEntry(f, all, rank, bound, e, prefix, false);
            l.Ok? && Submap(l.value, m.value) && (s == all ==> l == m)
    decreases bound, 0, 0
  {
    if e.Tree? && e.hash in s {
      LoadGrows(f, s, all, e.hash);
      LoadedUnder(f, all, rank, e.hash);
      LoadedDistinct(f, all, e.hash);
      LocalList(f, s, all, rank, rank(e.hash), Load(f, all, e.hash).value, JoinPath(prefix, e.name));
    }
  }

  lemma {:induction false} LocalList(f: Forms, s: Texts, all: Texts, rank: Hash -> nat, bound: nat, es: Entries,
      prefix: Path)
    requires Grows(s, all) && Ranked(f, all, rank) && Ranked(f, s, rank) && Tidy(f, all) && Under(es, rank, bound)
    requires Distinct(es)
    requires FlattenList(f, all, rank, bound, es, prefix, false).Ok?
    ensures var l := FlattenList(f, s, rank, bound, es, prefix, true);
            var m := FlattenList(f, all, rank, bound, es, prefix, false);
            l.Ok? && Submap(l.value, m.value) && (s == all ==> l == m)
    decreases bound, 0, |es|
  {
    if es != [] {
      var n := |es| - 1;
      LocalList(f, s, all, rank, bound, es[..n], prefix);
      LocalEntry(f, s, all, rank, bound, es[n], prefix);
      var l := FlattenList(f, s, rank, bound, es[..n], prefix, true).value;
      var last := FlattenEntry(f, all, rank, bound, es[n], prefix, false).value;
      forall k | k in l
        ensures k !in last
      {
        if k in last {
          EntryKeys(f, all, rank, bound, es[n], prefix, false, k);
          ListMisses(f, all, rank, bound, es[..n], prefix, false, es[n].name, k);
        }
      }
    }
  }

  /**
   The local walk never fails on a tree that is present and whose complete form can be
   flattened: it yields part of the full result, and all of it when no object is missing.
   */
  lemma {:induction false} LocalIsSubmap(f: Forms, s: Texts, all: Texts, rank: Hash -> nat, root: Hash)
    requires Grows(s, all) && Ranked(f, all, rank) && Tidy(f, all) && root in s
    requires Flatten(f, all, rank, root, [], false).Ok?
    ensures Ranked(f, s, rank)
    ensures var l := Flatten(f, s, rank, root, [], true);
            var m := Flatten(f, all, rank, root, [], false);
            l.Ok? && Submap(l.value, m.value) && (s == all ==> l == m)
  {
    RankedPart(f, s, all, rank);
    LoadGrows(f, s, all, root);
    LoadedUnder(f, all, rank, root);
    LoadedDistinct(f, all, root);
    LocalList(f, s, all, rank, rank(root), Load(f, all, root).value, []);
  }
}
