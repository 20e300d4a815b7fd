/**
 Laws of removal from hash-addressed trees, and what every edit keeps at all depths:
 name order, unique names and truthful aggregates (src/tree_ops.rs, src/object.rs).
 */
module TreeLaws {
  import opened Base
  import opened ObjectCodec
  import opened Trees
  import opened TreeEdit

  // ----- one level of a removal ---------------------------------------------

  predicate Removes(o: Outcome<Option<Hash>>) { o.result.Ok? && o.result.value.Some? }

  /** The list the top level of an effective removal builds. */
  ghost function RemovedList(f: Forms, s: Texts, base: Hash, p: seq<Name>): Entries
    requires p != [] && Removes(Remove(f, s, base, p))
  {
    var es := Load(f, s, base).value;
    if |p| == 1 then Without(es, p[0])
    else
      var below := Remove(f, s, Below(es, p[0]).value, p[1..]);
      var h := below.result.value.value;
      Upsert(es, p[0], ChildEntry(p[0], h, Load(f, below.store, h).value))
  }

  lemma {:induction false} BuiltBelow(f: Forms, s: Texts, base: Hash, p: seq<Name>)
    requires |p| > 1 && Load(f, s, base).Ok? && Below(Load(f, s, base).value, p[0]).Some?
    ensures var below := Remove(f, s, Below(Load(f, s, base).value, p[0]).value, p[1..]);
            && below.built <= Remove(f, s, base, p).built
            && Grows(below.store, Remove(f, s, base, p).store)
            && (Removes(below) && Load(f, below.store, below.result.value.value).Ok? ==> Removes(Remove(f, s, base, p)))
            && (!Removes(below) ==> Remove(f, s, base, p) == below)
  {
  }

  /** A name found in a tree that was read is valid. */
  lemma {:induction false} FoundIsValid(f: Forms, s: Texts, base: Hash, n: Name)
    requires Load(f, s, base).Ok? && Find(Load(f, s, base).value, n).Some?
    ensures ValidName(n)
  {
    FindHolds(Load(f, s, base).value, n);
  }

  lemma {:induction false} RemoveBuilds(f: Forms, s: Texts, base: Hash, p: seq<Name>)
    requires p != [] && Sane(f, s, Remove(f, s, base, p).built)
    ensures var o := Remove(f, s, base, p);
            && Genuine(f, o.store) && Grows(s, o.store) && o.store.Values <= s.Values + o.built
            && (Removes(o) ==> Load(f, o.store, o.result.value.value) == Ok(SortByName(RemovedList(f, s, base, p))))
    decreases |p|
  {
    var es := Load(f, s, base);
    if es.Ok? && |p| == 1 {
      WithoutValid(es.value, p[0]);
      if |Without(es.value, p[0])| != |es.value| { BuildStep(f, s, s, Without(es.value, p[0]), {}); }
    } else if es.Ok? && Below(es.value, p[0]).Some? {
      var below := Remove(f, s, Below(es.value, p[0]).value, p[1..]);
      BuiltBelow(f, s, base, p);
      Smaller(f, s, Remove(f, s, base, p).built, s, below.built);
      RemoveBuilds(f, s, Below(es.value, p[0]).value, p[1..]);
      if Removes(below) {
        var h := below.result.value.value;
        var c := ChildEntry(p[0], h, Load(f, below.store, h).value);
        FoundIsValid(f, s, base, p[0]);
        UpsertValid(es.value, p[0], c);
        BuildStep(f, s, below.store, Upsert(es.value, p[0], c), below.built);
      }
    }
  }

  /** The child level of a removal, ready for the induction. */
  lemma {:induction false} RemoveBelow(f: Forms, s: Texts, base: Hash, p: seq<Name>)
    requires |p| > 1 && Sane(f, s, Remove(f, s, base, p).built)
    requires Load(f, s, base).Ok? && Below(Load(f, s, base).value, p[0]).Some?
    ensures var below := Remove(f, s, Below(Load(f, s, base).value, p[0]).value, p[1..]);
            && Sane(f, s, below.built)
            && Grows(s, below.store) && Genuine(f, below.store) && below.store.Values <= s.Values + below.built
            && (Removes(below) ==> Load(f, below.store, below.result.value.value).Ok?)
  {
    var below := Remove(f, s, Below(Load(f, s, base).value, p[0]).value, p[1..]);
    BuiltBelow(f, s, base, p);
    Smaller(f, s, Remove(f, s, base, p).built, s, below.built);
    RemoveBuilds(f, s, Below(Load(f, s, base).value, p[0]).value, p[1..]);
  }

  lemma {:induction false} RemovedFind(f: Forms, s: Texts, base: Hash, p: seq<Name>, n: Name)
    requires p != [] && Removes(Remove(f, s, base, p))
    ensures var found := Find(SortByName(RemovedList(f, s, base, p)), n);
            var es := Load(f, s, base).value;
            if n != p[0] then found == Find(es, n)
            else if |p| == 1 then found.None?
            else found.Some? && found.value.Tree? &&
                 HashOf(found.value) == Some(Remove(f, s, Below(es, p[0]).value, p[1..]).result.value.value)
  {
    var es := Load(f, s, base).value;
    FindSorted(RemovedList(f, s, base, p), n);
    if |p| == 1 {
      FindWithout(es, p[0], n);
    } else {
      var below := Remove(f, s, Below(es, p[0]).value, p[1..]);
      var h := below.result.value.value;
      FindUpsert(es, p[0], ChildEntry(p[0], h, Load(f, below.store, h).value), n);
    }
  }

  // ----- removal laws -------------------------------------------------------

  /** What was removed is no longer found. */
  lemma {:induction false} RemoveThenNavigate(f: Forms, s: Texts, base: Hash, p: seq<Name>)
    requires p != [] && Sane(f, s, Remove(f, s, base, p).built) && Removes(Remove(f, s, base, p))
    ensures var o := Remove(f, s, base, p); Navigate(f, o.store, o.result.value.value, p) == Ok(None)
    decreases |p|
  {
    if |p| == 1 {
      RemoveBuilds(f, s, base, p);
      RemovedFind(f, s, base, p, p[0]);
    } else {
      var b := Below(Load(f, s, base).value, p[0]).value;
      RemoveBelow(f, s, base, p);
      BuiltBelow(f, s, base, p);
      RemoveThenNavigate(f, s, b, p[1..]);
      WalkBelow(f, s, base, p, p);
    }
  }

  /** A walk that succeeds in the child level succeeds in the whole. */
  lemma {:induction false} WalkBelow(f: Forms, s: Texts, base: Hash, p: seq<Name>, q: seq<Name>)
    requires |p| > 1 && Sane(f, s, Remove(f, s, base, p).built) && Removes(Remove(f, s, base, p))
    requires |q| > 1 && q[0] == p[0]
    requires var below := Remove(f, s, Below(Load(f, s, base).value, p[0]).value, p[1..]);
             Navigate(f, below.store, below.result.value.value, q[1..]).Ok?
    ensures var o := Remove(f, s, base, p);
            var below := Remove(f, s, Below(Load(f, s, base).value, p[0]).value, p[1..]);
            Navigate(f, o.store, o.result.value.value, q) ==
            Navigate(f, below.store, below.result.value.value, q[1..])
  {
    var o := Remove(f, s, base, p);
    var below := Remove(f, s, Below(Load(f, s, base).value, p[0]).value, p[1..]);
    RemoveBuilds(f, s, base, p);
    RemovedFind(f, s, base, p, p[0]);
    BuiltBelow(f, s, base, p);
    LackedIsNotFound(f, below.store, below.result.value.value, q[1..]);
    NavigateGrows(f, below.store, o.store, below.result.value.value, q[1..]);
  }

  ghost predicate LeadsToTree(f: Forms, s: Texts, root: Hash, q: seq<Name>) {
    var found := Navigate(f, s, root, q);
    found.Ok? && found.value.Some? && found.value.value.Tree?
  }

  /** The trees on the way stay, even when they end up empty. */
  lemma {:induction false} RemoveKeepsParents(f: Forms, s: Texts, base: Hash, p: seq<Name>, q: seq<Name>)
    requires q != [] && StartsWith(p, q) && |q| < |p|
    requires Sane(f, s, Remove(f, s, base, p).built) && Removes(Remove(f, s, base, p))
    ensures LeadsToTree(f, Remove(f, s, base, p).store, Remove(f, s, base, p).result.value.value, q)
    decreases |p|
  {
    assert p[0] == p[..|q|][0] == q[0];
    if |q| == 1 {
      FirstParent(f, s, base, p, q);
    } else {
      StartsTail(p, q);
      RemoveBelow(f, s, base, p);
      BuiltBelow(f, s, base, p);
      RemoveKeepsParents(f, s, Below(Load(f, s, base).value, p[0]).value, p[1..], q[1..]);
      WalkBelow(f, s, base, p, q);
    }
  }

  lemma {:induction false} FirstParent(f: Forms, s: Texts, base: Hash, p: seq<Name>, q: seq<Name>)
    requires |p| > 1 && |q| == 1 && q[0] == p[0]
    requires Sane(f, s, Remove(f, s, base, p).built) && Removes(Remove(f, s, base, p))
    ensures LeadsToTree(f, Remove(f, s, base, p).store, Remove(f, s, base, p).result.value.value, q)
  {
    RemoveBuilds(f, s, base, p);
    RemovedFind(f, s, base, p, p[0]);
  }

  /**
   Every path unrelated to the removal ends as before, in an error too, unless a tree it
   lacked has been built meanwhile.
   */
  lemma {:induction false} RemoveKeepsOthers(f: Forms, s: Texts, base: Hash, p: seq<Name>, q: seq<Name>)
    requires p != [] && Sane(f, s, Remove(f, s, base, p).built) && Removes(Remove(f, s, base, p))
    requires Unrelated(p, q) && Absent(Lacked(f, s, base, q), Remove(f, s, base, p).store)
    ensures var o := Remove(f, s, base, p); SameWalk(f, o.store, o.result.value.value, s, Some(base), q)
    decreases |p|
  {
    var o := Remove(f, s, base, p);
    assert q != [] by { assert p[..0] == []; }
    RemoveBuilds(f, s, base, p);
    RemovedFind(f, s, base, p, q[0]);
    if q[0] == p[0] {
      UnrelatedTail(p, q);
      var b := Below(Load(f, s, base).value, p[0]).value;
      var below := Remove(f, s, b, p[1..]);
      RemoveBelow(f, s, base, p);
      BuiltBelow(f, s, base, p);
      NavigateStep(f, s, Some(base), q);
      RemoveKeepsOthers(f, s, b, p[1..], q[1..]);
      NavigateGrows(f, below.store, o.store, below.result.value.value, q[1..]);
      NavigateStep(f, o.store, o.result.value, q);
    } else {
      OtherBranch(f, s, o.store, Some(base), o.result.value.value, q);
    }
  }

  /** Whatever a removal adds to the store is one of the texts it built. */
  lemma {:induction false} RemoveStores(f: Forms, s: Texts, base: Hash, p: seq<Name>, h: Hash)
    requires p != [] && h in Remove(f, s, base, p).store && h !in s
    ensures exists t :: t in Remove(f, s, base, p).built && f.sha(t) == h
    decreases |p|
  {
    var es := Load(f, s, base).value;
    if |p| == 1 {
      assert TextOf(f, Without(es, p[0])) in Remove(f, s, base, p).built;
    } else {
      var below := Remove(f, s, Below(es, p[0]).value, p[1..]);
      if h in below.store {
        RemoveStores(f, s, Below(es, p[0]).value, p[1..], h);
        BuiltBelow(f, s, base, p);
      } else {
        var g := below.result.value.value;
        assert TextOf(f, Upsert(es, p[0], ChildEntry(p[0], g, Load(f, below.store, g).value))) in Remove(f, s, base,
          p).built;
      }
    }
  }

  /**
   A removal reports "not there" exactly when navigation finds nothing, and then leaves
   the store alone; it fails exactly when navigation does.
   */
  lemma {:induction false} RemoveFindsExactly(f: Forms, s: Texts, base: Hash, p: seq<Name>)
    requires p != [] && Sane(f, s, Remove(f, s, base, p).built)
    ensures var o := Remove(f, s, base, p);
            && (o.result.Err? <==> Navigate(f, s, base, p).Err?)
            && (o.result == Ok(None) <==> Navigate(f, s, base, p) == Ok(None))
            && (o.result == Ok(None) ==> o.store == s)
    decreases |p|
  {
    var es := Load(f, s, base);
    if es.Ok? && |p| == 1 {
      WithoutLength(es.value, p[0]);
    } else if es.Ok? && Below(es.value, p[0]).Some? {
      RemoveBelow(f, s, base, p);
      BuiltBelow(f, s, base, p);
      RemoveFindsExactly(f, s, Below(es.value, p[0]).value, p[1..]);
    }
  }

  // ----- order and uniqueness at all depths ---------------------------------

  /** Every tree of the store lists its entries by ascending name, each name once. */
  ghost predicate Tidy(f: Forms, s: Texts) {
    forall h :: Load(f, s, h).Ok? ==> Sorted(Load(f, s, h).value)
  }

  lemma {:induction false} PutTidy(f: Forms, s: Texts, es: Entries)
    requires Faithful(f) && Tidy(f, s) && Unique(es)
    ensures Tidy(f, PutText(f, s, TextOf(f, es)))
  {
    var t := TextOf(f, es);
    SortSorts(es);
    forall h | Load(f, PutText(f, s, t), h).Ok?
      ensures Sorted(Load(f, PutText(f, s, t), h).value)
    {
      if h in s {
        assert Load(f, s, h).Ok?;
      } else {
        assert f.parse(t) == Some(SortByName(es));
      }
    }
  }

  lemma {:induction false} LoadedUnique(f: Forms, s: Texts, base: Option<Hash>)
    requires Tidy(f, s) && LoadBase(f, s, base).Ok?
    ensures Unique(LoadBase(f, s, base).value)
  {
    SortedUnique(LoadBase(f, s, base).value);
  }

  lemma {:induction false} SpliceTidy(f: Forms, s: Texts, base: Option<Hash>, p: seq<Name>, e: TreeEntry)
    requires Faithful(f) && Tidy(f, s) && p != [] && e.name == p[|p| - 1]
    ensures Tidy(f, Splice(f, s, base, p, e).store)
    decreases |p|
  {
    var es := LoadBase(f, s, base);
    if es.Ok? {
      LoadedUnique(f, s, base);
      if |p| == 1 {
        UpsertUnique(es.value, p[0], e);
        PutTidy(f, s, Upsert(es.value, p[0], e));
      } else {
        SpliceTidy(f, s, Below(es.value, p[0]), p[1..], e);
        var below := Splice(f, s, Below(es.value, p[0]), p[1..], e);
        if below.result.Ok? && Load(f, below.store, below.result.value).Ok? {
          var c := ChildEntry(p[0], below.result.value, Load(f, below.store, below.result.value).value);
          UpsertUnique(es.value, p[0], c);
          PutTidy(f, below.store, Upsert(es.value, p[0], c));
        }
      }
    }
  }

  lemma {:induction false} RemoveTidy(f: Forms, s: Texts, base: Hash, p: seq<Name>)
    requires Faithful(f) && Tidy(f, s) && p != []
    ensures Tidy(f, Remove(f, s, base, p).store)
    decreases |p|
  {
    var es := Load(f, s, base);
    if es.Ok? {
      LoadedUnique(f, s, Some(base));
      if |p| == 1 {
        WithoutUnique(es.value, p[0]);
        PutTidy(f, s, Without(es.value, p[0]));
      } else if Below(es.value, p[0]).Some? {
        RemoveTidy(f, s, Below(es.value, p[0]).value, p[1..]);
        var below := Remove(f, s, Below(es.value, p[0]).value, p[1..]);
        if Removes(below) && Load(f, below.store, below.result.value.value).Ok? {
          var h := below.result.value.value;
          var c := ChildEntry(p[0], h, Load(f, below.store, h).value);
          UpsertUnique(es.value, p[0], c);
          PutTidy(f, below.store, Upsert(es.value, p[0], c));
        }
      }
    }
  }

  // ----- aggregates at all depths -------------------------------------------

  /** `truth` gives the aggregates of the tree behind a hash, for the texts in play. */
  ghost predicate Knows(f: Forms, truth: Hash -> Meta, ts: set<Bytes>) {
    forall t :: t in ts && f.parse(t).Some? ==> truth(f.sha(t)) == Aggregate(f.parse(t).value)
  }

  ghost predicate HonestEntry(truth: Hash -> Meta, e: TreeEntry) { e.Tree? ==> MetaOf(e) == truth(e.hash) }

  ghost predicate HonestList(truth: Hash -> Meta, es: Entries) { forall e :: e in es ==> HonestEntry(truth, e) }

  /** Every tree entry in the store carries the aggregates of the tree it names. */
  ghost predicate Honest(f: Forms, truth: Hash -> Meta, s: Texts) {
    forall h :: Load(f, s, h).Ok? ==> HonestList(truth, Load(f, s, h).value)
  }

  lemma {:induction false} PutHonest(f: Forms, truth: Hash -> Meta, s: Texts, es: Entries)
    requires Faithful(f) && Honest(f, truth, s) && HonestList(truth, es)
    ensures Honest(f, truth, PutText(f, s, TextOf(f, es)))
  {
    var t := TextOf(f, es);
    FindSorted(es, []);
    forall h | Load(f, PutText(f, s, t), h).Ok?
      ensures HonestList(truth, Load(f, PutText(f, s, t), h).value)
    {
      if h in s {
        assert Load(f, s, h).Ok?;
      } else {
        assert f.parse(t) == Some(SortByName(es));
      }
    }
  }

  /** The entry of a rebuilt child is honest. */
  lemma {:induction false} ChildHonest(f: Forms, truth: Hash -> Meta, s: Texts, n: Name, h: Hash)
    requires Knows(f, truth, s.Values) && Load(f, s, h).Ok?
    ensures HonestEntry(truth, ChildEntry(n, h, Load(f, s, h).value))
  {
    assert s[h] in s.Values;
  }

  lemma {:induction false} UpsertHonest(truth: Hash -> Meta, es: Entries, n: Name, e: TreeEntry)
    requires HonestList(truth, es) && HonestEntry(truth, e) && e.name == n
    ensures HonestList(truth, Upsert(es, n, e))
  {
    FindUpsert(es, n, e, n);
  }

  lemma {:induction false} PutValues(f: Forms, s: Texts, t: Bytes)
    ensures PutText(f, s, t).Values <= s.Values + {t}
  {
  }

  lemma {:induction false} SpliceValues(f: Forms, s: Texts, base: Option<Hash>, p: seq<Name>, e: TreeEntry)
    requires p != []
    ensures Splice(f, s, base, p, e).store.Values <= s.Values + Splice(f, s, base, p, e).built
    decreases |p|
  {
    var es := LoadBase(f, s, base);
    if es.Ok? {
      if |p| == 1 {
        PutValues(f, s, TextOf(f, Upsert(es.value, p[0], e)));
      } else {
        var below := Splice(f, s, Below(es.value, p[0]), p[1..], e);
        SpliceValues(f, s, Below(es.value, p[0]), p[1..], e);
        if below.result.Ok? && Load(f, below.store, below.result.value).Ok? {
          PutValues(f, below.store, TextOf(f, Upsert(es.value, p[0],
            ChildEntry(p[0], below.result.value, Load(f, below.store, below.result.value).value))));
        }
      }
    }
  }

  lemma {:induction false} RemoveValues(f: Forms, s: Texts, base: Hash, p: seq<Name>)
    requires p != []
    ensures Remove(f, s, base, p).store.Values <= s.Values + Remove(f, s, base, p).built
    decreases |p|
  {
    var es := Load(f, s, base);
    if es.Ok? {
      if |p| == 1 {
        PutValues(f, s, TextOf(f, Without(es.value, p[0])));
      } else if Below(es.value, p[0]).Some? {
        var below := Remove(f, s, Below(es.value, p[0]).value, p[1..]);
        RemoveValues(f, s, Below(es.value, p[0]).value, p[1..]);
        if Removes(below) && Load(f, below.store, below.result.value.value).Ok? {
          var h := below.result.value.value;
          PutValues(f, below.store, TextOf(f,
            Upsert(es.value, p[0], ChildEntry(p[0], h, Load(f, below.store, h).value))));
        }
      }
    }
  }

  lemma {:induction false} SpliceHonest(f: Forms, truth: Hash -> Meta, s: Texts, base: Option<Hash>, p: seq<Name>,
      e: TreeEntry)
    requires Faithful(f) && Honest(f, truth, s) && HonestEntry(truth, e) && p != [] && e.name == p[|p| - 1]
    requires Knows(f, truth, s.Values + Splice(f, s, base, p, e).built)
    ensures Honest(f, truth, Splice(f, s, base, p, e).store)
    decreases |p|
  {
    var es := LoadBase(f, s, base);
    if es.Ok? {
      if |p| == 1 {
        UpsertHonest(truth, es.value, p[0], e);
        PutHonest(f, truth, s, Upsert(es.value, p[0], e));
      } else {
        TreeEdit.BuiltBelow(f, s, base, p, e);
        SpliceHonest(f, truth, s, Below(es.value, p[0]), p[1..], e);
        SpliceValues(f, s, Below(es.value, p[0]), p[1..], e);
        var below := Splice(f, s, Below(es.value, p[0]), p[1..], e);
        if below.result.Ok? && Load(f, below.store, below.result.value).Ok? {
          HonestStep(f, truth, below.store, es.value, p[0], below.result.value);
        }
      }
    }
  }

  lemma {:induction false} RemoveHonest(f: Forms, truth: Hash -> Meta, s: Texts, base: Hash, p: seq<Name>)
    requires Faithful(f) && Honest(f, truth, s) && p != []
    requires Knows(f, truth, s.Values + Remove(f, s, base, p).built)
    ensures Honest(f, truth, Remove(f, s, base, p).store)
    decreases |p|
  {
    var es := Load(f, s, base);
    if es.Ok? {
      if |p| == 1 {
        FindWithout(es.value, p[0], p[0]);
        PutHonest(f, truth, s, Without(es.value, p[0]));
      } else if Below(es.value, p[0]).Some? {
        BuiltBelow(f, s, base, p);
        RemoveHonest(f, truth, s, Below(es.value, p[0]).value, p[1..]);
        RemoveValues(f, s, Below(es.value, p[0]).value, p[1..]);
        var below := Remove(f, s, Below(es.value, p[0]).value, p[1..]);
        if Removes(below) && Load(f, below.store, below.result.value.value).Ok? {
          HonestStep(f, truth, below.store, es.value, p[0], below.result.value.value);
        }
      }
    }
  }

  /** Rebuilding a parent around a rebuilt child. */
  lemma {:induction false} HonestStep(f: Forms, truth: Hash -> Meta, s: Texts, es: Entries, n: Name, h: Hash)
    requires Faithful(f) && Honest(f, truth, s) && HonestList(truth, es)
    requires Knows(f, truth, s.Values) && Load(f, s, h).Ok?
    ensures Honest(f, truth, PutText(f, s, TextOf(f, Upsert(es, n, ChildEntry(n, h, Load(f, s, h).value)))))
  {
    var c := ChildEntry(n, h, Load(f, s, h).value);
    ChildHonest(f, truth, s, n, h);
    UpsertHonest(truth, es, n, c);
    PutHonest(f, truth, s, Upsert(es, n, c));
  }

  /**
   What honesty means where the named tree is present: its entry carries exactly the
   aggregate size, count and mtime of the entries it lists.
   */
  lemma {:induction false} AggregatesHold(f: Forms, truth: Hash -> Meta, s: Texts, h: Hash, e: TreeEntry)
    requires Honest(f, truth, s) && Knows(f, truth, s.Values)
    requires Load(f, s, h).Ok? && e in Load(f, s, h).value && e.Tree? && Load(f, s, e.hash).Ok?
    ensures MetaOf(e) == Aggregate(Load(f, s, e.hash).value)
  {
    assert s[e.hash] in s.Values;
    assert HonestEntry(truth, e);
  }
}
