/**
 What the in-process tree cache changes (src/tree_ops.rs). A cached tree is handed out
 without looking at its names, so all that matters about a cache is which of its trees have
 an invalid name: its taint. Every operation is a function of the store and the taint, and
 over any run the cache goes unnoticed exactly as long as no such tree is built.
 */
module TreeCache {
  import opened Base
  import opened ObjectCodec
  import opened Trees
  import opened TreeEdit
  import opened TreeLaws
  import opened TreeFlatten

  /** `None` while the cache is off, otherwise the cached trees that could not be read. */
  type Taint = Option<set<Hash>>

  /** Loading a tree through the cache. */
  function See(f: Forms, s: Texts, c: Taint, h: Hash): Result<Entries> {
    if c.Some? && h in c.value then LoadTrusting(f, s, h) else Load(f, s, h)
  }

  function SeeBase(f: Forms, s: Texts, c: Taint, base: Option<Hash>): Result<Entries> {
    if base.None? then Ok([]) else See(f, s, c, base.value)
  }

  predicate CleanText(f: Forms, t: Bytes) { f.parse(t).Some? ==> ValidNames(f.parse(t).value) }

  ghost predicate Clean(f: Forms, built: set<Bytes>) { forall t :: t in built ==> CleanText(f, t) }

  /** The taint after these texts were built. */
  function AddTaint(f: Forms, c: Taint, built: set<Bytes>): Taint {
    if c.None? then None else Some(c.value + set t | t in built && !CleanText(f, t) :: f.sha(t))
  }

  // ----- edits through the cache --------------------------------------------

  function SpliceVia(f: Forms, s: Texts, c: Taint, base: Option<Hash>, p: seq<Name>, e: TreeEntry): Outcome<Hash>
    requires p != []
    decreases |p|
  {
    var es := SeeBase(f, s, c, base);
    if es.Err? then Outcome(Err(es.error), s, {})
    else if |p| == 1 then Build(f, s, Upsert(es.value, p[0], e), {})
    else ParentVia(f, c, es.value, p[0], SpliceVia(f, s, c, Below(es.value, p[0]), p[1..], e))
  }

  /** Rebuild a parent around a child that was just built. */
  function ParentVia(f: Forms, c: Taint, es: Entries, n: Name, below: Outcome<Hash>): Outcome<Hash> {
    if below.result.Err? then below
    else
      var child := See(f, below.store, AddTaint(f, c, below.built), below.result.value);
      if child.Err? then Outcome(Err(child.error), below.store, below.built)
      else Build(f, below.store, Upsert(es, n, ChildEntry(n, below.result.value, child.value)), below.built)
  }

  function RemoveVia(f: Forms, s: Texts, c: Taint, base: Hash, p: seq<Name>): Outcome<Option<Hash>>
    requires p != []
    decreases |p|
  {
    var es := See(f, s, c, base);
    if es.Err? then Outcome(Err(es.error), s, {})
    else if |p| == 1 then
      if |Without(es.value, p[0])| == |es.value| then Outcome(Ok(None), s, {})
      else Found(Build(f, s, Without(es.value, p[0]), {}))
    else if Below(es.value, p[0]).None? then Outcome(Ok(None), s, {})
    else
      var below := RemoveVia(f, s, c, Below(es.value, p[0]).value, p[1..]);
      if !Removes(below) then below else Found(ParentVia(f, c, es.value, p[0], Unfound(below)))
  }

  function Unfound(o: Outcome<Option<Hash>>): Outcome<Hash>
    requires o.result.Ok? && o.result.value.Some?
  {
    Outcome(Ok(o.result.value.value), o.store, o.built)
  }

  // ----- flattening through the cache ---------------------------------------

  ghost predicate RankedVia(f: Forms, s: Texts, c: Taint, rank: Hash -> nat) {
    forall h, e :: See(f, s, c, h).Ok? && e in See(f, s, c, h).value && e.Tree? ==> rank(e.hash) < rank(h)
  }

  ghost function FlattenVia(f: Forms, s: Texts, c: Taint, rank: Hash -> nat, h: Hash, prefix: Path,
      local: bool): Result<Flat>
    requires RankedVia(f, s, c, rank)
    decreases rank(h), 1, 0
  {
    var es := See(f, s, c, h);
    if es.Err? then Err(es.error) else FlattenListVia(f, s, c, rank, rank(h), es.value, prefix, local)
  }

  ghost function FlattenListVia(
    f: Forms, s: Texts, c: Taint, rank: Hash -> nat, bound: nat, es: Entries, prefix: Path, local: bool): Result<Flat>
    requires RankedVia(f, s, c, rank) && Under(es, rank, bound)
    decreases bound, 0, |es|
  {
    if es == [] then Ok(map[])
    else
      var front := FlattenListVia(f, s, c, rank, bound, es[..|es| - 1], prefix, local);
      if front.Err? then front
      else
        var last := FlattenEntryVia(f, s, c, rank, bound, es[|es| - 1], prefix, local);
        if last.Err? then last else Ok(front.value + last.value)
  }

  ghost function FlattenEntryVia(
    f: Forms, s: Texts, c: Taint, rank: Hash -> nat, bound: nat, e: TreeEntry, prefix: Path, local: bool): Result<Flat>
    requires RankedVia(f, s, c, rank) && (e.Tree? ==> rank(e.hash) < bound)
    decreases bound, 0, 0
  {
    if !e.Tree? then Ok(map[JoinPath(prefix, e.name) := e])
    else if local && e.hash !in s then Ok(map[])
    else FlattenVia(f, s, c, rank, e.hash, JoinPath(prefix, e.name), local)
  }

  /** Navigation does not use the cache; the walk below what it finds does. */
  ghost function ScopedVia(f: Forms, s: Texts, c: Taint, rank: Hash -> nat, h: Hash, p: seq<Name>): Result<Flat>
    requires RankedVia(f, s, c, rank)
  {
    var e := Navigate(f, s, h, p);
    if e.Err? then Err(e.error)
    else if e.value.None? then Ok(map[])
    else if e.value.value.Tree? then FlattenVia(f, s, c, rank, e.value.value.hash, JoinAll([], p), false)
    else Ok(map[JoinAll([], p) := e.value.value])
  }

  // ----- what edits leave ---------------------------------------------------

  /** Every text that was built is stored under its hash. */
  ghost predicate Stored(f: Forms, s: Texts, built: set<Bytes>) {
    forall t :: t in built ==> f.sha(t) in s && s[f.sha(t)] == t && f.parse(t).Some?
  }

  /** A store that grew by these texts. */
  ghost predicate GrewBy(f: Forms, s: Texts, s': Texts, built: set<Bytes>) {
    Genuine(f, s') && Grows(s, s') && s'.Values <= s.Values + built && Stored(f, s', built)
  }

  lemma {:induction false} BuildGrows(f: Forms, s: Texts, mid: Texts, es: Entries, built: set<Bytes>)
    requires Sane(f, s, built + {TextOf(f, es)}) && GrewBy(f, s, mid, built)
    ensures var o := Build(f, mid, es, built);
            GrewBy(f, s, o.store, o.built) && LoadTrusting(f, o.store, o.result.value) == Ok(SortByName(es))
  {
    BuildStep(f, s, mid, es, built);
    var t, s' := TextOf(f, es), Build(f, mid, es, built).store;
    assert f.parse(t).Some?;
    assert f.sha(t) in mid ==> mid[f.sha(t)] in mid.Values;
  }

  /** A tree just built is seen as what was built, if the cache is on. */
  lemma {:induction false} SeesBuilt(f: Forms, s: Texts, c: Taint, built: set<Bytes>, t: Bytes)
    requires Stored(f, s, built) && t in built && c.Some?
    ensures See(f, s, AddTaint(f, c, built), f.sha(t)) == Ok(f.parse(t).value) == LoadTrusting(f, s, f.sha(t))
  {
  }

  lemma {:induction false} ParentGrows(f: Forms, s: Texts, c: Taint, es: Entries, n: Name, below: Outcome<Hash>)
    requires Sane(f, s, ParentVia(f, c, es, n, below).built) && GrewBy(f, s, below.store, below.built)
    ensures GrewBy(f, s, ParentVia(f, c, es, n, below).store, ParentVia(f, c, es, n, below).built)
  {
    if below.result.Ok? {
      var child := See(f, below.store, AddTaint(f, c, below.built), below.result.value);
      if child.Ok? {
        BuildGrows(f, s, below.store, Upsert(es, n, ChildEntry(n, below.result.value, child.value)), below.built);
      }
    }
  }

  lemma {:induction false} ParentBuilt(f: Forms, c: Taint, es: Entries, n: Name, below: Outcome<Hash>)
    ensures below.built <= ParentVia(f, c, es, n, below).built
  {
  }

  lemma {:induction false} GrewByNothing(f: Forms, s: Texts)
    requires Genuine(f, s)
    ensures GrewBy(f, s, s, {})
  {
  }

  lemma {:induction false} SpliceGrows(f: Forms, s: Texts, c: Taint, base: Option<Hash>, p: seq<Name>, e: TreeEntry)
    requires p != [] && Sane(f, s, SpliceVia(f, s, c, base, p, e).built)
    ensures GrewBy(f, s, SpliceVia(f, s, c, base, p, e).store, SpliceVia(f, s, c, base, p, e).built)
    decreases |p|
  {
    GrewByNothing(f, s);
    var es := SeeBase(f, s, c, base);
    if es.Ok? && |p| == 1 {
      BuildGrows(f, s, s, Upsert(es.value, p[0], e), {});
    } else if es.Ok? {
      var below := SpliceVia(f, s, c, Below(es.value, p[0]), p[1..], e);
      ParentBuilt(f, c, es.value, p[0], below);
      Smaller(f, s, SpliceVia(f, s, c, base, p, e).built, s, below.built);
      SpliceGrows(f, s, c, Below(es.value, p[0]), p[1..], e);
      ParentGrows(f, s, c, es.value, p[0], below);
    }
  }

  lemma {:induction false} RemoveGrows(f: Forms, s: Texts, c: Taint, base: Hash, p: seq<Name>)
    requires p != [] && Sane(f, s, RemoveVia(f, s, c, base, p).built)
    ensures GrewBy(f, s, RemoveVia(f, s, c, base, p).store, RemoveVia(f, s, c, base, p).built)
    decreases |p|
  {
    GrewByNothing(f, s);
    var es := See(f, s, c, base);
    if es.Ok? && |p| == 1 {
      if |Without(es.value, p[0])| != |es.value| { BuildGrows(f, s, s, Without(es.value, p[0]), {}); }
    } else if es.Ok? && Below(es.value, p[0]).Some? {
      var below := RemoveVia(f, s, c, Below(es.value, p[0]).value, p[1..]);
      if Removes(below) { ParentBuilt(f, c, es.value, p[0], Unfound(below)); }
      Smaller(f, s, RemoveVia(f, s, c, base, p).built, s, below.built);
      RemoveGrows(f, s, c, Below(es.value, p[0]).value, p[1..]);
      if Removes(below) { ParentGrows(f, s, c, es.value, p[0], Unfound(below)); }
    }
  }

  // ----- when the cache goes unnoticed --------------------------------------

  /** A cache that is off or holds no tainted tree. */
  ghost predicate Untainted(c: Taint) { c.Some? ==> c.value == {} }

  lemma {:induction false} UntaintedSees(f: Forms, s: Texts, c: Taint, built: set<Bytes>)
    requires Untainted(c) && (c.Some? ==> Clean(f, built))
    ensures Untainted(AddTaint(f, c, built)) && forall h :: See(f, s, AddTaint(f, c, built), h) == Load(f, s, h)
  {
  }

  lemma {:induction false} SpliceUnnoticed(f: Forms, s: Texts, c: Taint, base: Option<Hash>, p: seq<Name>, e: TreeEntry)
    requires p != [] && Untainted(c) && (c.Some? ==> Clean(f, SpliceVia(f, s, c, base, p, e).built))
    ensures SpliceVia(f, s, c, base, p, e) == Splice(f, s, base, p, e)
    decreases |p|
  {
    UntaintedSees(f, s, c, {});
    assert SeeBase(f, s, c, base) == LoadBase(f, s, base);
    var es := SeeBase(f, s, c, base);
    if es.Ok? && |p| > 1 {
      var below := SpliceVia(f, s, c, Below(es.value, p[0]), p[1..], e);
      ParentBuilt(f, c, es.value, p[0], below);
      SpliceUnnoticed(f, s, c, Below(es.value, p[0]), p[1..], e);
      UntaintedSees(f, below.store, c, below.built);
    }
  }

  lemma {:induction false} RemoveUnnoticed(f: Forms, s: Texts, c: Taint, base: Hash, p: seq<Name>)
    requires p != [] && Untainted(c) && (c.Some? ==> Clean(f, RemoveVia(f, s, c, base, p).built))
    ensures RemoveVia(f, s, c, base, p) == Remove(f, s, base, p)
    decreases |p|
  {
    UntaintedSees(f, s, c, {});
    var es := See(f, s, c, base);
    if es.Ok? && |p| > 1 && Below(es.value, p[0]).Some? {
      var below := RemoveVia(f, s, c, Below(es.value, p[0]).value, p[1..]);
      if Removes(below) { ParentBuilt(f, c, es.value, p[0], Unfound(below)); }
      RemoveUnnoticed(f, s, c, Below(es.value, p[0]).value, p[1..]);
      UntaintedSees(f, below.store, c, below.built);
    }
  }

  lemma {:induction false} RankedUnnoticed(f: Forms, s: Texts, c: Taint, rank: Hash -> nat)
    requires Untainted(c) && RankedVia(f, s, c, rank)
    ensures Ranked(f, s, rank)
  {
    forall h, e | Load(f, s, h).Ok? && e in Load(f, s, h).value && e.Tree?
      ensures rank(e.hash) < rank(h)
    {
      assert See(f, s, c, h) == Load(f, s, h);
    }
  }

  lemma {:induction false} FlattenUnnoticed(f: Forms, s: Texts, c: Taint, rank: Hash -> nat, h: Hash, prefix: Path,
      local: bool)
    requires Untainted(c) && RankedVia(f, s, c, rank) && Ranked(f, s, rank)
    ensures FlattenVia(f, s, c, rank, h, prefix, local) == Flatten(f, s, rank, h, prefix, local)
    decreases rank(h), 1, 0
  {
    assert See(f, s, c, h) == Load(f, s, h);
    if Load(f, s, h).Ok? {
      LoadedUnder(f, s, rank, h);
      ListUnnoticed(f, s, c, rank, rank(h), Load(f, s, h).value, prefix, local);
    }
  }

  lemma {:induction false} ListUnnoticed(
    f: Forms, s: Texts, c: Taint, rank: Hash -> nat, bound: nat, es: Entries, prefix: Path, local: bool)
    requires Untainted(c) && RankedVia(f, s, c, rank) && Ranked(f, s, rank) && Under(es, rank, bound)
    ensures FlattenListVia(f, s, c, rank, bound, es, prefix, local) == FlattenList(f, s, rank, bound, es, prefix, local)
    decreases bound, 0, |es|
  {
    if es != [] {
      var last := es[|es| - 1];
      ListUnnoticed(f, s, c, rank, bound, es[..|es| - 1], prefix, local);
      if last.Tree? { FlattenUnnoticed(f, s, c, rank, last.hash, JoinPath(prefix, last.name), local); }
    }
  }

  // ----- one splice with an untainted cache ---------------------------------

  /** The hash a splice returns is that of a text it built. */
  lemma {:induction false} ResultIsBuilt(f: Forms, s: Texts, c: Taint, base: Option<Hash>, p: seq<Name>, e: TreeEntry)
    returns (t: Bytes)
    requires p != [] && SpliceVia(f, s, c, base, p, e).result.Ok?
    ensures t in SpliceVia(f, s, c, base, p, e).built && SpliceVia(f, s, c, base, p, e).result.value == f.sha(t)
  {
    var es := SeeBase(f, s, c, base).value;
    if |p| == 1 {
      t := TextOf(f, Upsert(es, p[0], e));
    } else {
      var below := SpliceVia(f, s, c, Below(es, p[0]), p[1..], e);
      var child := See(f, below.store, AddTaint(f, c, below.built), below.result.value);
      t := TextOf(f, Upsert(es, p[0], ChildEntry(p[0], below.result.value, child.value)));
    }
  }

  /** The child level, as the cache sees it. */
  lemma {:induction false} ChildSeen(f: Forms, s: Texts, c: Taint, base: Option<Hash>, p: seq<Name>, e: TreeEntry)
    requires p != [] && c.Some? && Sane(f, s, SpliceVia(f, s, c, base, p, e).built)
    requires SpliceVia(f, s, c, base, p, e).result.Ok?
    ensures var o := SpliceVia(f, s, c, base, p, e);
            See(f, o.store, AddTaint(f, c, o.built), o.result.value) == LoadTrusting(f, o.store, o.result.value)
            && LoadTrusting(f, o.store, o.result.value).Ok?
  {
    var o := SpliceVia(f, s, c, base, p, e);
    SpliceGrows(f, s, c, base, p, e);
    var t := ResultIsBuilt(f, s, c, base, p, e);
    SeesBuilt(f, o.store, c, o.built, t);
  }

  /** The cached splice is the plain one, or it succeeds where that one fails. */
  ghost predicate Changes(f: Forms, s: Texts, base: Option<Hash>, p: seq<Name>, e: TreeEntry, changed: bool)
    requires p != []
  {
    if !changed then SpliceVia(f, s, Some({}), base, p, e) == Splice(f, s, base, p, e)
    else SpliceVia(f, s, Some({}), base, p, e).result.Ok? && Splice(f, s, base, p, e).result == Err(InvalidObject)
  }

  /**
   What an untainted cache changes about one splice: nothing if the names behind the first
   are valid or the trees on the way cannot be read; otherwise the splice fails without the
   cache and succeeds with it.
   */
  lemma {:induction false} CacheChangesSplice(f: Forms, s: Texts, base: Option<Hash>, p: seq<Name>, e: TreeEntry)
    requires p != [] && e.name == p[|p| - 1] && Sane(f, s, SpliceVia(f, s, Some({}), base, p, e).built)
    ensures Sane(f, s, Splice(f, s, base, p, e).built)
    ensures Changes(f, s, base, p, e, !ValidTail(p) && NavigateFrom(f, s, base, p).Ok?)
    decreases |p|
  {
    UntaintedSees(f, s, Some({}), {});
    assert SeeBase(f, s, Some({}), base) == LoadBase(f, s, base);
    var es := LoadBase(f, s, base);
    if es.Ok? && |p| > 1 {
      var below := SpliceVia(f, s, Some({}), Below(es.value, p[0]), p[1..], e);
      ParentBuilt(f, Some({}), es.value, p[0], below);
      Smaller(f, s, SpliceVia(f, s, Some({}), base, p, e).built, s, below.built);
      CacheChangesSplice(f, s, Below(es.value, p[0]), p[1..], e);
      NavigateStep(f, s, base, p);
      TailStep(p);
      CacheChangesLevel(f, s, base, p, e, es.value);
    }
  }

  lemma {:induction false} CacheChangesLevel(f: Forms, s: Texts, base: Option<Hash>, p: seq<Name>, e: TreeEntry,
      es: Entries)
    requires |p| > 1 && e.name == p[|p| - 1] && LoadBase(f, s, base) == Ok(es)
    requires SeeBase(f, s, Some({}), base) == Ok(es)
    requires Sane(f, s, SpliceVia(f, s, Some({}), base, p, e).built)
    requires Sane(f, s, SpliceVia(f, s, Some({}), Below(es, p[0]), p[1..], e).built)
    requires Sane(f, s, Splice(f, s, Below(es, p[0]), p[1..], e).built)
    requires var navigable := NavigateFrom(f, s, Below(es, p[0]), p[1..]).Ok?;
             Changes(f, s, Below(es, p[0]), p[1..], e, !ValidTail(p[1..]) && navigable)
    ensures Sane(f, s, Splice(f, s, base, p, e).built)
    ensures var navigable := NavigateFrom(f, s, Below(es, p[0]), p[1..]).Ok?;
            Changes(f, s, base, p, e, !(ValidName(p[1]) && ValidTail(p[1..])) && navigable)
  {
    var b := Below(es, p[0]);
    var cached, plain := SpliceVia(f, s, Some({}), b, p[1..], e), Splice(f, s, b, p[1..], e);
    TreeEdit.BuiltBelow(f, s, base, p, e);
    SpliceBuilds(f, s, b, p[1..], e);
    SpliceSucceedsExactly(f, s, b, p[1..], e);
    if cached.result.Ok? { ChildSeen(f, s, Some({}), b, p[1..], e); }
    if plain.result.Ok? { LoadIsTrustingAndValid(f, plain.store, plain.result.value); }
  }

  // ----- runs ---------------------------------------------------------------

  /** A store and its cache, as far as it matters. */
  datatype Memory = Memory(objects: Texts, taint: Taint)

  datatype Op =
    | LoadTree(hash: Hash)
    | BuildTree(entries: Entries)
    | SpliceTree(base: Option<Hash>, path: seq<Name>, entry: TreeEntry)
    | RemoveTree(root: Hash, path: seq<Name>)
    | FlattenTree(root: Hash, local: bool)
    | FlattenScope(root: Hash, path: seq<Name>)
    | EnableCache
    | DropCache

  datatype Answer =
    | Listed(Result<Entries>) | Rooted(Result<Hash>) | Removed(Result<Option<Hash>>) | Leaves(Result<Flat>) | Done

  /** Edits have a path to go. */
  predicate Sensible(op: Op) { (op.SpliceTree? || op.RemoveTree?) ==> op.path != [] }

  /** The texts an operation builds. */
  function BuiltBy(f: Forms, m: Memory, op: Op): set<Bytes>
    requires Sensible(op)
  {
    match op
    case BuildTree(es) => {TextOf(f, es)}
    case SpliceTree(base, p, e) => SpliceVia(f, m.objects, m.taint, base, p, e).built
    case RemoveTree(root, p) => RemoveVia(f, m.objects, m.taint, root, p).built
    case _ => {}
  }

  function StoreAfter(f: Forms, m: Memory, op: Op): Texts
    requires Sensible(op)
  {
    match op
    case BuildTree(es) => PutText(f, m.objects, TextOf(f, es))
    case SpliceTree(base, p, e) => SpliceVia(f, m.objects, m.taint, base, p, e).store
    case RemoveTree(root, p) => RemoveVia(f, m.objects, m.taint, root, p).store
    case _ => m.objects
  }

  function Next(f: Forms, m: Memory, op: Op): Memory
    requires Sensible(op)
  {
    match op
    case EnableCache => Memory(m.objects, Some({}))
    case DropCache => Memory(m.objects, None)
    case _ => Memory(StoreAfter(f, m, op), AddTaint(f, m.taint, BuiltBy(f, m, op)))
  }

  ghost function AnswerOf(f: Forms, rank: Hash -> nat, m: Memory, op: Op): Answer
    requires Sensible(op) && RankedVia(f, m.objects, m.taint, rank)
  {
    match op
    case LoadTree(h) => Listed(See(f, m.objects, m.taint, h))
    case BuildTree(es) => Rooted(Ok(f.sha(TextOf(f, es))))
    case SpliceTree(base, p, e) => Rooted(SpliceVia(f, m.objects, m.taint, base, p, e).result)
    case RemoveTree(root, p) => Removed(RemoveVia(f, m.objects, m.taint, root, p).result)
    case FlattenTree(root, local) => Leaves(FlattenVia(f, m.objects, m.taint, rank, root, [], local))
    case FlattenScope(root, p) => Leaves(ScopedVia(f, m.objects, m.taint, rank, root, p))
    case EnableCache => Done
    case DropCache => Done
  }

  /** The answer and the store without any cache. */
  ghost function PlainAnswer(f: Forms, rank: Hash -> nat, s: Texts, op: Op): Answer
    requires Sensible(op) && Ranked(f, s, rank)
  {
    match op
    case LoadTree(h) => Listed(Load(f, s, h))
    case BuildTree(es) => Rooted(Ok(f.sha(TextOf(f, es))))
    case SpliceTree(base, p, e) => Rooted(Splice(f, s, base, p, e).result)
    case RemoveTree(root, p) => Removed(Remove(f, s, root, p).result)
    case FlattenTree(root, local) => Leaves(Flatten(f, s, rank, root, [], local))
    case FlattenScope(root, p) => Leaves(Scoped(f, s, rank, root, [], p))
    case EnableCache => Done
    case DropCache => Done
  }

  ghost function PlainStore(f: Forms, s: Texts, op: Op): Texts
    requires Sensible(op)
  {
    match op
    case BuildTree(es) => PutText(f, s, TextOf(f, es))
    case SpliceTree(base, p, e) => Splice(f, s, base, p, e).store
    case RemoveTree(root, p) => Remove(f, s, root, p).store
    case _ => s
  }

  /** Every state of the run is acyclic, and the digest tells apart all texts involved. */
  ghost predicate SaneRun(f: Forms, rank: Hash -> nat, m: Memory, ops: seq<Op>)
    decreases |ops|
  {
    && RankedVia(f, m.objects, m.taint, rank)
    && (ops != [] ==>
          && Sensible(ops[0]) && Sane(f, m.objects, BuiltBy(f, m, ops[0]))
          && SaneRun(f, rank, Next(f, m, ops[0]), ops[1..]))
  }

  /** Every tree built while the cache was on had valid names. */
  ghost predicate CleanRun(f: Forms, m: Memory, ops: seq<Op>)
    requires forall op :: op in ops ==> Sensible(op)
    decreases |ops|
  {
    ops != [] ==> (m.taint.Some? ==> Clean(f, BuiltBy(f, m, ops[0]))) && CleanRun(f, Next(f, m, ops[0]), ops[1..])
  }

  /** A tree loads as it would without the cache. */
  ghost predicate SeesPlainly(f: Forms, m: Memory, h: Hash) { See(f, m.objects, m.taint, h) == Load(f, m.objects, h) }

  /**
   At every point of the run all trees load, and every operation answers and stores, as
   without the cache.
   */
  ghost predicate Unnoticed(f: Forms, rank: Hash -> nat, m: Memory, ops: seq<Op>)
    requires SaneRun(f, rank, m, ops)
    decreases |ops|
  {
    && (forall h :: SeesPlainly(f, m, h)) && Ranked(f, m.objects, rank)
    && (ops != [] ==>
          && AnswerOf(f, rank, m, ops[0]) == PlainAnswer(f, rank, m.objects, ops[0])
          && StoreAfter(f, m, ops[0]) == PlainStore(f, m.objects, ops[0])
          && Unnoticed(f, rank, Next(f, m, ops[0]), ops[1..]))
  }

  /** Tainted trees are there, and cannot be read. */
  ghost predicate TaintOk(f: Forms, m: Memory) {
    m.taint.Some? ==> forall h :: h in m.taint.value ==> LoadTrusting(f, m.objects, h).Ok? && Load(f, m.objects, h).Err?
  }

  lemma {:induction false} StepGrows(f: Forms, m: Memory, op: Op)
    requires Sensible(op) && Sane(f, m.objects, BuiltBy(f, m, op))
    ensures GrewBy(f, m.objects, StoreAfter(f, m, op), BuiltBy(f, m, op))
  {
    GrewByNothing(f, m.objects);
    match op
    case BuildTree(es) => BuildGrows(f, m.objects, m.objects, es, {});
    case SpliceTree(base, p, e) => SpliceGrows(f, m.objects, m.taint, base, p, e);
    case RemoveTree(root, p) => RemoveGrows(f, m.objects, m.taint, root, p);
    case _ =>
  }

  lemma {:induction false} StepTaint(f: Forms, m: Memory, op: Op)
    requires Sensible(op) && Sane(f, m.objects, BuiltBy(f, m, op)) && TaintOk(f, m)
    ensures TaintOk(f, Next(f, m, op))
  {
    StepGrows(f, m, op);
    var m' := Next(f, m, op);
    if m'.taint.Some? && !op.EnableCache? {
      forall h | h in m'.taint.value
        ensures LoadTrusting(f, m'.objects, h).Ok? && Load(f, m'.objects, h).Err?
      {
        if h in m.taint.value { LoadGrows(f, m.objects, m'.objects, h); }
      }
    }
  }

  lemma {:induction false} StepUnnoticed(f: Forms, rank: Hash -> nat, m: Memory, op: Op)
    requires Sensible(op) && RankedVia(f, m.objects, m.taint, rank) && Ranked(f, m.objects, rank)
    requires Untainted(m.taint) && (m.taint.Some? ==> Clean(f, BuiltBy(f, m, op)))
    ensures AnswerOf(f, rank, m, op) == PlainAnswer(f, rank, m.objects, op)
    ensures StoreAfter(f, m, op) == PlainStore(f, m.objects, op) && Untainted(Next(f, m, op).taint)
  {
    UntaintedSees(f, m.objects, m.taint, BuiltBy(f, m, op));
    match op
    case SpliceTree(base, p, e) => SpliceUnnoticed(f, m.objects, m.taint, base, p, e);
    case RemoveTree(root, p) => RemoveUnnoticed(f, m.objects, m.taint, root, p);
    case FlattenTree(root, local) => FlattenUnnoticed(f, m.objects, m.taint, rank, root, [], local);
    case FlattenScope(root, p) =>
      var e := Navigate(f, m.objects, root, p);
      if e.Ok? && e.value.Some? && e.value.value.Tree? {
        FlattenUnnoticed(f, m.objects, m.taint, rank, e.value.value.hash, JoinAll([], p), false);
      }
    case LoadTree(h) =>
    case _ =>
  }

  lemma {:induction false} SensibleRun(f: Forms, rank: Hash -> nat, m: Memory, ops: seq<Op>)
    requires SaneRun(f, rank, m, ops)
    ensures forall op :: op in ops ==> Sensible(op)
    decreases |ops|
  {
    if ops != [] {
      SensibleRun(f, rank, Next(f, m, ops[0]), ops[1..]);
      assert ops == [ops[0]] + ops[1..];
    }
  }

  /**
   Over any run of loads, builds, splices, removals and flattens, with the cache switched on
   and off at will: it goes unnoticed exactly when every tree built while it was on had valid
   names.
   */
  lemma {:induction false} CacheUnnoticedExactly(f: Forms, rank: Hash -> nat, m: Memory, ops: seq<Op>)
    requires SaneRun(f, rank, m, ops) && Untainted(m.taint) && TaintOk(f, m)
    ensures forall op :: op in ops ==> Sensible(op)
    ensures Unnoticed(f, rank, m, ops) <==> CleanRun(f, m, ops)
    decreases |ops|
  {
    SensibleRun(f, rank, m, ops);
    UntaintedSees(f, m.objects, m.taint, {});
    RankedUnnoticed(f, m.objects, m.taint, rank);
    if ops != [] {
      var op, m' := ops[0], Next(f, m, ops[0]);
      StepTaint(f, m, op);
      if m.taint.Some? && !Clean(f, BuiltBy(f, m, op)) {
        TaintIsNoticed(f, m, op);
      } else {
        StepUnnoticed(f, rank, m, op);
        CacheUnnoticedExactly(f, rank, m', ops[1..]);
      }
    }
  }

  /** Once a tree with an invalid name is built, it loads from the cache and not without it. */
  lemma {:induction false} TaintIsNoticed(f: Forms, m: Memory, op: Op)
    requires Sensible(op) && TaintOk(f, Next(f, m, op)) && m.taint.Some? && !Clean(f, BuiltBy(f, m, op))
    ensures exists h :: !SeesPlainly(f, Next(f, m, op), h)
  {
    var t :| t in BuiltBy(f, m, op) && !CleanText(f, t);
    assert f.sha(t) in Next(f, m, op).taint.value;
    assert !SeesPlainly(f, Next(f, m, op), f.sha(t));
  }
}
