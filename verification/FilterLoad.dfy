/**
 Loading `.omemfs-filter` files (src/filter.rs): a full walk of the working tree, and a
 scoped load that visits only the ancestors of the scope and the scope itself. For every
 path in the scope the two give the same answers.
 */
module FilterLoad {
  import opened Base
  import opened Glob

  // ----- paths and trees ----------------------------------------------------

  /** A file name: not empty, no slash. */
  type Name = s: string | s != [] && '/' !in s witness "a"

  /** A path below the working directory, component by component. */
  type RelPath = seq<Name>

  /** The forward-slash form that patterns are matched against. */
  function Join(ns: RelPath): string {
    if ns == [] then "" else if |ns| == 1 then ns[0] else ns[0] + "/" + Join(ns[1..])
  }

  datatype FilterFile = FilterFile(ignore: seq<Pattern>, aggregate: seq<Pattern>, lineMerge: seq<Pattern>)

  /** A directory: its own filter file, if any, and its subdirectories as `read_dir` lists them. */
  datatype Dir = Dir(filter: Option<FilterFile>, kids: seq<Kid>)
  datatype Kid = Kid(name: Name, dir: Dir)

  /** No directory lists a name twice. */
  ghost predicate WellFormed(d: Dir) {
    && (forall i, j :: 0 <= i < j < |d.kids| ==> d.kids[i].name != d.kids[j].name)
    && forall i :: 0 <= i < |d.kids| ==> WellFormed(d.kids[i].dir)
  }

  /** Names the walk never enters. */
  predicate Reserved(n: Name) { n == ".omemfs" || n == ".omemfs-filter" }

  // ----- what a loaded list answers -----------------------------------------

  datatype Kind = Ignore | Aggregate | LineMerge

  function Patterns(f: FilterFile, k: Kind): seq<Pattern> {
    match k case Ignore => f.ignore case Aggregate => f.aggregate case LineMerge => f.lineMerge
  }

  /** Loaded filter files, each with the directory it was found in. */
  type Loaded = seq<(RelPath, FilterFile)>

  /** The root's filter applies to every path, any other to those strictly below its directory. */
  predicate Covers(dir: RelPath, p: RelPath) {
    dir == [] || (|dir| < |p| && p[..|dir|] == dir)
  }

  /** A filter sees the paths it covers relative to its directory. */
  ghost predicate Applies(e: (RelPath, FilterFile), k: Kind, p: RelPath) {
    Covers(e.0, p) && SectionMatches(Patterns(e.1, k), Join(p[|e.0|..]))
  }

  /** Some loaded filter says so. */
  ghost predicate Says(fs: Loaded, k: Kind, p: RelPath) {
    exists i :: 0 <= i < |fs| && Applies(fs[i], k, p)
  }

  // ----- the two loads, as functions ----------------------------------------

  ghost function Own(d: Dir, at: RelPath, out: Loaded): Loaded {
    if d.filter.Some? then out + [(at, d.filter.value)] else out
  }

  /** Load a directory's filter, then walk its subdirectories, skipping the ignored ones. */
  ghost function Collect(d: Dir, at: RelPath, out: Loaded): Loaded
    decreases d, 1
  {
    CollectKids(d.kids, at, Own(d, at, out))
  }

  ghost function CollectKids(kids: seq<Kid>, at: RelPath, out: Loaded): Loaded
    decreases kids, 0
  {
    if kids == [] then out else CollectKids(kids[1..], at, KidStep(kids[0], at, out))
  }

  ghost function KidStep(kid: Kid, at: RelPath, out: Loaded): Loaded
    decreases kid, 0
  {
    if Reserved(kid.name) || Says(out, Ignore, at + [kid.name]) then out
    else Collect(kid.dir, at + [kid.name], out)
  }

  function Lookup(kids: seq<Kid>, n: Name): Option<Dir> {
    if kids == [] then None else if kids[0].name == n then Some(kids[0].dir) else Lookup(kids[1..], n)
  }

  /** Load the filters along `scope`, stopping at an ignored or missing ancestor, then walk the scope. */
  ghost function Scoped(d: Dir, at: RelPath, scope: RelPath, out: Loaded): Loaded
    decreases |scope|, 1
  {
    ScopedBelow(d, at, scope, Own(d, at, out))
  }

  ghost function ScopedBelow(d: Dir, at: RelPath, scope: RelPath, out: Loaded): Loaded
    decreases |scope|, 0
  {
    if scope == [] then CollectKids(d.kids, at, out)
    else
      var kid := Lookup(d.kids, scope[0]);
      if Says(out, Ignore, at + [scope[0]]) || kid.None? then out
      else Scoped(kid.value, at + [scope[0]], scope[1..], out)
  }

  /** Only the filters on the way to `path`: what decides every question about it. */
  ghost function Spine(d: Dir, at: RelPath, path: RelPath, out: Loaded): Loaded
    decreases |path|
  {
    var out1 := Own(d, at, out);
    if path == [] then out1
    else
      var kid := Lookup(d.kids, path[0]);
      if Reserved(path[0]) || Says(out1, Ignore, at + [path[0]]) || kid.None? then out1
      else Spine(kid.value, at + [path[0]], path[1..], out1)
  }

  // ----- entries from elsewhere do not matter -------------------------------

  /** `p` is the directory `at` or below it. */
  ghost predicate Within(p: RelPath, at: RelPath) {
    |at| <= |p| && p[..|at|] == at
  }

  /** Two lists give the same answers for every path at or below `at`. */
  ghost predicate SameWithin(f: Loaded, g: Loaded, at: RelPath) {
    forall k, p :: Within(p, at) ==> (Says(f, k, p) <==> Says(g, k, p))
  }

  /** Appending only adds filters of directories at or below `at`. */
  ghost predicate ExtendsWithin(f: Loaded, g: Loaded, at: RelPath) {
    |f| <= |g| && g[..|f|] == f && forall i :: |f| <= i < |g| ==> Within(g[i].0, at)
  }

  /** As above, and strictly below. */
  ghost predicate ExtendsBelow(f: Loaded, g: Loaded, at: RelPath) {
    ExtendsWithin(f, g, at) && forall i :: |f| <= i < |g| ==> |g[i].0| > |at|
  }

  lemma {:induction false} CollectExtends(d: Dir, at: RelPath, out: Loaded)
    ensures ExtendsWithin(out, Collect(d, at, out), at)
    decreases d, 1
  {
    KidsExtend(d.kids, at, Own(d, at, out));
  }

  lemma {:induction false} KidsExtend(kids: seq<Kid>, at: RelPath, out: Loaded)
    ensures ExtendsBelow(out, CollectKids(kids, at, out), at)
    decreases kids, 0
  {
    if kids != [] {
      var Kid(n, d) := kids[0];
      var out1 := KidStep(kids[0], at, out);
      CollectExtends(d, at + [n], out);
      assert ExtendsBelow(out, out1, at) by {
        forall i | |out| <= i < |out1| ensures Within(out1[i].0, at) { assert (at + [n])[..|at|] == at; }
      }
      KidsExtend(kids[1..], at, out1);
      var g := CollectKids(kids[1..], at, out1);
      assert g[..|out|] == g[..|out1|][..|out|];
    }
  }

  /** A filter of a sibling subtree does not apply at or below `at + [n]`. */
  lemma {:induction false} SiblingForeign(e: (RelPath, FilterFile), k: Kind, p: RelPath, at: RelPath, m: Name, n: Name)
    requires Within(e.0, at + [m]) && Within(p, at + [n]) && m != n
    ensures !Applies(e, k, p)
  {
    assert e.0[|at|] == e.0[..|at| + 1][|at|] == m;
    assert p[|at|] == p[..|at| + 1][|at|] == n;
    assert |e.0| <= |p| ==> p[..|e.0|][|at|] == n;
  }

  /** What a sibling subtree loads says nothing about paths at or below `at + [n]`. */
  lemma {:induction false} SiblingSilent(f: Loaded, g: Loaded, at: RelPath, m: Name, n: Name)
    requires ExtendsWithin(f, g, at + [m]) && m != n
    ensures SameWithin(f, g, at + [n])
  {
    forall k, p | Within(p, at + [n])
      ensures Says(f, k, p) <==> Says(g, k, p)
    {
      assert forall i :: 0 <= i < |f| ==> f[i] == g[..|f|][i] == g[i];
      forall i | |f| <= i < |g|
        ensures !Applies(g[i], k, p)
      {
        SiblingForeign(g[i], k, p, at, m, n);
      }
    }
  }

  // ----- both loads reduce to the spine -------------------------------------

  /** Loading the same directory's filter keeps two lists in agreement. */
  lemma {:induction false} OwnSame(d: Dir, at: RelPath, f: Loaded, g: Loaded)
    requires SameWithin(f, g, at)
    ensures SameWithin(Own(d, at, f), Own(d, at, g), at)
  {
    if d.filter.Some? {
      var e := (at, d.filter.value);
      forall k, p
        ensures Says(f + [e], k, p) <==> Says(f, k, p) || Applies(e, k, p)
        ensures Says(g + [e], k, p) <==> Says(g, k, p) || Applies(e, k, p)
      {
        SaysSnoc(f, e, k, p);
        SaysSnoc(g, e, k, p);
      }
    }
  }

  lemma {:induction false} SaysSnoc(f: Loaded, e: (RelPath, FilterFile), k: Kind, p: RelPath)
    ensures Says(f + [e], k, p) <==> Says(f, k, p) || Applies(e, k, p)
  {
    if Says(f, k, p) {
      var i :| 0 <= i < |f| && Applies(f[i], k, p);
      assert (f + [e])[i] == f[i];
    }
    if Applies(e, k, p) { assert (f + [e])[|f|] == e; }
  }

  lemma {:induction false} WithinDeeper(f: Loaded, g: Loaded, at: RelPath, n: Name)
    requires SameWithin(f, g, at)
    ensures SameWithin(f, g, at + [n])
  {
    forall p | Within(p, at + [n])
      ensures Within(p, at)
    {
      assert p[..|at|] == p[..|at| + 1][..|at|];
    }
  }

  /** What is loaded below `at` says nothing about `at` itself. */
  lemma {:induction false} SilentAtSelf(f: Loaded, g: Loaded, at: RelPath, k: Kind)
    requires ExtendsBelow(f, g, at)
    ensures Says(f, k, at) <==> Says(g, k, at)
  {
    assert forall i :: 0 <= i < |f| ==> f[i] == g[..|f|][i] == g[i];
  }

  // ----- what the walk does not enter ---------------------------------------

  /** No directory on the way to the `i`-th filter is reserved, or ignored by a filter loaded before it. */
  ghost predicate Entered(files: Loaded, i: nat, at: RelPath)
    requires i < |files|
  {
    forall q :: Within(files[i].0, q) && |q| > |at| ==>
      !Says(files[..i], Ignore, q) && q[|q| - 1] != ".omemfs" && q[|q| - 1] != ".omemfs-filter"
  }

  lemma {:induction false} CollectEnters(d: Dir, at: RelPath, out: Loaded, i: nat)
    requires |out| <= i < |Collect(d, at, out)|
    ensures Entered(Collect(d, at, out), i, at)
    decreases d, 1
  {
    var own := Own(d, at, out);
    KidsExtend(d.kids, at, own);
    if i < |own| {
      assert Collect(d, at, out)[i] == Collect(d, at, out)[..|own|][i] == own[i];
    } else {
      KidsEnter(d.kids, at, own, i);
    }
  }

  lemma {:induction false} KidsEnter(kids: seq<Kid>, at: RelPath, out: Loaded, i: nat)
    requires |out| <= i < |CollectKids(kids, at, out)|
    ensures Entered(CollectKids(kids, at, out), i, at)
    decreases kids, 0
  {
    var out1, g := KidStep(kids[0], at, out), CollectKids(kids, at, out);
    KidsExtend(kids[1..], at, out1);
    if i < |out1| {
      var Kid(n, d) := kids[0];
      CollectEnters(d, at + [n], out, i);
      CollectExtends(d, at + [n], out);
      KidEnters(out, out1, i, at, n);
      assert g[i] == g[..|out1|][i] && g[..i] == g[..|out1|][..i];
    } else {
      KidsEnter(kids[1..], at, out1, i);
    }
  }

  lemma {:induction false} KidEnters(out: Loaded, files: Loaded, i: nat, at: RelPath, n: Name)
    requires |out| <= i < |files| && ExtendsWithin(out, files, at + [n]) && Entered(files, i, at + [n])
    requires !Says(out, Ignore, at + [n]) && n != ".omemfs" && n != ".omemfs-filter"
    ensures Entered(files, i, at)
  {
    forall q | Within(files[i].0, q) && |q| > |at|
      ensures !Says(files[..i], Ignore, q) && q[|q| - 1] != ".omemfs" && q[|q| - 1] != ".omemfs-filter"
    {
      if |q| == |at| + 1 {
        assert q == at + [n];
        forall j | 0 <= j < i
          ensures !Applies(files[..i][j], Ignore, q)
        {
          if j < |out| { assert files[j] == files[..|out|][j] == out[j]; }
        }
      }
    }
  }

  /** So nothing is loaded from an ignored or reserved directory, or from below one. */
  lemma {:induction false} IgnoredIsNotEntered(root: Dir, i: nat, q: RelPath)
    requires i < |Collect(root, [], [])| && q != [] && Within(Collect(root, [], [])[i].0, q)
    ensures !Says(Collect(root, [], [])[..i], Ignore, q)
    ensures q[|q| - 1] != ".omemfs" && q[|q| - 1] != ".omemfs-filter"
  {
    CollectEnters(root, [], [], i);
  }

  ghost predicate Distinct(kids: seq<Kid>) {
    forall i, j :: 0 <= i < j < |kids| ==> kids[i].name != kids[j].name
  }

  /** Walking siblings leaves every answer at or below `at + [n]` as it was. */
  lemma {:induction false} KidsSilent(kids: seq<Kid>, at: RelPath, out: Loaded, n: Name)
    requires forall i :: 0 <= i < |kids| ==> kids[i].name != n
    ensures SameWithin(out, CollectKids(kids, at, out), at + [n])
    decreases |kids|
  {
    if kids != [] {
      var out1 := KidStep(kids[0], at, out);
      KidStepSilent(kids[0], at, out, n);
      KidsSilent(kids[1..], at, out1, n);
    }
  }

  lemma {:induction false} KidStepSilent(kid: Kid, at: RelPath, out: Loaded, n: Name)
    requires kid.name != n
    ensures SameWithin(out, KidStep(kid, at, out), at + [n])
  {
    CollectExtends(kid.dir, at + [kid.name], out);
    if KidStep(kid, at, out) != out {
      SiblingSilent(out, KidStep(kid, at, out), at, kid.name, n);
    }
  }

  ghost function SpineKids(kids: seq<Kid>, at: RelPath, path: RelPath, out: Loaded): Loaded
    requires path != []
  {
    var kid := Lookup(kids, path[0]);
    if Reserved(path[0]) || Says(out, Ignore, at + [path[0]]) || kid.None? then out
    else Spine(kid.value, at + [path[0]], path[1..], out)
  }

  /** The full walk answers like the spine for the path it leads to. */
  lemma {:induction false} CollectIsSpine(d: Dir, at: RelPath, path: RelPath, f: Loaded, g: Loaded, k: Kind)
    requires WellFormed(d) && SameWithin(f, g, at)
    ensures Says(Collect(d, at, f), k, at + path) <==> Says(Spine(d, at, path, g), k, at + path)
    decreases d, 1
  {
    OwnSame(d, at, f, g);
    var f1, g1 := Own(d, at, f), Own(d, at, g);
    if path == [] {
      assert at + path == at && Within(at, at);
      KidsExtend(d.kids, at, f1);
      SilentAtSelf(f1, Collect(d, at, f), at, k);
    } else {
      WithinDeeper(f1, g1, at, path[0]);
      KidsAreSpine(d.kids, at, path, f1, g1, k);
    }
  }

  lemma {:induction false} KidsAreSpine(kids: seq<Kid>, at: RelPath, path: RelPath, f: Loaded, g: Loaded, k: Kind)
    requires Distinct(kids) && forall i :: 0 <= i < |kids| ==> WellFormed(kids[i].dir)
    requires path != [] && SameWithin(f, g, at + [path[0]])
    ensures Says(CollectKids(kids, at, f), k, at + path) <==> Says(SpineKids(kids, at, path, g), k, at + path)
    decreases kids, 0
  {
    var n := path[0];
    PathWithin(at, path);
    if kids != [] {
      var f1 := KidStep(kids[0], at, f);
      if kids[0].name == n {
        KidsSilent(kids[1..], at, f1, n);
        KidIsSpine(kids[0], at, path, f, g, k);
      } else {
        KidStepSilent(kids[0], at, f, n);
        assert SameWithin(f1, g, at + [n]);
        KidsAreSpine(kids[1..], at, path, f1, g, k);
      }
    }
  }

  lemma {:induction false} PathWithin(at: RelPath, path: RelPath)
    requires path != []
    ensures Within(at + path, at + [path[0]]) && Within(at + [path[0]], at + [path[0]])
  {
    assert (at + path)[..|at| + 1] == at + [path[0]];
  }

  /** The child the path goes through, or its being skipped. */
  lemma {:induction false} KidIsSpine(kid: Kid, at: RelPath, path: RelPath, f: Loaded, g: Loaded, k: Kind)
    requires WellFormed(kid.dir) && path != [] && kid.name == path[0] && SameWithin(f, g, at + [path[0]])
    ensures Says(KidStep(kid, at, f), k, at + path) <==> Says(SpineKids([kid], at, path, g), k, at + path)
    decreases kid, 0
  {
    PathWithin(at, path);
    if !Reserved(kid.name) && !Says(f, Ignore, at + [kid.name]) {
      assert at + [path[0]] + path[1..] == at + path;
      CollectIsSpine(kid.dir, at + [kid.name], path[1..], f, g, k);
    }
  }

  /** The scoped load answers like the spine for every path in the scope. */
  lemma {:induction false} ScopedIsSpine(d: Dir, at: RelPath, scope: RelPath, rest: RelPath, f: Loaded, k: Kind)
    requires WellFormed(d) && forall n :: n in scope ==> !Reserved(n)
    ensures Says(Scoped(d, at, scope, f), k, at + scope + rest) <==>
            Says(Spine(d, at, scope + rest, f), k, at + scope + rest)
    decreases |scope|
  {
    if scope == [] {
      assert scope + rest == rest && at + scope + rest == at + rest;
      CollectIsSpine(d, at, rest, f, f, k);
    } else {
      var n := scope[0];
      assert (scope + rest)[1..] == scope[1..] + rest;
      assert at + [n] + scope[1..] + rest == at + scope + rest;
      var kid := Lookup(d.kids, n);
      if kid.Some? {
        LookupWellFormed(d.kids, n);
        ScopedIsSpine(kid.value, at + [n], scope[1..], rest, Own(d, at, f), k);
      }
    }
  }

  lemma {:induction false} LookupWellFormed(kids: seq<Kid>, n: Name)
    requires (forall i :: 0 <= i < |kids| ==> WellFormed(kids[i].dir)) && Lookup(kids, n).Some?
    ensures WellFormed(Lookup(kids, n).value)
  {
    if kids[0].name != n { LookupWellFormed(kids[1..], n); }
  }

  /**
   For every tree, every scope that avoids the reserved names and every path at or below it,
   the scoped load and the full load agree on ignored, aggregated and line-merged, also when
   an ancestor of the scope is itself ignored.
   */
  lemma {:induction false} ScopedAnswersLikeFull(root: Dir, scope: RelPath, rest: RelPath, k: Kind)
    requires WellFormed(root) && forall n :: n in scope ==> !Reserved(n)
    ensures Says(Scoped(root, [], scope, []), k, scope + rest) <==> Says(Collect(root, [], []), k, scope + rest)
  {
    var none: RelPath := [];
    assert none + scope + rest == scope + rest && none + (scope + rest) == scope + rest;
    ScopedIsSpine(root, [], scope, rest, [], k);
    CollectIsSpine(root, [], scope + rest, [], [], k);
  }

  /** Directories along `scope`, empty but for one filter at its end. */
  ghost function Chain(scope: RelPath, f: FilterFile): Dir {
    if scope == [] then Dir(Some(f), []) else Dir(None, [Kid(scope[0], Chain(scope[1..], f))])
  }

  lemma {:induction false} ChainWellFormed(scope: RelPath, f: FilterFile)
    ensures WellFormed(Chain(scope, f))
  {
    if scope != [] { ChainWellFormed(scope[1..], f); }
  }

  /** The scoped load goes to the end of the chain. */
  lemma {:induction false} ScopedChain(scope: RelPath, at: RelPath, f: FilterFile)
    ensures Scoped(Chain(scope, f), at, scope, []) == [(at + scope, f)]
    decreases |scope|
  {
    if scope == [] {
      assert at + scope == at;
      assert Own(Chain(scope, f), at, []) == [(at, f)];
    } else {
      var kid := Kid(scope[0], Chain(scope[1..], f));
      assert Lookup([kid], scope[0]) == Some(kid.dir);
      assert !Says([], Ignore, at + [scope[0]]);
      ScopedChain(scope[1..], at + [scope[0]], f);
      assert at + [scope[0]] + scope[1..] == at + scope;
    }
  }

  /** The full walk never gets behind a reserved name. */
  lemma {:induction false} CollectChain(scope: RelPath, at: RelPath, f: FilterFile)
    requires exists n :: n in scope && Reserved(n)
    ensures Collect(Chain(scope, f), at, []) == []
    decreases |scope|
  {
    var kid := Kid(scope[0], Chain(scope[1..], f));
    assert CollectKids([kid], at, []) == CollectKids([], at, KidStep(kid, at, [])) by { assert [kid][1..] == []; }
    if !Reserved(scope[0]) {
      var n: Name :| n in scope && Reserved(n);
      assert n in scope[1..];
      assert !Says([], Ignore, at + [scope[0]]);
      CollectChain(scope[1..], at + [scope[0]], f);
    }
  }

  const FILTER := FilterFile([Pattern("a", true, false)], [], [])

  lemma {:induction false} FilterIgnores()
    ensures SectionMatches(FILTER.ignore, "a")
  {
    assert Matches("a"[1..], "a"[1..]);
    assert PatternMatches(FILTER.ignore[0], "a");
    assert Decides(FILTER.ignore, 1, "a", 0);
  }

  /** Through a reserved name, at any depth, the scoped load sees a filter the full walk does not. */
  lemma {:induction false} ReservedScopeDiffers(scope: RelPath)
    requires exists n :: n in scope && Reserved(n)
    ensures var root := Chain(scope, FILTER);
            && WellFormed(root)
            && Says(Scoped(root, [], scope, []), Ignore, scope + ["a"])
            && !Says(Collect(root, [], []), Ignore, scope + ["a"])
  {
    var none: RelPath := [];
    ChainWellFormed(scope, FILTER);
    ScopedChain(scope, none, FILTER);
    CollectChain(scope, none, FILTER);
    FilterIgnores();
    var e, p := (scope, FILTER), scope + ["a"];
    assert none + scope == scope && p[..|scope|] == scope && p[|scope|..] == ["a"];
    assert Applies(e, Ignore, p);
    assert [e][0] == e;
  }

  /** Scoped and full loading agree about every path in the scope, for every tree. */
  ghost predicate ScopeAgrees(scope: RelPath) {
    forall root, rest, k | WellFormed(root) ::
      Says(Scoped(root, [], scope, []), k, scope + rest) <==> Says(Collect(root, [], []), k, scope + rest)
  }

  /** They agree for all trees exactly when the scope avoids the reserved names. */
  lemma {:induction false} ScopedAgreesExactly(scope: RelPath)
    ensures ScopeAgrees(scope) <==> ".omemfs" !in scope && ".omemfs-filter" !in scope
  {
    if forall n :: n in scope ==> !Reserved(n) {
      forall root, rest, k | WellFormed(root)
        ensures Says(Scoped(root, [], scope, []), k, scope + rest) <==> Says(Collect(root, [], []), k, scope + rest)
      {
        ScopedAnswersLikeFull(root, scope, rest, k);
      }
    } else {
      ReservedScopeDiffers(scope);
      var rest: RelPath := ["a"];
      assert !(Says(Scoped(Chain(scope, FILTER), [], scope, []), Ignore, scope + rest) <==>
               Says(Collect(Chain(scope, FILTER), [], []), Ignore, scope + rest));
    }
  }

  // ----- the same on strings ------------------------------------------------

  function SlashPos(s: string): nat {
    if s == [] || s[0] == '/' then 0 else 1 + SlashPos(s[1..])
  }

  lemma {:induction false} SlashPosIs(s: string, e: nat)
    requires e < |s| && s[e] == '/' && forall j :: 0 <= j < e ==> s[j] != '/'
    ensures SlashPos(s) == e
  {
    if e > 0 { SlashPosIs(s[1..], e - 1); }
  }

  /** Two slash-free names, each followed by a slash: one text starts the other only if the names agree. */
  lemma {:induction false} FirstNameAgrees(a: string, x: string, b: string, y: string)
    requires '/' !in a && '/' !in b
    ensures StartsWith(b + "/" + y, a + "/" + x) <==> a == b && StartsWith(y, x)
  {
    var s, t := b + "/" + y, a + "/" + x;
    if StartsWith(s, t) {
      assert forall i :: 0 <= i < |t| ==> s[..|t|][i] == s[i] == t[i];
      SlashPosIs(s, |b|);
      SlashPosIs(s, |a|);
      assert a == s[..|t|][..|a|] == b;
      assert y[..|x|] == s[..|t|][|a| + 1..];
    }
    if a == b && StartsWith(y, x) {
      assert s[..|t|] == a + "/" + y[..|x|];
    }
  }

  lemma {:induction false} StartMember(s: string, t: string, i: nat)
    requires i < |t| && StartsWith(s, t)
    ensures t[i] in s
  {
    assert t[i] == s[..|t|][i] == s[i];
  }

  lemma {:induction false} CoversTail(dir: RelPath, p: RelPath)
    requires |dir| > 1 && p != [] && p[0] == dir[0]
    ensures Covers(dir, p) <==> Covers(dir[1..], p[1..])
    ensures |dir| <= |p| ==> p[1..][|dir| - 1..] == p[|dir|..]
  {
    if |dir| <= |p| {
      assert p[1..][..|dir| - 1] == p[..|dir|][1..];
      assert p[..|dir|] == [p[0]] + p[1..][..|dir| - 1];
    }
  }

  /** `strip_prefix(dir + "/")` succeeds exactly below `dir`, and leaves the relative path. */
  lemma {:induction false} StripIsDrop(dir: RelPath, p: RelPath)
    requires dir != []
    ensures StartsWith(Join(p), Join(dir) + "/") <==> Covers(dir, p)
    ensures Covers(dir, p) ==> |Join(dir)| + 1 <= |Join(p)| && Join(p)[|Join(dir)| + 1..] == Join(p[|dir|..])
    decreases |dir|
  {
    if |p| <= 1 {
      if StartsWith(Join(p), Join(dir) + "/") { StartMember(Join(p), Join(dir) + "/", |Join(dir)|); }
    } else if |dir| == 1 {
      assert Join(dir) + "/" == dir[0] + "/" + "";
      FirstNameAgrees(dir[0], "", p[0], Join(p[1..]));
      assert p[..1] == [p[0]];
    } else {
      assert Join(dir) + "/" == dir[0] + "/" + (Join(dir[1..]) + "/");
      FirstNameAgrees(dir[0], Join(dir[1..]) + "/", p[0], Join(p[1..]));
      if dir[0] == p[0] {
        StripIsDrop(dir[1..], p[1..]);
        CoversTail(dir, p);
        assert Join(p)[|dir[0]| + 1..] == Join(p[1..]);
      } else {
        assert |dir| <= |p| ==> p[..|dir|][0] == p[0];
      }
    }
  }

  /** The non-empty pieces of a scope string between slashes. */
  function Components(s: string, cur: string := ""): RelPath
    requires '/' !in cur
  {
    if s == "" then (if cur == "" then [] else [cur])
    else if s[0] == '/' then (if cur == "" then [] else [cur]) + Components(s[1..], "")
    else Components(s[1..], cur + [s[0]])
  }

  /** A scope string names exactly the components it was joined from. */
  lemma {:induction false} ComponentsOfJoin(ns: RelPath)
    ensures Components(Join(ns)) == ns
  {
    if ns != [] {
      ComponentsStep(ns, "", ns[0]);
      JoinStep(ns);
    }
  }

  lemma {:induction false} JoinStep(ns: RelPath)
    requires ns != []
    ensures Join(ns) == ns[0] + (if |ns| == 1 then "" else "/" + Join(ns[1..]))
  {
    if |ns| == 1 {
      assert ns[0] + "" == ns[0];
    } else {
      assert ns[0] + "/" + Join(ns[1..]) == ns[0] + ("/" + Join(ns[1..]));
    }
  }

  lemma {:induction false} ComponentsStep(ns: RelPath, cur: string, left: string)
    requires ns != [] && cur + left == ns[0] && '/' !in cur && '/' !in left
    ensures Components(left + (if |ns| == 1 then "" else "/" + Join(ns[1..])), cur) == ns
    decreases |ns|, |left|
  {
    var s := left + (if |ns| == 1 then "" else "/" + Join(ns[1..]));
    if left != [] {
      assert s[1..] == left[1..] + (if |ns| == 1 then "" else "/" + Join(ns[1..]));
      assert left == [left[0]] + left[1..] && cur + [left[0]] + left[1..] == cur + left;
      ComponentsStep(ns, cur + [left[0]], left[1..]);
    } else if |ns| > 1 {
      assert s[1..] == Join(ns[1..]) && cur == ns[0];
      ComponentsStep(ns[1..], "", ns[1]);
      JoinStep(ns[1..]);
      assert ns == [ns[0]] + ns[1..];
    } else {
      assert cur + left == cur && s == "" && ns == [cur];
    }
  }

  /** Each question is put to its own section, of the filters whose directory the path is below. */
  ghost predicate Answers(section: FilterFile -> seq<Pattern>, fs: Loaded, p: RelPath) {
    exists i, rest :: 0 <= i < |fs| && p == fs[i].0 + rest && (fs[i].0 == [] || rest != [])
      && SectionMatches(section(fs[i].1), Join(rest))
  }

  lemma {:induction false} AnswersBySection(fs: Loaded, p: RelPath)
    ensures Says(fs, Ignore, p) <==> Answers((f: FilterFile) => f.ignore, fs, p)
    ensures Says(fs, Aggregate, p) <==> Answers((f: FilterFile) => f.aggregate, fs, p)
    ensures Says(fs, LineMerge, p) <==> Answers((f: FilterFile) => f.lineMerge, fs, p)
  {
    AnswersOf(fs, Ignore, (f: FilterFile) => f.ignore, p);
    AnswersOf(fs, Aggregate, (f: FilterFile) => f.aggregate, p);
    AnswersOf(fs, LineMerge, (f: FilterFile) => f.lineMerge, p);
  }

  lemma {:induction false} AnswersOf(fs: Loaded, k: Kind, section: FilterFile -> seq<Pattern>, p: RelPath)
    requires forall f :: section(f) == Patterns(f, k)
    ensures Says(fs, k, p) <==> Answers(section, fs, p)
  {
    if i :| 0 <= i < |fs| && Applies(fs[i], k, p) {
      var rest := p[|fs[i].0|..];
      assert p == fs[i].0 + rest;
    }
    if i: int, rest: RelPath :| 0 <= i < |fs| && p == fs[i].0 + rest && (fs[i].0 == [] || rest != [])
                                && SectionMatches(section(fs[i].1), Join(rest)) {
      assert p[|fs[i].0|..] == rest && p[..|fs[i].0|] == fs[i].0;
      assert Applies(fs[i], k, p);
    }
  }

  // ----- the loader ---------------------------------------------------------

  /** A loaded set of filter files; the walks push onto `files`. */
  class FilterSet {
    var files: Loaded

    constructor ()
      ensures files == []
    {
      files := [];
    }

    /** Does some loaded filter say `k` of `p`? */
    method Test(k: Kind, p: RelPath) returns (b: bool)
      ensures b == Says(files, k, p)
    {
      for i := 0 to |files|
        invariant forall j :: 0 <= j < i ==> !Applies(files[j], k, p)
      {
        var (dir, ff) := files[i];
        var path := Join(p);
        if dir == [] {
          assert p[0..] == p;
        } else {
          StripIsDrop(dir, p);
          if !StartsWith(path, Join(dir) + "/") { continue; }
          path := path[|Join(dir)| + 1..];
        }
        var hit := MatchSection(Patterns(ff, k), path);
        if hit { return true; }
      }
      b := false;
    }

    /** Append a directory's own filter, if it has one. */
    method LoadFilterFile(d: Dir, at: RelPath)
      modifies this
      ensures files == Own(d, at, old(files))
    {
      if d.filter.Some? { files := files + [(at, d.filter.value)]; }
    }

    /** Walk a directory top-down. */
    method CollectFilterFiles(d: Dir, at: RelPath)
      modifies this
      ensures files == Collect(d, at, old(files))
      decreases d, 1
    {
      LoadFilterFile(d, at);
      WalkKids(d.kids, at);
    }

    /** Descend into the subdirectories that nothing loaded so far ignores. */
    method WalkKids(kids: seq<Kid>, at: RelPath)
      modifies this
      ensures files == CollectKids(kids, at, old(files))
      decreases kids, 0
    {
      ghost var before := files;
      var i := 0;
      assert kids[0..] == kids;
      while i < |kids|
        invariant 0 <= i <= |kids|
        invariant CollectKids(kids[i..], at, files) == CollectKids(kids, at, before)
      {
        assert kids[i..][1..] == kids[i + 1..];
        if !Reserved(kids[i].name) {
          var ignored := Test(Ignore, at + [kids[i].name]);
          if !ignored { CollectFilterFiles(kids[i].dir, at + [kids[i].name]); }
        }
        i := i + 1;
      }
    }

    method Load(root: Dir)
      requires files == []
      modifies this
      ensures files == Collect(root, [], [])
    {
      CollectFilterFiles(root, []);
    }

    /** Load only what can affect paths under `prefix`. */
    method LoadScoped(root: Dir, prefix: string)
      requires files == []
      modifies this
      ensures files == Scoped(root, [], Components(prefix), [])
    {
      var comps := Components(prefix);
      LoadFilterFile(root, []);
      var cur, at: RelPath := Some(root), [];
      var i := 0;
      assert comps[0..] == comps;
      while i < |comps|
        invariant 0 <= i <= |comps|
        invariant Scoped(root, [], comps, []) ==
                  if cur.Some? then ScopedBelow(cur.value, at, comps[i..], files) else files
      {
        assert comps[i..][1..] == comps[i + 1..];
        var next := at + [comps[i]];
        var ignored := Test(Ignore, next);
        if ignored { return; }
        cur := if cur.Some? then Lookup(cur.value.kids, comps[i]) else None;
        at := next;
        if cur.Some? { LoadFilterFile(cur.value, at); }
        i := i + 1;
      }
      if cur.Some? { WalkKids(cur.value.kids, at); }
    }
  }
}
