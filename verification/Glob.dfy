/**
 Pattern matching of `.omemfs-filter` files (src/filter.rs). The greedy leftmost matcher
 is proved equal to the declarative rule in which every `*` stands for any slash-free text.
 */
module Glob {
  import opened Base

  // ----- the declarative rule -----------------------------------------------

  predicate NoSlash(s: string) { '/' !in s }

  /** `*` stands for any slash-free text; every other character for itself. */
  ghost predicate Matches(pat: string, name: string) {
    if pat == [] then name == []
    else if pat[0] == '*' then
      exists k :: 0 <= k <= |name| && NoSlash(name[..k]) && Matches(pat[1..], name[k..])
    else name != [] && name[0] == pat[0] && Matches(pat[1..], name[1..])
  }

  // ----- the same rule on the pieces between the stars ----------------------

  /** `pattern.split('*')`. */
  function Split(pat: string): (r: seq<string>)
    ensures |r| > 0 && (|r| > 1 <==> '*' in pat)
  {
    if pat == [] then [[]]
    else
      var rest := Split(pat[1..]);
      if pat[0] == '*' then [[]] + rest else [[pat[0]] + rest[0]] + rest[1..]
  }

  /** `s` is the first piece followed by what the other pieces match. */
  ghost predicate Anchored(parts: seq<string>, s: string)
    requires |parts| > 0
    decreases |parts|, 0
  {
    StartsWith(s, parts[0])
    && if |parts| == 1 then s == parts[0] else Floating(parts[1..], s[|parts[0]|..])
  }

  /** The pieces match after some slash-free text, the one a star stands for. */
  ghost predicate Floating(parts: seq<string>, s: string)
    requires |parts| > 0
    decreases |parts|, 1
  {
    exists k :: 0 <= k <= |s| && NoSlash(s[..k]) && Anchored(parts, s[k..])
  }

  lemma {:induction false} StartsWithCons(c: char, part: string, name: string)
    requires name != [] && name[0] == c
    ensures StartsWith(name, [c] + part) <==> StartsWith(name[1..], part)
  {
    if StartsWith(name, [c] + part) { assert name[1..][..|part|] == name[..1 + |part|][1..]; }
    if StartsWith(name[1..], part) { assert name[..1 + |part|] == [name[0]] + name[1..][..|part|]; }
  }

  /** A literal character in front of the first piece. */
  lemma {:induction false} AnchoredCons(c: char, parts: seq<string>, name: string)
    requires |parts| > 0
    ensures Anchored([[c] + parts[0]] + parts[1..], name) <==> name != [] && name[0] == c && Anchored(parts, name[1..])
  {
    var ps := [[c] + parts[0]] + parts[1..];
    if name != [] && name[0] == c {
      StartsWithCons(c, parts[0], name);
      assert ps[1..] == parts[1..];
      assert |parts[0]| < |name| ==> name[1..][|parts[0]|..] == name[|ps[0]|..];
      assert name == [c] + name[1..];
    }
  }

  lemma {:induction false} MatchesByPieces(pat: string, name: string)
    ensures Matches(pat, name) <==> Anchored(Split(pat), name)
    decreases |pat|
  {
    if pat != [] {
      var rest := Split(pat[1..]);
      if pat[0] == '*' {
        assert Split(pat)[1..] == rest && name[0..] == name;
        forall k | 0 <= k <= |name|
          ensures Matches(pat[1..], name[k..]) <==> Anchored(rest, name[k..])
        {
          MatchesByPieces(pat[1..], name[k..]);
        }
      } else {
        AnchoredCons(pat[0], rest, name);
        if name != [] { MatchesByPieces(pat[1..], name[1..]); }
      }
    }
  }

  // ----- why leftmost is enough ---------------------------------------------

  /** Slash-free text in front changes nothing: the star absorbs it. */
  lemma {:induction false} FloatingAbsorbs(parts: seq<string>, x: string, y: string)
    requires |parts| > 0 && NoSlash(x) && Floating(parts, y)
    ensures Floating(parts, x + y)
  {
    var k :| 0 <= k <= |y| && NoSlash(y[..k]) && Anchored(parts, y[k..]);
    assert (x + y)[..|x| + k] == x + y[..k];
    assert (x + y)[|x| + k..] == y[k..];
  }

  ghost predicate OccursAt(s: string, part: string, p: nat) {
    p <= |s| && StartsWith(s[p..], part)
  }

  /** A later occurrence after slash-free text is no better than the leftmost one. */
  lemma {:induction false} LeftmostIsBest(parts: seq<string>, s: string, p0: nat, p: nat)
    requires |parts| > 1 && p0 <= p && OccursAt(s, parts[0], p0) && OccursAt(s, parts[0], p)
    requires NoSlash(s[..p]) && Floating(parts[1..], s[p + |parts[0]|..])
    ensures Floating(parts[1..], s[p0 + |parts[0]|..])
  {
    var part, n := parts[0], |parts[0]|;
    if p0 < p {
      assert NoSlash(s[p0 + n..p + n]) by {
        forall i | p0 + n <= i < p + n
          ensures s[i] != '/'
        {
          if i < p {
            assert s[..p][i] == s[i];
          } else {
            // the same character occurs in the leftmost copy, before `p` or further left in this one
            NoSlashInOverlap(s, part, p0, p, i - p);
          }
        }
      }
      assert s[p0 + n..] == s[p0 + n..p + n] + s[p + n..];
      FloatingAbsorbs(parts[1..], s[p0 + n..p + n], s[p + n..]);
    }
  }

  /** Two overlapping occurrences, the text before the later one slash-free: the piece has no slash. */
  lemma {:induction false} NoSlashInOverlap(s: string, part: string, p0: nat, p: nat, j: nat)
    requires p0 < p && OccursAt(s, part, p0) && OccursAt(s, part, p) && NoSlash(s[..p]) && j < |part|
    ensures part[j] != '/' && s[p + j] != '/'
    decreases j
  {
    assert s[p..][..|part|][j] == s[p + j];
    assert s[p0..][..|part|][j] == s[p0 + j];
    if p0 + j < p {
      assert s[..p][p0 + j] == s[p0 + j];
    } else {
      NoSlashInOverlap(s, part, p0, p, p0 + j - p);
    }
  }

  // ----- the matcher --------------------------------------------------------

  /** `str::find`: the leftmost occurrence. */
  method Find(s: string, part: string) returns (r: Option<nat>)
    ensures Leftmost(s, part, r)
  {
    var i := 0;
    while i <= |s|
      invariant i <= |s| + 1
      invariant forall p :: 0 <= p < i ==> !OccursAt(s, part, p)
    {
      if StartsWith(s[i..], part) { return Some(i); }
      i := i + 1;
    }
    r := None;
  }

  /** The greedy matcher accepts exactly the names the declarative rule accepts. */
  method GlobMatch(pat: string, name: string) returns (ok: bool)
    ensures ok == Matches(pat, name)
  {
    MatchesByPieces(pat, name);
    var parts := Split(pat);
    if '*' !in pat {
      LiteralPiece(pat);
      return pat == name;
    }
    var n := |parts|;
    if !StartsWith(name, parts[0]) { return false; }
    var remaining := name[|parts[0]|..];
    var i := 1;
    while i < n - 1
      invariant 1 <= i < n
      invariant Matches(pat, name) <==> Floating(parts[i..], remaining)
    {
      var pos := Find(remaining, parts[i]);
      FloatingLeftmost(parts[i..], remaining, pos);
      assert parts[i..][1..] == parts[i + 1..];
      if pos.None? || !NoSlash(remaining[..pos.value]) { return false; }
      remaining := remaining[pos.value + |parts[i]|..];
      i := i + 1;
    }
    assert parts[i..] == [parts[i]];
    FloatingLast(parts[i], remaining);
    ok := EndsWith(remaining, parts[i]) && NoSlash(remaining[..|remaining| - |parts[i]|]);
  }

  lemma {:induction false} LiteralPiece(pat: string)
    requires '*' !in pat
    ensures Split(pat) == [pat]
  {
    if pat != [] {
      LiteralPiece(pat[1..]);
      assert pat == [pat[0]] + pat[1..];
    }
  }

  /** What `Find` reports. */
  ghost predicate Leftmost(s: string, part: string, pos: Option<nat>) {
    if pos.Some? then OccursAt(s, part, pos.value) && forall p :: OccursAt(s, part, p) ==> pos.value <= p
    else forall p :: !OccursAt(s, part, p)
  }

  lemma {:induction false} LeftmostNecessary(parts: seq<string>, s: string, pos: Option<nat>)
    requires |parts| > 1 && Leftmost(s, parts[0], pos) && Floating(parts, s)
    ensures pos.Some? && NoSlash(s[..pos.value]) && Floating(parts[1..], s[pos.value + |parts[0]|..])
  {
    var k :| 0 <= k <= |s| && NoSlash(s[..k]) && Anchored(parts, s[k..]);
    assert OccursAt(s, parts[0], k);
    assert s[k..][|parts[0]|..] == s[k + |parts[0]|..];
    LeftmostIsBest(parts, s, pos.value, k);
    assert s[..pos.value] == s[..k][..pos.value];
  }

  /** A middle piece matches exactly when its leftmost occurrence does. */
  lemma {:induction false} FloatingLeftmost(parts: seq<string>, s: string, pos: Option<nat>)
    requires |parts| > 1 && Leftmost(s, parts[0], pos)
    ensures Floating(parts, s) <==>
            pos.Some? && NoSlash(s[..pos.value]) && Floating(parts[1..], s[pos.value + |parts[0]|..])
  {
    if Floating(parts, s) {
      LeftmostNecessary(parts, s, pos);
    } else if pos.Some? && NoSlash(s[..pos.value]) && Floating(parts[1..], s[pos.value + |parts[0]|..]) {
      assert s[pos.value..][|parts[0]|..] == s[pos.value + |parts[0]|..];
      assert Anchored(parts, s[pos.value..]);
    }
  }

  /** The last piece must end the name. */
  lemma {:induction false} FloatingLast(part: string, s: string)
    ensures Floating([part], s) <==> EndsWith(s, part) && NoSlash(s[..|s| - |part|])
  {
    if EndsWith(s, part) && NoSlash(s[..|s| - |part|]) {
      assert Anchored([part], s[|s| - |part|..]);
    }
  }

  // ----- patterns and sections ----------------------------------------------

  /** A parsed filter line; `text` has lost a leading `!` and a leading `/`. */
  datatype Pattern = Pattern(text: string, anchored: bool, negated: bool)

  /** A component starts at `k`: at the front or just after a slash. */
  predicate Boundary(path: string, k: nat) {
    k == 0 || (k <= |path| && path[k - 1] == '/')
  }

  /** What an unanchored pattern has to match, without the redundant `**` prefix. */
  function Body(p: Pattern): string {
    if StartsWith(p.text, "**/") then p.text[3..] else p.text
  }

  /** An anchored pattern matches the whole path; any other matches some suffix that starts a component. */
  ghost predicate PatternMatches(p: Pattern, path: string) {
    if p.anchored then Matches(p.text, path)
    else exists k :: 0 <= k <= |path| && Boundary(path, k) && Matches(Body(p), path[k..])
  }

  /** The next boundary after `at` is just behind the next slash. */
  lemma {:induction false} NextBoundary(path: string, at: nat, pos: Option<nat>)
    requires at <= |path| && Leftmost(path[at..], "/", pos)
    ensures pos.None? ==> forall k :: at < k <= |path| ==> !Boundary(path, k)
    ensures pos.Some? ==> at + pos.value + 1 <= |path| && Boundary(path, at + pos.value + 1)
                          && forall k :: at < k < at + pos.value + 1 ==> !Boundary(path, k)
  {
    var rest := path[at..];
    assert pos.Some? ==> rest[pos.value..][..1] == "/" && rest[pos.value] == '/';
    forall k | at < k <= |path| && Boundary(path, k)
      ensures OccursAt(rest, "/", k - 1 - at)
    {
      assert rest[k - 1 - at..][..1] == [path[k - 1]];
    }
  }

  /** The walk over slashes tries exactly the component boundaries. */
  method MatchPattern(p: Pattern, path: string) returns (ok: bool)
    ensures ok == PatternMatches(p, path)
  {
    if p.anchored {
      ok := GlobMatch(p.text, path);
      return;
    }
    var body := Body(p);
    assert path[0..] == path;
    ok := GlobMatch(body, path);
    if ok { return; }
    var rest, at := path, 0;
    while true
      invariant at <= |path| && rest == path[at..]
      invariant forall k :: 0 <= k <= at && Boundary(path, k) ==> !Matches(body, path[k..])
      decreases |path| - at
    {
      var pos := Find(rest, "/");
      NextBoundary(path, at, pos);
      if pos.None? { return false; }
      at := at + pos.value + 1;
      rest := rest[pos.value + 1..];
      ok := GlobMatch(body, rest);
      if ok { return; }
    }
  }

  /** The last pattern that matches decides, and a negated one decides against. */
  ghost predicate SectionMatches(ps: seq<Pattern>, path: string) {
    Decided(ps, |ps|, path)
  }

  method MatchSection(ps: seq<Pattern>, path: string) returns (matched: bool)
    ensures matched == SectionMatches(ps, path)
  {
    matched := false;
    for i := 0 to |ps|
      invariant matched == Decided(ps, i, path)
    {
      var hit := MatchPattern(ps[i], path);
      SectionNext(ps, i, path);
      if hit { matched := !ps[i].negated; }
    }
  }

  /** `i` is the last of the first `n` patterns to match, and it is not negated. */
  ghost predicate Decides(ps: seq<Pattern>, n: nat, path: string, i: nat)
    requires n <= |ps|
  {
    i < n && PatternMatches(ps[i], path) && !ps[i].negated
    && forall j :: i < j < n ==> !PatternMatches(ps[j], path)
  }

  ghost predicate Decided(ps: seq<Pattern>, n: nat, path: string)
    requires n <= |ps|
  {
    exists i :: Decides(ps, n, path, i)
  }

  lemma {:induction false} SectionNext(ps: seq<Pattern>, n: nat, path: string)
    requires n < |ps|
    ensures Decided(ps, n + 1, path) <==>
            if PatternMatches(ps[n], path) then !ps[n].negated else Decided(ps, n, path)
  {
    if PatternMatches(ps[n], path) {
      assert !ps[n].negated ==> Decides(ps, n + 1, path, n);
    } else if Decided(ps, n, path) {
      var i :| Decides(ps, n, path, i);
      assert Decides(ps, n + 1, path, i);
    } else if Decided(ps, n + 1, path) {
      var i :| Decides(ps, n + 1, path, i);
      assert Decides(ps, n, path, i);
    }
  }

  // ----- the rules once more, in terms of whole texts -----------------------

  /** Without a star only the text itself matches. */
  lemma {:induction false} LiteralMatches(pat: string, name: string)
    requires '*' !in pat
    ensures Matches(pat, name) <==> name == pat
  {
    if pat != [] {
      if name != [] { LiteralMatches(pat[1..], name[1..]); }
      assert pat == [pat[0]] + pat[1..] && (name != [] ==> name == [name[0]] + name[1..]);
    }
  }

  /** The name is `a`, some text without a slash, and something `b` matches. */
  ghost predicate StarSplit(a: string, b: string, name: string, x: string, y: string) {
    name == a + x + y && '/' !in x && Matches(b, y)
  }

  /** The first star stands for any text without a slash. */
  lemma {:induction false} StarMatches(a: string, b: string, name: string)
    requires '*' !in a
    ensures Matches(a + "*" + b, name) <==> exists x, y :: StarSplit(a, b, name, x, y)
  {
    if Matches(a + "*" + b, name) { var x, y := StarSplits(a, b, name); }
    if x, y :| StarSplit(a, b, name, x, y) { SplitMatches(a, b, name, x, y); }
  }

  lemma {:induction false} StarSplits(a: string, b: string, name: string) returns (x: string, y: string)
    requires '*' !in a && Matches(a + "*" + b, name)
    ensures StarSplit(a, b, name, x, y)
    decreases |a|
  {
    var pat := a + "*" + b;
    if a == [] {
      assert pat[1..] == b;
      var k :| 0 <= k <= |name| && NoSlash(name[..k]) && Matches(pat[1..], name[k..]);
      x, y := name[..k], name[k..];
      assert name == a + x + y;
    } else {
      assert pat[1..] == a[1..] + "*" + b;
      x, y := StarSplits(a[1..], b, name[1..]);
      assert name == [a[0]] + name[1..] && a + x + y == [a[0]] + (a[1..] + x + y);
    }
  }

  lemma {:induction false} SplitMatches(a: string, b: string, name: string, x: string, y: string)
    requires '*' !in a && StarSplit(a, b, name, x, y)
    ensures Matches(a + "*" + b, name)
    decreases |a|
  {
    var pat := a + "*" + b;
    if a == [] {
      assert pat[1..] == b && name[..|x|] == x && name[|x|..] == y;
    } else {
      assert pat[1..] == a[1..] + "*" + b && name[1..] == a[1..] + x + y;
      SplitMatches(a[1..], b, name[1..], x, y);
    }
  }

  /** An anchored pattern matches the whole path. */
  lemma {:induction false} AnchoredLaw(text: string, negated: bool, path: string)
    ensures PatternMatches(Pattern(text, true, negated), path) <==> Matches(text, path)
  {
  }

  /** The path is something, a slash, and something `text` matches. */
  ghost predicate Behind(text: string, path: string, d: string, rest: string) {
    path == d + "/" + rest && Matches(text, rest)
  }

  /** Any other pattern matches the path, or what follows one of its slashes. */
  lemma {:induction false} UnanchoredLaw(text: string, negated: bool, path: string)
    requires !StartsWith(text, "**/")
    ensures PatternMatches(Pattern(text, false, negated), path) <==>
            Matches(text, path) || exists d, rest :: Behind(text, path, d, rest)
  {
    var p := Pattern(text, false, negated);
    assert path[0..] == path;
    if Matches(text, path) { assert Boundary(path, 0); }
    if PatternMatches(p, path) && !Matches(text, path) {
      var k :| 0 <= k <= |path| && Boundary(path, k) && Matches(Body(p), path[k..]);
      assert path == path[..k - 1] + "/" + path[k..];
      assert Behind(text, path, path[..k - 1], path[k..]);
    }
    if d, rest :| Behind(text, path, d, rest) {
      assert path[|d| + 1..] == rest && Boundary(path, |d| + 1);
    }
  }

  /** The double star in front changes nothing. */
  lemma {:induction false} DoubleStarLaw(text: string, negated: bool, path: string)
    requires !StartsWith(text, "**/")
    ensures PatternMatches(Pattern("**/" + text, false, negated), path) <==>
            PatternMatches(Pattern(text, false, negated), path)
  {
    assert ("**/" + text)[..3] == "**/" && ("**/" + text)[3..] == text;
    assert Body(Pattern("**/" + text, false, negated)) == text == Body(Pattern(text, false, negated));
  }

  /** A section is decided by its last pattern if that matches, otherwise by the ones before. */
  lemma {:induction false} SectionLaw(ps: seq<Pattern>, p: Pattern, path: string)
    ensures !SectionMatches([], path)
    ensures SectionMatches(ps + [p], path) <==> if PatternMatches(p, path) then !p.negated else SectionMatches(ps, path)
  {
    var qs := ps + [p];
    SectionNext(qs, |ps|, path);
    assert forall i :: 0 <= i < |ps| ==> qs[i] == ps[i];
    if i :| Decides(ps, |ps|, path, i) { assert Decides(qs, |ps|, path, i); }
    if i :| Decides(qs, |ps|, path, i) { assert Decides(ps, |ps|, path, i); }
  }
}
