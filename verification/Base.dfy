/** Bytes, object hashes, and the byte-wise order that sorts every path list. */
module Base {

  type byte = x: int | 0 <= x < 256

  /** A repo-relative, forward-slash path as its raw bytes. */
  type Path = seq<byte>

  /** A SHA-256 digest. */
  type Hash = h: seq<byte> | |h| == 32 witness seq(32, _ => 0)

  const SLASH: byte := 0x2F

  datatype Option<+T> = None | Some(value: T)

  /** `a` starts `s`. Spelled out because `<=` on sequences also means this. */
  predicate StartsWith<T(==)>(s: seq<T>, a: seq<T>) {
    |a| <= |s| && s[..|a|] == a
  }

  predicate EndsWith<T(==)>(s: seq<T>, a: seq<T>) {
    |a| <= |s| && s[|s| - |a|..] == a
  }

  // ----- the order on byte strings ------------------------------------------

  /** Strict lexicographic order on bytes: a proper prefix comes first. */
  predicate Less(a: seq<byte>, b: seq<byte>) {
    b != [] && (a == [] || a[0] < b[0] || (a[0] == b[0] && Less(a[1..], b[1..])))
  }

  lemma {:induction false} LessIrreflexive(a: seq<byte>)
    ensures !Less(a, a)
  {
    if a != [] { LessIrreflexive(a[1..]); }
  }

  lemma {:induction false} LessTransitive(a: seq<byte>, b: seq<byte>, c: seq<byte>)
    requires Less(a, b) && Less(b, c)
    ensures Less(a, c)
  {
    if a != [] && a[0] == b[0] == c[0] {
      LessTransitive(a[1..], b[1..], c[1..]);
    }
  }

  lemma {:induction false} LessTotal(a: seq<byte>, b: seq<byte>)
    ensures Less(a, b) || a == b || Less(b, a)
  {
    if a != [] && b != [] && a[0] == b[0] {
      LessTotal(a[1..], b[1..]);
      assert a == [a[0]] + a[1..] && b == [b[0]] + b[1..];
    }
  }

  /** A common prefix does not affect the order. */
  lemma {:induction false} LessCancel(p: seq<byte>, a: seq<byte>, b: seq<byte>)
    ensures Less(p + a, p + b) <==> Less(a, b)
  {
    if p == [] {
      assert p + a == a && p + b == b;
    } else {
      assert (p + a)[1..] == p[1..] + a && (p + b)[1..] == p[1..] + b;
      LessCancel(p[1..], a, b);
    }
  }

  // ----- sorted lists of distinct paths -------------------------------------

  ghost predicate StrictlySorted(r: seq<Path>) {
    forall i, j :: 0 <= i < j < |r| ==> Less(r[i], r[j])
  }

  /** `r` lists the set `s` in ascending order, each element once. */
  ghost predicate Lists(r: seq<Path>, s: set<Path>) {
    StrictlySorted(r) && forall p :: p in r <==> p in s
  }

  /** The ascending listing of a set is unique. */
  lemma {:induction false} ListingUnique(r: seq<Path>, t: seq<Path>, s: set<Path>)
    requires Lists(r, s) && Lists(t, s)
    ensures r == t
    decreases |r|
  {
    ListingEmpty(r, s);
    ListingEmpty(t, s);
    if r != [] {
      FirstIsLeast(r, s, t[0]);
      FirstIsLeast(t, s, r[0]);
      if r[0] != t[0] {
        LessTransitive(r[0], t[0], r[0]);
        LessIrreflexive(r[0]);
        assert false;
      }
      TailLists(r, s);
      TailLists(t, s);
      ListingUnique(r[1..], t[1..], s - {r[0]});
      assert r == [r[0]] + r[1..] && t == [t[0]] + t[1..];
    }
  }

  lemma {:induction false} ListingEmpty(r: seq<Path>, s: set<Path>)
    requires Lists(r, s)
    ensures r == [] <==> s == {}
  {
    if r != [] { assert r[0] in s; }
    if s != {} {
      var p :| p in s;
      assert p in r;
    }
  }

  lemma {:induction false} FirstIsLeast(r: seq<Path>, s: set<Path>, p: Path)
    requires Lists(r, s) && r != [] && p in s
    ensures p == r[0] || Less(r[0], p)
  {
    assert p in r;
    var k :| 0 <= k < |r| && r[k] == p;
  }

  lemma {:induction false} TailLists(r: seq<Path>, s: set<Path>)
    requires Lists(r, s) && r != []
    ensures Lists(r[1..], s - {r[0]})
  {
    LessIrreflexive(r[0]);
    forall p
      ensures p in r[1..] <==> p in s - {r[0]}
    {
      assert r == [r[0]] + r[1..];
      if p in r[1..] {
        var k :| 0 <= k < |r[1..]| && r[1..][k] == p;
        assert p == r[k + 1];
      }
    }
  }

  /** Selection of the least element, as a sort of a hash map's keys starts. */
  method LeastPath(s: set<Path>) returns (m: Path)
    requires s != {}
    ensures m in s && forall p :: p in s ==> p == m || Less(m, p)
  {
    m :| m in s;
    var todo := s - {m};
    while todo != {}
      invariant m in s && todo <= s
      invariant forall p :: p in s - todo ==> p == m || Less(m, p)
      decreases |todo|
    {
      var q :| q in todo;
      LessTotal(m, q);
      if Less(q, m) {
        forall p | p in s - todo
          ensures p == q || Less(q, p)
        {
          if p != m { LessTransitive(q, m, p); }
        }
        m := q;
      }
      todo := todo - {q};
    }
  }

  /** Sort the keys of a map by raw bytes. */
  method SortPaths(s: set<Path>) returns (r: seq<Path>)
    ensures Lists(r, s)
  {
    r := [];
    var todo := s;
    while todo != {}
      invariant todo <= s
      invariant Lists(r, s - todo)
      invariant forall p, q :: p in r && q in todo ==> Less(p, q)
      decreases |todo|
    {
      var m := LeastPath(todo);
      forall p, q | p in r + [m] && q in todo - {m}
        ensures Less(p, q)
      {
      }
      r := r + [m];
      todo := todo - {m};
    }
  }
}
