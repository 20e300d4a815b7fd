/**
 Three-way merge of line-based history files (src/line_merge.rs). The diff is any valid
 edit script; the merge keeps a base record unless both sides gave it up, and adds what
 each side wrote.
 */
module LineMerge {
  import opened Base
  import opened LineRecords

  // ----- edit scripts -------------------------------------------------------

  /** The operations of `similar::DiffOp`. */
  datatype DiffOp =
    | Equal(oldIndex: nat, newIndex: nat, len: nat)
    | Delete(oldIndex: nat, oldLen: nat, newIndex: nat)
    | Insert(oldIndex: nat, newIndex: nat, newLen: nat)
    | Replace(oldIndex: nat, oldLen: nat, newIndex: nat, newLen: nat)

  function OldLen(op: DiffOp): nat {
    match op case Equal(_, _, n) => n case Delete(_, n, _) => n case Insert(_, _, _) => 0 case Replace(_, n, _, _) => n
  }

  function NewLen(op: DiffOp): nat {
    match op case Equal(_, _, n) => n case Delete(_, _, _) => 0 case Insert(_, _, n) => n case Replace(_, _, _, n) => n
  }

  /** From operation `i` on, the script turns `a` from position `o` into `b` from position `n`. */
  ghost predicate Script(ops: seq<DiffOp>, i: nat, a: seq<Record>, b: seq<Record>, o: nat, n: nat)
    decreases |ops| - i
  {
    if i >= |ops| then o == |a| && n == |b|
    else
      && ops[i].oldIndex == o && ops[i].newIndex == n
      && o + OldLen(ops[i]) <= |a| && n + NewLen(ops[i]) <= |b|
      && (ops[i].Equal? ==> a[o..o + OldLen(ops[i])] == b[n..n + NewLen(ops[i])])
      && Script(ops, i + 1, a, b, o + OldLen(ops[i]), n + NewLen(ops[i]))
  }

  // ----- what a script keeps, rewrites and adds -----------------------------

  function OldEnd(op: DiffOp): nat { op.oldIndex + OldLen(op) }

  function Added(op: DiffOp, b: seq<Record>): seq<Record> {
    if op.Equal? || op.Delete? || op.newIndex + op.newLen > |b| then [] else b[op.newIndex..op.newIndex + op.newLen]
  }

  /** What operations `l` to `h` add, in order. */
  function AddedIn(ops: seq<DiffOp>, l: nat, h: nat, b: seq<Record>): seq<Record>
    requires l <= h <= |ops|
    decreases h - l
  {
    if l == h then [] else Added(ops[l], b) + AddedIn(ops, l + 1, h, b)
  }

  ghost predicate EqualAt(ops: seq<DiffOp>, x: nat, j: nat) {
    j < |ops| && ops[j].Equal? && ops[j].oldIndex <= x < OldEnd(ops[j])
  }

  /** The script keeps the base record at `x`: an equal run covers it. */
  ghost predicate KeptBy(ops: seq<DiffOp>, x: nat) { exists j :: EqualAt(ops, x, j) }

  /** A maximal run of operations that are not equal runs. */
  ghost predicate MaximalRun(ops: seq<DiffOp>, l: nat, h: nat) {
    && l < h <= |ops| && (forall j :: l <= j < h ==> !ops[j].Equal?)
    && (l == 0 || ops[l - 1].Equal?) && (h == |ops| || ops[h].Equal?)
  }

  ghost predicate RunRewrites(ops: seq<DiffOp>, b: seq<Record>, x: nat, l: nat, h: nat) {
    MaximalRun(ops, l, h) && ops[l].oldIndex <= x < OldEnd(ops[h - 1]) && AddedIn(ops, l, h, b) != []
  }

  /** The script replaces the base record at `x` with content: it lies in a maximal run that adds a record. */
  ghost predicate RewrittenBy(ops: seq<DiffOp>, b: seq<Record>, x: nat) { exists l, h :: RunRewrites(ops, b, x, l, h) }

  // ----- segments -----------------------------------------------------------

  datatype Segment =
    | Keep(start: nat, end: nat)
    | Change(start: nat, end: nat, lines: seq<Record>)

  /** The segments cover the base positions from `from` to `to`, one after the other. */
  ghost predicate Tiles(segs: seq<Segment>, from: nat, to: nat)
    decreases |segs|
  {
    if segs == [] then from == to
    else segs[0].start == from <= segs[0].end <= to && Tiles(segs[1..], segs[0].end, to)
  }

  /** What a segment stands for on the other side. */
  ghost function Content(s: Segment, a: seq<Record>): seq<Record> {
    if s.Change? then s.lines else if s.start <= s.end <= |a| then a[s.start..s.end] else []
  }

  /** The other side, put together from what was kept and what was written. */
  ghost function Rebuild(segs: seq<Segment>, a: seq<Record>): seq<Record>
    decreases |segs|
  {
    if segs == [] then [] else Content(segs[0], a) + Rebuild(segs[1..], a)
  }

  lemma {:induction false} Cons(s: Segment, segs: seq<Segment>, a: seq<Record>, to: nat)
    ensures Rebuild([s] + segs, a) == Content(s, a) + Rebuild(segs, a)
    ensures s.start <= s.end <= to && Tiles(segs, s.end, to) ==> Tiles([s] + segs, s.start, to)
  {
    assert ([s] + segs)[1..] == segs;
  }

  /** Maximal runs: no two changes side by side. */
  ghost predicate Separated(segs: seq<Segment>) {
    |segs| >= 2 ==> (segs[0].Keep? || segs[1].Keep?) && Separated(segs[1..])
  }

  // ----- aggregation --------------------------------------------------------

  /** The pending change after an operation that covers `o` to `end` and adds `more`. */
  function Grow(pending: Option<Segment>, o: nat, end: nat, more: seq<Record>): Segment {
    if pending.None? || pending.value.Keep? then Change(o, end, more)
    else
      var p := pending.value;
      Change(if o < p.start then o else p.start, if p.end < end then end else p.end, p.lines + more)
  }

  function Flush(pending: Option<Segment>): seq<Segment> {
    if pending.Some? then [pending.value] else []
  }

  /** From operation `i` on: an equal run flushes the pending change, any other extends it. */
  ghost function Segments(ops: seq<DiffOp>, i: nat, pending: Option<Segment>, b: seq<Record>): seq<Segment>
    decreases |ops| - i
  {
    if i >= |ops| then Flush(pending)
    else if ops[i].Equal? then Flush(pending) + ([KeptRun(ops[i])] + Segments(ops, i + 1, None, b))
    else Segments(ops, i + 1, Some(Extended(pending, ops[i], b)), b)
  }

  function KeptRun(op: DiffOp): Segment {
    Keep(op.oldIndex, op.oldIndex + OldLen(op))
  }

  function Extended(pending: Option<Segment>, op: DiffOp, b: seq<Record>): Segment {
    Grow(pending, op.oldIndex, op.oldIndex + OldLen(op), Added(op, b))
  }

  ghost predicate PendingChange(pending: Option<Segment>, o: nat) {
    pending.Some? ==> pending.value.Change? && pending.value.start <= pending.value.end == o
  }

  /** Where the base positions not yet covered by finished segments begin. */
  ghost function BaseFrom(pending: Option<Segment>, o: nat): nat {
    if pending.Some? then pending.value.start else o
  }

  lemma {:induction false} EqualTiles(pending: Option<Segment>, keep: Segment, rest: seq<Segment>, a: seq<Record>,
      o: nat)
    requires PendingChange(pending, o) && keep.start == o <= keep.end <= |a| && Tiles(rest, keep.end, |a|)
    ensures Tiles(Flush(pending) + ([keep] + rest), BaseFrom(pending, o), |a|)
  {
    Cons(keep, rest, a, |a|);
    if pending.Some? {
      Cons(pending.value, [keep] + rest, a, |a|);
    } else {
      assert [] + ([keep] + rest) == [keep] + rest;
    }
  }

  /** The operations from `i` on follow one another through the base, from `o` to `to`. */
  ghost predicate Strides(ops: seq<DiffOp>, i: nat, o: nat, to: nat)
    decreases |ops| - i
  {
    if i >= |ops| then o == to
    else ops[i].oldIndex == o && o + OldLen(ops[i]) <= to && Strides(ops, i + 1, o + OldLen(ops[i]), to)
  }

  lemma {:induction false} ScriptStrides(ops: seq<DiffOp>, i: nat, a: seq<Record>, b: seq<Record>, o: nat, n: nat)
    requires Script(ops, i, a, b, o, n)
    ensures Strides(ops, i, o, |a|)
    decreases |ops| - i
  {
    if i < |ops| { ScriptStrides(ops, i + 1, a, b, o + OldLen(ops[i]), n + NewLen(ops[i])); }
  }

  lemma {:induction false} SegmentsTile(ops: seq<DiffOp>, i: nat, pending: Option<Segment>, a: seq<Record>,
                                        b: seq<Record>, o: nat)
    requires Strides(ops, i, o, |a|) && PendingChange(pending, o)
    ensures Tiles(Segments(ops, i, pending, b), BaseFrom(pending, o), |a|)
    decreases |ops| - i
  {
    if i >= |ops| {
      assert pending.Some? ==> Flush(pending)[1..] == [];
    } else if ops[i].Equal? {
      var keep, rest := KeptRun(ops[i]), Segments(ops, i + 1, None, b);
      SegmentsTile(ops, i + 1, None, a, b, keep.end);
      EqualTiles(pending, keep, rest, a, o);
    } else {
      SegmentsTile(ops, i + 1, Some(Extended(pending, ops[i], b)), a, b, o + OldLen(ops[i]));
    }
  }

  ghost function PendingLines(pending: Option<Segment>): seq<Record> {
    if pending.Some? && pending.value.Change? then pending.value.lines else []
  }

  lemma {:induction false} SplitAt(b: seq<Record>, n: nat, len: nat)
    requires n + len <= |b|
    ensures b[n..] == b[n..n + len] + b[n + len..]
  {
  }

  lemma {:induction false} Assoc(x: seq<Record>, y: seq<Record>, z: seq<Record>)
    ensures x + y + z == x + (y + z)
  {
  }

  lemma {:induction false} FlushRebuild(pending: Option<Segment>, segs: seq<Segment>, a: seq<Record>)
    requires pending.Some? ==> pending.value.Change?
    ensures Rebuild(Flush(pending) + segs, a) == PendingLines(pending) + Rebuild(segs, a)
  {
    if pending.Some? {
      Cons(pending.value, segs, a, 0);
    } else {
      assert [] + segs == segs;
    }
  }

  lemma {:induction false} AddedIs(op: DiffOp, b: seq<Record>)
    requires !op.Equal? && op.newIndex + NewLen(op) <= |b|
    ensures Added(op, b) == b[op.newIndex..op.newIndex + NewLen(op)]
  {
  }

  lemma {:induction false} ExtendedLines(pending: Option<Segment>, op: DiffOp, b: seq<Record>)
    requires (pending.Some? ==> pending.value.Change?) && !op.Equal? && op.newIndex + NewLen(op) <= |b|
    ensures Extended(pending, op, b).lines == PendingLines(pending) + b[op.newIndex..op.newIndex + NewLen(op)]
  {
    AddedIs(op, b);
  }

  lemma {:induction false} RebuildEqual(pending: Option<Segment>, keep: Segment, rest: seq<Segment>,
                     a: seq<Record>, b: seq<Record>, n: nat, len: nat)
    requires (pending.Some? ==> pending.value.Change?) && n + len <= |b|
    requires Content(keep, a) == b[n..n + len] && Rebuild(rest, a) == b[n + len..]
    ensures Rebuild(Flush(pending) + ([keep] + rest), a) == PendingLines(pending) + b[n..]
  {
    SplitAt(b, n, len);
    Cons(keep, rest, a, 0);
    FlushRebuild(pending, [keep] + rest, a);
  }

  lemma {:induction false} SegmentsRebuild(ops: seq<DiffOp>, i: nat, pending: Option<Segment>,
                                           a: seq<Record>, b: seq<Record>, o: nat, n: nat)
    requires Script(ops, i, a, b, o, n) && n <= |b| && (pending.Some? ==> pending.value.Change?)
    ensures Rebuild(Segments(ops, i, pending, b), a) == PendingLines(pending) + b[n..]
    decreases |ops| - i
  {
    if i >= |ops| {
      FlushRebuild(pending, [], a);
      assert Flush(pending) + [] == Flush(pending) && b[n..] == [];
    } else if ops[i].Equal? {
      EqualRebuild(ops, i, pending, a, b, o, n);
    } else {
      EditRebuild(ops, i, pending, a, b, o, n);
    }
  }

  lemma {:induction false} EqualRebuild(ops: seq<DiffOp>, i: nat, pending: Option<Segment>,
                                        a: seq<Record>, b: seq<Record>, o: nat, n: nat)
    requires i < |ops| && ops[i].Equal?
    requires Script(ops, i, a, b, o, n) && n <= |b| && (pending.Some? ==> pending.value.Change?)
    ensures Rebuild(Segments(ops, i, pending, b), a) == PendingLines(pending) + b[n..]
    decreases |ops| - i, 0
  {
    var len := NewLen(ops[i]);
    SegmentsRebuild(ops, i + 1, None, a, b, o + len, n + len);
    assert PendingLines(None) + b[n + len..] == b[n + len..];
    RebuildEqual(pending, KeptRun(ops[i]), Segments(ops, i + 1, None, b), a, b, n, len);
  }

  lemma {:induction false} EditRebuild(ops: seq<DiffOp>, i: nat, pending: Option<Segment>,
                                       a: seq<Record>, b: seq<Record>, o: nat, n: nat)
    requires i < |ops| && !ops[i].Equal?
    requires Script(ops, i, a, b, o, n) && n <= |b| && (pending.Some? ==> pending.value.Change?)
    ensures Rebuild(Segments(ops, i, pending, b), a) == PendingLines(pending) + b[n..]
    decreases |ops| - i, 0
  {
    var grown := Some(Extended(pending, ops[i], b));
    SegmentsRebuild(ops, i + 1, grown, a, b, o + OldLen(ops[i]), n + NewLen(ops[i]));
    RebuildEdit(pending, ops[i], Segments(ops, i + 1, grown, b), a, b);
  }

  lemma {:induction false} RebuildEdit(pending: Option<Segment>, op: DiffOp, segs: seq<Segment>,
                                       a: seq<Record>, b: seq<Record>)
    requires !op.Equal? && op.newIndex + NewLen(op) <= |b| && (pending.Some? ==> pending.value.Change?)
    requires Rebuild(segs, a) == PendingLines(Some(Extended(pending, op, b))) + b[op.newIndex + NewLen(op)..]
    ensures Rebuild(segs, a) == PendingLines(pending) + b[op.newIndex..]
  {
    ExtendedLines(pending, op, b);
    Rejoin(PendingLines(pending), Extended(pending, op, b).lines, Rebuild(segs, a), b, op.newIndex, NewLen(op));
  }

  lemma {:induction false} Rejoin(x: seq<Record>, lines: seq<Record>, r: seq<Record>, b: seq<Record>, n: nat, len: nat)
    requires n + len <= |b| && lines == x + b[n..n + len] && r == lines + b[n + len..]
    ensures r == x + b[n..]
  {
    SplitAt(b, n, len);
    Assoc(x, b[n..n + len], b[n + len..]);
  }

  lemma {:induction false} SeparatedCons(s: Segment, segs: seq<Segment>)
    requires Separated(segs) && (s.Keep? || segs == [] || segs[0].Keep?)
    ensures Separated([s] + segs)
  {
    assert ([s] + segs)[1..] == segs;
  }

  lemma {:induction false} SegmentsSeparated(ops: seq<DiffOp>, i: nat, pending: Option<Segment>, b: seq<Record>)
    ensures Separated(Segments(ops, i, pending, b))
    decreases |ops| - i
  {
    if i < |ops| && ops[i].Equal? {
      var keep, rest := KeptRun(ops[i]), Segments(ops, i + 1, None, b);
      SegmentsSeparated(ops, i + 1, None, b);
      SeparatedCons(keep, rest);
      if pending.Some? {
        SeparatedCons(pending.value, [keep] + rest);
      } else {
        assert [] + ([keep] + rest) == [keep] + rest;
      }
    } else if i < |ops| {
      SegmentsSeparated(ops, i + 1, Some(Extended(pending, ops[i], b)), b);
    }
  }

  /** The loop: collect operations, flush at every equal run and at the end. */
  method CollectSegments(ops: seq<DiffOp>, b: seq<Record>) returns (segs: seq<Segment>)
    ensures segs == Segments(ops, 0, None, b)
  {
    segs := [];
    var pending: Option<Segment> := None;
    for i := 0 to |ops|
      invariant Segments(ops, 0, None, b) == segs + Segments(ops, i, pending, b)
    {
      if ops[i].Equal? {
        Reassociate(segs, Flush(pending), [KeptRun(ops[i])], Segments(ops, i + 1, None, b));
        segs := segs + Flush(pending) + [KeptRun(ops[i])];
        pending := None;
      } else {
        pending := Some(Extended(pending, ops[i], b));
      }
    }
    segs := segs + Flush(pending);
  }

  lemma {:induction false} Reassociate(s: seq<Segment>, x: seq<Segment>, y: seq<Segment>, t: seq<Segment>)
    ensures s + (x + (y + t)) == s + x + y + t
  {
  }

  // ----- what each side kept, wrote and replaced ----------------------------

  function Flag(b: bool, n: nat): seq<bool> { seq(n, _ => b) }

  function Length(s: Segment): nat { if s.start <= s.end then s.end - s.start else 0 }

  /** For every base position, whether this side kept it. */
  ghost function Kept(segs: seq<Segment>): seq<bool> {
    if segs == [] then [] else Flag(segs[0].Keep?, Length(segs[0])) + Kept(segs[1..])
  }

  /** A change that puts content in place of the base records it covers. */
  predicate Bearing(s: Segment) { s.Change? && s.lines != [] }

  /** For every base position, whether this side replaced it with content. */
  ghost function Rewritten(segs: seq<Segment>): seq<bool> {
    if segs == [] then [] else Flag(Bearing(segs[0]), Length(segs[0])) + Rewritten(segs[1..])
  }

  function Lines(s: Segment): seq<Record> { if s.Change? then s.lines else [] }

  /** What a side wrote, in order. */
  function Written(segs: seq<Segment>): seq<Record> {
    if segs == [] then [] else Lines(segs[0]) + Written(segs[1..])
  }

  /** The records whose flag is set, in order. */
  function Select(a: seq<Record>, f: seq<bool>): seq<Record>
    requires |a| == |f|
  {
    if a == [] then [] else (if f[0] then [a[0]] else []) + Select(a[1..], f[1..])
  }

  ghost function Either(f: seq<bool>, g: seq<bool>): (r: seq<bool>)
    requires |f| == |g|
    ensures |r| == |f| && forall i :: 0 <= i < |f| ==> r[i] == (f[i] || g[i])
  {
    seq(|f|, i requires 0 <= i < |f| => f[i] || g[i])
  }

  lemma {:induction false} FlagSizes(segs: seq<Segment>, from: nat, to: nat)
    requires Tiles(segs, from, to)
    ensures from <= to && |Kept(segs)| == |Rewritten(segs)| == to - from
    decreases |segs|
  {
    if segs != [] { FlagSizes(segs[1..], segs[0].end, to); }
  }

  /** The flags at the positions of segment `k` are that segment's. */
  lemma {:induction false} FlagsOf(segs: seq<Segment>, from: nat, to: nat, k: nat, i: nat)
    requires Tiles(segs, from, to) && k < |segs| && segs[k].start <= i < segs[k].end
    ensures from <= i < to && |Kept(segs)| == |Rewritten(segs)| == to - from
    ensures Kept(segs)[i - from] == segs[k].Keep? && Rewritten(segs)[i - from] == Bearing(segs[k])
    decreases |segs|
  {
    FlagSizes(segs, from, to);
    if k > 0 { FlagsOf(segs[1..], segs[0].end, to, k - 1, i); }
  }

  /** Every position lies in some segment. */
  lemma {:induction false} SegmentOf(segs: seq<Segment>, from: nat, to: nat, i: nat) returns (k: nat)
    requires Tiles(segs, from, to) && from <= i < to
    ensures k < |segs| && segs[k].start <= i < segs[k].end
    decreases |segs|
  {
    if i < segs[0].end {
      k := 0;
    } else {
      k := SegmentOf(segs[1..], segs[0].end, to, i);
      k := k + 1;
    }
  }

  // ----- the conflict test --------------------------------------------------

  predicate RangesOverlap(s: Segment, t: Segment) {
    (if s.start < t.start then t.start else s.start) < (if s.end < t.end then s.end else t.end)
  }

  /** Some base record was replaced with content on both sides. */
  ghost predicate BothRewrote(l: seq<Segment>, r: seq<Segment>, i: nat) {
    i < |Rewritten(l)| && i < |Rewritten(r)| && Rewritten(l)[i] && Rewritten(r)[i]
  }

  lemma {:induction false} OverlapIsShared(l: seq<Segment>, r: seq<Segment>, to: nat, j: nat, k: nat) returns (i: nat)
    requires Tiles(l, 0, to) && Tiles(r, 0, to) && j < |l| && k < |r|
    requires Bearing(l[j]) && Bearing(r[k]) && RangesOverlap(l[j], r[k])
    ensures BothRewrote(l, r, i)
  {
    i := if l[j].start < r[k].start then r[k].start else l[j].start;
    FlagsOf(l, 0, to, j, i);
    FlagsOf(r, 0, to, k, i);
  }

  lemma {:induction false} SharedOverlaps(l: seq<Segment>, r: seq<Segment>, to: nat, i: nat) returns (j: nat, k: nat)
    requires Tiles(l, 0, to) && Tiles(r, 0, to) && BothRewrote(l, r, i)
    ensures j < |l| && k < |r| && Bearing(l[j]) && Bearing(r[k]) && RangesOverlap(l[j], r[k])
  {
    FlagSizes(l, 0, to);
    FlagSizes(r, 0, to);
    j := SegmentOf(l, 0, to, i);
    k := SegmentOf(r, 0, to, i);
    FlagsOf(l, 0, to, j, i);
    FlagsOf(r, 0, to, k, i);
  }

  /** A conflict is exactly a base record that both sides replaced with content. */
  method HasConflict(l: seq<Segment>, r: seq<Segment>, ghost to: nat) returns (c: bool)
    requires Tiles(l, 0, to) && Tiles(r, 0, to)
    ensures c <==> exists i :: BothRewrote(l, r, i)
  {
    for j := 0 to |l|
      invariant forall x, y :: 0 <= x < j && 0 <= y < |r| && Bearing(l[x]) && Bearing(r[y]) ==>
                !RangesOverlap(l[x], r[y])
    {
      if !Bearing(l[j]) { continue; }
      for k := 0 to |r|
        invariant forall y :: 0 <= y < k && Bearing(r[y]) ==> !RangesOverlap(l[j], r[y])
      {
        if Bearing(r[k]) && RangesOverlap(l[j], r[k]) {
          ghost var i := OverlapIsShared(l, r, to, j, k);
          return true;
        }
      }
    }
    if i :| BothRewrote(l, r, i) {
      var j, k := SharedOverlaps(l, r, to, i);
    }
    c := false;
  }

  // ----- survivors ----------------------------------------------------------

  method MarkRun(kept: array<bool>, start: nat, end: nat)
    requires start <= end <= kept.Length
    modifies kept
    ensures forall i :: 0 <= i < kept.Length ==> kept[i] == (old(kept[i]) || start <= i < end)
  {
    for i := start to end
      invariant forall j :: 0 <= j < kept.Length ==> kept[j] == (old(kept[j]) || start <= j < i)
    {
      kept[i] := true;
    }
  }

  ghost predicate InKeep(s: Segment, i: nat) { s.Keep? && s.start <= i < s.end }

  /** A position is kept exactly when a kept run covers it. */
  lemma {:induction false} KeptIsCovered(segs: seq<Segment>, to: nat, i: nat)
    requires Tiles(segs, 0, to) && i < to
    ensures |Kept(segs)| == to && (Kept(segs)[i] <==> exists k :: 0 <= k < |segs| && InKeep(segs[k], i))
  {
    FlagSizes(segs, 0, to);
    var m := SegmentOf(segs, 0, to, i);
    FlagsOf(segs, 0, to, m, i);
    if k :| 0 <= k < |segs| && InKeep(segs[k], i) {
      FlagsOf(segs, 0, to, k, i);
    }
    assert segs[m].Keep? ==> InKeep(segs[m], i);
  }

  lemma {:induction false} TileInside(segs: seq<Segment>, from: nat, to: nat, k: nat)
    requires Tiles(segs, from, to) && k < |segs|
    ensures segs[k].start <= segs[k].end <= to
    decreases |segs|
  {
    if k > 0 { TileInside(segs[1..], segs[0].end, to, k - 1); }
  }

  /** One of the first `k` segments keeps the position. */
  ghost predicate KeptWithin(segs: seq<Segment>, k: nat, i: nat)
    requires k <= |segs|
  {
    exists m: nat :: m < k && InKeep(segs[m], i)
  }

  lemma {:induction false} KeptNext(segs: seq<Segment>, k: nat, i: nat)
    requires k < |segs|
    ensures KeptWithin(segs, k + 1, i) <==> KeptWithin(segs, k, i) || InKeep(segs[k], i)
  {
  }

  /** Mark every position of every kept run. */
  method MarkKept(kept: array<bool>, segs: seq<Segment>)
    requires Tiles(segs, 0, kept.Length)
    modifies kept
    ensures |Kept(segs)| == kept.Length
    ensures forall i :: 0 <= i < kept.Length ==> kept[i] == (old(kept[i]) || Kept(segs)[i])
  {
    FlagSizes(segs, 0, kept.Length);
    for k := 0 to |segs|
      invariant forall i :: 0 <= i < kept.Length ==> kept[i] == (old(kept[i]) || KeptWithin(segs, k, i))
    {
      TileInside(segs, 0, kept.Length, k);
      if segs[k].Keep? { MarkRun(kept, segs[k].start, segs[k].end); }
      forall i | 0 <= i < kept.Length
        ensures KeptWithin(segs, k + 1, i) <==> KeptWithin(segs, k, i) || InKeep(segs[k], i)
      {
        KeptNext(segs, k, i);
      }
    }
    forall i | 0 <= i < kept.Length
      ensures kept[i] == (old(kept[i]) || Kept(segs)[i])
    {
      KeptIsCovered(segs, kept.Length, i);
    }
  }

  /** Policy A: the base records that at least one side kept, in base order. */
  method PolicyASurvivors(a: seq<Record>, l: seq<Segment>, r: seq<Segment>) returns (rs: seq<Record>)
    requires Tiles(l, 0, |a|) && Tiles(r, 0, |a|)
    ensures |Kept(l)| == |Kept(r)| == |a| && rs == Select(a, Either(Kept(l), Kept(r)))
  {
    var kept := new bool[|a|](_ => false);
    MarkKept(kept, l);
    MarkKept(kept, r);
    ghost var f := Either(Kept(l), Kept(r));
    rs := [];
    assert a[0..] == a && f[0..] == f;
    for i := 0 to |a|
      invariant Select(a, f) == rs + Select(a[i..], f[i..])
      invariant forall j :: 0 <= j < |a| ==> kept[j] == f[j]
    {
      SelectStep(a, f, i);
      if kept[i] {
        Assoc(rs, [a[i]], Select(a[i + 1..], f[i + 1..]));
        rs := rs + [a[i]];
      }
    }
  }

  lemma {:induction false} SelectStep(a: seq<Record>, f: seq<bool>, i: nat)
    requires |a| == |f| && i < |a|
    ensures Select(a[i..], f[i..]) == if f[i] then [a[i]] + Select(a[i + 1..], f[i + 1..])
            else Select(a[i + 1..], f[i + 1..])
  {
    assert a[i..][1..] == a[i + 1..] && f[i..][1..] == f[i + 1..];
    assert [] + Select(a[i + 1..], f[i + 1..]) == Select(a[i + 1..], f[i + 1..]);
  }

  lemma {:induction false} WrittenStep(segs: seq<Segment>, k: nat, done: seq<Record>)
    requires k < |segs|
    ensures done + Written(segs[k..]) == done + Lines(segs[k]) + Written(segs[k + 1..])
  {
    assert segs[k..][1..] == segs[k + 1..];
    Assoc(done, Lines(segs[k]), Written(segs[k + 1..]));
  }

  /** What a side wrote, segment by segment. */
  method ChangedOtherLines(segs: seq<Segment>) returns (rs: seq<Record>)
    ensures rs == Written(segs)
  {
    rs := [];
    assert segs[0..] == segs;
    for k := 0 to |segs|
      invariant Written(segs) == rs + Written(segs[k..])
    {
      WrittenStep(segs, k, rs);
      rs := rs + Lines(segs[k]);
    }
  }

  // ----- conservation -------------------------------------------------------

  lemma {:induction false} SelectConcat(a: seq<Record>, b: seq<Record>, f: seq<bool>, g: seq<bool>)
    requires |a| == |f| && |b| == |g|
    ensures Select(a + b, f + g) == Select(a, f) + Select(b, g)
    decreases |a|
  {
    if a == [] {
      assert a + b == b && f + g == g;
    } else {
      assert (a + b)[1..] == a[1..] + b && (f + g)[1..] == f[1..] + g;
      SelectConcat(a[1..], b, f[1..], g);
      Assoc(if f[0] then [a[0]] else [], Select(a[1..], f[1..]), Select(b, g));
    }
  }

  lemma {:induction false} SelectFlag(a: seq<Record>, b: bool)
    ensures Select(a, Flag(b, |a|)) == if b then a else []
    decreases |a|
  {
    if a != [] {
      assert Flag(b, |a|)[1..] == Flag(b, |a[1..]|);
      SelectFlag(a[1..], b);
      assert a == [a[0]] + a[1..];
    }
  }

  /** Flags of a tiling select, run by run, what was kept. */
  lemma {:induction false} SelectSegment(a: seq<Record>, s: Segment, segs: seq<Segment>)
    requires s.start <= s.end <= |a| && |Kept(segs)| == |a| - s.end
    ensures Select(a[s.start..], Flag(s.Keep?, Length(s)) + Kept(segs)) ==
            (if s.Keep? then a[s.start..s.end] else []) + Select(a[s.end..], Kept(segs))
  {
    assert a[s.start..] == a[s.start..s.end] + a[s.end..];
    SelectConcat(a[s.start..s.end], a[s.end..], Flag(s.Keep?, Length(s)), Kept(segs));
    SelectFlag(a[s.start..s.end], s.Keep?);
  }

  /** One side is, as a multiset, what it kept of the base plus what it wrote. */
  lemma {:induction false} SideIsKeptPlusWritten(segs: seq<Segment>, a: seq<Record>, from: nat)
    requires Tiles(segs, from, |a|)
    ensures from <= |a| && |Kept(segs)| == |a| - from
    ensures multiset(Rebuild(segs, a)) == multiset(Select(a[from..], Kept(segs))) + multiset(Written(segs))
    decreases |segs|
  {
    FlagSizes(segs, from, |a|);
    if segs == [] {
      assert a[from..] == [];
    } else {
      var s := segs[0];
      SideIsKeptPlusWritten(segs[1..], a, s.end);
      SelectSegment(a, s, segs[1..]);
    }
  }

  /** Selecting more selects at least as often. */
  lemma {:induction false} SelectMonotone(a: seq<Record>, f: seq<bool>, g: seq<bool>)
    requires |a| == |f| == |g| && forall i :: 0 <= i < |a| && f[i] ==> g[i]
    ensures multiset(Select(a, f)) <= multiset(Select(a, g))
    decreases |a|
  {
    if a != [] { SelectMonotone(a[1..], f[1..], g[1..]); }
  }

  // ----- segments reflect the script ----------------------------------------

  /** The segments one side's script aggregates to. */
  ghost function Side(ops: seq<DiffOp>, b: seq<Record>): seq<Segment> { Segments(ops, 0, None, b) }

  lemma {:induction false} SideFacts(ops: seq<DiffOp>, a: seq<Record>, b: seq<Record>)
    requires Script(ops, 0, a, b, 0, 0)
    ensures Tiles(Side(ops, b), 0, |a|) && Rebuild(Side(ops, b), a) == b && Separated(Side(ops, b))
    ensures |Kept(Side(ops, b))| == |Rewritten(Side(ops, b))| == |a|
  {
    ScriptStrides(ops, 0, a, b, 0, 0);
    SegmentsTile(ops, 0, None, a, b, 0);
    SegmentsRebuild(ops, 0, None, a, b, 0, 0);
    assert [] + b[0..] == b;
    SegmentsSeparated(ops, 0, None, b);
    FlagSizes(Side(ops, b), 0, |a|);
  }

  ghost predicate KeepOf(ops: seq<DiffOp>, i: nat, s: Segment, j: nat) {
    i <= j < |ops| && ops[j].Equal? && s == KeptRun(ops[j])
  }

  ghost predicate HasKeep(ops: seq<DiffOp>, i: nat, s: Segment) { exists j :: KeepOf(ops, i, s, j) }

  lemma {:induction false} HasKeepStep(ops: seq<DiffOp>, i: nat, s: Segment)
    requires i < |ops|
    ensures HasKeep(ops, i, s) <==> HasKeep(ops, i + 1, s) || KeepOf(ops, i, s, i)
  {
    if j: nat :| KeepOf(ops, i, s, j) {
      assert j == i || KeepOf(ops, i + 1, s, j);
    }
    var next := i + 1;
    if j: nat :| KeepOf(ops, next, s, j) {
      assert KeepOf(ops, i, s, j);
    }
  }

  /** The kept segments are exactly the equal runs. */
  lemma {:induction false} KeepsAreEquals(ops: seq<DiffOp>, i: nat, pending: Option<Segment>, b: seq<Record>,
      s: Segment)
    requires s.Keep? && (pending.Some? ==> pending.value.Change?)
    ensures s in Segments(ops, i, pending, b) <==> HasKeep(ops, i, s)
    decreases |ops| - i
  {
    if i < |ops| {
      HasKeepStep(ops, i, s);
      var next := if ops[i].Equal? then None else Some(Extended(pending, ops[i], b));
      KeepsAreEquals(ops, i + 1, next, b, s);
    }
  }

  /** A position is kept by the segments exactly when an equal run of the script covers it. */
  lemma {:induction false} KeptExactly(ops: seq<DiffOp>, a: seq<Record>, b: seq<Record>, x: nat)
    requires Script(ops, 0, a, b, 0, 0) && x < |a|
    ensures |Kept(Side(ops, b))| == |a| && (Kept(Side(ops, b))[x] <==> KeptBy(ops, x))
  {
    var segs := Side(ops, b);
    SideFacts(ops, a, b);
    KeptIsCovered(segs, |a|, x);
    if k: nat :| k < |segs| && InKeep(segs[k], x) { EqualOfKeep(ops, b, segs[k], x); }
    if j: nat :| EqualAt(ops, x, j) {
      var k := KeepOfEqual(ops, b, j, x);
    }
  }

  lemma {:induction false} EqualOfKeep(ops: seq<DiffOp>, b: seq<Record>, s: Segment, x: nat)
    requires s in Side(ops, b) && InKeep(s, x)
    ensures KeptBy(ops, x)
  {
    KeepsAreEquals(ops, 0, None, b, s);
    var j: nat :| KeepOf(ops, 0, s, j);
    assert EqualAt(ops, x, j);
  }

  lemma {:induction false} KeepOfEqual(ops: seq<DiffOp>, b: seq<Record>, j: nat, x: nat) returns (k: nat)
    requires EqualAt(ops, x, j)
    ensures k < |Side(ops, b)| && InKeep(Side(ops, b)[k], x)
  {
    KeepsAreEquals(ops, 0, None, b, KeptRun(ops[j]));
    assert KeepOf(ops, 0, KeptRun(ops[j]), j);
    k :| k < |Side(ops, b)| && Side(ops, b)[k] == KeptRun(ops[j]);
  }

  /** The change that operations `l` to `h` aggregate to. */
  ghost function RunOf(ops: seq<DiffOp>, l: nat, h: nat, b: seq<Record>): Option<Segment>
    requires l <= h <= |ops|
  {
    if l == h then None else Some(Change(ops[l].oldIndex, OldEnd(ops[h - 1]), AddedIn(ops, l, h, b)))
  }

  ghost predicate ChangeOf(ops: seq<DiffOp>, b: seq<Record>, from: nat, s: Segment, l: nat, h: nat) {
    from <= l && MaximalRun(ops, l, h) && RunOf(ops, l, h, b) == Some(s)
  }

  ghost predicate HasRun(ops: seq<DiffOp>, b: seq<Record>, from: nat, s: Segment) {
    exists l, h :: ChangeOf(ops, b, from, s, l, h)
  }

  ghost predicate OpenRun(ops: seq<DiffOp>, lo: nat, i: nat) {
    lo <= i <= |ops| && (forall j :: lo <= j < i ==> !ops[j].Equal?) && (lo == 0 || ops[lo - 1].Equal?)
  }

  /** The changes are exactly the maximal runs of the other operations. */
  lemma {:induction false} ChangesAreRuns(ops: seq<DiffOp>, lo: nat, i: nat, b: seq<Record>, s: Segment)
    requires s.Change? && OpenRun(ops, lo, i) && Chained(ops)
    ensures s in Segments(ops, i, RunOf(ops, lo, i, b), b) <==> HasRun(ops, b, lo, s)
    decreases |ops| - i
  {
    if i == |ops| {
      FlushedRun(ops, lo, i, b, s);
      RunsEnd(ops, lo, i, b, s);
    } else if ops[i].Equal? {
      ChangesAreRuns(ops, i + 1, i + 1, b, s);
      FlushedRun(ops, lo, i, b, s);
      RunsSplit(ops, lo, i, b, s);
      SegmentsAtEqual(ops, i, RunOf(ops, lo, i, b), b, s);
    } else {
      RunExtends(ops, lo, i, b);
      ChangesAreRuns(ops, lo, i + 1, b, s);
    }
  }

  /** What an equal run or the end flushes is the open run. */
  lemma {:induction false} FlushedRun(ops: seq<DiffOp>, lo: nat, i: nat, b: seq<Record>, s: Segment)
    requires OpenRun(ops, lo, i) && (i == |ops| || ops[i].Equal?)
    ensures s in Flush(RunOf(ops, lo, i, b)) <==> ChangeOf(ops, b, lo, s, lo, i)
  {
  }

  /** The open run is the only one that starts before an equal run or the end. */
  lemma {:induction false} RunAtEnd(ops: seq<DiffOp>, lo: nat, i: nat)
    requires OpenRun(ops, lo, i) && (i == |ops| || ops[i].Equal?)
    ensures forall l, h :: lo <= l <= i && MaximalRun(ops, l, h) ==> l == lo && h == i
  {
  }

  lemma {:induction false} RunsEnd(ops: seq<DiffOp>, lo: nat, i: nat, b: seq<Record>, s: Segment)
    requires OpenRun(ops, lo, i) && i == |ops|
    ensures HasRun(ops, b, lo, s) <==> ChangeOf(ops, b, lo, s, lo, i)
  {
    RunAtEnd(ops, lo, i);
    if l: nat, h: nat :| ChangeOf(ops, b, lo, s, l, h) {
      assert l == lo && h == i;
    }
  }

  lemma {:induction false} SegmentsAtEqual(ops: seq<DiffOp>, i: nat, pending: Option<Segment>, b: seq<Record>,
      s: Segment)
    requires i < |ops| && ops[i].Equal? && s.Change?
    ensures s in Segments(ops, i, pending, b) <==> s in Flush(pending) || s in Segments(ops, i + 1, None, b)
  {
    var kept, rest := [KeptRun(ops[i])], Segments(ops, i + 1, None, b);
    assert s in Flush(pending) + (kept + rest) <==> s in Flush(pending) || s in kept || s in rest;
  }

  lemma {:induction false} RunsSplit(ops: seq<DiffOp>, lo: nat, i: nat, b: seq<Record>, s: Segment)
    requires OpenRun(ops, lo, i) && i < |ops| && ops[i].Equal?
    ensures HasRun(ops, b, lo, s) <==> ChangeOf(ops, b, lo, s, lo, i) || HasRun(ops, b, i + 1, s)
  {
    RunAtEnd(ops, lo, i);
    if l: nat, h: nat :| ChangeOf(ops, b, lo, s, l, h) {
      assert (l == lo && h == i) || ChangeOf(ops, b, i + 1, s, l, h);
    }
    var next := i + 1;
    if l: nat, h: nat :| ChangeOf(ops, b, next, s, l, h) {
      assert ChangeOf(ops, b, lo, s, l, h);
    }
  }

  /** Inside a valid script every operation starts where the one before it ends. */
  lemma {:induction false} ScriptFrom(ops: seq<DiffOp>, i: nat, a: seq<Record>, b: seq<Record>, o: nat, n: nat, k: nat)
    requires Script(ops, i, a, b, o, n) && i <= k < |ops|
    ensures Script(ops, k, a, b, ops[k].oldIndex, ops[k].newIndex)
    ensures o <= ops[k].oldIndex && (k + 1 < |ops| ==> ops[k + 1].oldIndex == OldEnd(ops[k]))
    decreases k - i
  {
    if i < k { ScriptFrom(ops, i + 1, a, b, o + OldLen(ops[i]), n + NewLen(ops[i]), k); }
  }

  lemma {:induction false} Nothing(x: seq<Record>)
    ensures [] + x == x == x + []
  {
  }

  lemma {:induction false} AddedSnoc(ops: seq<DiffOp>, l: nat, h: nat, b: seq<Record>)
    requires l <= h < |ops|
    ensures AddedIn(ops, l, h + 1, b) == AddedIn(ops, l, h, b) + Added(ops[h], b)
    decreases h - l
  {
    if l < h {
      AddedSnoc(ops, l + 1, h, b);
      Assoc(Added(ops[l], b), AddedIn(ops, l + 1, h, b), Added(ops[h], b));
    } else {
      Nothing(Added(ops[h], b));
    }
  }

  /** Operation `k` starts where the one before it ends. */
  ghost predicate Follows(ops: seq<DiffOp>, k: nat) {
    0 < k < |ops| ==> ops[k].oldIndex == OldEnd(ops[k - 1])
  }

  ghost predicate Chained(ops: seq<DiffOp>) { forall k: nat :: Follows(ops, k) }

  lemma {:induction false} ScriptChained(ops: seq<DiffOp>, a: seq<Record>, b: seq<Record>)
    requires Script(ops, 0, a, b, 0, 0)
    ensures Chained(ops)
  {
    forall k: nat
      ensures Follows(ops, k)
    {
      if 0 < k < |ops| { ScriptFrom(ops, 0, a, b, 0, 0, k - 1); }
    }
  }

  lemma {:induction false} ChainAscends(ops: seq<DiffOp>, l: nat, k: nat)
    requires Chained(ops) && l <= k < |ops|
    ensures ops[l].oldIndex <= ops[k].oldIndex
    decreases k
  {
    if l < k {
      assert Follows(ops, k);
      ChainAscends(ops, l, k - 1);
    }
  }

  /** One more operation extends the run's change. */
  lemma {:induction false} RunExtends(ops: seq<DiffOp>, l: nat, k: nat, b: seq<Record>)
    requires Chained(ops) && l <= k < |ops|
    ensures Some(Extended(RunOf(ops, l, k, b), ops[k], b)) == RunOf(ops, l, k + 1, b)
  {
    var before, added := AddedIn(ops, l, k, b), Added(ops[k], b);
    assert AddedIn(ops, l, k + 1, b) == before + added by { AddedSnoc(ops, l, k, b); }
    if l == k {
      Nothing(added);
    } else {
      assert ops[l].oldIndex <= OldEnd(ops[k - 1]) == ops[k].oldIndex by {
        assert Follows(ops, k);
        ChainAscends(ops, l, k - 1);
      }
      GrowNext(Change(ops[l].oldIndex, OldEnd(ops[k - 1]), before), ops[k], b);
    }
  }

  lemma {:induction false} GrowNext(p: Segment, op: DiffOp, b: seq<Record>)
    requires p.Change? && p.start <= p.end == op.oldIndex
    ensures Extended(Some(p), op, b) == Change(p.start, OldEnd(op), p.lines + Added(op, b))
  {
  }

  ghost predicate InBearing(s: Segment, x: nat) { Bearing(s) && s.start <= x < s.end }

  lemma {:induction false} RewrittenIsCovered(segs: seq<Segment>, to: nat, x: nat)
    requires Tiles(segs, 0, to) && x < to
    ensures |Rewritten(segs)| == to && (Rewritten(segs)[x] <==> exists k :: 0 <= k < |segs| && InBearing(segs[k], x))
  {
    FlagSizes(segs, 0, to);
    var m := SegmentOf(segs, 0, to, x);
    FlagsOf(segs, 0, to, m, x);
    if k :| 0 <= k < |segs| && InBearing(segs[k], x) {
      FlagsOf(segs, 0, to, k, x);
    }
    assert Bearing(segs[m]) ==> InBearing(segs[m], x);
  }

  /** A position is rewritten by the segments exactly when a maximal run that adds a record covers it. */
  lemma {:induction false} RewrittenExactly(ops: seq<DiffOp>, a: seq<Record>, b: seq<Record>, x: nat)
    requires Script(ops, 0, a, b, 0, 0) && x < |a|
    ensures |Rewritten(Side(ops, b))| == |a| && (Rewritten(Side(ops, b))[x] <==> RewrittenBy(ops, b, x))
  {
    var segs := Side(ops, b);
    SideFacts(ops, a, b);
    RewrittenIsCovered(segs, |a|, x);
    ScriptChained(ops, a, b);
    if k: nat :| k < |segs| && InBearing(segs[k], x) { RunOfChange(ops, b, segs[k], x); }
    if l: nat, h: nat :| RunRewrites(ops, b, x, l, h) {
      var k := ChangeOfRun(ops, b, l, h, x);
    }
  }

  lemma {:induction false} RunOfChange(ops: seq<DiffOp>, b: seq<Record>, s: Segment, x: nat)
    requires Chained(ops) && s in Side(ops, b) && InBearing(s, x)
    ensures RewrittenBy(ops, b, x)
  {
    ChangesAreRuns(ops, 0, 0, b, s);
    var l: nat, h: nat :| ChangeOf(ops, b, 0, s, l, h);
    assert RunRewrites(ops, b, x, l, h);
  }

  lemma {:induction false} ChangeOfRun(ops: seq<DiffOp>, b: seq<Record>, l: nat, h: nat, x: nat) returns (k: nat)
    requires Chained(ops) && RunRewrites(ops, b, x, l, h)
    ensures k < |Side(ops, b)| && InBearing(Side(ops, b)[k], x)
  {
    var s := RunOf(ops, l, h, b).value;
    ChangesAreRuns(ops, 0, 0, b, s);
    assert ChangeOf(ops, b, 0, s, l, h);
    k :| k < |Side(ops, b)| && Side(ops, b)[k] == s;
  }

  lemma {:induction false} WrittenCons(s: Segment, segs: seq<Segment>)
    ensures Written([s] + segs) == Lines(s) + Written(segs)
  {
    assert ([s] + segs)[1..] == segs;
  }

  lemma {:induction false} FlushWritten(pending: Option<Segment>, segs: seq<Segment>)
    requires pending.Some? ==> pending.value.Change?
    ensures Written(Flush(pending) + segs) == PendingLines(pending) + Written(segs)
  {
    if pending.Some? {
      WrittenCons(pending.value, segs);
    } else {
      assert [] + segs == segs && [] + Written(segs) == Written(segs);
    }
  }

  /** What the segments wrote is what the operations add, in order. */
  lemma {:induction false} WrittenIsAdded(ops: seq<DiffOp>, i: nat, pending: Option<Segment>, b: seq<Record>)
    requires i <= |ops| && (pending.Some? ==> pending.value.Change?)
    ensures Written(Segments(ops, i, pending, b)) == PendingLines(pending) + AddedIn(ops, i, |ops|, b)
    decreases |ops| - i
  {
    if i == |ops| {
      FlushWritten(pending, []);
      assert Flush(pending) + [] == Flush(pending);
    } else if ops[i].Equal? {
      var keep, rest := KeptRun(ops[i]), Segments(ops, i + 1, None, b);
      WrittenIsAdded(ops, i + 1, None, b);
      WrittenCons(keep, rest);
      FlushWritten(pending, [keep] + rest);
      Nothing(AddedIn(ops, i + 1, |ops|, b));
      Nothing(Written(rest));
    } else {
      WrittenIsAdded(ops, i + 1, Some(Extended(pending, ops[i], b)), b);
      Assoc(PendingLines(pending), Added(ops[i], b), AddedIn(ops, i + 1, |ops|, b));
      assert PendingLines(Some(Extended(pending, ops[i], b))) == PendingLines(pending) + Added(ops[i], b);
    }
  }

  lemma {:induction false} WrittenExactly(ops: seq<DiffOp>, b: seq<Record>)
    ensures Written(Side(ops, b)) == AddedIn(ops, 0, |ops|, b)
  {
    WrittenIsAdded(ops, 0, None, b);
    assert [] + AddedIn(ops, 0, |ops|, b) == AddedIn(ops, 0, |ops|, b);
  }

  /** Segments that say of every base position and every new record what the script says. */
  ghost predicate Reflects(segs: seq<Segment>, ops: seq<DiffOp>, a: seq<Record>, b: seq<Record>) {
    && |Kept(segs)| == |Rewritten(segs)| == |a|
    && (forall x :: 0 <= x < |a| ==> (Kept(segs)[x] <==> KeptBy(ops, x)))
    && (forall x :: 0 <= x < |a| ==> (Rewritten(segs)[x] <==> RewrittenBy(ops, b, x)))
    && Written(segs) == AddedIn(ops, 0, |ops|, b)
  }

  lemma {:induction false} SideReflects(ops: seq<DiffOp>, a: seq<Record>, b: seq<Record>)
    requires Script(ops, 0, a, b, 0, 0)
    ensures Reflects(Side(ops, b), ops, a, b)
  {
    SideFacts(ops, a, b);
    WrittenExactly(ops, b);
    forall x | 0 <= x < |a|
      ensures Kept(Side(ops, b))[x] <==> KeptBy(ops, x)
      ensures Rewritten(Side(ops, b))[x] <==> RewrittenBy(ops, b, x)
    {
      KeptExactly(ops, a, b, x);
      RewrittenExactly(ops, a, b, x);
    }
  }

  /**
   Aggregate a script into segments: they tile the base, put the other side back together
   exactly, no two changes are neighbours, and they keep, rewrite and add exactly what the
   operations of the script do.
   */
  method AggregateSegments(ops: seq<DiffOp>, ghost a: seq<Record>, b: seq<Record>) returns (segs: seq<Segment>)
    requires Script(ops, 0, a, b, 0, 0)
    ensures Tiles(segs, 0, |a|) && Rebuild(segs, a) == b && Separated(segs)
    ensures Reflects(segs, ops, a, b)
  {
    segs := CollectSegments(ops, b);
    SideFacts(ops, a, b);
    SideReflects(ops, a, b);
  }
}
