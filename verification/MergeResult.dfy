/**
 The three-way merge and what it promises (`merge` of src/line_merge.rs), in terms of the
 two edit scripts: which base records their equal runs keep, which they rewrite, and what
 they add.
 */
module MergeResult {
  import opened Base
  import opened LineRecords
  import opened LineOrder
  import opened LineMerge

  /** The records of the three files and the two scripts that lead from the base to each side. */
  datatype Problem = Problem(base: seq<Record>, local: seq<Record>, remote: seq<Record>,
                             localOps: seq<DiffOp>, remoteOps: seq<DiffOp>)

  ghost predicate Valid(p: Problem) {
    Script(p.localOps, 0, p.base, p.local, 0, 0) && Script(p.remoteOps, 0, p.base, p.remote, 0, 0)
  }

  /** Both scripts replace the base record at `x` with content. */
  ghost predicate Clash(p: Problem, x: nat) {
    x < |p.base| && RewrittenBy(p.localOps, p.local, x) && RewrittenBy(p.remoteOps, p.remote, x)
  }

  ghost predicate Conflicted(p: Problem) { exists x :: Clash(p, x) }

  /** Policy A: a base record survives if an equal run of either script covers it. */
  ghost function Surviving(p: Problem): (f: seq<bool>)
    ensures |f| == |p.base| && forall x :: 0 <= x < |f| ==> (f[x] <==> KeptBy(p.localOps, x) || KeptBy(p.remoteOps, x))
  {
    seq(|p.base|, x requires 0 <= x < |p.base| => KeptBy(p.localOps, x) || KeptBy(p.remoteOps, x))
  }

  function NewRecords(ops: seq<DiffOp>, b: seq<Record>): seq<Record> { AddedIn(ops, 0, |ops|, b) }

  /** The records of a clean merge before ordering: survivors, then local's, then remote's. */
  ghost function Gathered(p: Problem): seq<Record> {
    Select(p.base, Surviving(p)) + NewRecords(p.localOps, p.local) + NewRecords(p.remoteOps, p.remote)
  }

  predicate Stamped(rs: seq<Record>) { exists i :: 0 <= i < |rs| && Timestamp(rs[i]).Some? }

  predicate AnyStamp(p: Problem) { Stamped(p.base) || Stamped(p.local) || Stamped(p.remote) }

  /** The records of a clean merge in their final order. */
  ghost function Merged(p: Problem): seq<Record> {
    if AnyStamp(p) then StableSort(Gathered(p)) else Gathered(p)
  }

  // ----- the merge ----------------------------------------------------------

  datatype MergeOutcome = Clean(content: seq<byte>) | Conflict

  /** What the segments say is what the scripts say. */
  lemma {:induction false} SegmentsAgree(p: Problem, l: seq<Segment>, r: seq<Segment>)
    requires Reflects(l, p.localOps, p.base, p.local) && Reflects(r, p.remoteOps, p.base, p.remote)
    ensures Either(Kept(l), Kept(r)) == Surviving(p)
    ensures (exists i :: BothRewrote(l, r, i)) <==> Conflicted(p)
  {
    if i: nat :| BothRewrote(l, r, i) { assert Clash(p, i); }
    if x: nat :| Clash(p, x) { assert BothRewrote(l, r, x); }
  }

  method AnyStamped(rs: seq<Record>) returns (s: bool)
    ensures s == Stamped(rs)
  {
    for i := 0 to |rs|
      invariant forall j :: 0 <= j < i ==> Timestamp(rs[j]).None?
    {
      if Timestamp(rs[i]).Some? { return true; }
    }
    s := false;
  }

  /**
   The merge of two sides against their base, for any valid edit scripts: a conflict
   exactly when both scripts replace some base record with content, otherwise the base
   records an equal run of either script covers and the records both scripts add.
   */
  method Merge(base: seq<byte>, local: seq<byte>, remote: seq<byte>, localOps: seq<DiffOp>, remoteOps: seq<DiffOp>)
    returns (m: MergeOutcome)
    requires Valid(Problem(Split(base), Split(local), Split(remote), localOps, remoteOps))
    ensures var p := Problem(Split(base), Split(local), Split(remote), localOps, remoteOps);
            && (m.Conflict? <==> Conflicted(p))
            && (m.Clean? ==> m.content == LineRecords.Join(Merged(p)))
  {
    var a := SplitLines(base);
    var b := SplitLines(local);
    var c := SplitLines(remote);
    ghost var p := Problem(a, b, c, localOps, remoteOps);
    var l := AggregateSegments(localOps, a, b);
    var r := AggregateSegments(remoteOps, a, c);
    SegmentsAgree(p, l, r);
    var conflict := HasConflict(l, r, |a|);
    if conflict { return Conflict; }
    var merged := PolicyASurvivors(a, l, r);
    var fromLocal := ChangedOtherLines(l);
    var fromRemote := ChangedOtherLines(r);
    merged := merged + fromLocal + fromRemote;
    var inBase := AnyStamped(a);
    var inLocal := AnyStamped(b);
    var inRemote := AnyStamped(c);
    if inBase || inLocal || inRemote { merged := StableSort(merged); }
    m := Clean(LineRecords.Join(merged));
  }

  // ----- conservation -------------------------------------------------------

  lemma {:induction false} MergedMultiset(p: Problem)
    ensures multiset(Merged(p)) == multiset(Gathered(p))
    ensures multiset(Gathered(p)) == multiset(Select(p.base, Surviving(p)))
                                     + multiset(NewRecords(p.localOps, p.local))
                                     + multiset(NewRecords(p.remoteOps, p.remote))
  {
    StableSortFacts(Gathered(p), 0);
  }

  /** The base records one script keeps. */
  ghost function KeptFlags(ops: seq<DiffOp>, n: nat): (f: seq<bool>)
    ensures |f| == n && forall x :: 0 <= x < n ==> (f[x] <==> KeptBy(ops, x))
  {
    seq(n, x requires 0 <= x < n => KeptBy(ops, x))
  }

  /** A side is, as a multiset, what its script keeps of the base plus what it adds. */
  lemma {:induction false} SideIsKeptPlusAdded(ops: seq<DiffOp>, a: seq<Record>, b: seq<Record>)
    requires Script(ops, 0, a, b, 0, 0)
    ensures multiset(b) == multiset(Select(a, KeptFlags(ops, |a|))) + multiset(NewRecords(ops, b))
  {
    var segs := Side(ops, b);
    SideFacts(ops, a, b);
    SideReflects(ops, a, b);
    SideIsKeptPlusWritten(segs, a, 0);
    assert a[0..] == a;
    SameFlags(segs, ops, a, b);
  }

  lemma {:induction false} SameFlags(segs: seq<Segment>, ops: seq<DiffOp>, a: seq<Record>, b: seq<Record>)
    requires Reflects(segs, ops, a, b)
    ensures Kept(segs) == KeptFlags(ops, |a|)
  {
  }

  lemma {:induction false} SideSurvives(p: Problem, ops: seq<DiffOp>, b: seq<Record>)
    requires Script(ops, 0, p.base, b, 0, 0)
    requires forall x :: 0 <= x < |p.base| && KeptBy(ops, x) ==> Surviving(p)[x]
    ensures multiset(b) <= multiset(Select(p.base, Surviving(p))) + multiset(NewRecords(ops, b))
  {
    SideIsKeptPlusAdded(ops, p.base, b);
    SelectMonotone(p.base, KeptFlags(ops, |p.base|), Surviving(p));
  }

  /**
   Conservation: the merged records are, as a multiset, the base records an equal run of
   either script covers plus what each script adds; no record of either side occurs less
   often than there.
   */
  lemma {:induction false} MergeConserves(p: Problem)
    requires Valid(p)
    ensures multiset(Merged(p)) == multiset(Select(p.base, Surviving(p)))
                                   + multiset(NewRecords(p.localOps, p.local))
                                   + multiset(NewRecords(p.remoteOps, p.remote))
    ensures multiset(p.local) <= multiset(Merged(p)) && multiset(p.remote) <= multiset(Merged(p))
  {
    MergedMultiset(p);
    assert multiset(p.local) <= multiset(Merged(p)) by { SideSurvives(p, p.localOps, p.local); }
    assert multiset(p.remote) <= multiset(Merged(p)) by { SideSurvives(p, p.remoteOps, p.remote); }
  }

  /** The order of a clean merge: by timestamp, and records with the same key stay as gathered. */
  lemma {:induction false} MergeOrder(p: Problem, k: int)
    ensures WithKey(Merged(p), k) == WithKey(Gathered(p), k)
    ensures AnyStamp(p) ==> SortedByKey(Merged(p))
  {
    StableSortFacts(Gathered(p), k);
  }

  /** What a script adds comes from its side. */
  lemma {:induction false} AddedIsTheirs(ops: seq<DiffOp>, a: seq<Record>, b: seq<Record>, r: Record)
    requires Script(ops, 0, a, b, 0, 0) && r in NewRecords(ops, b)
    ensures r in b
  {
    SideIsKeptPlusAdded(ops, a, b);
    assert r in multiset(NewRecords(ops, b));
    assert r in multiset(b);
  }

  lemma {:induction false} SelectFrom(a: seq<Record>, f: seq<bool>, r: Record)
    requires |a| == |f| && r in Select(a, f)
    ensures r in a
    decreases |a|
  {
    if a != [] && !(f[0] && r == a[0]) { SelectFrom(a[1..], f[1..], r); }
  }

  lemma {:induction false} GatheredFrom(p: Problem, r: Record)
    requires Valid(p) && r in Gathered(p)
    ensures r in p.base || r in p.local || r in p.remote
  {
    if r in Select(p.base, Surviving(p)) {
      SelectFrom(p.base, Surviving(p), r);
    } else if r in NewRecords(p.localOps, p.local) {
      AddedIsTheirs(p.localOps, p.base, p.local, r);
    } else {
      AddedIsTheirs(p.remoteOps, p.base, p.remote, r);
    }
  }

  /**
   The order spelled out: records without a timestamp come first, the others by time; and the
   records of any one time stay as they were in the base, then in local, then in remote.
   */
  lemma {:induction false} MergedByTime(p: Problem, k: int)
    requires Valid(p)
    ensures var m := Merged(p);
            forall i, j :: 0 <= i < j < |m| && Timestamp(m[i]).Some? ==>
              Timestamp(m[j]).Some? && Timestamp(m[i]).value <= Timestamp(m[j]).value
    ensures WithKey(Merged(p), k) == WithKey(Select(p.base, Surviving(p)), k)
                                     + WithKey(NewRecords(p.localOps, p.local), k)
                                     + WithKey(NewRecords(p.remoteOps, p.remote), k)
  {
    MergeOrder(p, k);
    var kept, b, c := Select(p.base, Surviving(p)), NewRecords(p.localOps, p.local), NewRecords(p.remoteOps, p.remote);
    WithKeyConcat(kept + b, c, k);
    WithKeyConcat(kept, b, k);
    var m := Merged(p);
    forall i, j | 0 <= i < j < |m| && Timestamp(m[i]).Some?
      ensures Timestamp(m[j]).Some? && Timestamp(m[i]).value <= Timestamp(m[j]).value
    {
      if !AnyStamp(p) { GatheredFrom(p, m[i]); }
      KeyBound(m[j]);
      StampIsLate(m[i]);
    }
  }

  lemma {:induction false} WithKeyConcat(a: seq<Record>, b: seq<Record>, k: int)
    ensures WithKey(a + b, k) == WithKey(a, k) + WithKey(b, k)
    decreases |a|
  {
    if a == [] {
      assert a + b == b;
    } else {
      assert (a + b)[1..] == a[1..] + b;
      WithKeyConcat(a[1..], b, k);
    }
  }

  /** A timestamp is never negative, so it is later than none. */
  lemma {:induction false} StampIsLate(r: Record)
    requires Timestamp(r).Some?
    ensures SortKey(r) == Timestamp(r).value >= 0
  {
    var epoch, duration, command := TimestampOnlyOfLines(r);
    ValueNatural(epoch);
  }

  function Swapped(p: Problem): Problem { Problem(p.base, p.remote, p.local, p.remoteOps, p.localOps) }

  /** Exchanging the two sides neither makes nor removes a conflict, and merges the same records. */
  lemma {:induction false} MergeSymmetric(p: Problem)
    ensures Conflicted(p) <==> Conflicted(Swapped(p))
    ensures multiset(Merged(p)) == multiset(Merged(Swapped(p)))
  {
    var q := Swapped(p);
    ClashSwaps(p, q);
    SurvivingSwaps(p, q);
    MergedMultiset(p);
    MergedMultiset(q);
  }

  lemma {:induction false} ClashSwaps(p: Problem, q: Problem)
    requires q == Swapped(p)
    ensures Conflicted(p) <==> Conflicted(q)
  {
    if x: nat :| Clash(p, x) { assert Clash(q, x); }
    if x: nat :| Clash(q, x) { assert Clash(p, x); }
  }

  lemma {:induction false} SurvivingSwaps(p: Problem, q: Problem)
    requires q == Swapped(p)
    ensures Surviving(p) == Surviving(q)
  {
  }

  // ----- which edits conflict ---------------------------------------------------

  /** A side that only keeps and deletes never conflicts, whatever the other one does. */
  lemma {:induction false} DeletionNeverConflicts(p: Problem)
    requires forall i :: 0 <= i < |p.localOps| ==> p.localOps[i].Equal? || p.localOps[i].Delete?
    ensures !Conflicted(p) && !Conflicted(Swapped(p))
  {
    if x: nat :| RewrittenBy(p.localOps, p.local, x) {
      var l, h :| RunRewrites(p.localOps, p.local, x, l, h);
      DeletionsAddNothing(p.localOps, l, h, p.local);
      assert false;
    }
  }

  lemma {:induction false} DeletionsAddNothing(ops: seq<DiffOp>, l: nat, h: nat, b: seq<Record>)
    requires l <= h <= |ops| && forall i :: 0 <= i < |ops| ==> ops[i].Equal? || ops[i].Delete?
    ensures AddedIn(ops, l, h, b) == []
    decreases h - l
  {
    if l < h { DeletionsAddNothing(ops, l + 1, h, b); }
  }

  /** Two sides that both replace one record always do. */
  lemma {:induction false} ReplacingBothConflicts(p: Problem, i: nat, j: nat, x: nat)
    requires Valid(p) && i < |p.localOps| && j < |p.remoteOps|
    requires p.localOps[i].Replace? && p.localOps[i].newLen > 0 && p.localOps[i].oldIndex <= x < OldEnd(p.localOps[i])
    requires p.remoteOps[j].Replace? && p.remoteOps[j].newLen > 0
    requires p.remoteOps[j].oldIndex <= x < OldEnd(p.remoteOps[j])
    ensures Conflicted(p)
  {
    ReplacingRewrites(p.localOps, p.base, p.local, i, x);
    ReplacingRewrites(p.remoteOps, p.base, p.remote, j, x);
    assert Clash(p, x);
  }

  lemma {:induction false} ReplacingRewrites(ops: seq<DiffOp>, a: seq<Record>, b: seq<Record>, i: nat, x: nat)
    requires Script(ops, 0, a, b, 0, 0) && i < |ops| && ops[i].Replace? && ops[i].newLen > 0
    requires ops[i].oldIndex <= x < OldEnd(ops[i])
    ensures x < |a| && RewrittenBy(ops, b, x)
  {
    assert OldEnd(ops[i]) <= |a| && Added(ops[i], b) != [] by { ScriptFrom(ops, 0, a, b, 0, 0, i); }
    ScriptChained(ops, a, b);
    var l, h := RunAround(ops, i);
    RunSpans(ops, l, h, i);
    AddedAt(ops, l, h, b, i);
    assert RunRewrites(ops, b, x, l, h);
  }

  /** A run covers what each of its operations covers. */
  lemma {:induction false} RunSpans(ops: seq<DiffOp>, l: nat, h: nat, i: nat)
    requires Chained(ops) && l <= i < h <= |ops|
    ensures ops[l].oldIndex <= ops[i].oldIndex && OldEnd(ops[i]) <= OldEnd(ops[h - 1])
  {
    ChainAscends(ops, l, i);
    if i < h - 1 {
      assert LineMerge.Follows(ops, i + 1);
      ChainAscends(ops, i + 1, h - 1);
    }
  }

  /** The maximal run around an operation that is no equal run. */
  lemma {:induction false} RunAround(ops: seq<DiffOp>, i: nat) returns (l: nat, h: nat)
    requires i < |ops| && !ops[i].Equal?
    ensures MaximalRun(ops, l, h) && l <= i < h
  {
    l, h := i, i + 1;
    while l > 0 && !ops[l - 1].Equal?
      invariant l <= i && forall j :: l <= j <= i ==> !ops[j].Equal?
    {
      l := l - 1;
    }
    while h < |ops| && !ops[h].Equal?
      invariant i < h <= |ops| && forall j :: l <= j < h ==> !ops[j].Equal?
    {
      h := h + 1;
    }
  }

  lemma {:induction false} AddedAt(ops: seq<DiffOp>, l: nat, h: nat, b: seq<Record>, i: nat)
    requires l <= i < h <= |ops| && Added(ops[i], b) != []
    ensures AddedIn(ops, l, h, b) != []
    decreases h - l
  {
    if l < i { AddedAt(ops, l + 1, h, b, i); }
  }

  // ----- what is missing ----------------------------------------------------

  ghost predicate DropAt(ops: seq<DiffOp>, x: nat, j: nat) {
    j < |ops| && (ops[j].Delete? || ops[j].Replace?) && ops[j].oldIndex <= x < OldEnd(ops[j])
  }

  /** The script deletes or replaces the base record at `x`. */
  ghost predicate DroppedBy(ops: seq<DiffOp>, x: nat) { exists j :: DropAt(ops, x, j) }

  /** Every base position is kept or dropped by a valid script. */
  lemma {:induction false} ScriptDecides(ops: seq<DiffOp>, i: nat, a: seq<Record>, b: seq<Record>, o: nat, n: nat,
      x: nat)
    requires Script(ops, i, a, b, o, n) && o <= x < |a|
    ensures KeptBy(ops, x) || DroppedBy(ops, x)
    decreases |ops| - i
  {
    if x < OldEnd(ops[i]) {
      assert EqualAt(ops, x, i) || DropAt(ops, x, i);
    } else {
      ScriptDecides(ops, i + 1, a, b, o + OldLen(ops[i]), n + NewLen(ops[i]), x);
    }
  }

  /** Both sides gave the base record at `x` up, and at most one put content in its place. */
  ghost predicate GivenUp(p: Problem, x: nat) {
    && x < |p.base| && !KeptBy(p.localOps, x) && !KeptBy(p.remoteOps, x)
    && DroppedBy(p.localOps, x) && DroppedBy(p.remoteOps, x)
    && !(RewrittenBy(p.localOps, p.local, x) && RewrittenBy(p.remoteOps, p.remote, x))
  }

  lemma {:induction false} NotSurvivingIsGivenUp(p: Problem, x: nat)
    requires Valid(p) && !Conflicted(p) && x < |p.base| && !Surviving(p)[x]
    ensures GivenUp(p, x)
  {
    ScriptDecides(p.localOps, 0, p.base, p.local, 0, 0, x);
    ScriptDecides(p.remoteOps, 0, p.base, p.remote, 0, 0, x);
    assert !Clash(p, x);
  }

  /** Selecting every occurrence of a record selects it as often as it occurs. */
  lemma {:induction false} SelectAll(a: seq<Record>, f: seq<bool>, v: Record)
    requires |a| == |f| && forall i :: 0 <= i < |a| && a[i] == v ==> f[i]
    ensures multiset(Select(a, f))[v] == multiset(a)[v]
    decreases |a|
  {
    if a != [] {
      SelectAll(a[1..], f[1..], v);
      assert a == [a[0]] + a[1..];
    }
  }

  /**
   A record that occurs less often in a clean result than in the base was given up by both
   sides at one of its positions, where at most one of them put content.
   */
  lemma {:induction false} MissingWasGivenUp(p: Problem, v: Record)
    requires Valid(p) && !Conflicted(p) && multiset(Merged(p))[v] < multiset(p.base)[v]
    ensures exists x :: 0 <= x < |p.base| && p.base[x] == v && GivenUp(p, x)
  {
    MergedMultiset(p);
    var f := Surviving(p);
    if forall x :: 0 <= x < |p.base| && p.base[x] == v ==> f[x] {
      SelectAll(p.base, f, v);
    } else {
      var x: nat :| x < |p.base| && p.base[x] == v && !f[x];
      NotSurvivingIsGivenUp(p, x);
    }
  }

  lemma {:induction false} SelectHolds(a: seq<Record>, f: seq<bool>, i: nat)
    requires |a| == |f| && i < |a| && f[i]
    ensures a[i] in Select(a, f)
    decreases |a|
  {
    if i > 0 { SelectHolds(a[1..], f[1..], i - 1); }
  }

  /** A base record that does not occur in a clean result at all was given up at every position. */
  lemma {:induction false} AbsentWasGivenUp(p: Problem, x: nat)
    requires Valid(p) && !Conflicted(p) && x < |p.base| && p.base[x] !in Merged(p)
    ensures GivenUp(p, x)
  {
    if Surviving(p)[x] {
      SurvivorIsMerged(p, x);
    } else {
      NotSurvivingIsGivenUp(p, x);
    }
  }

  lemma {:induction false} SurvivorIsMerged(p: Problem, x: nat)
    requires x < |p.base| && Surviving(p)[x]
    ensures p.base[x] in Merged(p)
  {
    MergedMultiset(p);
    SelectHolds(p.base, Surviving(p), x);
    assert p.base[x] in multiset(Gathered(p));
    assert p.base[x] in multiset(Merged(p));
  }
}
