/**
 Reading a merged history again: exactly which inputs are safe. A file whose last record
 ends in a backslash can run into the record the merge puts behind it (src/line_merge.rs).
 */
module MergeReadBack {
  import opened Base
  import opened LineRecords
  import opened LineOrder
  import opened LineMerge
  import opened MergeResult

  /** The file a clean merge writes splits into exactly the merged records. */
  ghost predicate ReadsBack(p: Problem) { Split(LineRecords.Join(Merged(p))) == Merged(p) }

  /** No record runs into what follows it. */
  ghost predicate Settled(rs: seq<Record>) {
    forall x :: x in rs ==> Continued(x) && !DanglingBackslash(x)
  }

  ghost predicate EndsDangling(rs: seq<Record>) { rs != [] && DanglingBackslash(rs[|rs| - 1]) }

  /** Only the last record of a file can dangle. */
  lemma {:induction false} SplitSettled(c: seq<byte>)
    ensures Settled(Split(c)) <==> !EndsDangling(Split(c))
  {
    SplitCanonical(c);
  }

  // ----- safe inputs --------------------------------------------------------

  lemma {:induction false} SelectFromEither(a: seq<Record>, f: seq<bool>, g: seq<bool>, h: seq<bool>, x: Record)
    requires |a| == |f| == |g| == |h| && x in Select(a, h) && forall i :: 0 <= i < |a| && h[i] ==> f[i] || g[i]
    ensures x in Select(a, f) || x in Select(a, g)
    decreases |a|
  {
    if !(h[0] && x == a[0]) { SelectFromEither(a[1..], f[1..], g[1..], h[1..], x); }
  }

  lemma {:induction false} HoldsKept(ops: seq<DiffOp>, a: seq<Record>, b: seq<Record>, x: Record)
    requires Script(ops, 0, a, b, 0, 0) && (x in Select(a, KeptFlags(ops, |a|)) || x in NewRecords(ops, b))
    ensures x in b
  {
    SideIsKeptPlusAdded(ops, a, b);
    assert x in multiset(b);
  }

  /** Every merged record is one of local's or one of remote's. */
  lemma {:induction false} MergedFromSides(p: Problem, x: Record)
    requires Valid(p) && x in Merged(p)
    ensures x in p.local || x in p.remote
  {
    MergedMultiset(p);
    assert x in multiset(Merged(p));
    var n := |p.base|;
    if x in Select(p.base, Surviving(p)) {
      SelectFromEither(p.base, KeptFlags(p.localOps, n), KeptFlags(p.remoteOps, n), Surviving(p), x);
      if x in Select(p.base, KeptFlags(p.localOps, n)) {
        HoldsKept(p.localOps, p.base, p.local, x);
      } else {
        HoldsKept(p.remoteOps, p.base, p.remote, x);
      }
    } else if x in NewRecords(p.localOps, p.local) {
      HoldsKept(p.localOps, p.base, p.local, x);
    } else {
      HoldsKept(p.remoteOps, p.base, p.remote, x);
    }
  }

  /** With both sides settled the merged file reads back, whatever the base. */
  lemma {:induction false} MergeReadsBack(p: Problem)
    requires Valid(p) && Settled(p.local) && Settled(p.remote)
    ensures ReadsBack(p)
  {
    var m := Merged(p);
    forall k | 0 <= k < |m|
      ensures Continued(m[k]) && !DanglingBackslash(m[k])
    {
      MergedFromSides(p, m[k]);
    }
    SplitJoin(m);
  }

  // ----- unsafe inputs ------------------------------------------------------

  lemma {:induction false} Fused(rs: seq<Record>, k: nat)
    requires k < |rs| - 1 && DanglingBackslash(rs[k])
    ensures Split(LineRecords.Join(rs)) != rs
  {
    SplitJoin(rs);
  }

  /** Gathered records followed by one that sorts last: a dangling one among them fuses. */
  lemma {:induction false} DanglingBeforeLatest(p: Problem, rs: seq<Record>)
    requires Gathered(p) == rs + [LatestLine()] && AnyStamp(p) && EndsDangling(rs)
    ensures !ReadsBack(p)
  {
    var d := rs[|rs| - 1];
    LatestLineKey();
    LatestStaysLast(rs, LatestLine());
    StableSortFacts(rs, 0);
    assert d in multiset(StableSort(rs));
    var k: nat :| k < |StableSort(rs)| && StableSort(rs)[k] == d;
    Fused(Merged(p), k);
  }

  lemma {:induction false} LineSettled(epoch: seq<byte>, duration: seq<byte>)
    requires Digits(epoch) && Digits(duration)
    ensures Continued(HistoryLine(epoch, duration, [])) && !DanglingBackslash(HistoryLine(epoch, duration, []))
  {
    var z := HistoryLine(epoch, duration, []);
    assert z[|z| - 1] == 0x3B;
    assert NL !in epoch && NL !in duration;
    assert NL !in z;
  }

  lemma {:induction false} LatestSettled()
    ensures Settled([LatestLine()]) && Stamped([LatestLine()])
  {
    LatestLineKey();
    MaxDigitsValue();
    LineSettled(MAX_DIGITS, [0x30]);
    assert [LatestLine()][0] == LatestLine();
  }

  function InsertAll(b: seq<Record>): seq<DiffOp> { [Insert(0, 0, |b|)] }

  lemma {:induction false} InsertAllFacts(b: seq<Record>)
    ensures Script(InsertAll(b), 0, [], b, 0, 0) && NewRecords(InsertAll(b), b) == b
  {
    var ops := InsertAll(b);
    assert Script(ops, 1, [], b, 0, |b|);
    assert b[0..|b|] == b && AddedIn(ops, 1, 1, b) == [];
    Nothing(b);
  }

  /** Over an empty base both sides' records are gathered, local's first. */
  ghost function Fresh(b: seq<Record>, c: seq<Record>): Problem {
    Problem([], b, c, InsertAll(b), InsertAll(c))
  }

  lemma {:induction false} FreshFacts(b: seq<Record>, c: seq<Record>)
    ensures Valid(Fresh(b, c)) && !Conflicted(Fresh(b, c)) && Gathered(Fresh(b, c)) == b + c
  {
    InsertAllFacts(b);
    InsertAllFacts(c);
    Nothing(b);
  }

  // ----- exactly when -------------------------------------------------------

  /** Local merges safely with every settled base and remote, for every pair of scripts. */
  ghost predicate LocalSafe(b: seq<Record>) {
    forall p :: Valid(p) && p.local == b && Settled(p.base) && Settled(p.remote) && !Conflicted(p) ==> ReadsBack(p)
  }

  /** A local file is safe exactly when its last record does not end in a backslash. */
  lemma {:induction false} LocalSafeExactly(local: seq<byte>)
    ensures LocalSafe(Split(local)) <==> !EndsDangling(Split(local))
  {
    var b := Split(local);
    SplitSettled(local);
    if EndsDangling(b) {
      var p := Fresh(b, [LatestLine()]);
      FreshFacts(b, [LatestLine()]);
      LatestSettled();
      DanglingBeforeLatest(p, b);
    } else {
      forall p | Valid(p) && p.local == b && Settled(p.base) && Settled(p.remote) && !Conflicted(p)
        ensures ReadsBack(p)
      {
        MergeReadsBack(p);
      }
    }
  }

  /** Remote merges safely with every base, settled or not, and every settled local. */
  ghost predicate RemoteSafe(c: seq<Record>) {
    forall p :: Valid(p) && p.remote == c && Canonical(p.base) && Settled(p.local) && !Conflicted(p) ==> ReadsBack(p)
  }

  /** Remote kept the whole base and local replaced it by one late record. */
  ghost function Overtaken(c: seq<Record>): Problem {
    Problem(c, [LatestLine()], c, [Replace(0, |c|, 0, 1)], [Equal(0, 0, |c|)])
  }

  lemma {:induction false} SelectEverything(a: seq<Record>, f: seq<bool>)
    requires |a| == |f| && forall i :: 0 <= i < |a| ==> f[i]
    ensures Select(a, f) == a
    decreases |a|
  {
    if a != [] {
      SelectEverything(a[1..], f[1..]);
      assert a == [a[0]] + a[1..];
    }
  }

  lemma {:induction false} OvertakenFacts(c: seq<Record>)
    ensures Valid(Overtaken(c)) && !Conflicted(Overtaken(c)) && Gathered(Overtaken(c)) == c + [LatestLine()]
  {
    var p := Overtaken(c);
    var z := [LatestLine()];
    assert Script(p.localOps, 1, c, z, |c|, 1) && Script(p.remoteOps, 1, c, c, |c|, |c|);
    assert z[0..1] == z;
    assert AddedIn(p.localOps, 1, 1, z) == [] && AddedIn(p.remoteOps, 1, 1, c) == [];
    Nothing(z);
    Nothing(c + z);
    forall x | 0 <= x < |c|
      ensures Surviving(p)[x]
    {
      assert EqualAt(p.remoteOps, x, 0);
    }
    SelectEverything(c, Surviving(p));
    forall x: nat
      ensures !Clash(p, x)
    {
      assert forall l: nat, h: nat :: !MaximalRun(p.remoteOps, l, h);
    }
  }

  /** A remote file is safe exactly when its last record does not end in a backslash. */
  lemma {:induction false} RemoteSafeExactly(remote: seq<byte>)
    ensures RemoteSafe(Split(remote)) <==> !EndsDangling(Split(remote))
  {
    var c := Split(remote);
    SplitSettled(remote);
    if EndsDangling(c) {
      OvertakenFacts(c);
      LatestSettled();
      SplitCanonical(remote);
      DanglingBeforeLatest(Overtaken(c), c);
    } else {
      forall p | Valid(p) && p.remote == c && Canonical(p.base) && Settled(p.local) && !Conflicted(p)
        ensures ReadsBack(p)
      {
        MergeReadsBack(p);
      }
    }
  }

  // ----- the one exception with settled bases -------------------------------

  /** The dangling last record has the largest timestamp there is. */
  ghost predicate EndsLatest(rs: seq<Record>) { rs != [] && SortKey(rs[|rs| - 1]) == I64_MAX }

  /** Remote merges safely with every settled base and local. */
  ghost predicate RemoteSafeSettled(c: seq<Record>) {
    forall p :: Valid(p) && p.remote == c && Settled(p.base) && Settled(p.local) && !Conflicted(p) ==> ReadsBack(p)
  }

  lemma {:induction false} AddedNothing(ops: seq<DiffOp>, i: nat, a: seq<Record>, b: seq<Record>, o: nat)
    requires i <= |ops| && Script(ops, i, a, b, o, |b|)
    ensures AddedIn(ops, i, |ops|, b) == []
    decreases |ops| - i
  {
    if i < |ops| { AddedNothing(ops, i + 1, a, b, o + OldLen(ops[i])); }
  }

  ghost predicate LastIs(rs: seq<Record>, d: Record) { rs != [] && rs[|rs| - 1] == d }

  lemma {:induction false} LastOfConcat(x: seq<Record>, y: seq<Record>, d: Record)
    requires LastIs(y, d)
    ensures LastIs(x + y, d)
  {
  }

  /** An operation that reaches the end with a record the base does not have adds it last. */
  lemma {:induction false} LastOpAdds(op: DiffOp, a: seq<Record>, b: seq<Record>, o: nat, n: nat)
    requires op.newIndex == n < |b| && n + NewLen(op) == |b| && o + OldLen(op) <= |a| && b[|b| - 1] !in a
    requires op.Equal? ==> a[o..o + OldLen(op)] == b[n..n + NewLen(op)]
    ensures LastIs(Added(op, b), b[|b| - 1])
  {
    if op.Equal? { EqualRunHolds(op, a, b, o, n); }
    AddedIs(op, b);
  }

  /** A last record that the base does not have is added last. */
  lemma {:induction false} LastIsAdded(ops: seq<DiffOp>, i: nat, a: seq<Record>, b: seq<Record>, o: nat, n: nat)
    requires Script(ops, i, a, b, o, n) && n < |b| && b[|b| - 1] !in a
    ensures i <= |ops| && LastIs(AddedIn(ops, i, |ops|, b), b[|b| - 1])
    decreases |ops| - i
  {
    var n', o' := n + NewLen(ops[i]), o + OldLen(ops[i]);
    if n' < |b| {
      LastIsAdded(ops, i + 1, a, b, o', n');
      LastOfConcat(Added(ops[i], b), AddedIn(ops, i + 1, |ops|, b), b[|b| - 1]);
    } else {
      assert LastIs(Added(ops[i], b), b[|b| - 1]) by { LastOpAdds(ops[i], a, b, o, n); }
      assert AddedIn(ops, i + 1, |ops|, b) == [] by { AddedNothing(ops, i + 1, a, b, o'); }
      Nothing(Added(ops[i], b));
    }
  }

  lemma {:induction false} EqualRunHolds(op: DiffOp, a: seq<Record>, b: seq<Record>, o: nat, n: nat)
    requires op.Equal? && n < |b| && n + op.len == |b| && o + op.len <= |a|
    requires a[o..o + op.len] == b[n..n + op.len]
    ensures b[|b| - 1] in a
  {
    var k := op.len - 1;
    assert a[o + k] == a[o..o + op.len][k] == b[n..n + op.len][k] == b[|b| - 1];
  }

  /** Sorting keeps a last record with the largest key last. */
  lemma {:induction false} LatestLastSorted(rs: seq<Record>, d: Record)
    requires LastIs(rs, d) && SortKey(d) == I64_MAX
    ensures LastIs(StableSort(rs), d)
  {
    var front := rs[..|rs| - 1];
    assert rs == front + [d];
    LatestStaysLast(front, d);
  }

  /** Occurrences: what settled lists do not hold occurs only once if the remote holds it once. */
  lemma {:induction false} DanglesOnce(p: Problem, d: Record)
    requires Valid(p) && d !in p.base && d !in p.local && multiset(p.remote)[d] == 1
    ensures multiset(Merged(p))[d] <= 1
  {
    MergedMultiset(p);
    SideIsKeptPlusAdded(p.localOps, p.base, p.local);
    SideIsKeptPlusAdded(p.remoteOps, p.base, p.remote);
    if d in Select(p.base, Surviving(p)) { SelectFrom(p.base, Surviving(p), d); }
    assert d !in multiset(p.local);
  }

  lemma {:induction false} SelectFrom(a: seq<Record>, f: seq<bool>, x: Record)
    requires |a| == |f| && x in Select(a, f)
    ensures x in a
    decreases |a|
  {
    if !(f[0] && x == a[0]) { SelectFrom(a[1..], f[1..], x); }
  }

  lemma {:induction false} OnlyLast(rs: seq<Record>, d: Record, k: nat)
    requires LastIs(rs, d) && multiset(rs)[d] <= 1 && k < |rs| - 1
    ensures rs[k] != d
  {
    var front := rs[..|rs| - 1];
    assert rs == front + [d];
    assert multiset(rs)[d] == multiset(front)[d] + 1;
    assert rs[k] == front[k] && front[k] in multiset(front);
  }

  lemma {:induction false} LastOccursOnce(rs: seq<Record>, d: Record)
    requires LastIs(rs, d) && forall k :: 0 <= k < |rs| - 1 ==> rs[k] != d
    ensures multiset(rs)[d] == 1
  {
    var front := rs[..|rs| - 1];
    assert rs == front + [d];
    assert d !in front;
  }

  /** Such a record is added last, sorts last and is the only dangling one. */
  lemma {:induction false} LatestIsSafe(p: Problem, d: Record)
    requires Valid(p) && Settled(p.base) && Settled(p.local) && Canonical(p.remote)
    requires LastIs(p.remote, d) && DanglingBackslash(d) && SortKey(d) == I64_MAX
    ensures ReadsBack(p)
  {
    var m := Merged(p);
    RemoteDanglesOnce(p, d);
    LatestMergesLast(p, d);
    forall k | 0 <= k < |m|
      ensures Continued(m[k]) && (k < |m| - 1 ==> !DanglingBackslash(m[k]))
    {
      MergedFromSides(p, m[k]);
      if k < |m| - 1 { OnlyLast(m, d, k); }
      DanglesOnlyLast(p, d, m[k]);
    }
    SplitJoin(m);
  }

  lemma {:induction false} DanglesOnlyLast(p: Problem, d: Record, x: Record)
    requires Settled(p.local) && Canonical(p.remote) && LastIs(p.remote, d) && (x in p.local || x in p.remote)
    ensures Continued(x) && (DanglingBackslash(x) ==> x == d)
  {
  }

  lemma {:induction false} RemoteDanglesOnce(p: Problem, d: Record)
    requires Valid(p) && Settled(p.base) && Settled(p.local) && Canonical(p.remote)
    requires LastIs(p.remote, d) && DanglingBackslash(d)
    ensures d !in p.base && multiset(Merged(p))[d] <= 1
  {
    LastOccursOnce(p.remote, d);
    DanglesOnce(p, d);
  }

  lemma {:induction false} LatestMergesLast(p: Problem, d: Record)
    requires Valid(p) && d !in p.base && LastIs(p.remote, d) && SortKey(d) == I64_MAX
    ensures LastIs(Merged(p), d)
  {
    LastIsAdded(p.remoteOps, 0, p.base, p.remote, 0, 0);
    LastOfConcat(Select(p.base, Surviving(p)) + NewRecords(p.localOps, p.local), NewRecords(p.remoteOps, p.remote), d);
    LatestLastSorted(Gathered(p), d);
  }

  lemma {:induction false} EarlierFuses(m: seq<Record>, d: Record, z: Record)
    requires SortedByKey(m) && d in m && z in m && SortKey(d) < SortKey(z) && DanglingBackslash(d)
    ensures Split(LineRecords.Join(m)) != m
  {
    var i: nat :| i < |m| && m[i] == d;
    var j: nat :| j < |m| && m[j] == z;
    Fused(m, i);
  }

  lemma {:induction false} BothMerged(p: Problem, x: Record)
    requires x in Gathered(p)
    ensures x in Merged(p)
  {
    MergedMultiset(p);
    assert x in multiset(Merged(p));
  }

  /** A dangling record with a smaller key sorts before a late one of local's. */
  lemma {:induction false} OvertakenBySort(b: seq<Record>, c: seq<Record>)
    requires b == [LatestLine()] && EndsDangling(c) && !EndsLatest(c)
    ensures !ReadsBack(Fresh(b, c))
  {
    var p, d, z := Fresh(b, c), c[|c| - 1], LatestLine();
    FreshFacts(b, c);
    LatestSettled();
    MergeOrder(p, 0);
    BothMerged(p, d);
    BothMerged(p, z);
    LatestLineKey();
    KeyBound(d);
    EarlierFuses(Merged(p), d, z);
  }

  /**
   With settled bases only, a remote file is safe exactly when its last record does not
   end in a backslash or carries the largest timestamp, which keeps it last.
   */
  lemma {:induction false} RemoteSafeSettledExactly(remote: seq<byte>)
    ensures RemoteSafeSettled(Split(remote)) <==> !EndsDangling(Split(remote)) || EndsLatest(Split(remote))
  {
    var c := Split(remote);
    SplitSettled(remote);
    SplitCanonical(remote);
    if EndsDangling(c) && !EndsLatest(c) {
      FreshFacts([LatestLine()], c);
      LatestSettled();
      OvertakenBySort([LatestLine()], c);
    } else {
      forall p | Valid(p) && p.remote == c && Settled(p.base) && Settled(p.local) && !Conflicted(p)
        ensures ReadsBack(p)
      {
        SafeWith(p);
      }
    }
  }

  lemma {:induction false} SafeWith(p: Problem)
    requires Valid(p) && Settled(p.base) && Settled(p.local) && Canonical(p.remote)
    requires Settled(p.remote) || (EndsDangling(p.remote) && EndsLatest(p.remote))
    ensures ReadsBack(p)
  {
    if EndsDangling(p.remote) { LatestIsSafe(p, p.remote[|p.remote| - 1]); } else { MergeReadsBack(p); }
  }
}
