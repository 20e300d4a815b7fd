/**
 Splitting a history file into logical records and joining them again (src/line_merge.rs).
 A physical line that ends in a backslash continues into the next one.
 */
module LineRecords {
  import opened Base

  const NL: byte := 0x0A
  const BACKSLASH: byte := 0x5C

  type Record = seq<byte>

  // ----- what the records of a file are -------------------------------------

  /** A newline ends the first record if it does not follow a backslash or nothing follows it. */
  predicate EndsRecord(c: seq<byte>, i: nat)
    requires i < |c|
  {
    c[i] == NL && (i == 0 || c[i - 1] != BACKSLASH || i == |c| - 1)
  }

  function RecordEnd(c: seq<byte>, i: nat): (r: nat)
    requires i <= |c|
    ensures i <= r <= |c|
    decreases |c| - i
  {
    if i == |c| || EndsRecord(c, i) then i else RecordEnd(c, i + 1)
  }

  function FirstEnd(c: seq<byte>): (r: nat)
    ensures r <= |c|
  {
    RecordEnd(c, 0)
  }

  /** What is left behind the first record and its newline. */
  function Rest(c: seq<byte>): seq<byte> {
    if FirstEnd(c) == |c| then [] else c[FirstEnd(c) + 1..]
  }

  /** The records of a file. */
  function Split(c: seq<byte>): seq<Record>
    decreases |c|
  {
    if c == [] then [] else [c[..FirstEnd(c)]] + Split(Rest(c))
  }

  /** Each record followed by a newline. */
  function Join(rs: seq<Record>): seq<byte> {
    if rs == [] then [] else rs[0] + [NL] + Join(rs[1..])
  }

  lemma {:induction false} JoinCons(r: Record, rs: seq<Record>)
    ensures Join([r] + rs) == r + [NL] + Join(rs)
  {
    assert ([r] + rs)[1..] == rs;
  }

  /** The scan stops at a newline or at the end; a file that ends in a newline never runs off its end. */
  lemma {:induction false} RecordEndStops(c: seq<byte>, i: nat)
    requires i <= |c|
    ensures var e := RecordEnd(c, i);
            && (e < |c| ==> EndsRecord(c, e))
            && (e == |c| && i < |c| ==> c[|c| - 1] != NL)
            && forall j :: i <= j < e ==> !EndsRecord(c, j)
    decreases |c| - i
  {
    if i < |c| && !EndsRecord(c, i) { RecordEndStops(c, i + 1); }
  }

  // ----- joining what was split ---------------------------------------------

  ghost function Terminated(c: seq<byte>): seq<byte> {
    if c == [] || c[|c| - 1] == NL then c else c + [NL]
  }

  lemma {:induction false} TerminatedRest(c: seq<byte>)
    requires c != []
    ensures Terminated(c) == c[..FirstEnd(c)] + [NL] + Terminated(Rest(c))
  {
    var e := FirstEnd(c);
    RecordEndStops(c, 0);
    if e < |c| {
      assert c == c[..e] + [NL] + c[e + 1..];
      assert Rest(c) != [] ==> Rest(c)[|Rest(c)| - 1] == c[|c| - 1];
    } else {
      assert c[..e] == c;
    }
  }

  /** Splitting loses nothing: joining gives back the file, with a final newline if it had none. */
  lemma {:induction false} JoinSplit(c: seq<byte>)
    ensures Join(Split(c)) == Terminated(c)
    decreases |c|
  {
    if c != [] {
      JoinSplit(Rest(c));
      JoinCons(c[..FirstEnd(c)], Split(Rest(c)));
      TerminatedRest(c);
    }
  }

  // ----- splitting what was joined ------------------------------------------

  ghost predicate DanglingBackslash(r: Record) {
    r != [] && r[|r| - 1] == BACKSLASH
  }

  /** Every newline inside follows a backslash. */
  ghost predicate Continued(r: Record) {
    forall i :: 0 <= i < |r| && r[i] == NL ==> i > 0 && r[i - 1] == BACKSLASH
  }

  /** Lists of records that a file can split into. */
  ghost predicate Canonical(rs: seq<Record>) {
    && (forall k :: 0 <= k < |rs| ==> Continued(rs[k]))
    && forall k :: 0 <= k < |rs| - 1 ==> !DanglingBackslash(rs[k])
  }

  lemma {:induction false} CanonicalCons(r: Record, rest: seq<Record>)
    ensures Canonical([r] + rest) <==> Continued(r) && Canonical(rest) && (rest != [] ==> !DanglingBackslash(r))
  {
    var rs := [r] + rest;
    assert forall k :: 0 <= k < |rest| ==> rest[k] == rs[k + 1];
    assert rs[0] == r;
  }

  lemma {:induction false} FirstRecordShape(c: seq<byte>)
    requires c != []
    ensures Continued(c[..FirstEnd(c)]) && (Rest(c) != [] ==> !DanglingBackslash(c[..FirstEnd(c)]))
  {
    var e := FirstEnd(c);
    RecordEndStops(c, 0);
    forall i | 0 <= i < e && c[i] == NL
      ensures i > 0 && c[i - 1] == BACKSLASH
    {
      assert !EndsRecord(c, i);
    }
  }

  lemma {:induction false} SplitCanonical(c: seq<byte>)
    ensures Canonical(Split(c))
    decreases |c|
  {
    if c != [] {
      SplitCanonical(Rest(c));
      FirstRecordShape(c);
      CanonicalCons(c[..FirstEnd(c)], Split(Rest(c)));
    }
  }

  /** The scan over a record, its newline and the rest stops exactly at that newline. */
  lemma {:induction false} RecordEndOf(r: Record, rest: seq<byte>, i: nat)
    requires i <= |r| && Continued(r) && (DanglingBackslash(r) ==> rest == [])
    ensures RecordEnd(r + [NL] + rest, i) == |r|
    decreases |r| - i
  {
    var c := r + [NL] + rest;
    assert forall j :: 0 <= j < |r| ==> c[j] == r[j];
    if i < |r| { RecordEndOf(r, rest, i + 1); }
  }

  lemma {:induction false} SplitJoinCanonical(rs: seq<Record>)
    requires Canonical(rs)
    ensures Split(Join(rs)) == rs
  {
    if rs != [] {
      var r, rest := rs[0], Join(rs[1..]);
      assert rs == [r] + rs[1..];
      CanonicalCons(r, rs[1..]);
      RecordEndOf(r, rest, 0);
      SplitJoinCanonical(rs[1..]);
      var c := r + [NL] + rest;
      assert c[..|r|] == r && c[|r| + 1..] == rest;
    }
  }

  /** Joining is undone by splitting exactly for the lists a file can split into. */
  lemma {:induction false} SplitJoin(rs: seq<Record>)
    ensures Split(Join(rs)) == rs <==> Canonical(rs)
  {
    SplitCanonical(Join(rs));
    if Canonical(rs) { SplitJoinCanonical(rs); }
  }

  // ----- the two-pass splitter ----------------------------------------------

  ghost predicate NoNewline(c: seq<byte>, i: nat, e: nat)
    requires e <= |c|
  {
    forall j :: i <= j < e ==> c[j] != NL
  }

  /** A physical line as a range of positions: up to a newline or the end of the file. */
  ghost predicate Line(c: seq<byte>, l: (nat, nat)) {
    l.0 <= l.1 <= |c| && l.0 < |c| && (l.1 < |c| ==> c[l.1] == NL) && NoNewline(c, l.0, l.1)
  }

  /** Line `k` starts right behind the newline of the line before it. */
  ghost predicate Follows(ls: seq<(nat, nat)>, k: nat)
    requires k < |ls|
  {
    ls[k].0 == if k == 0 then 0 else ls[k - 1].1 + 1
  }

  ghost predicate Lines(c: seq<byte>, ls: seq<(nat, nat)>) {
    && (forall k :: 0 <= k < |ls| ==> Line(c, ls[k]))
    && (forall k :: 0 <= k < |ls| ==> Follows(ls, k))
  }

  /** Where the line after the last one starts. */
  ghost function NextStart(ls: seq<(nat, nat)>): nat {
    if ls == [] then 0 else ls[|ls| - 1].1 + 1
  }

  lemma {:induction false} LinesSnoc(c: seq<byte>, ls: seq<(nat, nat)>, l: (nat, nat))
    requires Lines(c, ls) && Line(c, l) && l.0 == NextStart(ls)
    ensures Lines(c, ls + [l])
  {
    forall k | 0 <= k < |ls|
      ensures Follows(ls + [l], k)
    {
      assert Follows(ls, k);
    }
  }

  /** First pass: cut at every newline; a final newline makes no empty line. */
  method PhysicalLines(c: seq<byte>) returns (ls: seq<(nat, nat)>)
    ensures Lines(c, ls) && NextStart(ls) >= |c|
  {
    ls := [];
    var start := 0;
    for i := 0 to |c|
      invariant Lines(c, ls) && start == NextStart(ls) <= i
      invariant NoNewline(c, start, i)
    {
      if c[i] == NL {
        LinesSnoc(c, ls, (start, i));
        ls := ls + [(start, i)];
        start := i + 1;
      }
    }
    if start < |c| {
      LinesSnoc(c, ls, (start, |c|));
      ls := ls + [(start, |c|)];
    }
  }

  /** The record scan passes over text without newlines. */
  lemma {:induction false} ScanText(c: seq<byte>, i: nat, e: nat)
    requires i <= e <= |c| && NoNewline(c, i, e)
    ensures RecordEnd(c, i) == RecordEnd(c, e)
    decreases e - i
  {
    if i < e { ScanText(c, i + 1, e); }
  }

  lemma {:induction false} ScanLine(c: seq<byte>, ls: seq<(nat, nat)>, s: nat, j: nat)
    requires Lines(c, ls) && j < |ls| && s <= ls[j].0
    ensures RecordEnd(c[s..], ls[j].0 - s) == RecordEnd(c[s..], ls[j].1 - s)
  {
    assert Line(c, ls[j]);
    assert NoNewline(c[s..], ls[j].0 - s, ls[j].1 - s);
    ScanText(c[s..], ls[j].0 - s, ls[j].1 - s);
  }

  predicate EndsInBackslash(c: seq<byte>, l: (nat, nat))
    requires l.1 <= |c|
  {
    l.0 < l.1 && c[l.1 - 1] == BACKSLASH
  }

  /** A continued line that has a successor does not end the record. */
  lemma {:induction false} ScanContinues(c: seq<byte>, ls: seq<(nat, nat)>, s: nat, j: nat)
    requires Lines(c, ls) && j + 1 < |ls| && s <= ls[j].0 && s <= ls[j + 1].1 && EndsInBackslash(c, ls[j])
    ensures RecordEnd(c[s..], ls[j].1 - s) == RecordEnd(c[s..], ls[j + 1].1 - s)
  {
    assert Line(c, ls[j]) && Line(c, ls[j + 1]) && Follows(ls, j + 1);
    var d, e := c[s..], ls[j].1 - s;
    assert d[e] == c[ls[j].1] && d[e - 1] == c[ls[j].1 - 1];
    assert !EndsRecord(d, e);
    ScanLine(c, ls, s, j + 1);
  }

  /** Any other line does. */
  lemma {:induction false} ScanEnds(c: seq<byte>, ls: seq<(nat, nat)>, s: nat, j: nat)
    requires Lines(c, ls) && NextStart(ls) >= |c| && j < |ls| && s <= ls[j].0 && (s == ls[j].0 || j > 0)
    requires !(j + 1 < |ls| && EndsInBackslash(c, ls[j]))
    ensures RecordEnd(c[s..], ls[j].1 - s) == ls[j].1 - s
  {
    assert Line(c, ls[j]) && Follows(ls, j);
    var d, e := c[s..], ls[j].1 - s;
    if ls[j].1 < |c| {
      assert d[e] == c[ls[j].1];
      assert e > 0 ==> d[e - 1] == c[ls[j].1 - 1];
      if ls[j].0 == ls[j].1 && s < ls[j].0 { assert Line(c, ls[j - 1]); }
      assert EndsRecord(d, e);
    }
  }

  /** The part of the file from line `j` on; nothing when there is no such line. */
  ghost function From(c: seq<byte>, ls: seq<(nat, nat)>, j: nat): seq<byte>
    requires Lines(c, ls)
  {
    if j < |ls| then assert Line(c, ls[j]); c[ls[j].0..] else []
  }

  /** The line after the one that ends the record starts the rest. */
  lemma {:induction false} RestFrom(c: seq<byte>, ls: seq<(nat, nat)>, s: nat, j: nat)
    requires Lines(c, ls) && NextStart(ls) >= |c| && j < |ls| && s <= ls[j].0 && s < |c|
    requires FirstEnd(c[s..]) == ls[j].1 - s
    ensures Rest(c[s..]) == From(c, ls, j + 1)
  {
    assert Line(c, ls[j]);
    var d, e := c[s..], ls[j].1;
    if j + 1 < |ls| {
      assert Follows(ls, j + 1) && Line(c, ls[j + 1]);
      assert d[e - s + 1..] == c[e + 1..];
    }
  }

  /** The last line of the record that starts with line `i`. */
  method LastLine(c: seq<byte>, ls: seq<(nat, nat)>, i: nat) returns (j: nat)
    requires Lines(c, ls) && NextStart(ls) >= |c| && i < |ls|
    ensures i <= j < |ls| && ls[i].0 <= ls[j].0 <= ls[j].1 <= |c| && ls[i].0 < |c|
    ensures FirstEnd(c[ls[i].0..]) == ls[j].1 - ls[i].0
  {
    assert Line(c, ls[i]);
    var s := ls[i].0;
    j := i;
    ScanLine(c, ls, s, i);
    while j + 1 < |ls| && EndsInBackslash(c, ls[j])
      invariant i <= j < |ls| && s <= ls[j].0 <= ls[j].1 <= |c| && (j > i ==> s < ls[j].0)
      invariant FirstEnd(c[s..]) == RecordEnd(c[s..], ls[j].1 - s)
    {
      assert Follows(ls, j + 1) && Line(c, ls[j + 1]);
      ScanContinues(c, ls, s, j);
      j := j + 1;
    }
    ScanEnds(c, ls, s, j);
  }

  lemma {:induction false} NextRecord(c: seq<byte>, ls: seq<(nat, nat)>, i: nat, j: nat)
    requires Lines(c, ls) && NextStart(ls) >= |c|
    requires i <= j < |ls| && ls[i].0 <= ls[j].0 <= ls[j].1 <= |c| && ls[i].0 < |c|
    requires FirstEnd(c[ls[i].0..]) == ls[j].1 - ls[i].0
    ensures Split(From(c, ls, i)) == [c[ls[i].0..ls[j].1]] + Split(From(c, ls, j + 1))
  {
    var d := From(c, ls, i);
    RestFrom(c, ls, ls[i].0, j);
    assert d[..FirstEnd(d)] == c[ls[i].0..ls[j].1];
  }

  /** Second pass: join every line that ends in a backslash to the one after it. */
  method SplitLines(c: seq<byte>) returns (rs: seq<Record>)
    ensures rs == Split(c)
  {
    var ls := PhysicalLines(c);
    rs := [];
    var i := 0;
    FromStart(c, ls);
    while i < |ls|
      invariant 0 <= i <= |ls|
      invariant Split(c) == rs + Split(From(c, ls, i))
    {
      var j := LastLine(c, ls, i);
      var r := c[ls[i].0..ls[j].1];
      NextRecord(c, ls, i, j);
      Reassociate(rs, r, Split(From(c, ls, j + 1)));
      rs := rs + [r];
      i := j + 1;
    }
  }

  lemma {:induction false} FromStart(c: seq<byte>, ls: seq<(nat, nat)>)
    requires Lines(c, ls) && NextStart(ls) >= |c|
    ensures From(c, ls, 0) == c
  {
    assert ls != [] ==> Follows(ls, 0);
    assert c[0..] == c;
  }

  lemma {:induction false} Reassociate(rs: seq<Record>, r: Record, ts: seq<Record>)
    ensures rs + ([r] + ts) == (rs + [r]) + ts
  {
  }
}
