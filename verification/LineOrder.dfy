/**
 The timestamp order of extended history lines and the stable sort by it
 (src/line_merge.rs, `parse_extended_history_timestamp` and `sort_by_key`).
 */
module LineOrder {
  import opened Base
  import opened LineRecords

  // ----- timestamps ---------------------------------------------------------

  function IndexOf(s: seq<byte>, x: byte): (r: Option<nat>)
    ensures r.Some? ==> r.value < |s| && s[r.value] == x && x !in s[..r.value]
    ensures r.None? ==> x !in s
  {
    if s == [] then None
    else if s[0] == x then Some(0)
    else
      var r := IndexOf(s[1..], x);
      if r.None? then None else assert s[..r.value + 1] == [s[0]] + s[1..][..r.value]; Some(r.value + 1)
  }

  predicate Digits(s: seq<byte>) {
    s != [] && forall i :: 0 <= i < |s| ==> 0x30 <= s[i] <= 0x39
  }

  /** At least one, and all from 0 to 9. */
  lemma {:induction false} DigitsExactly(s: seq<byte>)
    ensures Digits(s) <==> |s| >= 1 && forall b: byte :: b in s ==> '0' as int <= b <= '9' as int
  {
    if forall b: byte :: b in s ==> '0' as int <= b <= '9' as int {
      forall i | 0 <= i < |s| ensures 0x30 <= s[i] <= 0x39 { assert s[i] in s; }
    }
  }

  function Value(s: seq<byte>): int {
    if s == [] then 0 else Value(s[..|s| - 1]) * 10 + (s[|s| - 1] as int - 0x30)
  }

  const I64_MIN := -0x8000_0000_0000_0000
  const I64_MAX := 0x7FFF_FFFF_FFFF_FFFF

  /** The epoch of `: <epoch>:<duration>;<command>`, if the line has that form and the epoch fits 64 bits. */
  function Timestamp(line: Record): Option<int> {
    if !StartsWith(line, [0x3A, 0x20]) then None
    else
      var rest := line[2..];
      var colon := IndexOf(rest, 0x3A);
      if colon.None? || !Digits(rest[..colon.value]) then None
      else
        var after := rest[colon.value + 1..];
        var semi := IndexOf(after, 0x3B);
        if semi.None? || !Digits(after[..semi.value]) then None
        else if Value(rest[..colon.value]) < 0x8000_0000_0000_0000 then Some(Value(rest[..colon.value]))
        else None
  }

  /** `: <epoch>:<duration>;<command>` */
  function HistoryLine(epoch: seq<byte>, duration: seq<byte>, command: seq<byte>): Record {
    [0x3A, 0x20] + (epoch + ([0x3A] + (duration + ([0x3B] + command))))
  }

  lemma {:induction false} IndexBehind(digits: seq<byte>, x: byte, rest: seq<byte>)
    requires x !in digits
    ensures IndexOf(digits + ([x] + rest), x) == Some(|digits|)
    decreases |digits|
  {
    var s := digits + ([x] + rest);
    if digits != [] {
      assert s[1..] == digits[1..] + ([x] + rest);
      IndexBehind(digits[1..], x, rest);
    }
  }

  /** A well-formed history line yields its epoch, unless that exceeds 64 bits. */
  lemma {:induction false} TimestampOfLine(epoch: seq<byte>, duration: seq<byte>, command: seq<byte>)
    requires Digits(epoch) && Digits(duration)
    ensures Timestamp(HistoryLine(epoch, duration, command)) ==
            if Value(epoch) < 0x8000_0000_0000_0000 then Some(Value(epoch)) else None
  {
    var line := HistoryLine(epoch, duration, command);
    var after := duration + ([0x3B] + command);
    var rest := epoch + ([0x3A] + after);
    assert line[..2] == [0x3A, 0x20] && line[2..] == rest;
    IndexBehind(epoch, 0x3A, after);
    assert rest[..|epoch|] == epoch && rest[|epoch| + 1..] == after;
    IndexBehind(duration, 0x3B, command);
    assert after[..|duration|] == duration;
  }

  /** And nothing else has a timestamp. */
  lemma {:induction false} TimestampOnlyOfLines(line: Record)
    returns (epoch: seq<byte>, duration: seq<byte>, command: seq<byte>)
    requires Timestamp(line).Some?
    ensures Digits(epoch) && Digits(duration) && line == HistoryLine(epoch, duration, command)
    ensures Timestamp(line) == Some(Value(epoch))
  {
    var rest := line[2..];
    var colon := IndexOf(rest, 0x3A).value;
    var after := rest[colon + 1..];
    var semi := IndexOf(after, 0x3B).value;
    epoch, duration, command := rest[..colon], after[..semi], after[semi + 1..];
    CutAt(after, semi);
    CutAt(rest, colon);
    CutFront(line);
  }

  lemma {:induction false} CutAt(s: seq<byte>, i: nat)
    requires i < |s|
    ensures s == s[..i] + ([s[i]] + s[i + 1..])
  {
  }

  lemma {:induction false} CutFront(s: seq<byte>)
    requires StartsWith(s, [0x3A, 0x20])
    ensures s == [0x3A, 0x20] + s[2..]
  {
  }

  function SortKey(r: Record): int {
    if Timestamp(r).Some? then Timestamp(r).value else I64_MIN
  }

  // ----- the stable sort ----------------------------------------------------

  /** Insert before the first record with the same or a larger key. */
  function InsertSorted(r: Record, rs: seq<Record>): seq<Record> {
    if rs == [] || SortKey(r) <= SortKey(rs[0]) then [r] + rs else [rs[0]] + InsertSorted(r, rs[1..])
  }

  function StableSort(rs: seq<Record>): seq<Record> {
    if rs == [] then [] else InsertSorted(rs[0], StableSort(rs[1..]))
  }

  ghost predicate SortedByKey(rs: seq<Record>) {
    forall i, j :: 0 <= i < j < |rs| ==> SortKey(rs[i]) <= SortKey(rs[j])
  }

  /** The records with one key, in order. */
  ghost function WithKey(rs: seq<Record>, k: int): seq<Record> {
    if rs == [] then [] else Only(rs[0], k) + WithKey(rs[1..], k)
  }

  ghost function Only(r: Record, k: int): seq<Record> { if SortKey(r) == k then [r] else [] }

  lemma {:induction false} InsertSortedKeeps(r: Record, rs: seq<Record>)
    ensures multiset(InsertSorted(r, rs)) == multiset{r} + multiset(rs)
    decreases |rs|
  {
    if rs != [] {
      InsertSortedKeeps(r, rs[1..]);
      assert rs == [rs[0]] + rs[1..];
    }
  }

  ghost predicate AtLeast(rs: seq<Record>, k: int) {
    forall j :: 0 <= j < |rs| ==> k <= SortKey(rs[j])
  }

  lemma {:induction false} InsertAtLeast(r: Record, rs: seq<Record>, k: int)
    requires AtLeast(rs, k) && k <= SortKey(r)
    ensures AtLeast(InsertSorted(r, rs), k)
    decreases |rs|
  {
    if rs != [] { InsertAtLeast(r, rs[1..], k); }
  }

  lemma {:induction false} SortedCons(r: Record, rs: seq<Record>)
    requires SortedByKey(rs) && AtLeast(rs, SortKey(r))
    ensures SortedByKey([r] + rs)
  {
  }

  lemma {:induction false} SortedTail(rs: seq<Record>)
    requires SortedByKey(rs) && rs != []
    ensures SortedByKey(rs[1..]) && AtLeast(rs[1..], SortKey(rs[0]))
  {
  }

  lemma {:induction false} InsertSortedOrder(r: Record, rs: seq<Record>)
    requires SortedByKey(rs)
    ensures SortedByKey(InsertSorted(r, rs))
    decreases |rs|
  {
    if rs == [] {
    } else if SortKey(r) <= SortKey(rs[0]) {
      SortedTail(rs);
      SortedCons(r, rs);
    } else {
      SortedTail(rs);
      InsertSortedOrder(r, rs[1..]);
      InsertAtLeast(r, rs[1..], SortKey(rs[0]));
      SortedCons(rs[0], InsertSorted(r, rs[1..]));
    }
  }

  lemma {:induction false} WithKeyCons(r: Record, rs: seq<Record>, k: int)
    ensures WithKey([r] + rs, k) == Only(r, k) + WithKey(rs, k)
  {
    assert ([r] + rs)[1..] == rs;
  }

  lemma {:induction false} Exchange(x: Record, y: Record, k: int, t: seq<Record>)
    requires SortKey(x) != SortKey(y)
    ensures Only(x, k) + (Only(y, k) + t) == Only(y, k) + (Only(x, k) + t)
  {
    assert Only(x, k) == [] || Only(y, k) == [];
  }

  lemma {:induction false} InsertSortedStable(r: Record, rs: seq<Record>, k: int)
    ensures WithKey(InsertSorted(r, rs), k) == Only(r, k) + WithKey(rs, k)
    decreases |rs|
  {
    if rs == [] || SortKey(r) <= SortKey(rs[0]) {
      WithKeyCons(r, rs, k);
    } else {
      InsertSortedStable(r, rs[1..], k);
      WithKeyCons(rs[0], InsertSorted(r, rs[1..]), k);
      Exchange(rs[0], r, k, WithKey(rs[1..], k));
    }
  }

  /** The sort only reorders: ascending keys, the same records, equal keys in their old order. */
  lemma {:induction false} StableSortFacts(rs: seq<Record>, k: int)
    ensures SortedByKey(StableSort(rs))
    ensures multiset(StableSort(rs)) == multiset(rs)
    ensures WithKey(StableSort(rs), k) == WithKey(rs, k)
    decreases |rs|
  {
    if rs != [] {
      StableSortFacts(rs[1..], k);
      InsertSortedKeeps(rs[0], StableSort(rs[1..]));
      InsertSortedOrder(rs[0], StableSort(rs[1..]));
      InsertSortedStable(rs[0], StableSort(rs[1..]), k);
      assert rs == [rs[0]] + rs[1..];
    }
  }

  /** Lists in key order are determined by what they hold of each key, in order. */
  lemma {:induction false} SortedDetermined(a: seq<Record>, b: seq<Record>)
    requires SortedByKey(a) && SortedByKey(b) && forall k :: WithKey(a, k) == WithKey(b, k)
    ensures a == b
    decreases |a|
  {
    EmptyOfKeys(a);
    EmptyOfKeys(b);
    if a != [] {
      assert WithKey(a, SortKey(a[0])) == WithKey(b, SortKey(a[0]));
      assert b != [];
      assert WithKey(a, SortKey(b[0])) == WithKey(b, SortKey(b[0]));
      FirstKeyIsLeast(a, SortKey(b[0]));
      FirstKeyIsLeast(b, SortKey(a[0]));
      assert a[0] == WithKey(a, SortKey(a[0]))[0] == b[0];
      forall k
        ensures WithKey(a[1..], k) == WithKey(b[1..], k)
      {
        assert WithKey(a[1..], k) == WithKey(a, k)[|Only(a[0], k)|..];
        assert WithKey(b[1..], k) == WithKey(b, k)[|Only(b[0], k)|..];
      }
      SortedDetermined(a[1..], b[1..]);
      assert a == [a[0]] + a[1..] && b == [b[0]] + b[1..];
    }
  }

  lemma {:induction false} EmptyOfKeys(a: seq<Record>)
    ensures a != [] ==> WithKey(a, SortKey(a[0])) != [] && WithKey(a, SortKey(a[0]))[0] == a[0]
    ensures a == [] ==> forall k :: WithKey(a, k) == []
  {
  }

  lemma {:induction false} FirstKeyIsLeast(a: seq<Record>, k: int)
    requires a != [] && SortedByKey(a) && WithKey(a, k) != []
    ensures SortKey(a[0]) <= k
    decreases |a|
  {
    if SortKey(a[0]) != k && |a| > 1 {
      SortedTail(a);
      FirstKeyIsLeast(a[1..], k);
    }
  }

  /** So these three facts leave no other result than the stable sort. */
  lemma {:induction false} StableSortUnique(rs: seq<Record>, t: seq<Record>)
    requires SortedByKey(t) && forall k :: WithKey(t, k) == WithKey(rs, k)
    ensures t == StableSort(rs)
  {
    forall k
      ensures WithKey(t, k) == WithKey(StableSort(rs), k)
    {
      StableSortFacts(rs, k);
    }
    StableSortFacts(rs, 0);
    SortedDetermined(t, StableSort(rs));
  }

  // ----- records that sort last ---------------------------------------------

  lemma {:induction false} ValueNatural(s: seq<byte>)
    requires forall i :: 0 <= i < |s| ==> 0x30 <= s[i] <= 0x39
    ensures Value(s) >= 0
  {
    if s != [] { ValueNatural(s[..|s| - 1]); }
  }

  lemma {:induction false} KeyBound(r: Record)
    ensures I64_MIN <= SortKey(r) <= I64_MAX && (SortKey(r) > I64_MIN ==> Timestamp(r).Some?)
  {
    if Timestamp(r).Some? {
      var epoch, duration, command := TimestampOnlyOfLines(r);
      ValueNatural(epoch);
    }
  }

  lemma {:induction false} InsertBefore(x: Record, s: seq<Record>, z: Record)
    requires SortKey(x) <= SortKey(z)
    ensures InsertSorted(x, s + [z]) == InsertSorted(x, s) + [z]
    decreases |s|
  {
    if s == [] {
      assert s + [z] == [z];
    } else if SortKey(x) <= SortKey(s[0]) {
      assert [x] + (s + [z]) == [x] + s + [z];
    } else {
      assert (s + [z])[1..] == s[1..] + [z];
      InsertBefore(x, s[1..], z);
    }
  }

  /** A last record with the largest key stays last. */
  lemma {:induction false} LatestStaysLast(rs: seq<Record>, z: Record)
    requires SortKey(z) == I64_MAX
    ensures StableSort(rs + [z]) == StableSort(rs) + [z]
    decreases |rs|
  {
    if rs == [] {
      assert rs + [z] == [z] && StableSort([z]) == InsertSorted(z, StableSort([z][1..]));
    } else {
      assert (rs + [z])[1..] == rs[1..] + [z];
      LatestStaysLast(rs[1..], z);
      KeyBound(rs[0]);
      InsertBefore(rs[0], StableSort(rs[1..]), z);
    }
  }

  lemma {:induction false} ValueSnoc(s: seq<byte>, d: byte)
    ensures Value(s + [d]) == Value(s) * 10 + (d as int - 0x30)
  {
    assert (s + [d])[..|s|] == s;
  }

  /** The digits of the largest epoch. */
  const MAX_DIGITS: seq<byte> := [0x39, 0x32, 0x32, 0x33, 0x33, 0x37, 0x32, 0x30, 0x33, 0x36,
                                  0x38, 0x35, 0x34, 0x37, 0x37, 0x35, 0x38, 0x30, 0x37]

  lemma {:induction false} ValuePrefix(s: seq<byte>, i: nat)
    requires i < |s|
    ensures Value(s[..i + 1]) == Value(s[..i]) * 10 + (s[i] as int - 0x30)
  {
    assert s[..i + 1] == s[..i] + [s[i]];
    ValueSnoc(s[..i], s[i]);
  }

  lemma {:induction false} FirstDigits(s: seq<byte>)
    requires |s| == 19
    requires s[0] == 0x39 && s[1] == 0x32 && s[2] == 0x32 && s[3] == 0x33
    requires s[4] == 0x33 && s[5] == 0x37 && s[6] == 0x32
    ensures Value(s[..7]) == 9223372
  {
    assert Value(s[..0]) == 0;
    ValuePrefix(s, 0);
    ValuePrefix(s, 1);
    ValuePrefix(s, 2);
    ValuePrefix(s, 3);
    ValuePrefix(s, 4);
    ValuePrefix(s, 5);
    ValuePrefix(s, 6);
  }

  lemma {:induction false} MiddleDigits(s: seq<byte>)
    requires |s| == 19 && Value(s[..7]) == 9223372
    requires s[7] == 0x30 && s[8] == 0x33 && s[9] == 0x36 && s[10] == 0x38 && s[11] == 0x35 && s[12] == 0x34
    ensures Value(s[..13]) == 9223372036854
  {
    ValuePrefix(s, 7);
    ValuePrefix(s, 8);
    ValuePrefix(s, 9);
    ValuePrefix(s, 10);
    ValuePrefix(s, 11);
    ValuePrefix(s, 12);
  }

  lemma {:induction false} LastDigits(s: seq<byte>)
    requires |s| == 19 && Value(s[..13]) == 9223372036854
    requires s[13] == 0x37 && s[14] == 0x37 && s[15] == 0x35 && s[16] == 0x38 && s[17] == 0x30 && s[18] == 0x37
    ensures Value(s[..19]) == I64_MAX
  {
    ValuePrefix(s, 13);
    ValuePrefix(s, 14);
    ValuePrefix(s, 15);
    ValuePrefix(s, 16);
    ValuePrefix(s, 17);
    ValuePrefix(s, 18);
  }

  lemma {:induction false} AllDigits(s: seq<byte>)
    requires |s| == 19
    requires s[0] == 0x39 && s[1] == 0x32 && s[2] == 0x32 && s[3] == 0x33
    requires s[4] == 0x33 && s[5] == 0x37 && s[6] == 0x32
    requires s[7] == 0x30 && s[8] == 0x33 && s[9] == 0x36 && s[10] == 0x38 && s[11] == 0x35 && s[12] == 0x34
    requires s[13] == 0x37 && s[14] == 0x37 && s[15] == 0x35 && s[16] == 0x38 && s[17] == 0x30 && s[18] == 0x37
    ensures Digits(s) && Value(s) == I64_MAX
  {
    FirstDigits(s);
    MiddleDigits(s);
    LastDigits(s);
    assert s[..19] == s;
  }

  lemma {:induction false} MaxDigitsValue()
    ensures Digits(MAX_DIGITS) && Value(MAX_DIGITS) == I64_MAX
  {
    AllDigits(MAX_DIGITS);
  }

  /** A history line with the largest epoch and no command. */
  function LatestLine(): Record { HistoryLine(MAX_DIGITS, [0x30], []) }

  lemma {:induction false} LatestLineKey()
    ensures Timestamp(LatestLine()) == Some(I64_MAX) && SortKey(LatestLine()) == I64_MAX
  {
    MaxDigitsValue();
    TimestampOfLine(MAX_DIGITS, [0x30], []);
  }
}
