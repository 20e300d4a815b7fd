/**
 Sampling verification of sealed entries (`StatCache::sample_verify`): which positions
 of the sorted sealed list are probed, what a clean sample rules out, and what it costs.
 */
module Sampling {
  import opened Base
  import opened CacheSpec

  /** Position of the `k`-th of `s` evenly spaced samples among `n` entries. */
  function SampleIndex(k: nat, n: nat, s: nat): nat
    requires k < s <= n
  {
    if s == 1 then 0 else k * (n - 1) / (s - 1)
  }

  /** The widest gap between neighbouring samples: (n - 1) / (s - 1) rounded up. */
  function Gap(n: nat, s: nat): nat
    requires 2 <= s <= n
  {
    (n - 1 + s - 2) / (s - 1)
  }

  lemma {:induction false} DivBounds(x: nat, d: nat)
    requires d > 0
    ensures d * (x / d) <= x < d * (x / d + 1)
  {
    assert d * (x / d + 1) == d * (x / d) + d;
  }

  lemma {:induction false} MulCancel(d: nat, a: int, b: int)
    requires d * a < d * b
    ensures a < b
  {
    assert d * (a - b) == d * a - d * b;
    assert a - b >= 0 ==> d * (a - b) >= 0;
  }

  lemma {:induction false} QuotientRises(x: nat, m: nat, d: nat)
    requires 0 < d <= m
    ensures x / d < (x + m) / d
  {
    var q0, q1 := x / d, (x + m) / d;
    DivBounds(x, d);
    DivBounds(x + m, d);
    assert d * (q1 + 1) == d * q1 + d;
    MulCancel(d, q0, q1) by { assert d * q0 <= x <= x + m - d < d * q1; }
  }

  lemma {:induction false} QuotientBounded(x: nat, m: nat, d: nat)
    requires d > 0
    ensures (x + m) / d <= x / d + (m + d - 1) / d
  {
    var q0, q1, g := x / d, (x + m) / d, (m + d - 1) / d;
    DivBounds(x, d);
    DivBounds(x + m, d);
    DivBounds(m + d - 1, d);
    assert d * (g + 1) == d * g + d && d * (q0 + 1 + g) == d * (q0 + 1) + d * g;
    MulCancel(d, q1, q0 + 1 + g) by { assert d * q1 <= x + m < d * (q0 + 1) + m <= d * (q0 + 1) + d * g; }
  }

  /** Neighbouring samples rise by at least one and at most the gap. */
  lemma {:induction false} SamplesRise(k: nat, n: nat, s: nat)
    requires 2 <= s <= n && k + 1 < s
    ensures 1 <= SampleIndex(k + 1, n, s) - SampleIndex(k, n, s) <= Gap(n, s)
  {
    assert (k + 1) * (n - 1) == k * (n - 1) + (n - 1);
    QuotientRises(k * (n - 1), n - 1, s - 1);
    QuotientBounded(k * (n - 1), n - 1, s - 1);
  }

  /** Both ends of the sorted list are sampled; a single sample is the first entry. */
  lemma {:induction false} SampleEnds(n: nat, s: nat)
    requires 1 <= s <= n
    ensures SampleIndex(0, n, s) == 0 && (s >= 2 ==> SampleIndex(s - 1, n, s) == n - 1)
  {
    if s == 1 { return; }
    var d, m := s - 1, n - 1;
    var q := d * m / d;
    DivBounds(d * m, d);
    MulCancel(d, m, q + 1);
    assert d * (m + 1) == d * m + d;
    MulCancel(d, q, m + 1);
    assert SampleIndex(0, n, s) == 0 * m / d == 0 / d == 0;
  }

  /** Every sample is a position of the list. */
  lemma {:induction false} SampleInRange(k: nat, n: nat, s: nat)
    requires k < s <= n
    ensures SampleIndex(k, n, s) < n
    decreases s - k
  {
    if s >= 2 {
      SampleEnds(n, s);
      if k + 1 < s {
        SamplesRise(k, n, s);
        SampleInRange(k + 1, n, s);
      }
    }
  }

  /** Sample positions strictly increase. */
  lemma {:induction false} SamplesIncrease(j: nat, k: nat, n: nat, s: nat)
    requires j < k < s <= n
    ensures SampleIndex(j, n, s) < SampleIndex(k, n, s)
    decreases k
  {
    SamplesRise(k - 1, n, s);
    if j < k - 1 { SamplesIncrease(j, k - 1, n, s); }
  }

  /** Any run of `Gap` consecutive positions holds a sample. */
  lemma {:induction false} RunHoldsSample(a: nat, n: nat, s: nat) returns (k: nat)
    requires 2 <= s <= n && a + Gap(n, s) <= n
    ensures k < s && a <= SampleIndex(k, n, s) < a + Gap(n, s)
  {
    SampleEnds(n, s);
    SamplesRise(0, n, s);
    k := 0;
    while SampleIndex(k, n, s) < a
      invariant k < s && SampleIndex(k, n, s) < a + Gap(n, s)
      decreases s - k
    {
      SamplesRise(k, n, s);
      k := k + 1;
    }
  }

  /** No two neighbours among the samples up to the `k`-th are more than `g` apart. */
  ghost predicate StridesWithin(k: nat, n: nat, s: nat, g: nat)
    requires k < s <= n
  {
    k == 0 || (StridesWithin(k - 1, n, s, g) && SampleIndex(k, n, s) <= SampleIndex(k - 1, n, s) + g)
  }

  lemma {:induction false} StridesReach(k: nat, n: nat, s: nat, g: nat)
    requires 2 <= s <= n && k < s && StridesWithin(k, n, s, g)
    ensures SampleIndex(k, n, s) <= k * g
  {
    if k == 0 {
      SampleEnds(n, s);
    } else {
      StridesReach(k - 1, n, s, g);
      assert k * g == (k - 1) * g + g;
    }
  }

  /** No smaller gap would do. */
  lemma {:induction false} GapIsLeast(n: nat, s: nat, g: nat)
    requires 2 <= s <= n
    ensures StridesWithin(s - 1, n, s, g) <==> Gap(n, s) <= g
  {
    var d, m := s - 1, n - 1;
    DivBounds(m + d - 1, d);
    if StridesWithin(d, n, s, g) {
      StridesReach(d, n, s, g);
      SampleEnds(n, s);
      NoShorterStride(d, m, g, Gap(n, s)) by { assert m <= d * g; }
    }
    if Gap(n, s) <= g { StridesHold(d, n, s, g); }
  }

  lemma {:induction false} NoShorterStride(d: nat, m: nat, g: nat, gap: nat)
    requires m <= d * g && d * gap <= m + d - 1 && d > 0
    ensures gap <= g
  {
    assert d * (g + 1) == d * g + d;
    MulCancel(d, gap, g + 1);
  }

  lemma {:induction false} StridesHold(k: nat, n: nat, s: nat, g: nat)
    requires 2 <= s <= n && k < s && Gap(n, s) <= g
    ensures StridesWithin(k, n, s, g)
  {
    if k > 0 {
      SamplesRise(k - 1, n, s);
      StridesHold(k - 1, n, s, g);
    }
  }

  // ----- the check itself ---------------------------------------------------

  /** Existence probes for a chunk list: one each, stopping at the first miss. */
  function ChunkProbes(o: Objects, cs: seq<Hash>): (r: nat)
    ensures r <= |cs|
  {
    if cs == [] then 0 else if cs[0] !in o then 1 else 1 + ChunkProbes(o, cs[1..])
  }

  /** Existence probes `blob_fully_cached` spends on one blob. */
  function Probes(o: Objects, h: Hash): nat {
    if h in o && o[h].Manifest? then 1 + ChunkProbes(o, o[h].chunks) else 1
  }

  /** A fully cached blob costs its object and every chunk; any other all up to the first that is missing. */
  lemma {:induction false} ProbesCount(o: Objects, h: Hash)
    ensures FullyCached(o, h) ==> Probes(o, h) == 1 + if o[h].Manifest? then |o[h].chunks| else 0
    ensures h !in o ==> Probes(o, h) == 1
    ensures h in o && !FullyCached(o, h) ==>
              var n := Probes(o, h) - 2;
              0 <= n < |o[h].chunks| && o[h].chunks[n] !in o && forall i :: 0 <= i < n ==> o[h].chunks[i] in o
  {
    if h in o && o[h].Manifest? { ChunkProbesCount(o, o[h].chunks); }
  }

  lemma {:induction false} ChunkProbesCount(o: Objects, cs: seq<Hash>)
    ensures (forall c :: c in cs ==> c in o) ==> ChunkProbes(o, cs) == |cs|
    ensures (exists c :: c in cs && c !in o) ==>
              var n := ChunkProbes(o, cs) - 1;
              0 <= n < |cs| && cs[n] !in o && forall i :: 0 <= i < n ==> cs[i] in o
  {
    if cs != [] && cs[0] in o {
      ChunkProbesCount(o, cs[1..]);
      assert cs == [cs[0]] + cs[1..];
      if exists c :: c in cs && c !in o {
        var n := ChunkProbes(o, cs[1..]) - 1;
        assert exists c :: c in cs[1..] && c !in o;
        forall i | 0 <= i < n + 1
          ensures cs[i] in o
        {
          if i > 0 { assert cs[1..][i - 1] in o; }
        }
      }
    }
  }

  /** `blob_fully_cached` behind a counter of `exists` calls. */
  method CountedCheck(o: Objects, h: Hash) returns (cached: bool, count: nat)
    ensures cached == FullyCached(o, h) && count == Probes(o, h)
  {
    count := 1;
    if h !in o { return false, count; }
    if o[h].Single? { return true, count; }
    var cs := o[h].chunks;
    var i := 0;
    while i < |cs|
      invariant 0 <= i <= |cs| && count == 1 + i
      invariant forall c :: c in cs[..i] ==> c in o
      invariant ChunkProbes(o, cs) == i + ChunkProbes(o, cs[i..])
    {
      count := count + 1;
      if cs[i] !in o { return false, count; }
      assert cs[..i + 1] == cs[..i] + [cs[i]];
      assert cs[i..][1..] == cs[i + 1..];
      i := i + 1;
    }
    assert cs[..i] == cs;
    return true, count;
  }

  ghost function SealedPaths(es: Entries): set<Path> {
    set p | p in es && es[p].sealed
  }

  /** The blobs behind the `s` samples, in sample order. */
  ghost function SampleHashes(es: Entries, ps: seq<Path>, s: nat): (hs: seq<Hash>)
    requires Lists(ps, SealedPaths(es)) && s <= |ps|
    ensures |hs| == s
    ensures forall k :: 0 <= k < s ==>
              SampleIndex(k, |ps|, s) < |ps| && ps[SampleIndex(k, |ps|, s)] in SealedPaths(es)
              && hs[k] == es[ps[SampleIndex(k, |ps|, s)]].hash
  {
    SamplesInRange(|ps|, s);
    assert forall i :: 0 <= i < |ps| ==> ps[i] in SealedPaths(es);
    seq(s, k requires 0 <= k < s => es[ps[SampleIndex(k, |ps|, s)]].hash)
  }

  lemma {:induction false} SamplesInRange(n: nat, s: nat)
    requires s <= n
    ensures forall k :: 0 <= k < s ==> SampleIndex(k, n, s) < n
  {
    forall k | 0 <= k < s ensures SampleIndex(k, n, s) < n { SampleInRange(k, n, s); }
  }

  /** What checking the first `k` blobs costs. */
  ghost function Cost(o: Objects, hs: seq<Hash>, k: nat): nat
    requires k <= |hs|
  {
    if k == 0 then 0 else Cost(o, hs, k - 1) + Probes(o, hs[k - 1])
  }

  lemma {:induction false} CheapCost(o: Objects, hs: seq<Hash>, k: nat)
    requires Cheap(o, hs) && k <= |hs|
    ensures Cost(o, hs, k) <= 8 * k
  {
    if k > 0 { CheapCost(o, hs, k - 1); }
  }

  /** The budget cannot be spent before sample `k`, or it is the first. */
  ghost predicate Due(o: Objects, hs: seq<Hash>, budget: nat, k: nat)
    requires k <= |hs|
  {
    k == 0 || Cost(o, hs, k) < budget
  }

  /** Every sample that is due is present. */
  ghost predicate Vouches(o: Objects, hs: seq<Hash>, budget: nat) { VouchesTo(o, hs, budget, |hs|) }

  ghost predicate VouchesTo(o: Objects, hs: seq<Hash>, budget: nat, n: nat)
    requires n <= |hs|
  {
    forall k :: 0 <= k < n && Due(o, hs, budget, k) ==> FullyCached(o, hs[k])
  }

  /** So if all blobs are cheap and the budget is eight for each, all are present. */
  lemma {:induction false} CheapVouches(o: Objects, hs: seq<Hash>, budget: nat)
    requires Vouches(o, hs, budget) && Cheap(o, hs) && 8 * |hs| <= budget
    ensures AllPresent(o, hs)
  {
    forall k | 0 <= k < |hs|
      ensures FullyCached(o, hs[k])
    {
      CheapCost(o, hs, k);
      assert Due(o, hs, budget, k);
    }
  }

  ghost predicate AllPresent(o: Objects, hs: seq<Hash>) {
    forall k :: 0 <= k < |hs| ==> FullyCached(o, hs[k])
  }

  /** No blob costs more than eight probes. */
  ghost predicate Cheap(o: Objects, hs: seq<Hash>) {
    forall k :: 0 <= k < |hs| ==> Probes(o, hs[k]) <= 8
  }

  /** The cost is below the budget plus the cost of one sampled blob. */
  ghost predicate WithinBudget(o: Objects, hs: seq<Hash>, budget: nat, spent: nat) {
    exists k :: 0 <= k < |hs|
      && (spent < budget + Probes(o, hs[k]) || (budget == 0 && spent == Probes(o, hs[k])))
  }

  lemma {:induction false} OneMore(o: Objects, hs: seq<Hash>, budget: nat, before: nat, k: nat)
    requires k < |hs| && (before < budget || before == 0)
    ensures WithinBudget(o, hs, budget, before + Probes(o, hs[k]))
  {
  }

  /** `hs` are the blobs at the sample positions of `sorted`. */
  ghost predicate Samples(es: Entries, sorted: seq<Path>, hs: seq<Hash>) {
    && |hs| <= |sorted|
    && forall k :: 0 <= k < |hs| ==>
         SampleIndex(k, |sorted|, |hs|) < |sorted| && sorted[SampleIndex(k, |sorted|, |hs|)] in es
         && hs[k] == es[sorted[SampleIndex(k, |sorted|, |hs|)]].hash
  }

  /** The blob behind sample `k`. */
  method SampledHash(es: Entries, sorted: seq<Path>, s: nat, k: nat, ghost hs: seq<Hash>) returns (h: Hash)
    requires k < s == |hs| && Samples(es, sorted, hs)
    ensures h == hs[k]
  {
    h := es[sorted[SampleIndex(k, |sorted|, s)]].hash;
  }

  /** After `k` samples: what was spent, and what the verdict so far vouches for. */
  ghost predicate Progress(o: Objects, hs: seq<Hash>, budget: nat, k: nat, spent: nat)
    requires k <= |hs|
  {
    && (if k == 0 then spent == 0 else WithinBudget(o, hs, budget, spent))
    && spent <= Cost(o, hs, k) && VouchesTo(o, hs, budget, k)
  }

  lemma {:induction false} VouchesNext(o: Objects, hs: seq<Hash>, budget: nat, k: nat)
    requires k < |hs| && VouchesTo(o, hs, budget, k) && (Due(o, hs, budget, k) ==> FullyCached(o, hs[k]))
    ensures VouchesTo(o, hs, budget, k + 1)
  {
  }

  lemma {:induction false} Skipped(o: Objects, hs: seq<Hash>, budget: nat, k: nat, spent: nat)
    requires 0 < k < |hs| && Progress(o, hs, budget, k, spent) && spent >= budget
    ensures Progress(o, hs, budget, k + 1, spent)
  {
    VouchesNext(o, hs, budget, k);
  }

  lemma {:induction false} Checked(o: Objects, hs: seq<Hash>, budget: nat, k: nat, spent: nat)
    requires k < |hs| && Progress(o, hs, budget, k, spent) && (k == 0 || spent < budget)
    ensures WithinBudget(o, hs, budget, spent + Probes(o, hs[k]))
    ensures FullyCached(o, hs[k]) ==> Progress(o, hs, budget, k + 1, spent + Probes(o, hs[k]))
  {
    assert WithinBudget(o, hs, budget, spent + Probes(o, hs[k])) by { OneMore(o, hs, budget, spent, k); }
    if FullyCached(o, hs[k]) {
      assert VouchesTo(o, hs, budget, k + 1) by { VouchesNext(o, hs, budget, k); }
      assert spent + Probes(o, hs[k]) <= Cost(o, hs, k + 1);
    }
  }

  /** The sampling loop: check sample after sample until one misses or the budget is gone. */
  method ProbeSamples(es: Entries, o: Objects, sorted: seq<Path>, s: nat, budget: nat, ghost hs: seq<Hash>)
    returns (ok: bool, spent: nat)
    requires s > 0 && |hs| == s && Samples(es, sorted, hs)
    ensures !ok ==> exists k :: 0 <= k < s && !FullyCached(o, hs[k])
    ensures ok ==> Vouches(o, hs, budget)
    ensures WithinBudget(o, hs, budget, spent)
  {
    spent := 0;
    for k := 0 to s
      invariant Progress(o, hs, budget, k, spent)
    {
      if k > 0 && spent >= budget {
        Skipped(o, hs, budget, k, spent);
        continue;
      }
      var cached, count := CountedCheck(o, es[sorted[SampleIndex(k, |sorted|, s)]].hash);
      Checked(o, hs, budget, k, spent);
      spent := spent + count;
      if !cached { return false, spent; }
    }
    ok := true;
  }

  /**
   Sample the sealed entries. A clean verdict vouches for the first sample and for every one
   that is due within eight probes for each that may be sampled, in 64-bit arithmetic; a bad
   verdict is always a real miss; and the cost stays below that plus one sampled blob.
   */
  method SampleVerify(es: Entries, o: Objects, max: U64)
    returns (ok: bool, spent: nat, ghost ps: seq<Path>, ghost hs: seq<Hash>)
    ensures Lists(ps, SealedPaths(es))
    ensures hs == SampleHashes(es, ps, SampleCount(max, |ps|))
    ensures !ok ==> exists p :: p in SealedPaths(es) && !FullyCached(o, es[p].hash)
    ensures ok ==> SampleVouches(o, hs, max)
    ensures spent == 0 || WithinBudget(o, hs, 8 * max % 0x1_0000_0000_0000_0000, spent)
  {
    var sorted := SortPaths(set p | p in es && es[p].sealed);
    ps := sorted;
    var s := if max < |sorted| then max else |sorted|;
    hs := SampleHashes(es, ps, s);
    if s == 0 { return true, 0, ps, hs; }
    ok, spent := ProbeSamples(es, o, sorted, s, 8 * max % 0x1_0000_0000_0000_0000, hs);
  }

  /** What a clean verdict vouches for. */
  ghost predicate CleanSample(es: Entries, o: Objects, max: U64) {
    exists ps :: Lists(ps, SealedPaths(es)) && SampleVouches(o, SampleHashes(es, ps, SampleCount(max, |ps|)), max)
  }

  ghost predicate SampleVouches(o: Objects, hs: seq<Hash>, max: U64) {
    Vouches(o, hs, 8 * max % 0x1_0000_0000_0000_0000)
  }

  /** How many of `n` sealed entries are sampled. */
  function SampleCount(max: U64, n: nat): nat { if max < n then max else n }

  lemma {:induction false} AllSampled(o: Objects, hs: seq<Hash>, max: U64)
    requires SampleVouches(o, hs, max) && Cheap(o, hs) && |hs| <= max && 8 * max < 0x1_0000_0000_0000_0000
    ensures AllPresent(o, hs)
  {
    var budget: nat := 8 * max;
    assert budget % 0x1_0000_0000_0000_0000 == budget by { NoWrap(budget); }
    assert Vouches(o, hs, budget);
    CheapVouches(o, hs, budget);
  }

  lemma {:induction false} NoWrap(x: nat)
    requires x < 0x1_0000_0000_0000_0000
    ensures x % 0x1_0000_0000_0000_0000 == x
  {
  }

  lemma {:induction false} SampledEntry(es: Entries, o: Objects, ps: seq<Path>, s: nat, k: nat)
    requires Lists(ps, SealedPaths(es)) && k < s <= |ps| && AllPresent(o, SampleHashes(es, ps, s))
    ensures var i := SampleIndex(k, |ps|, s); i < |ps| && ps[i] in es && FullyCached(o, es[ps[i]].hash)
  {
    assert FullyCached(o, SampleHashes(es, ps, s)[k]);
  }

  /**
   So a clean verdict on cheap blobs rules out losing any `Gap` neighbours of the sorted
   sealed list together; `s` is the smaller of the limit and the length of that list.
   */
  lemma {:induction false} LostRunCaught(es: Entries, o: Objects, ps: seq<Path>, max: U64, s: nat, a: nat)
    requires Lists(ps, SealedPaths(es)) && 2 <= s && (s == max <= |ps| || s == |ps| <= max)
    requires 8 * max < 0x1_0000_0000_0000_0000 && Cheap(o, SampleHashes(es, ps, s))
    requires SampleVouches(o, SampleHashes(es, ps, SampleCount(max, |ps|)), max)
    requires a + Gap(|ps|, s) <= |ps|
    ensures exists i :: a <= i < a + Gap(|ps|, s) && ps[i] in es && FullyCached(o, es[ps[i]].hash)
  {
    assert SampleCount(max, |ps|) == s;
    AllSampled(o, SampleHashes(es, ps, s), max);
    var k := RunHoldsSample(a, |ps|, s);
    SampledEntry(es, o, ps, s, k);
  }
}
