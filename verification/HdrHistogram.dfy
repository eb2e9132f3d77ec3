/** The histogram object: recording, merging and percentile queries against the samples it stands for. */
module HdrHistogram {
  import opened Common
  import opened Bits
  import opened HdrBuckets
  import opened Ranks

  const INT64_MAX: nat := 0x7FFF_FFFF_FFFF_FFFF
  const INT64_MIN: int := -0x8000_0000_0000_0000
  /** 2^62. */
  const CEILING: nat := 0x4000_0000_0000_0000

  /** floor(log2(x)) and ceil(log2(x)). */
  function FloorLog2(x: nat): nat requires x >= 1 { BitLength(x) - 1 }
  function CeilLog2(x: nat): nat requires x >= 1 { BitLength(x - 1) }

  function Clamp(x: int, lo: int, hi: int): int { if x < lo then lo else if x > hi then hi else x }

  lemma CeilLog2Covers(x: nat)
    requires x >= 2
    ensures CeilLog2(x) >= 1 && x <= Pow2(CeilLog2(x))
  {
    BitLengthBounds(x - 1);
  }

  // ---------------------------------------------------------------- the bucket loop

  /** Doubling in a signed 64-bit word. */
  function Double(x: int): int {
    if 2 * x > INT64_MAX then 2 * x - U64 else if 2 * x < INT64_MIN then 2 * x + U64 else 2 * x
  }

  /** `1 << n` in a signed 64-bit word. */
  function Shifted(n: nat): int { if n == 0 then 1 else Double(Shifted(n - 1)) }

  lemma {:induction false} ShiftedForm(n: nat)
    ensures Shifted(n) == if n <= 62 then Pow2(n) else if n == 63 then INT64_MIN else 0
  {
    SixtyTwo();
    if n > 0 {
      ShiftedForm(n - 1);
      if n <= 62 { Pow2Monotone(n, 62); }
    }
  }

  /** After `k` rounds the loop's condition is false, or it breaks. */
  predicate StopsAt(magnitude: nat, k: nat, highest: nat) {
    var smallest := Shifted(magnitude + k);
    smallest > highest || smallest > INT64_MAX / 2
  }

  /** The bucket loop ends if and only if the shifted sub-bucket count is below 2^63. */
  lemma LoopEndsIff(magnitude: nat, highest: nat)
    ensures (exists k :: StopsAt(magnitude, k, highest)) <==> magnitude <= 62
  {
    if magnitude <= 62 {
      SixtyTwo();
      ShiftedForm(62);
      assert StopsAt(magnitude, 62 - magnitude, highest);
    } else {
      forall k: nat ensures !StopsAt(magnitude, k, highest) {
        ShiftedForm(magnitude + k);
      }
    }
  }

  /** The exponent at which the loop ends. */
  function LoopEnd(e: nat, highest: nat): (r: nat)
    requires e <= 62
    ensures e <= r <= 62
    decreases 62 - e
  {
    if Pow2(e) > highest || e == 62 then e else LoopEnd(e + 1, highest)
  }

  /** The loop never doubles past 2^62. */
  lemma {:induction false} LoopReach(e: nat, highest: nat)
    requires e <= 62
    ensures highest < CEILING ==> highest < Pow2(LoopEnd(e, highest))
    ensures highest >= CEILING ==> LoopEnd(e, highest) == 62
    decreases 62 - e
  {
    SixtyTwo();
    Pow2Monotone(e, 62);
    if !(Pow2(e) > highest || e == 62) { LoopReach(e + 1, highest); }
  }

  method BucketCount(magnitude: nat, highest: nat) returns (buckets: nat)
    requires magnitude <= 62
    ensures buckets == LoopEnd(magnitude, highest) - magnitude + 1
  {
    buckets := 1;
    var smallest := Shifted(magnitude);
    ghost var e := magnitude;
    SixtyTwo();
    ShiftedForm(e);
    while smallest <= highest
      invariant e <= 62 && buckets == e - magnitude + 1
      invariant smallest == Shifted(e) == Pow2(e) && LoopEnd(magnitude, highest) == LoopEnd(e, highest)
      decreases 62 - e
    {
      Pow2Monotone(e, 62);
      if e < 62 { Pow2Monotone(e, 61); }
      if smallest > INT64_MAX / 2 {
        break;
      }
      ShiftedForm(e + 1);
      smallest := Double(smallest);
      buckets := buckets + 1;
      e := e + 1;
    }
  }

  // ---------------------------------------------------------------- configuration

  /** log2 of the sub-bucket count for a number of significant figures, and what it guarantees. */
  function SubBucketMagnitude(figures: nat): (m: nat)
    ensures m >= 1 && Pow2(m - 1) >= Pow10(figures)
  {
    CeilLog2Covers(2 * Pow10(figures));
    CeilLog2(2 * Pow10(figures))
  }

  function AtLeastOne(lowest: int): nat { if lowest < 1 then 1 else lowest }

  /** The constructor's loop ends for these arguments (`LoopEndsIff`). */
  predicate Returns(lowest: int, figures: int) {
    FloorLog2(AtLeastOne(lowest)) + SubBucketMagnitude(Clamp(figures, 1, 5)) <= 62
  }

  /** The buckets are those of the loop. */
  predicate LoopBuilt(p: Params) {
    var e := p.unit + p.halfMag + 1;
    e <= 62 && p.buckets == LoopEnd(e, p.highest) - e + 1
  }

  function Build(lo: nat, hi: nat, sig: nat): (p: Params)
    requires lo >= 1 && FloorLog2(lo) + SubBucketMagnitude(sig) <= 62
    ensures p.Half() >= Pow10(p.figures) && LoopBuilt(p)
  {
    var unit, magnitude := FloorLog2(lo), SubBucketMagnitude(sig);
    Params(unit, magnitude - 1, LoopEnd(unit + magnitude, hi) - (unit + magnitude) + 1, hi, sig)
  }

  /** The parameters the constructor derives from its arguments. */
  function Derived(lowest: int, highest: int, figures: int): (p: Params)
    requires Returns(lowest, figures)
    ensures p.Half() >= Pow10(p.figures) && LoopBuilt(p)
  {
    var lo := AtLeastOne(lowest);
    Build(lo, if highest < lo * 2 then lo * 2 else highest, Clamp(figures, 1, 5))
  }

  /** The unit is the largest power of two up to `lowest`. */
  lemma UnitOfLowest(lowest: int, highest: int, figures: int)
    requires Returns(lowest, figures)
    ensures var p := Derived(lowest, highest, figures); Pow2(p.unit) <= AtLeastOne(lowest) < Pow2(p.unit + 1)
  {
    BitLengthBounds(AtLeastOne(lowest));
  }

  /** The buckets cover `highest`, or they end at 2^62. */
  predicate CoversOrEnds(p: Params) {
    && p.buckets >= 1
    && (p.highest < CEILING ==> p.highest < Pow2(p.unit + p.halfMag + p.buckets))
    && (p.highest >= CEILING ==> p.unit + p.halfMag + p.buckets == 62)
  }

  lemma DerivedCovers(lowest: int, highest: int, figures: int)
    requires Returns(lowest, figures)
    ensures CoversOrEnds(Derived(lowest, highest, figures))
  {
    LoopCovers(Derived(lowest, highest, figures));
  }

  lemma LoopCovers(p: Params)
    requires LoopBuilt(p)
    ensures CoversOrEnds(p)
  {
    LoopReach(p.unit + p.halfMag + 1, p.highest);
  }

  lemma CountedByCover(p: Params, v: nat)
    requires CoversOrEnds(p) && v <= p.highest
    ensures p.CountsIndex(v) < p.Counters() <==> v < CEILING
  {
    SixtyTwo();
    IndexInBounds(p, v);
  }

  /** Of the values up to `highest`, exactly those below 2^62 have a counter. */
  lemma CountedBelowCeiling(lowest: int, highest: int, figures: int, v: nat)
    requires Returns(lowest, figures) && v <= Derived(lowest, highest, figures).highest
    ensures var p := Derived(lowest, highest, figures); p.CountsIndex(v) < p.Counters() <==> v < CEILING
  {
    DerivedCovers(lowest, highest, figures);
    CountedByCover(Derived(lowest, highest, figures), v);
  }

  /** Every value the histogram accepts has a counter if and only if `highest` is below 2^62. */
  lemma AllCountedIff(p: Params)
    requires CoversOrEnds(p)
    ensures (forall v: nat | v <= p.highest :: p.CountsIndex(v) < p.Counters()) <==> p.highest < CEILING
  {
    forall v: nat | v <= p.highest ensures p.CountsIndex(v) < p.Counters() <==> v < CEILING {
      CountedByCover(p, v);
    }
    if p.highest >= CEILING {
      var v: nat := CEILING;
      assert v <= p.highest && p.CountsIndex(v) >= p.Counters();
    }
  }

  lemma ValidIff(p: Params)
    requires CoversOrEnds(p) && p.Half() >= Pow10(p.figures)
    ensures p.Valid() <==> p.highest < CEILING
  {
    SixtyTwo();
  }

  /** The default resolution and figures with a range of 2^62: that value would be counted outside the array. */
  lemma ValueWithoutCounter()
    ensures Returns(1, 3)
    ensures var p := Derived(1, CEILING, 3); p.highest == CEILING && p.CountsIndex(CEILING) >= p.Counters()
  {
    assert Pow10(3) == 1000 && Pow2(10) == 1024 && Pow2(11) == 2048;
    BitLengthUnique(1999, 11);
    BitLengthUnique(1, 1);
    CountedBelowCeiling(1, CEILING, 3, CEILING);
  }

  method Derive(lo: nat, hi: nat, sig: nat) returns (p: Params)
    requires lo >= 1 && FloorLog2(lo) + SubBucketMagnitude(sig) <= 62
    ensures p == Build(lo, hi, sig)
  {
    var unit, magnitude := FloorLog2(lo), SubBucketMagnitude(sig);
    var buckets := BucketCount(unit + magnitude, hi);
    p := Params(unit, magnitude - 1, buckets, hi, sig);
  }

  method Configure(lowest: int, highest: int, figures: int) returns (p: Params)
    requires Returns(lowest, figures)
    ensures p == Derived(lowest, highest, figures)
    ensures (forall v: nat | v <= p.highest :: p.CountsIndex(v) < p.Counters()) <==> p.highest < CEILING
  {
    var lo := AtLeastOne(lowest);
    p := Derive(lo, if highest < lo * 2 then lo * 2 else highest, Clamp(figures, 1, 5));
    DerivedCovers(lowest, highest, figures);
    AllCountedIff(p);
  }

  lemma SixtyTwo()
    ensures Pow2(62) == CEILING
  {
    Pow2Add(31, 31);
    assert Pow2(31) == 0x8000_0000 by {
      Pow2Add(16, 15);
      assert Pow2(8) == 256;
      Pow2Add(8, 8);
      Pow2Add(8, 7);
    }
  }

  // ---------------------------------------------------------------- what a stream of values leaves behind

  /** The histogram's meaning: the kept samples, and how many values were too large or negative. */
  datatype Recorded = Recorded(samples: seq<nat>, overflow: nat, negative: nat) {
    function Plus(other: Recorded): Recorded {
      Recorded(samples + other.samples, overflow + other.overflow, negative + other.negative)
    }
  }

  const NOTHING := Recorded([], 0, 0)

  /** One value: negatives are only counted, values above the range are clamped into it and counted. */
  function One(highest: nat, v: int): Recorded {
    if v < 0 then Recorded([], 0, 1)
    else if v > highest then Recorded([highest], 1, 0)
    else Recorded([v], 0, 0)
  }

  /** The first `n` values of a stream. */
  function StreamTo(highest: nat, vs: seq<int>, n: nat): Recorded
    requires n <= |vs|
  {
    if n == 0 then NOTHING else StreamTo(highest, vs, n - 1).Plus(One(highest, vs[n - 1]))
  }

  function Stream(highest: nat, vs: seq<int>): Recorded { StreamTo(highest, vs, |vs|) }

  /** How many of the first `n` values are such. */
  function CountTo(vs: seq<int>, n: nat, f: int -> bool): nat
    requires n <= |vs|
  {
    if n == 0 then 0 else CountTo(vs, n - 1, f) + if f(vs[n - 1]) then 1 else 0
  }

  function Below(x: int): int -> bool { (v: int) => v < x }
  function Above(x: int): int -> bool { (v: int) => v > x }
  function KeptAtMost(highest: nat, x: nat): int -> bool { (v: int) => 0 <= v && (v <= x || highest <= x) }

  /** Every value is counted once: as negative, or as a sample, which is the value or `highest`. */
  lemma {:induction false} StreamCounts(highest: nat, vs: seq<int>, n: nat, x: nat)
    requires n <= |vs|
    ensures var r := StreamTo(highest, vs, n);
            && r.negative == CountTo(vs, n, Below(0)) && r.overflow == CountTo(vs, n, Above(highest))
            && |r.samples| + r.negative == n
            && Count(r.samples, AtMost(x)) == CountTo(vs, n, KeptAtMost(highest, x))
  {
    if n > 0 {
      StreamCounts(highest, vs, n - 1, x);
      var v, before := vs[n - 1], StreamTo(highest, vs, n - 1).samples;
      if v < 0 {
        assert before + [] == before;
      } else {
        CountAppend(before, if v > highest then highest else v, AtMost(x));
      }
    }
  }

  function Repeat<T>(x: T, n: nat): seq<T> { seq(n, i => x) }

  /** `record_n` in one go. */
  function Many(highest: nat, v: int, n: nat): Recorded {
    if v < 0 then Recorded([], 0, n)
    else if v > highest then Recorded(Repeat(highest, n), n, 0)
    else Recorded(Repeat(v, n), 0, 0)
  }

  lemma RepeatLast<T>(x: T, n: nat)
    ensures Repeat(x, n + 1) == Repeat(x, n) + [x] && Repeat(x, n + 1)[..n] == Repeat(x, n)
  {
  }

  lemma ManyStep(highest: nat, v: int, n: nat)
    ensures Many(highest, v, n + 1) == Many(highest, v, n).Plus(One(highest, v))
  {
    if v > highest {
      RepeatLast<nat>(highest, n);
    } else if v >= 0 {
      RepeatLast<nat>(v, n);
    }
  }

  lemma {:induction false} ManyIsPrefix(highest: nat, v: int, vs: seq<int>, n: nat)
    requires n <= |vs| && forall i | 0 <= i < n :: vs[i] == v
    ensures Many(highest, v, n) == StreamTo(highest, vs, n)
  {
    if n > 0 {
      ManyIsPrefix(highest, v, vs, n - 1);
      ManyStep(highest, v, n - 1);
    }
  }

  /** Recording `n` copies at once is recording the value `n` times. */
  lemma ManyIsRepeated(highest: nat, v: int, n: nat)
    ensures Many(highest, v, n) == Stream(highest, Repeat(v, n))
  {
    ManyIsPrefix(highest, v, Repeat(v, n), n);
  }

  lemma PlusAssociative(a: Recorded, b: Recorded, c: Recorded)
    ensures a.Plus(b).Plus(c) == a.Plus(b.Plus(c))
    ensures a.Plus(NOTHING) == a
  {
    assert a.samples + b.samples + c.samples == a.samples + (b.samples + c.samples);
    assert a.samples + [] == a.samples;
  }

  lemma {:induction false} StreamPrefix(highest: nat, a: seq<int>, b: seq<int>, n: nat)
    requires n <= |a|
    ensures StreamTo(highest, a + b, n) == StreamTo(highest, a, n)
  {
    if n > 0 { StreamPrefix(highest, a, b, n - 1); }
  }

  lemma MergeStep(a: Recorded, front: Recorded, last: Recorded, b: Recorded, ab: Recorded)
    requires b == front.Plus(last) && ab == a.Plus(front).Plus(last)
    ensures a.Plus(b) == ab
  {
    PlusAssociative(a, front, last);
  }

  lemma {:induction false} MergeTo(highest: nat, a: seq<int>, b: seq<int>, n: nat)
    requires n <= |b|
    ensures Stream(highest, a).Plus(StreamTo(highest, b, n)) == StreamTo(highest, a + b, |a| + n)
  {
    if n == 0 {
      StreamPrefix(highest, a, b, |a|);
      PlusAssociative(Stream(highest, a), NOTHING, NOTHING);
    } else {
      MergeTo(highest, a, b, n - 1);
      assert (a + b)[|a| + n - 1] == b[n - 1];
      MergeStep(Stream(highest, a), StreamTo(highest, b, n - 1), One(highest, b[n - 1]),
                StreamTo(highest, b, n), StreamTo(highest, a + b, |a| + n));
    }
  }

  /** Merging the histograms of two streams is recording one stream after the other. */
  lemma MergeIsConcatenation(highest: nat, a: seq<int>, b: seq<int>)
    ensures Stream(highest, a).Plus(Stream(highest, b)) == Stream(highest, a + b)
  {
    MergeTo(highest, a, b, |b|);
  }

  lemma CountBumped(p: Params, before: seq<nat>, v: nat, n: nat, i: int)
    requires p.Valid()
    ensures Count(before + Repeat(v, n), AtIndex(p, i))
         == Count(before, AtIndex(p, i)) + if p.CountsIndex(v) == i then n else 0
  {
    CountConcat(before, Repeat(v, n), AtIndex(p, i));
    if p.CountsIndex(v) == i { CountAll(Repeat(v, n), AtIndex(p, i)); } else { CountNone(Repeat(v, n), AtIndex(p, i)); }
  }

  lemma BumpedMembers(before: seq<nat>, v: nat, n: nat)
    requires n >= 1
    ensures v in before + Repeat(v, n)
    ensures forall w :: w in before ==> w in before + Repeat(v, n)
    ensures forall w :: w in before + Repeat(v, n) ==> w in before || w == v
  {
    assert (before + Repeat(v, n))[|before|] == v;
  }

  // ---------------------------------------------------------------- the object

  function AtIndex(p: Params, i: int): nat -> bool { (v: nat) => p.CountsIndex(v) == i }
  function BelowIndex(p: Params, i: int): nat -> bool { (v: nat) => p.CountsIndex(v) < i }

  predicate IsMin(s: seq<nat>, m: nat) { s != [] ==> m in s && forall v | v in s :: m <= v }
  predicate IsMax(s: seq<nat>, m: nat) { s != [] ==> m in s && forall v | v in s :: v <= m }

  /** ceil(percentile / 100 * total), kept between 1 and the total. */
  function TargetRank(percentile: real, total: nat): nat
    requires total >= 1
  {
    var q := if percentile < 0.0 then 0.0 else if percentile > 100.0 then 100.0 else percentile;
    Clamp(-((-(q / 100.0 * total as real)).Floor), 1, total)
  }

  /** So many hundredths of `n` samples, the percentile kept between 0 and 100. */
  function Share(percentile: real, n: nat): real {
    (if percentile < 0.0 then 0.0 else if percentile > 100.0 then 100.0 else percentile) * n as real
  }

  /**
   The value answers the percentile: at least so many of a hundred samples are at most as large, and, unless it lies in
   the bucket of the least sample, fewer lie below its bucket.
   */
  ghost predicate AnswersShare(p: Params, s: seq<nat>, least: nat, share: real, r: nat) {
    && 100.0 * Count(s, AtMost(r)) as real >= share
    && (|| p.LowestEquivalent(least) <= r <= p.HighestEquivalent(least)
        || 100.0 * Count(s, LessThan(p.LowestEquivalent(r))) as real < share)
  }

  /** The rank is the least one, from 1 on, that makes up the share. */
  lemma RankMakesUpShare(percentile: real, total: nat, t: nat, share: real)
    requires total >= 1 && t == TargetRank(percentile, total) && share == Share(percentile, total)
    ensures 1 <= t <= total && 100.0 * t as real >= share && (t == 1 || 100.0 * (t - 1) as real < share)
  {
    var q := if percentile < 0.0 then 0.0 else if percentile > 100.0 then 100.0 else percentile;
    var n := total as real;
    var x := q / 100.0 * n;
    assert 100.0 * x == share;
    ShareIsAtMostAll(q, n, x);
    var up := -((-x).Floor);
    assert up as real >= x && (up - 1) as real < x;
  }

  lemma ShareIsAtMostAll(q: real, n: real, x: real)
    requires 0.0 <= q <= 100.0 && n >= 0.0 && 100.0 * x == q * n
    ensures 0.0 <= x <= n
  {
    assert q * n <= 100.0 * n by { assert (100.0 - q) * n >= 0.0; }
    assert q * n >= 0.0;
  }

  /** At least so many samples are at most the top of a sample's bucket, and fewer lie below the bucket. */
  lemma CountsAround(p: Params, s: seq<nat>, t: nat, v: nat, r: int)
    requires Count(s, LessThan(v)) < t <= Count(s, AtMost(v)) && r == p.HighestEquivalent(v)
    ensures r >= 0 && Count(s, AtMost(r)) >= t && Count(s, LessThan(p.LowestEquivalent(r))) < t
    ensures p.LowestEquivalent(v) <= r <= p.HighestEquivalent(v)
  {
    WithinRange(p, v);
    CountMonotone(s, AtMost(v), AtMost(r));
    RangesPartition(p, v, r);
    SameCounterSameRange(p, v, r);
    CountMonotone(s, LessThan(p.LowestEquivalent(r)), LessThan(v));
  }

  lemma Scaled(a: nat, b: nat)
    requires a <= b
    ensures 100.0 * a as real <= 100.0 * b as real
  {
  }

  /** The top of the bucket of the sample at the rank answers the percentile. */
  lemma RankAnswers(p: Params, s: seq<nat>, least: nat, share: real, t: nat, v: nat, r: int)
    requires s != [] && IsMin(s, least) && t >= 1
    requires 100.0 * t as real >= share && (t == 1 || 100.0 * (t - 1) as real < share)
    requires Count(s, LessThan(v)) < t <= Count(s, AtMost(v)) && r == p.HighestEquivalent(v)
    ensures r >= 0 && AnswersShare(p, s, least, share, r)
  {
    CountsAround(p, s, t, v, r);
    Scaled(t, Count(s, AtMost(r)));
    Scaled(Count(s, LessThan(p.LowestEquivalent(r))), t - 1);
    if t == 1 { FirstIsLeast(s, least, v); }
  }

  lemma FirstIsLeast(s: seq<nat>, least: nat, v: nat)
    requires s != [] && IsMin(s, least) && Count(s, LessThan(v)) == 0 && Count(s, AtMost(v)) >= 1
    ensures v == least
  {
    var i :| 0 <= i < |s| && s[i] == least;
    if least < v { CountSome(s, LessThan(v), i); }
    if v < least {
      forall k | 0 <= k < |s| ensures !AtMost(v)(s[k]) { assert s[k] in s; }
      CountNone(s, AtMost(v));
    }
  }

  class Histogram {
    const p: Params
    const counts: array<nat>
    var total: nat
    var overflow: nat
    var negative: nat
    var min: nat
    var max: nat
    ghost var samples: seq<nat>

    ghost predicate Valid()
      reads this, counts
    {
      && p.Valid()
      && counts.Length == p.Counters()
      && (forall v | v in samples :: v < Pow2(p.unit + p.halfMag + p.buckets))
      && (forall i | 0 <= i < counts.Length :: counts[i] == Count(samples, AtIndex(p, i)))
      && total == |samples|
      && IsMin(samples, min) && IsMax(samples, max)
    }

    ghost function Meaning(): Recorded
      reads this
    {
      Recorded(samples, overflow, negative)
    }

    constructor (lowest: int, highest: int, figures: int)
      requires Returns(lowest, figures)
      ensures p == Derived(lowest, highest, figures) && fresh(counts) && Meaning() == NOTHING
      ensures Valid() <==> p.highest < CEILING
    {
      var params := Configure(lowest, highest, figures);
      DerivedCovers(lowest, highest, figures);
      ValidIff(params);
      p := params;
      counts := new nat[params.Counters()](i => 0);
      total, overflow, negative, min, max := 0, 0, 0, 0, 0;
      samples := [];
    }

    /** Add `n` samples of one in-range value; the common part of `record` and `record_n`. */
    method Bump(v: nat, n: nat)
      requires Valid() && v <= p.highest && n >= 1
      modifies this`total, this`min, this`max, this`samples, counts
      ensures Valid() && samples == old(samples) + Repeat(v, n)
    {
      IndexInBounds(p, v);
      var idx := p.CountsIndex(v);
      counts[idx] := counts[idx] + n;
      total := total + n;
      if v > max || total == n { max := v; }
      if v < min || total == n { min := v; }
      samples := samples + Repeat(v, n);
      ghost var before := old(samples);
      forall i | 0 <= i < counts.Length ensures counts[i] == Count(samples, AtIndex(p, i)) {
        CountBumped(p, before, v, n, i);
      }
      BumpedMembers(before, v, n);
    }

    method Record(v: int)
      requires Valid()
      modifies this, counts
      ensures Valid() && Meaning() == old(Meaning()).Plus(One(p.highest, v))
    {
      if v < 0 {
        negative := negative + 1;
        assert samples + [] == samples;
        return;
      }
      var w: nat := v;
      if v > p.highest {
        overflow := overflow + 1;
        w := p.highest;
      }
      Bump(w, 1);
      assert Repeat(w, 1) == [w];
    }

    /** Recording `n` copies leaves what `n` single records leave; a count of 0 or less does nothing. */
    method RecordN(v: int, n: int)
      requires Valid()
      modifies this, counts
      ensures Valid()
      ensures n <= 0 ==> Meaning() == old(Meaning())
      ensures n > 0 ==> Meaning() == old(Meaning()).Plus(Stream(p.highest, Repeat(v, n)))
    {
      if n > 0 {
        RecordMany(v, n);
        ManyIsRepeated(p.highest, v, n);
      }
    }

    method RecordMany(v: int, n: nat)
      requires Valid() && n > 0
      modifies this, counts
      ensures Valid() && Meaning() == old(Meaning()).Plus(Many(p.highest, v, n))
    {
      if v < 0 {
        negative := negative + n;
        assert samples + [] == samples;
        return;
      }
      var w: nat := v;
      if v > p.highest {
        overflow := overflow + n;
        w := p.highest;
      }
      Bump(w, n);
    }

    method Reset()
      requires Valid()
      modifies this, counts
      ensures Valid() && Meaning() == NOTHING
    {
      for i := 0 to counts.Length
        invariant forall k | 0 <= k < i :: counts[k] == 0
      {
        counts[i] := 0;
      }
      total, overflow, negative, min, max := 0, 0, 0, 0, 0;
      samples := [];
    }

    method AddCounts(other: Histogram)
      requires counts.Length == other.counts.Length && (other != this ==> counts != other.counts)
      modifies counts
      ensures forall k | 0 <= k < counts.Length :: counts[k] == old(counts[k]) + old(other.counts[k])
    {
      for i := 0 to counts.Length
        invariant forall k | 0 <= k < i :: counts[k] == old(counts[k]) + old(other.counts[k])
        invariant forall k | i <= k < counts.Length ::
                    counts[k] == old(counts[k]) && other.counts[k] == old(other.counts[k])
      {
        counts[i] := counts[i] + other.counts[i];
      }
    }

    method AddExtremes(other: Histogram)
      modifies this`min, this`max
      ensures min == old(if other.total == 0 then min else if total == 0 then other.min
                         else if other.min < min then other.min else min)
      ensures max == old(if other.total == 0 then max else if total == 0 then other.max
                         else if other.max > max then other.max else max)
    {
      if other.total > 0 {
        if total == 0 {
          min, max := other.min, other.max;
        } else {
          min := if other.min < min then other.min else min;
          max := if other.max > max then other.max else max;
        }
      }
    }

    /** Merge a histogram with the same layout; anything else is refused and changes nothing. */
    method Add(other: Histogram) returns (ok: bool)
      requires Valid() && other.Valid() && (other != this ==> counts != other.counts)
      modifies this, counts
      ensures ok <==> p.unit == other.p.unit && p.halfMag == other.p.halfMag && counts.Length == other.counts.Length
      ensures Valid()
      ensures Meaning() == if ok then old(Meaning()).Plus(old(other.Meaning())) else old(Meaning())
    {
      if counts.Length != other.counts.Length || p.unit != other.p.unit || p.SubBuckets() != other.p.SubBuckets() {
        return false;
      }
      SameLayout(p, other.p);
      SameBuckets(p, other.p);
      MergeSame(other);
      ok := true;
    }

    /** The merge proper, for a histogram of the same layout. */
    method MergeSame(other: Histogram)
      requires Valid() && other.Valid() && (other != this ==> counts != other.counts)
      requires p.unit == other.p.unit && p.halfMag == other.p.halfMag && p.buckets == other.p.buckets
      modifies this, counts
      ensures Valid() && Meaning() == old(Meaning()).Plus(old(other.Meaning()))
    {
      ghost var a, b := samples, other.samples;
      MergedExtremes(a, min, max, b, other.min, other.max);
      MergedCounts(p, other.p, a, b);
      AddCounts(other);
      AddExtremes(other);
      total := total + other.total;
      overflow := overflow + other.overflow;
      negative := negative + other.negative;
      samples := a + b;
    }

    /** The walk over the counters returns the top of the bucket of the sample at the requested rank. */
    method ValueAtPercentile(percentile: real) returns (r: int)
      requires Valid()
      ensures total == 0 ==> r == 0
      ensures total > 0 ==> |Sorted(samples)| == total
      ensures total > 0 ==> r == p.HighestEquivalent(Sorted(samples)[TargetRank(percentile, total) - 1])
      ensures total > 0 ==> r >= 0 && AnswersShare(p, samples, min, Share(percentile, total), r)
    {
      if total == 0 {
        return 0;
      }
      var target := TargetRank(percentile, total);
      var i := FindCounter(target);
      AllBelowEnd(p, samples);
      r := if i < counts.Length then p.HighestEquivalent(p.ValueFromIndex(i)) else max;
      RankBounds(samples, target);
      RankHasIndex(p, samples, target, i);
      ghost var share := Share(percentile, total);
      RankMakesUpShare(percentile, total, target, share);
      RankAnswers(p, samples, min, share, target, Sorted(samples)[target - 1], r);
    }

    /** The counter at which the running count reaches the target. */
    method FindCounter(target: nat) returns (i: nat)
      requires Valid() && 1 <= target <= total
      ensures i < counts.Length
      ensures Count(samples, BelowIndex(p, i)) < target <= Count(samples, BelowIndex(p, i + 1))
    {
      var running: nat := 0;
      i := 0;
      NothingBelowZero(p, samples);
      AllBelowEnd(p, samples);
      while i < counts.Length && running + counts[i] < target
        invariant i <= counts.Length
        invariant running == Count(samples, BelowIndex(p, i)) < target
      {
        BelowNext(p, samples, i);
        running := running + counts[i];
        i := i + 1;
      }
      BelowNext(p, samples, i);
    }
  }

  lemma MergedExtremes(a: seq<nat>, minA: nat, maxA: nat, b: seq<nat>, minB: nat, maxB: nat)
    requires IsMin(a, minA) && IsMax(a, maxA) && IsMin(b, minB) && IsMax(b, maxB)
    ensures IsMin(a + b, if b == [] then minA else if a == [] then minB else if minB < minA then minB else minA)
    ensures IsMax(a + b, if b == [] then maxA else if a == [] then maxB else if maxB > maxA then maxB else maxA)
  {
    assert forall v :: v in a + b <==> v in a || v in b;
  }

  lemma SameLayout(p: Params, q: Params)
    requires p.SubBuckets() == q.SubBuckets()
    ensures p.halfMag == q.halfMag
  {
    if p.halfMag < q.halfMag {
      Pow2Monotone(p.halfMag + 2, q.halfMag + 1);
    } else if q.halfMag < p.halfMag {
      Pow2Monotone(q.halfMag + 2, p.halfMag + 1);
    }
  }

  /** Indexing depends on the unit and the sub-bucket count only. */
  lemma SameLayoutSameCounts(p: Params, q: Params, s: seq<nat>, i: int)
    requires p.unit == q.unit && p.halfMag == q.halfMag
    ensures Count(s, AtIndex(p, i)) == Count(s, AtIndex(q, i))
  {
    CountMonotone(s, AtIndex(p, i), AtIndex(q, i));
    CountMonotone(s, AtIndex(q, i), AtIndex(p, i));
  }

  lemma MergedCounts(p: Params, q: Params, a: seq<nat>, b: seq<nat>)
    requires p.unit == q.unit && p.halfMag == q.halfMag
    ensures forall i: nat :: Count(a + b, AtIndex(p, i)) == Count(a, AtIndex(p, i)) + Count(b, AtIndex(q, i))
  {
    forall i: nat ensures Count(a + b, AtIndex(p, i)) == Count(a, AtIndex(p, i)) + Count(b, AtIndex(q, i)) {
      CountConcat(a, b, AtIndex(p, i));
      SameLayoutSameCounts(p, q, b, i);
    }
  }

  lemma SameBuckets(p: Params, q: Params)
    requires p.halfMag == q.halfMag && p.Counters() == q.Counters()
    ensures p.buckets == q.buckets
  {
    var d := p.buckets - q.buckets;
    assert p.Half() * d == 0 by { assert p.Counters() - q.Counters() == p.Half() * d; }
    SmallMultiple(p.Half(), d);
  }

  lemma NothingBelowZero(p: Params, s: seq<nat>)
    ensures Count(s, BelowIndex(p, 0)) == 0
  {
    forall i | 0 <= i < |s| ensures !BelowIndex(p, 0)(s[i]) {
      ValueOfIndex(p, s[i]);
    }
    CountNone(s, BelowIndex(p, 0));
  }

  lemma {:induction false} BelowNext(p: Params, s: seq<nat>, i: int)
    ensures Count(s, BelowIndex(p, i + 1)) == Count(s, BelowIndex(p, i)) + Count(s, AtIndex(p, i))
    decreases |s|
  {
    if s != [] { BelowNext(p, s[..|s| - 1], i); }
  }

  lemma AllBelowEnd(p: Params, s: seq<nat>)
    requires p.Valid() && forall v | v in s :: v < Pow2(p.unit + p.halfMag + p.buckets)
    ensures Count(s, BelowIndex(p, p.Counters())) == |s|
  {
    forall i | 0 <= i < |s| ensures BelowIndex(p, p.Counters())(s[i]) {
      assert s[i] in s;
      IndexInBounds(p, s[i]);
    }
    CountAll(s, BelowIndex(p, p.Counters()));
  }

  /** The counter at which the running count reaches the rank is the counter of the sample at that rank. */
  lemma RankHasIndex(p: Params, s: seq<nat>, rank: nat, i: nat)
    requires 1 <= rank <= |s| && |Sorted(s)| == |s|
    requires Count(s, BelowIndex(p, i)) < rank <= Count(s, BelowIndex(p, i + 1))
    ensures p.HighestEquivalent(p.ValueFromIndex(i)) == p.HighestEquivalent(Sorted(s)[rank - 1])
  {
    RankBounds(s, rank);
    var v := Sorted(s)[rank - 1];
    forall k | 0 <= k < |s|
      ensures s[k] <= v ==> p.CountsIndex(s[k]) <= p.CountsIndex(v)
      ensures s[k] >= v ==> p.CountsIndex(s[k]) >= p.CountsIndex(v)
    {
      if s[k] <= v { IndexMonotone(p, s[k], v); }
      if s[k] >= v { IndexMonotone(p, v, s[k]); }
    }
    if p.CountsIndex(v) < i { CountMonotone(s, AtMost(v), BelowIndex(p, i)); }
    if p.CountsIndex(v) > i { CountMonotone(s, BelowIndex(p, i + 1), LessThan(v)); }
    TopOfCounter(p, v);
  }

  lemma TopOfCounter(p: Params, v: nat)
    ensures p.CountsIndex(v) >= 0
    ensures p.HighestEquivalent(p.ValueFromIndex(p.CountsIndex(v))) == p.HighestEquivalent(v)
  {
    ValueOfIndex(p, v);
    var w := p.LowestEquivalent(v);
    WithinRange(p, v);
    RangesPartition(p, v, w);
    SameCounterSameRange(p, v, w);
  }
}
