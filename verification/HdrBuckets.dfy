/**
 Bucket arithmetic of the HdrHistogram: which counter a value goes to, which values share a counter, and how
 far the value reported for a counter can be from the value recorded.
 */
module HdrBuckets {
  import opened Common
  import opened Bits

  /** `unit`: log2 of the resolution; `halfMag`: log2 of half a bucket's sub-bucket count. */
  datatype Params = Params(unit: nat, halfMag: nat, buckets: nat, highest: nat, figures: nat) {
    function Half(): nat { Pow2(halfMag) }
    function SubBuckets(): nat { Pow2(halfMag + 1) }
    function Mask(): nat { Shl(SubBuckets() - 1, unit) }
    function Counters(): nat { (buckets + 1) * Half() }

    predicate Valid() {
      && buckets >= 1
      && Half() >= Pow10(figures)
      && highest < Pow2(unit + halfMag + buckets)
    }

    // -------------------------------------------------------------- as computed

    function BucketIndex(v: nat): (b: nat) {
      MaskLength(this);
      BitLengthOr(v, Mask());
      BitLength(Or(v, Mask())) - unit - (halfMag + 1)
    }

    function SubIndex(v: nat, b: nat): nat { Shr(v, b + unit) }

    function CountsIndex(v: nat): int {
      var b := BucketIndex(v);
      Shl(b + 1, halfMag) + (SubIndex(v, b) - Half())
    }

    function ValueFromIndex(i: nat): nat {
      var bucket := Shr(i, halfMag) - 1;
      var sub := And(i, Half() - 1) + Half();
      if bucket < 0 then Shl(sub - Half(), unit) else Shl(sub, bucket + unit)
    }

    function LowestEquivalent(v: nat): nat {
      var b := BucketIndex(v);
      Shl(SubIndex(v, b), b + unit)
    }

    function RangeSize(v: nat): nat {
      var b := BucketIndex(v);
      if SubIndex(v, b) >= SubBuckets() then Pow2(unit + b + 1) else Pow2(unit + b)
    }

    function HighestEquivalent(v: nat): int { LowestEquivalent(v) + RangeSize(v) - 1 }
  }

  // ---------------------------------------------------------------- which bucket

  lemma MaskLength(p: Params)
    ensures BitLength(p.Mask()) == p.unit + p.halfMag + 1
  {
    var n := p.unit + p.halfMag + 1;
    ShlAdd(p.SubBuckets() - 1, 1, p.unit);
    ShlOne(p.unit);
    ShlPow2(p.halfMag + 1, p.unit);
    assert p.Mask() == Pow2(n) - Pow2(p.unit);
    Pow2Monotone(p.unit, n - 1);
    BitLengthUnique(p.Mask(), n);
  }

  /** Bucket 0 holds everything below 2^(unit+halfMag+1); bucket b >= 1 holds one power of two. */
  lemma BucketRange(p: Params, v: nat)
    ensures var b := p.BucketIndex(v);
            && v < Pow2(p.unit + p.halfMag + 1 + b)
            && (b >= 1 ==> Pow2(p.unit + p.halfMag + b) <= v)
  {
    MaskLength(p);
    BitLengthOr(v, p.Mask());
    if v >= 1 { BitLengthBounds(v); }
    var b, n := p.BucketIndex(v), p.unit + p.halfMag + 1;
    if b == 0 && v >= 1 { Pow2Monotone(BitLength(v), n); }
  }

  lemma BucketFromRange(p: Params, w: nat, b: nat)
    requires w < Pow2(p.unit + p.halfMag + 1 + b)
    requires b >= 1 ==> Pow2(p.unit + p.halfMag + b) <= w
    ensures p.BucketIndex(w) == b
  {
    BucketRange(p, w);
    var c := p.BucketIndex(w);
    if c > b { Pow2Monotone(p.unit + p.halfMag + 1 + b, p.unit + p.halfMag + c); }
    if c < b { Pow2Monotone(p.unit + p.halfMag + 1 + c, p.unit + p.halfMag + b); }
  }

  lemma ShiftedBelow(v: nat, k: nat, m: nat)
    requires v < Pow2(m + k)
    ensures Shr(v, k) < Pow2(m)
  {
    ShrBounds(v, k);
    ShlPow2(m, k);
    if Shr(v, k) >= Pow2(m) { ShlMonotone(Pow2(m), Shr(v, k), k); }
  }

  lemma ShiftedAbove(v: nat, k: nat, m: nat)
    requires v >= Pow2(m + k)
    ensures Shr(v, k) >= Pow2(m)
  {
    ShrBounds(v, k);
    ShlPow2(m, k);
    if Shr(v, k) < Pow2(m) { ShlMonotone(Shr(v, k) + 1, Pow2(m), k); }
  }

  /** Sub-bucket numbers: below twice the half count, and at least the half count outside bucket 0. */
  lemma SubRange(p: Params, v: nat)
    ensures var b := p.BucketIndex(v);
            && p.SubIndex(v, b) < 2 * p.Half()
            && (b >= 1 ==> p.SubIndex(v, b) >= p.Half())
  {
    BucketRange(p, v);
    var b := p.BucketIndex(v);
    ShiftedBelow(v, b + p.unit, p.halfMag + 1);
    if b >= 1 { ShiftedAbove(v, b + p.unit, p.halfMag); }
  }

  // ---------------------------------------------------------------- index

  lemma IndexForm(p: Params, v: nat)
    ensures var b := p.BucketIndex(v); p.CountsIndex(v) == Shl(b, p.halfMag) + p.SubIndex(v, b)
  {
    ShlAdd(p.BucketIndex(v), 1, p.halfMag);
    ShlOne(p.halfMag);
  }

  /** A value has a counter exactly when it lies in the range the buckets cover. */
  lemma IndexInBounds(p: Params, v: nat)
    requires p.buckets >= 1
    ensures 0 <= p.CountsIndex(v)
    ensures p.CountsIndex(v) < p.Counters() <==> v < Pow2(p.unit + p.halfMag + p.buckets)
  {
    IndexForm(p, v);
    SubRange(p, v);
    BucketRange(p, v);
    CountersForm(p);
    var b, m := p.BucketIndex(v), p.halfMag;
    if b >= p.buckets {
      Pow2Monotone(p.unit + m + p.buckets, p.unit + m + b);
      ShlAdd(p.buckets - 1, 1, m);
      ShlOne(m);
      ShlMonotone(p.buckets, b, m);
    } else {
      Pow2Monotone(p.unit + m + b + 1, p.unit + m + p.buckets);
      ShlMonotone(b, p.buckets - 1, m);
    }
  }

  lemma CountersForm(p: Params)
    requires p.buckets >= 1
    ensures p.Counters() == Shl(p.buckets - 1, p.halfMag) + 2 * p.Half()
  {
    ShlIsProduct(p.buckets - 1, p.halfMag);
    assert (p.buckets + 1) * p.Half() == (p.buckets - 1) * p.Half() + 2 * p.Half();
  }

  /** `value_from_index` undoes the indexing, down to the lowest equivalent value. */
  lemma ValueOfIndex(p: Params, v: nat)
    ensures p.CountsIndex(v) >= 0 && p.ValueFromIndex(p.CountsIndex(v)) == p.LowestEquivalent(v)
  {
    IndexForm(p, v);
    SubRange(p, v);
    var b, i, m := p.BucketIndex(v), p.CountsIndex(v), p.halfMag;
    var s := p.SubIndex(v, b);
    var row := if b == 0 && s < p.Half() then 0 else b + 1;
    ShlAdd(b, 1, m);
    ShlAdd(row, 1, m);
    ShlOne(m);
    ShlZero(m);
    ShrUnique(i, m, row);
    AndLowOnes(i, m);
  }

  lemma {:induction false} ShlZero(k: nat)
    ensures Shl(0, k) == 0
  {
    if k > 0 { ShlZero(k - 1); }
  }

  // ---------------------------------------------------------------- equivalence ranges

  lemma RangeForm(p: Params, v: nat)
    ensures var b := p.BucketIndex(v);
            && p.RangeSize(v) == Pow2(b + p.unit)
            && p.HighestEquivalent(v) + 1 == Shl(p.SubIndex(v, b) + 1, b + p.unit)
  {
    SubRange(p, v);
    var b := p.BucketIndex(v);
    ShlAdd(p.SubIndex(v, b), 1, b + p.unit);
    ShlOne(b + p.unit);
  }

  /** A value lies in its own equivalence range. */
  lemma WithinRange(p: Params, v: nat)
    ensures p.LowestEquivalent(v) <= v <= p.HighestEquivalent(v)
  {
    RangeForm(p, v);
    ShrBounds(v, p.BucketIndex(v) + p.unit);
  }

  lemma BucketMonotone(p: Params, v: nat, w: nat)
    requires v <= w
    ensures p.BucketIndex(v) <= p.BucketIndex(w)
  {
    MaskLength(p);
    BitLengthOr(v, p.Mask());
    BitLengthOr(w, p.Mask());
    BitLengthMonotone(v, w);
  }

  lemma LaterBucketLaterCounter(p: Params, v: nat, w: nat)
    requires p.BucketIndex(v) < p.BucketIndex(w)
    ensures p.CountsIndex(v) < p.CountsIndex(w)
  {
    IndexForm(p, v);
    IndexForm(p, w);
    SubRange(p, v);
    SubRange(p, w);
    var b := p.BucketIndex(v);
    ShlMonotone(b + 1, p.BucketIndex(w), p.halfMag);
    ShlAdd(b, 1, p.halfMag);
    ShlOne(p.halfMag);
  }

  /** Larger values never go to a smaller counter. */
  lemma IndexMonotone(p: Params, v: nat, w: nat)
    requires v <= w
    ensures p.CountsIndex(v) <= p.CountsIndex(w)
  {
    BucketMonotone(p, v, w);
    if p.BucketIndex(v) < p.BucketIndex(w) {
      LaterBucketLaterCounter(p, v, w);
    } else {
      IndexForm(p, v);
      IndexForm(p, w);
      ShrMonotone(v, w, p.BucketIndex(v) + p.unit);
    }
  }

  /** The equivalence ranges partition the values: `w` is in `v`'s range exactly when they share a counter. */
  lemma RangesPartition(p: Params, v: nat, w: nat)
    ensures p.LowestEquivalent(v) <= w <= p.HighestEquivalent(v) <==> p.CountsIndex(w) == p.CountsIndex(v)
  {
    WithinRange(p, v);
    WithinRange(p, w);
    if p.CountsIndex(w) == p.CountsIndex(v) {
      SameCounterSameRange(p, v, w);
    }
    if p.LowestEquivalent(v) <= w <= p.HighestEquivalent(v) {
      SameRangeSameCounter(p, v, w);
    }
  }

  lemma SameCounterSameRange(p: Params, v: nat, w: nat)
    requires p.CountsIndex(w) == p.CountsIndex(v)
    ensures p.LowestEquivalent(v) == p.LowestEquivalent(w) && p.HighestEquivalent(v) == p.HighestEquivalent(w)
  {
    if p.BucketIndex(v) < p.BucketIndex(w) {
      LaterBucketLaterCounter(p, v, w);
    } else if p.BucketIndex(w) < p.BucketIndex(v) {
      LaterBucketLaterCounter(p, w, v);
    }
    IndexForm(p, v);
    IndexForm(p, w);
  }

  /** Values of one sub-bucket `s` of bucket `b` lie between the bucket's bounds. */
  lemma SubBucketBounds(p: Params, w: nat, b: nat, s: nat)
    requires Shl(s, b + p.unit) <= w < Shl(s + 1, b + p.unit) && s < 2 * p.Half() && (b >= 1 ==> s >= p.Half())
    ensures w < Pow2(p.halfMag + 1 + (b + p.unit)) && (b >= 1 ==> Pow2(p.halfMag + (b + p.unit)) <= w)
  {
    var k := b + p.unit;
    ShlPow2(p.halfMag + 1, k);
    ShlMonotone(s + 1, 2 * p.Half(), k);
    if b >= 1 {
      ShlPow2(p.halfMag, k);
      ShlMonotone(p.Half(), s, k);
    }
  }

  /** A range never crosses into the next bucket. */
  lemma SameRangeSameCounter(p: Params, v: nat, w: nat)
    requires p.LowestEquivalent(v) <= w <= p.HighestEquivalent(v)
    ensures p.CountsIndex(w) == p.CountsIndex(v)
  {
    RangeForm(p, v);
    SubRange(p, v);
    var b := p.BucketIndex(v);
    var s := p.SubIndex(v, b);
    SubBucketBounds(p, w, b, s);
    ShrUnique(w, b + p.unit, s);
    BucketFromRange(p, w, b);
    assert p.BucketIndex(w) == b && p.SubIndex(w, b) == s;
  }

  // ---------------------------------------------------------------- error bound

  /** Outside bucket 0 the reported value is within one part in 10^figures of the recorded one; inside it, the
      error is below the resolution. */
  lemma RelativeError(p: Params, v: nat)
    requires p.Valid()
    ensures p.HighestEquivalent(v) >= v
    ensures v >= Pow2(p.unit + p.halfMag + 1) ==> Pow10(p.figures) * (p.HighestEquivalent(v) - v) <= v
    ensures v < Pow2(p.unit + p.halfMag + 1) ==> p.HighestEquivalent(v) - v < Pow2(p.unit)
  {
    WithinRange(p, v);
    ErrorBelowRange(p, v);
    BucketRange(p, v);
    if v < Pow2(p.unit + p.halfMag + 1) {
      BucketFromRange(p, v, 0);
    } else {
      var size := Pow2(p.BucketIndex(v) + p.unit);
      LaterBucketFloor(p, v);
      ProductBound(Pow10(p.figures), p.HighestEquivalent(v) - v, p.Half(), size);
    }
  }

  /** The error is below the size of the range. */
  lemma ErrorBelowRange(p: Params, v: nat)
    ensures p.HighestEquivalent(v) - v < Pow2(p.BucketIndex(v) + p.unit)
  {
    WithinRange(p, v);
    RangeForm(p, v);
  }

  lemma LaterBucketFloor(p: Params, v: nat)
    requires v >= Pow2(p.unit + p.halfMag + 1)
    ensures p.Half() * Pow2(p.BucketIndex(v) + p.unit) <= v
  {
    BucketRange(p, v);
    Pow2Add(p.halfMag, p.BucketIndex(v) + p.unit);
  }

  lemma ProductBound(a: nat, b: nat, c: nat, d: nat)
    requires a <= c && b <= d
    ensures a * b <= c * d
  {
    assert a * b <= c * b;
    assert c * b <= c * d;
  }

  /** With a resolution of 1 the relative bound holds for every value. */
  lemma RelativeErrorAtUnitResolution(p: Params, v: nat)
    requires p.Valid() && p.unit == 0
    ensures 0 <= Pow10(p.figures) * (p.HighestEquivalent(v) - v) <= v
  {
    RelativeError(p, v);
    ProductBound(0, 0, Pow10(p.figures), p.HighestEquivalent(v) - v);
    if v < Pow2(p.halfMag + 1) { assert p.HighestEquivalent(v) - v == 0; }
  }
}
