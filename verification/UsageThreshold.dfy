/**
 `usage_at_least_permille`: the 128-bit form is exact, the 64-bit fallback is not, and here is where they part.
 */
module UsageThreshold {
  import opened Common
  import opened Bits
  import opened Features

  const U128: nat := 0x1_0000_0000_0000_0000_0000_0000_0000_0000

  /** The form used where the compiler has a 128-bit type. */
  predicate Wide(usage: nat, quota: nat, permille: nat) {
    quota != 0 && (usage * 1000) % U128 >= (quota * permille) % U128
  }

  /** The fallback, every intermediate a 64-bit word. */
  predicate Split(usage: nat, quota: nat, permille: nat) {
    quota != 0 &&
    var whole := ((quota / 1000) * permille) % U64;
    var remainder := (((quota % 1000) * permille) % U64) / 1000;
    usage >= (whole + remainder) % U64
  }

  lemma ProductFits(quota: nat, permille: nat)
    requires quota < U64 && permille < U32
    ensures quota * permille < U128
  {
    ProductBelow(quota, permille, U64, U32);
  }

  /** Nothing wraps in the wide form: it compares the exact products. */
  lemma WideIsProducts(usage: nat, quota: nat, permille: nat)
    requires usage < U64 && quota < U64 && permille < U32
    ensures Wide(usage, quota, permille) <==> quota != 0 && usage * 1000 >= quota * permille
  {
    ProductFits(quota, permille);
    ProductFits(usage, 1000);
    SmallModulo(quota * permille, U128);
    SmallModulo(usage * 1000, U128);
  }

  lemma SmallModulo(x: nat, m: nat)
    requires x < m
    ensures x % m == x
  {
  }

  /** ... which is the comparison of the fractions usage/quota and permille/1000. */
  lemma WideIsExact(usage: nat, quota: nat, permille: nat)
    requires 0 < quota < U64 && usage < U64 && permille < U32
    ensures Wide(usage, quota, permille)
       <==> (usage as real) / (quota as real) >= (permille as real) / 1000.0
  {
    WideIsProducts(usage, quota, permille);
    var u, q, p := usage as real, quota as real, permille as real;
    assert (usage * 1000) as real == u * 1000.0;
    assert (quota * permille) as real == q * p;
    FractionOrder(u, q, p);
  }

  lemma FractionOrder(u: real, q: real, p: real)
    requires q > 0.0
    ensures u / q >= p / 1000.0 <==> u * 1000.0 >= q * p
  {
    var x, y := u / q, p / 1000.0;
    assert u == x * q && p == y * 1000.0;
    assert u * 1000.0 - q * p == (q * 1000.0) * (x - y);
    if x >= y {
      assert (q * 1000.0) * (x - y) >= 0.0;
    } else {
      assert (q * 1000.0) * (y - x) > 0.0;
    }
  }

  /** Without the wrap-around the split sum is the rounded-down product. */
  lemma SplitSum(quota: nat, permille: nat)
    ensures (quota / 1000) * permille + ((quota % 1000) * permille) / 1000 == quota * permille / 1000
  {
    var h, l := quota / 1000, quota % 1000;
    var r := (l * permille) % 1000;
    assert quota * permille == 1000 * (h * permille) + l * permille by {
      assert quota == 1000 * h + l;
      assert (1000 * h + l) * permille == 1000 * (h * permille) + l * permille;
    }
    assert quota * permille == 1000 * (h * permille + (l * permille) / 1000) + r;
    ModuloUnique(quota * permille, 1000, h * permille + (l * permille) / 1000, r);
  }

  lemma WrappedSum(a: nat, small: nat, boundary: nat)
    requires small < U64 && a + small / 1000 == boundary
    ensures (a % U64 + (small % U64) / 1000) % U64 == boundary % U64
  {
    SmallModulo(small, U64);
    ModuloAdd(a, small / 1000, U64);
  }

  lemma SmallTermFits(quota: nat, permille: nat)
    requires permille < U32
    ensures (quota % 1000) * permille < U64
  {
    ProductBelow(quota % 1000, permille, 1000, U32);
  }

  /** What the fallback compares with: the rounded-down product, wrapped to 64 bits. */
  lemma SplitIsFloor(usage: nat, quota: nat, permille: nat)
    requires usage < U64 && quota < U64 && permille < U32
    ensures Split(usage, quota, permille) <==> quota != 0 && usage >= (quota * permille / 1000) % U64
  {
    SmallTermFits(quota, permille);
    SplitSum(quota, permille);
    WrappedSum((quota / 1000) * permille, (quota % 1000) * permille, quota * permille / 1000);
  }

  /** Exactly where the two forms disagree, over all 64-bit usages and quotas: at the rounded-down boundary
      when the boundary is not whole, and, once the boundary itself no longer fits, from its wrapped value on. */
  lemma WhereTheFallbackDiffers(usage: nat, quota: nat, permille: nat)
    requires usage < U64 && quota < U64 && permille < U32
    ensures (Split(usage, quota, permille) != Wide(usage, quota, permille))
       <==> quota != 0 &&
            var boundary := quota * permille / 1000;
            if boundary < U64 then usage == boundary && (quota * permille) % 1000 != 0
            else usage >= boundary % U64
  {
    WideIsProducts(usage, quota, permille);
    SplitIsFloor(usage, quota, permille);
    RoundedComparison(usage, quota * permille);
  }

  /** Comparing with the rounded-down boundary instead of the exact product. */
  lemma RoundedComparison(usage: nat, product: nat)
    requires usage < U64
    ensures var boundary := product / 1000;
            ((usage >= boundary % U64) != (usage * 1000 >= product))
            <==> if boundary < U64 then usage == boundary && product % 1000 != 0 else usage >= boundary % U64
  {
    assert product == 1000 * (product / 1000) + product % 1000;
  }

  // ---------------------------------------------------------------- in the feature word

  /** Crossing a threshold sets every smaller threshold's bit as well. */
  lemma ThresholdBitsAreNested(f: nat, t: Tables, c: Context, i: nat, j: nat)
    requires t.Valid() && IsFeatureWord(f, t, c) && i < |t.thresholds| && j < |t.thresholds|
    requires t.thresholds[j] <= t.thresholds[i] && TestBit(f, THRESHOLD_BASE + i)
    ensures TestBit(f, THRESHOLD_BASE + j)
  {
    assert AtomAt(t, THRESHOLD_BASE + i) == Some(UsageAtLeast(t.thresholds[i]));
    assert AtomAt(t, THRESHOLD_BASE + j) == Some(UsageAtLeast(t.thresholds[j]));
    ProductMonotone(c.Quota(), t.thresholds[j], t.thresholds[i]);
  }

  /** An exhausted quota has crossed every threshold up to 1000 per mille. */
  lemma ExhaustedCrossesThresholds(f: nat, t: Tables, c: Context, j: nat)
    requires t.Valid() && IsFeatureWord(f, t, c) && j < |t.thresholds| && t.thresholds[j] <= 1000
    requires TestBit(f, FlagBit(QuotaExhausted))
    ensures TestBit(f, THRESHOLD_BASE + j)
  {
    assert AtomAt(t, FlagBit(QuotaExhausted)) == Some(FlagSet(QuotaExhausted));
    assert AtomAt(t, THRESHOLD_BASE + j) == Some(UsageAtLeast(t.thresholds[j]));
    ProductMonotone(c.Quota(), t.thresholds[j], 1000);
    ProductMonotone(1000, c.Quota(), c.Usage());
  }
}
