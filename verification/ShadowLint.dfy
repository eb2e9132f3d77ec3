/** The shadow lint: rows it flags can be deleted, all at once, without changing any decision. */
module ShadowLint {
  import opened Common
  import opened Bits
  import opened Features
  import opened Rules
  import opened RuleCompiler
  import opened RuleOrder
  import opened PolicySemantics

  /** The lint's test that row `a` always matches when row `b` does. */
  predicate Covers(a: CompiledRule, b: CompiledRule) {
    && a.id != b.id
    && And(b.mask, a.mask) == a.mask
    && And(b.value, a.mask) == a.value
    && !(a.planMask != 0 && (b.planMask == 0 || AndNot(b.planMask, a.planMask) != 0))
  }

  predicate Flagged(rows: seq<CompiledRule>, i: nat)
    requires i < |rows|
  {
    exists j :: 0 <= j < i && Covers(rows[j], rows[i])
  }

  /** `j` is the earliest row that shadows row `i`, or `i` itself when none does. */
  predicate EarliestCover(rows: seq<CompiledRule>, i: nat, j: nat)
    requires i < |rows|
  {
    j <= i && (j < i ==> Covers(rows[j], rows[i])) && forall m | 0 <= m < j :: !Covers(rows[m], rows[i])
  }

  /** The lint's inner loop. */
  method ShadowOf(rows: seq<CompiledRule>, i: nat) returns (j: nat)
    requires i < |rows|
    ensures EarliestCover(rows, i, j) && (j < i <==> Flagged(rows, i))
  {
    j := 0;
    while j < i && !Covers(rows[j], rows[i])
      invariant j <= i && forall m | 0 <= m < j :: !Covers(rows[m], rows[i])
    {
      j := j + 1;
    }
  }

  /** One warning per shadowed row, naming the earliest row that shadows it. */
  method FindShadowed(rows: seq<CompiledRule>) returns (warnings: seq<(nat, nat)>)
    ensures forall w | w in warnings :: w.0 < |rows| && w.1 < w.0 && EarliestCover(rows, w.0, w.1)
    ensures forall i | 0 <= i < |rows| && Flagged(rows, i) :: exists w :: w in warnings && w.0 == i
  {
    warnings := [];
    for i := 0 to |rows|
      invariant forall w | w in warnings :: w.0 < i && w.1 < w.0 && EarliestCover(rows, w.0, w.1)
      invariant forall k | 0 <= k < i && Flagged(rows, k) :: exists w :: w in warnings && w.0 == k
    {
      var j := ShadowOf(rows, i);
      if j < i {
        ghost var before := warnings;
        warnings := warnings + [(i, j)];
        assert (i, j) in warnings;
        assert forall w | w in before :: w in warnings;
      }
    }
  }

  lemma MaskCovers(f: nat, a: CompiledRule, b: CompiledRule)
    requires And(b.mask, a.mask) == a.mask && And(b.value, a.mask) == a.value && And(f, b.mask) == b.value
    ensures And(f, a.mask) == a.value
  {
    forall k: nat ensures TestBit(And(f, a.mask), k) <==> TestBit(a.value, k) {
      TestBitAnd(f, a.mask, k);
      TestBitAnd(b.mask, a.mask, k);
      TestBitAnd(b.value, a.mask, k);
      TestBitAnd(f, b.mask, k);
    }
    EqualByBits(And(f, a.mask), a.value);
  }

  lemma PlansCover(planBit: nat, a: nat, b: nat)
    requires AndNot(b, a) == 0 && And(b, planBit) != 0
    ensures And(a, planBit) != 0
  {
    var k := SomeBitSet(And(b, planBit));
    TestBitAnd(b, planBit, k);
    TestBitAndNot(b, a, k);
    TestBitZero(k);
    TestBitAnd(a, planBit, k);
  }

  /** What the test promises: whatever the feature word and plan bit, `a` matches wherever `b` does. */
  lemma CoveringRowMatches(f: nat, planBit: nat, a: CompiledRule, b: CompiledRule)
    requires Covers(a, b) && RowMatches(f, planBit, b)
    ensures RowMatches(f, planBit, a)
  {
    MaskCovers(f, a, b);
    if a.planMask != 0 { PlansCover(planBit, a.planMask, b.planMask); }
  }

  /** The row requires no bit that it does not look at. */
  predicate WellFormed(r: CompiledRule) { And(r.value, r.mask) == r.value }

  /** Wherever `b` matches, for whatever feature word and plan, `a` does. */
  ghost predicate AlwaysMatches(a: CompiledRule, b: CompiledRule) {
    forall f: nat, rec: Option<Subscriber> | RowMatches(f, PlanBit(rec), b) :: RowMatches(f, PlanBit(rec), a)
  }

  lemma MatchesAt(f: nat, rec: Option<Subscriber>, a: CompiledRule, b: CompiledRule)
    requires AlwaysMatches(a, b) && RowMatches(f, PlanBit(rec), b)
    ensures RowMatches(f, PlanBit(rec), a)
  {
  }

  function WithPlan(k: nat): Option<Subscriber> { Some(Subscriber(k, 0, 0, 0, 0, false, false)) }

  /** A plan bit the mask asks for, or any if it asks for none. */
  lemma SomePlan(mask: nat) returns (rec: Option<Subscriber>)
    requires mask < Pow2(MAX_PLANS)
    ensures mask == 0 || And(mask, PlanBit(rec)) != 0
  {
    rec := None;
    if mask != 0 {
      var k := SomeBitSet(mask);
      rec := PlanOfBit(mask, k);
    }
  }

  lemma PlanOfBit(mask: nat, k: nat) returns (rec: Option<Subscriber>)
    requires mask < Pow2(MAX_PLANS) && TestBit(mask, k)
    ensures rec == WithPlan(k) && k < MAX_PLANS && PlanBit(rec) == Pow2(k) && And(mask, PlanBit(rec)) != 0
  {
    rec := WithPlan(k);
    BitBelow(mask, k, MAX_PLANS);
    TestBitAnd(mask, Pow2(k), k);
    TestBitPow2(k, k);
    TestBitZero(k);
  }

  lemma {:induction false} BitBelow(x: nat, k: nat, n: nat)
    requires x < Pow2(n) && TestBit(x, k)
    ensures k < n
    decreases n
  {
    if n == 0 {
      TestBitZero(k);
    } else if k > 0 {
      BitBelow(x / 2, k - 1, n - 1);
    }
  }

  /** A bit that `b` does not look at can be set without `b` noticing. */
  lemma FreeBit(b: CompiledRule, k: nat)
    requires WellFormed(b) && !TestBit(b.mask, k)
    ensures And(SetBit(b.value, k), b.mask) == b.value && !TestBit(b.value, k) && TestBit(SetBit(b.value, k), k)
  {
    forall j: nat ensures TestBit(And(SetBit(b.value, k), b.mask), j) <==> TestBit(b.value, j) {
      TestBitAnd(SetBit(b.value, k), b.mask, j);
      TestBitOr(b.value, Pow2(k), j);
      TestBitPow2(k, j);
      TestBitAnd(b.value, b.mask, j);
    }
    EqualByBits(And(SetBit(b.value, k), b.mask), b.value);
    TestBitOr(b.value, Pow2(k), k);
    TestBitPow2(k, k);
    TestBitAnd(b.value, b.mask, k);
  }

  /** `a` looks at no bit that `b` does not look at. */
  lemma LooksAtNoMore(a: CompiledRule, b: CompiledRule, rec: Option<Subscriber>, k: nat)
    requires WellFormed(b) && AlwaysMatches(a, b) && (b.planMask == 0 || And(b.planMask, PlanBit(rec)) != 0)
    requires TestBit(a.mask, k)
    ensures TestBit(b.mask, k)
  {
    if !TestBit(b.mask, k) {
      FreeBit(b, k);
      MatchesAt(b.value, rec, a, b);
      MatchesAt(SetBit(b.value, k), rec, a, b);
      TestBitAnd(b.value, a.mask, k);
      TestBitAnd(SetBit(b.value, k), a.mask, k);
    }
  }

  lemma MasksCover(a: CompiledRule, b: CompiledRule)
    requires WellFormed(b) && b.planMask < Pow2(MAX_PLANS) && AlwaysMatches(a, b)
    ensures And(b.mask, a.mask) == a.mask && And(b.value, a.mask) == a.value
  {
    var rec := SomePlan(b.planMask);
    MatchesAt(b.value, rec, a, b);
    forall k: nat ensures TestBit(And(b.mask, a.mask), k) <==> TestBit(a.mask, k) {
      TestBitAnd(b.mask, a.mask, k);
      if TestBit(a.mask, k) { LooksAtNoMore(a, b, rec, k); }
    }
    EqualByBits(And(b.mask, a.mask), a.mask);
  }

  /** `a` is for no fewer plans than `b`. */
  lemma PlansOf(a: CompiledRule, b: CompiledRule)
    requires WellFormed(b) && b.planMask < Pow2(MAX_PLANS) && AlwaysMatches(a, b) && a.planMask != 0
    ensures b.planMask != 0 && AndNot(b.planMask, a.planMask) == 0
  {
    if b.planMask == 0 {
      MatchesAt(b.value, None, a, b);
      AndZero(a.planMask);
    } else if AndNot(b.planMask, a.planMask) != 0 {
      var k := SomeBitSet(AndNot(b.planMask, a.planMask));
      TestBitAndNot(b.planMask, a.planMask, k);
      var rec := PlanOfBit(b.planMask, k);
      MatchesAt(b.value, rec, a, b);
      var j := SomeBitSet(And(a.planMask, Pow2(k)));
      TestBitAnd(a.planMask, Pow2(k), j);
      TestBitPow2(k, j);
    }
  }

  lemma AndZero(x: nat)
    ensures And(x, 0) == 0
  {
    forall k: nat ensures TestBit(And(x, 0), k) <==> TestBit(0, k) {
      TestBitAnd(x, 0, k);
      TestBitZero(k);
    }
    EqualByBits(And(x, 0), 0);
  }

  /** The lint's test is exact: it holds of two rules' rows if and only if one always matches where the other does. */
  lemma CoversIff(a: CompiledRule, b: CompiledRule)
    requires a.id != b.id && WellFormed(b) && b.planMask < Pow2(MAX_PLANS)
    ensures Covers(a, b) <==> AlwaysMatches(a, b)
  {
    if Covers(a, b) {
      forall f: nat, rec: Option<Subscriber> | RowMatches(f, PlanBit(rec), b) ensures RowMatches(f, PlanBit(rec), a) {
        CoveringRowMatches(f, PlanBit(rec), a, b);
      }
    }
    if AlwaysMatches(a, b) {
      MasksCover(a, b);
      if a.planMask != 0 { PlansOf(a, b); }
    }
  }

  /** A flagged row never fires. */
  lemma FlaggedNeverFires(rows: seq<CompiledRule>, f: nat, planBit: nat)
    ensures var hit := FirstHit(rows, f, planBit); hit.Some? ==> !Flagged(rows, hit.value)
  {
    var hit := FirstHit(rows, f, planBit);
    if hit.Some? && Flagged(rows, hit.value) {
      var j :| 0 <= j < hit.value && Covers(rows[j], rows[hit.value]);
      CoveringRowMatches(f, planBit, rows[j], rows[hit.value]);
    }
  }

  /** The rows with every flagged one deleted; flags refer to the original table. */
  function Kept(rows: seq<CompiledRule>, n: nat): seq<CompiledRule>
    requires n <= |rows|
  {
    if n == 0 then [] else Kept(rows, n - 1) + if Flagged(rows, n - 1) then [] else [rows[n - 1]]
  }

  function HitRow(rows: seq<CompiledRule>, f: nat, planBit: nat): Option<CompiledRule> {
    var hit := FirstHit(rows, f, planBit);
    if hit.Some? then Some(rows[hit.value]) else None
  }

  lemma HitRowAppend(rows: seq<CompiledRule>, row: CompiledRule, f: nat, planBit: nat)
    ensures HitRow(rows + [row], f, planBit)
         == if HitRow(rows, f, planBit).Some? then HitRow(rows, f, planBit)
            else if RowMatches(f, planBit, row) then Some(row) else None
  {
    assert (rows + [row])[..|rows|] == rows;
  }

  lemma EarlierRowMatches(rows: seq<CompiledRule>, n: nat, f: nat, planBit: nat)
    requires n < |rows| && Flagged(rows, n)
    ensures RowMatches(f, planBit, rows[n]) ==> HitRow(rows[..n], f, planBit).Some?
  {
    var j :| 0 <= j < n && Covers(rows[j], rows[n]);
    if RowMatches(f, planBit, rows[n]) {
      CoveringRowMatches(f, planBit, rows[j], rows[n]);
      assert RowMatches(f, planBit, rows[..n][j]);
    }
  }

  lemma {:induction false} KeptPrefixAgrees(rows: seq<CompiledRule>, n: nat, f: nat, planBit: nat)
    requires n <= |rows|
    ensures HitRow(Kept(rows, n), f, planBit) == HitRow(rows[..n], f, planBit)
  {
    if n > 0 {
      var prefix, row := rows[..n - 1], rows[n - 1];
      KeptPrefixAgrees(rows, n - 1, f, planBit);
      assert rows[..n] == prefix + [row];
      HitRowAppend(prefix, row, f, planBit);
      if Flagged(rows, n - 1) {
        assert Kept(rows, n) == Kept(rows, n - 1);
        EarlierRowMatches(rows, n - 1, f, planBit);
      } else {
        HitRowAppend(Kept(rows, n - 1), row, f, planBit);
      }
    }
  }

  /** Deleting all flagged rows at once leaves the first match unchanged on every word and plan, also when
      the row that covers a flagged one is flagged itself. */
  lemma DeletingFlaggedRowsChangesNothing(rows: seq<CompiledRule>, f: nat, planBit: nat)
    ensures HitRow(Kept(rows, |rows|), f, planBit) == HitRow(rows, f, planBit)
  {
    KeptPrefixAgrees(rows, |rows|, f, planBit);
    assert rows[..|rows|] == rows;
  }

  /** Every row of the rule with this id is flagged. */
  predicate AllFlagged(rows: seq<CompiledRule>, id: nat) {
    forall k | 0 <= k < |rows| && rows[k].id == id :: Flagged(rows, k)
  }

  /** A rule all of whose rows are flagged is never hit. */
  lemma ShadowedIdNeverHit(rows: seq<CompiledRule>, id: nat, f: nat, planBit: nat)
    requires AllFlagged(rows, id)
    ensures HitRow(rows, f, planBit).Some? ==> HitRow(rows, f, planBit).value.id != id
  {
    FlaggedNeverFires(rows, f, planBit);
  }

  /** The row hit first is one of the deciding rule's. */
  lemma DecidingRuleIsHit(n: Names, c: Context, rules: seq<SourceRule>, f: nat, i: nat)
    requires n.Valid() && CompileRules(n, rules).Some? && Decides(n, c, rules, i)
    requires IsFeatureWord(f, CompileRules(n, rules).value.tables, c)
    ensures var hit := HitRow(StableSort(Flatten(CompileRules(n, rules).value.groups)), f, PlanBit(c.rec));
      hit.Some? && rules[i].id == Some(hit.value.id)
  {
    var rows := StableSort(Flatten(CompileRules(n, rules).value.groups));
    CompiledPolicyIsCorrect(n, c, rules, f);
    var h := FirstHit(rows, f, PlanBit(c.rec)).value;
    var k: nat :| Decides(n, c, rules, k) && rules[k].id == Some(rows[h].id);
    DecidingRuleIsUnique(n, c, rules, i, k);
  }

  /** So the source rule it was compiled from decides no request. */
  lemma ShadowedRuleNeverDecides(n: Names, c: Context, rules: seq<SourceRule>, f: nat, i: nat)
    requires n.Valid() && CompileRules(n, rules).Some? && i < |rules| && rules[i].id.Some?
    requires IsFeatureWord(f, CompileRules(n, rules).value.tables, c)
    requires AllFlagged(StableSort(Flatten(CompileRules(n, rules).value.groups)), rules[i].id.value)
    ensures !Decides(n, c, rules, i)
  {
    ShadowedIdNeverHit(StableSort(Flatten(CompileRules(n, rules).value.groups)), rules[i].id.value, f, PlanBit(c.rec));
    if Decides(n, c, rules, i) { DecidingRuleIsHit(n, c, rules, f, i); }
  }
}
