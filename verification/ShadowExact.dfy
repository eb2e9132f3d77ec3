/** On every compiled table the shadow lint warns of exactly the rows that another rule's earlier row makes useless. */
module ShadowExact {
  import opened Common
  import opened Bits
  import opened Features
  import opened Rules
  import opened RuleCompiler
  import opened RuleOrder
  import opened PolicySemantics
  import opened ShadowLint

  // ---------------------------------------------------------------- compiled rows are well formed

  /** No bit is required set that is not looked at. */
  predicate Sound(r: Row) { And(r.value, r.mask) == r.value }

  ghost predicate AllSound(ms: seq<Row>) { forall i | 0 <= i < |ms| :: Sound(ms[i]) }

  lemma SoundByBits(r: Row)
    requires forall k: nat | TestBit(r.value, k) :: TestBit(r.mask, k)
    ensures Sound(r)
  {
    forall k: nat ensures TestBit(And(r.value, r.mask), k) <==> TestBit(r.value, k) { TestBitAnd(r.value, r.mask, k); }
    EqualByBits(And(r.value, r.mask), r.value);
  }

  lemma SoundBit(r: Row, k: nat)
    requires Sound(r) && TestBit(r.value, k)
    ensures TestBit(r.mask, k)
  {
    TestBitAnd(r.value, r.mask, k);
  }

  lemma SetSound(r: Row, b: nat, want: bool)
    requires Sound(r)
    ensures Sound(Row(SetBit(r.mask, b), if want then SetBit(r.value, b) else r.value))
  {
    var s := Row(SetBit(r.mask, b), if want then SetBit(r.value, b) else r.value);
    forall k: nat | TestBit(s.value, k) ensures TestBit(s.mask, k) {
      TestBitOr(r.mask, Pow2(b), k);
      TestBitOr(r.value, Pow2(b), k);
      if TestBit(r.value, k) { SoundBit(r, k); }
    }
    SoundByBits(s);
  }

  lemma {:induction false} ForbidSound(r: Row, bits: seq<nat>)
    requires Sound(r)
    ensures Sound(Row(SetBits(r.mask, bits), r.value))
  {
    if bits != [] {
      var front := Row(SetBits(r.mask, bits[..|bits| - 1]), r.value);
      ForbidSound(r, bits[..|bits| - 1]);
      SetSound(front, bits[|bits| - 1], false);
    }
  }

  lemma AddBitSound(ms: seq<Row>, b: nat, want: bool)
    requires AllSound(ms)
    ensures AllSound(AddBit(ms, b, want))
  {
    forall i | 0 <= i < |ms| ensures Sound(AddBit(ms, b, want)[i]) { SetSound(ms[i], b, want); }
  }

  lemma AddNoneOfSound(ms: seq<Row>, bits: seq<nat>)
    requires AllSound(ms)
    ensures AllSound(AddNoneOf(ms, bits))
  {
    forall i | 0 <= i < |ms| ensures Sound(AddNoneOf(ms, bits)[i]) { ForbidSound(ms[i], bits); }
  }

  lemma {:induction false} ExpandSound(ms: seq<Row>, bits: seq<nat>)
    requires AllSound(ms)
    ensures AllSound(Expand(ms, bits))
  {
    if ms != [] {
      var front, last := ms[..|ms| - 1], ms[|ms| - 1];
      ExpandSound(front, bits);
      forall j | 0 <= j < |bits| ensures Sound(Alternatives(last, bits)[j]) { SetSound(last, bits[j], true); }
    }
  }

  lemma ConditionSound(n: Names, p: Progress, cond: Condition)
    requires n.Valid() && AllSound(p.rows) && CompileCondition(n, p, cond).Some?
    ensures AllSound(CompileCondition(n, p, cond).value.rows)
  {
    match cond
    case FlagIs(f, want) => AddBitSound(p.rows, FlagBit(f), want);
    case StatusIn(ss) => ExpandSound(p.rows, BitsOf(p.tables, StatusAtoms(ss)));
    case RatIn(rs) => ExpandSound(p.rows, BitsOf(p.tables, RatAtoms(rs)));
    case RatNotIn(rs) => AddNoneOfSound(p.rows, BitsOf(p.tables, RatAtoms(rs)));
    case DnnIn(ds) => ExpandSound(p.rows, BitsOf(p.tables, DnnAtoms(n, ds).value));
    case DnnNotIn(ds) => AddNoneOfSound(p.rows, BitsOf(p.tables, DnnAtoms(n, ds).value));
    case UsageAbove(m) => AddBitSound(p.rows, BitOf(InternThreshold(p.tables, m).value, UsageAtLeast(m)).value, true);
    case UsageBelow(m) => AddBitSound(p.rows, BitOf(InternThreshold(p.tables, m).value, UsageAtLeast(m)).value, false);
    case TimeBetween(w) => AddBitSound(p.rows, BitOf(InternWindow(p.tables, w).value, InWindow(w)).value, true);
    case TimeNotBetween(w) => AddBitSound(p.rows, BitOf(InternWindow(p.tables, w).value, InWindow(w)).value, false);
  }

  lemma {:induction false} WhenSound(n: Names, t: Tables, conds: seq<Condition>)
    requires n.Valid() && CompileWhen(n, t, conds).Some?
    ensures AllSound(CompileWhen(n, t, conds).value.rows)
    decreases |conds|
  {
    if conds == [] {
      SoundByBits(Row(0, 0));
    } else {
      WhenSound(n, t, conds[..|conds| - 1]);
      ConditionSound(n, CompileWhen(n, t, conds[..|conds| - 1]).value, conds[|conds| - 1]);
    }
  }

  lemma {:induction false} BelowByBits(x: nat, n: nat)
    requires forall k: nat | TestBit(x, k) :: k < n
    ensures x < Pow2(n)
    decreases n, x
  {
    if x > 0 {
      var k := SomeBitSet(x);
      forall j: nat | TestBit(x / 2, j) ensures j < n - 1 { assert TestBit(x, j + 1); }
      BelowByBits(x / 2, n - 1);
    }
  }

  /** A row as the compiler emits it. */
  predicate Emitted(r: CompiledRule) { WellFormed(r) && r.planMask < Pow2(MAX_PLANS) }

  ghost predicate AllEmitted(rows: seq<CompiledRule>) { forall i | 0 <= i < |rows| :: Emitted(rows[i]) }

  lemma MaskBelow(n: Names, plans: seq<string>)
    requires n.Valid() && PlanMask(n, plans).Some?
    ensures PlanMask(n, plans).value < Pow2(MAX_PLANS)
  {
    var mask := PlanMask(n, plans).value;
    forall k: nat | TestBit(mask, k) ensures k < MAX_PLANS { PlanMaskMeaning(n, plans, k); }
    BelowByBits(mask, MAX_PLANS);
  }

  lemma EmitSound(r: SourceRule, mask: nat, ms: seq<Row>)
    requires r.id.Some? && r.priority.Some? && r.action.Some? && AllSound(ms) && mask < Pow2(MAX_PLANS)
    ensures AllEmitted(Emit(r, mask, ms))
  {
    var g := Emit(r, mask, ms);
    forall i | 0 <= i < |g| ensures Emitted(g[i]) { assert Sound(ms[i]); }
  }

  lemma FlattenEmitted(groups: seq<seq<CompiledRule>>, g: seq<CompiledRule>)
    requires AllEmitted(Flatten(groups)) && AllEmitted(g)
    ensures AllEmitted(Flatten(groups + [g]))
  {
    assert (groups + [g])[..|groups|] == groups;
  }

  lemma EmitsSound(n: Names, out: Output, r: SourceRule)
    requires n.Valid() && CompileRule(n, out, r).Some? && AllEmitted(Flatten(out.groups))
    ensures AllEmitted(Flatten(CompileRule(n, out, r).value.groups))
  {
    var mask, p := PlanMask(n, r.plans).value, CompileWhen(n, out.tables, r.conditions).value;
    WhenSound(n, out.tables, r.conditions);
    MaskBelow(n, r.plans);
    EmitSound(r, mask, p.rows);
    FlattenEmitted(out.groups, Emit(r, mask, p.rows));
  }

  lemma {:induction false} RowsAreEmitted(n: Names, rules: seq<SourceRule>)
    requires n.Valid() && CompileRules(n, rules).Some?
    ensures AllEmitted(Flatten(CompileRules(n, rules).value.groups))
    decreases |rules|
  {
    if rules != [] {
      RowsAreEmitted(n, rules[..|rules| - 1]);
      EmitsSound(n, CompileRules(n, rules[..|rules| - 1]).value, rules[|rules| - 1]);
    }
  }

  lemma SortedAreEmitted(rows: seq<CompiledRule>, sorted: seq<CompiledRule>)
    requires AllEmitted(rows) && sorted == StableSort(rows)
    ensures AllEmitted(sorted)
  {
    var order := Order(Priorities(rows), |rows|);
    forall i | 0 <= i < |sorted| ensures Emitted(sorted[i]) { assert Emitted(rows[order[i]]); }
  }

  // ---------------------------------------------------------------- the lint is exact

  /** An earlier row of another rule matches wherever row `i` does. */
  ghost predicate Useless(rows: seq<CompiledRule>, i: nat)
    requires i < |rows|
  {
    exists j :: 0 <= j < i && rows[j].id != rows[i].id && AlwaysMatches(rows[j], rows[i])
  }

  /** In a compiled and sorted table a row is flagged if and only if it is useless. */
  lemma FlaggedIff(n: Names, rules: seq<SourceRule>, rows: seq<CompiledRule>, i: nat)
    requires n.Valid() && CompileRules(n, rules).Some?
    requires rows == StableSort(Flatten(CompileRules(n, rules).value.groups)) && i < |rows|
    ensures Flagged(rows, i) <==> Useless(rows, i)
  {
    RowsAreEmitted(n, rules);
    SortedAreEmitted(Flatten(CompileRules(n, rules).value.groups), rows);
    assert Emitted(rows[i]);
    forall j | 0 <= j < i && rows[j].id != rows[i].id
      ensures Covers(rows[j], rows[i]) <==> AlwaysMatches(rows[j], rows[i])
    {
      CoversIff(rows[j], rows[i]);
    }
  }
}
