/**
 Compiler correctness: expansion, interning, stable sort and first-match scan together return the source rule
 with the least (priority, file position) whose plan scope and `when` hold for the request.
 */
module PolicySemantics {
  import opened Common
  import opened Bits
  import opened Features
  import opened Rules
  import opened RuleMeaning
  import opened RuleCompiler
  import opened RuleEncoding
  import opened RuleOrder

  // ---------------------------------------------------------------- reference

  /** The rule's scope and `when` hold for the request. */
  predicate Applies(n: Names, c: Context, r: SourceRule) {
    && InScope(n, c, r.plans)
    && ClausesOf(n, r.conditions).Some?
    && SetWins(TruthIn(c), ClausesOf(n, r.conditions).value)
  }

  /** Rule `i` decides: it applies, and every other one that does comes later. */
  predicate Decides(n: Names, c: Context, rules: seq<SourceRule>, i: nat) {
    && i < |rules| && Applies(n, c, rules[i]) && rules[i].priority.Some?
    && forall j | 0 <= j < |rules| && Applies(n, c, rules[j]) && rules[j].priority.Some? ::
         rules[i].priority.value < rules[j].priority.value
         || (rules[i].priority.value == rules[j].priority.value && i <= j)
  }

  // ---------------------------------------------------------------- the scan

  function PlanBit(rec: Option<Subscriber>): nat {
    if rec.None? || rec.value.planId >= MAX_PLANS then 0 else Pow2(rec.value.planId)
  }

  predicate RowMatches(f: nat, planBit: nat, row: CompiledRule) {
    And(f, row.mask) == row.value && (row.planMask == 0 || And(row.planMask, planBit) != 0)
  }

  function FirstHit(rows: seq<CompiledRule>, f: nat, planBit: nat): (hit: Option<nat>)
    ensures hit.Some? ==> hit.value < |rows| && RowMatches(f, planBit, rows[hit.value])
    ensures hit.Some? ==> forall i | 0 <= i < hit.value :: !RowMatches(f, planBit, rows[i])
    ensures hit.None? ==> forall i | 0 <= i < |rows| :: !RowMatches(f, planBit, rows[i])
  {
    if rows == [] then None
    else
      match FirstHit(rows[..|rows| - 1], f, planBit)
      case Some(i) => Some(i)
      case None => if RowMatches(f, planBit, rows[|rows| - 1]) then Some(|rows| - 1) else None
  }

  // ---------------------------------------------------------------- plan scope

  lemma {:induction false} PlanMaskMeaning(n: Names, plans: seq<string>, k: nat)
    requires n.Valid() && PlanMask(n, plans).Some?
    ensures TestBit(PlanMask(n, plans).value, k) <==> k < |n.plans| && n.plans[k] in plans
    decreases |plans|
  {
    if plans == [] {
      TestBitZero(k);
    } else {
      var front, last := plans[..|plans| - 1], plans[|plans| - 1];
      PlanMaskMeaning(n, front, k);
      var id := IndexOf(n.plans, last).value;
      TestBitOr(PlanMask(n, front).value, Pow2(id), k);
      TestBitPow2(id, k);
      assert plans == front + [last];
    }
  }

  lemma NonEmptyMask(n: Names, plans: seq<string>)
    requires n.Valid() && PlanMask(n, plans).Some?
    ensures PlanMask(n, plans).value == 0 <==> plans == []
  {
    if plans != [] {
      var id := IndexOf(n.plans, plans[|plans| - 1]).value;
      PlanMaskMeaning(n, plans, id);
      TestBitZero(id);
    }
  }

  /** The plan test of the scan is the rule's plan scope. */
  lemma PlanTestIsScope(n: Names, c: Context, plans: seq<string>)
    requires n.Valid() && PlanMask(n, plans).Some?
    ensures var m := PlanMask(n, plans).value;
            (m == 0 || And(m, PlanBit(c.rec)) != 0) <==> InScope(n, c, plans)
  {
    var m, pb := PlanMask(n, plans).value, PlanBit(c.rec);
    NonEmptyMask(n, plans);
    if c.rec.Some? {
      var id := c.rec.value.planId;
      PlanMaskMeaning(n, plans, id);
      if id < MAX_PLANS { AndSingle(m, id); }
    }
  }

  lemma AndSingle(m: nat, id: nat)
    ensures And(m, Pow2(id)) != 0 <==> TestBit(m, id)
  {
    TestBitAnd(m, Pow2(id), id);
    TestBitPow2(id, id);
    TestBitZero(id);
    if !TestBit(m, id) {
      forall k: nat ensures TestBit(And(m, Pow2(id)), k) <==> TestBit(0, k) {
        TestBitAnd(m, Pow2(id), k);
        TestBitPow2(id, k);
        TestBitZero(k);
      }
      EqualByBits(And(m, Pow2(id)), 0);
    }
  }

  // ---------------------------------------------------------------- groups

  lemma RowImpliesRule(n: Names, t: Tables, c: Context, f: nat, r: SourceRule, g: seq<CompiledRule>, j: nat)
    requires n.Valid() && t.Valid() && IsFeatureWord(f, t, c) && GroupEncodes(n, t, r, g) && j < |g|
    ensures RowMatches(f, PlanBit(c.rec), g[j])
       <==> InScope(n, c, r.plans)
            && var cls := ClausesOf(n, r.conditions).value;
               ChoiceHolds(TruthIn(c), Choices(cls)[j], Negatives(cls))
  {
    var cls := ClausesOf(n, r.conditions).value;
    MatchDecidesChoice(t, c, f, Row(g[j].mask, g[j].value), Choices(cls)[j], Negatives(cls));
    PlanTestIsScope(n, c, r.plans);
  }

  /** A source rule applies exactly when one of its rows matches; none is lost. */
  lemma GroupDecidesRule(n: Names, t: Tables, c: Context, f: nat, r: SourceRule, g: seq<CompiledRule>)
    requires n.Valid() && t.Valid() && IsFeatureWord(f, t, c) && GroupEncodes(n, t, r, g)
    ensures Applies(n, c, r) <==> exists j :: 0 <= j < |g| && RowMatches(f, PlanBit(c.rec), g[j])
  {
    var cls := ClausesOf(n, r.conditions).value;
    forall j | 0 <= j < |g|
      ensures RowMatches(f, PlanBit(c.rec), g[j])
         <==> InScope(n, c, r.plans) && ChoiceHolds(TruthIn(c), Choices(cls)[j], Negatives(cls))
    {
      RowImpliesRule(n, t, c, f, r, g, j);
    }
  }

  /** The source rule each flattened row comes from. */
  function Origins(groups: seq<seq<CompiledRule>>): (o: seq<nat>)
    ensures |o| == |Flatten(groups)|
    ensures forall k | 0 <= k < |o| :: o[k] < |groups|
  {
    if groups == [] then []
    else Origins(groups[..|groups| - 1]) + seq(|groups[|groups| - 1]|, k => |groups| - 1)
  }

  lemma OriginsUnfold(groups: seq<seq<CompiledRule>>, front: seq<seq<CompiledRule>>)
    requires groups != [] && front == groups[..|groups| - 1]
    ensures |Origins(front)| <= |Origins(groups)|
    ensures forall k | 0 <= k < |Origins(front)| :: Origins(groups)[k] == Origins(front)[k]
    ensures forall k | |Origins(front)| <= k < |Origins(groups)| :: Origins(groups)[k] == |groups| - 1
  {
  }

  lemma {:induction false} OriginsAreOrdered(groups: seq<seq<CompiledRule>>)
    ensures var o := Origins(groups); forall j, k | 0 <= j < k < |o| :: o[j] <= o[k]
    decreases |groups|
  {
    if groups != [] {
      var front := groups[..|groups| - 1];
      OriginsAreOrdered(front);
      OriginsUnfold(groups, front);
    }
  }

  lemma {:induction false} RowsComeFromOrigins(groups: seq<seq<CompiledRule>>, k: nat)
    requires k < |Flatten(groups)|
    ensures Flatten(groups)[k] in groups[Origins(groups)[k]]
    decreases |groups|
  {
    var front, last := groups[..|groups| - 1], groups[|groups| - 1];
    OriginsUnfold(groups, front);
    if k < |Flatten(front)| {
      RowsComeFromOrigins(front, k);
      assert front[Origins(front)[k]] == groups[Origins(groups)[k]];
    } else {
      assert Flatten(groups)[k] == last[k - |Flatten(front)|];
    }
  }

  lemma {:induction false} RowHasPosition(groups: seq<seq<CompiledRule>>, i: nat, j: nat) returns (k: nat)
    requires i < |groups| && j < |groups[i]|
    ensures k < |Flatten(groups)| && Flatten(groups)[k] == groups[i][j] && Origins(groups)[k] == i
    decreases |groups|
  {
    var n := |groups| - 1;
    if i == n {
      k := |Flatten(groups[..n])| + j;
    } else {
      k := RowHasPosition(groups[..n], i, j);
    }
  }

  // ---------------------------------------------------------------- the theorem

  /** The scanned row that hits is the least matching row by (priority, position before sorting). */
  lemma SortedHit(rows: seq<CompiledRule>, f: nat, planBit: nat) returns (at: nat)
    requires FirstHit(StableSort(rows), f, planBit).Some?
    ensures at < |rows| && rows[at] == StableSort(rows)[FirstHit(StableSort(rows), f, planBit).value]
    ensures RowMatches(f, planBit, rows[at])
    ensures forall k | 0 <= k < |rows| && RowMatches(f, planBit, rows[k]) && k != at ::
              Before(Priorities(rows), at, k)
  {
    var prios := Priorities(rows);
    var order := Order(prios, |rows|);
    OrderIsStable(prios, |rows|);
    var h := FirstHit(StableSort(rows), f, planBit).value;
    at := order[h];
    forall k | 0 <= k < |rows| && RowMatches(f, planBit, rows[k]) && k != at ensures Before(prios, at, k) {
      assert k in order;
      var m :| 0 <= m < |order| && order[m] == k;
      assert StableSort(rows)[m] == rows[k];
      assert m > h;
    }
  }

  lemma SortedMiss(rows: seq<CompiledRule>, f: nat, planBit: nat)
    requires FirstHit(StableSort(rows), f, planBit).None?
    ensures forall k | 0 <= k < |rows| :: !RowMatches(f, planBit, rows[k])
  {
    var order := Order(Priorities(rows), |rows|);
    OrderIsStable(Priorities(rows), |rows|);
    forall k | 0 <= k < |rows| ensures !RowMatches(f, planBit, rows[k]) {
      assert k in order;
      var m :| 0 <= m < |order| && order[m] == k;
      assert StableSort(rows)[m] == rows[k];
    }
  }

  lemma NothingApplies(n: Names, c: Context, rules: seq<SourceRule>, out: Output, f: nat)
    requires n.Valid() && out.tables.Valid() && GroupsEncode(n, out.tables, rules, out.groups)
    requires IsFeatureWord(f, out.tables, c)
    requires forall k | 0 <= k < |Flatten(out.groups)| :: !RowMatches(f, PlanBit(c.rec), Flatten(out.groups)[k])
    ensures forall i | 0 <= i < |rules| :: !Applies(n, c, rules[i])
  {
    forall i | 0 <= i < |rules| ensures !Applies(n, c, rules[i]) {
      GroupDecidesRule(n, out.tables, c, f, rules[i], out.groups[i]);
      if Applies(n, c, rules[i]) {
        var j :| 0 <= j < |out.groups[i]| && RowMatches(f, PlanBit(c.rec), out.groups[i][j]);
        var k := RowHasPosition(out.groups, i, j);
      }
    }
  }

  lemma LeastRowDecides(n: Names, c: Context, rules: seq<SourceRule>, out: Output, f: nat, at: nat) returns (i: nat)
    requires n.Valid() && out.tables.Valid() && GroupsEncode(n, out.tables, rules, out.groups)
    requires IsFeatureWord(f, out.tables, c)
    requires at < |Flatten(out.groups)| && RowMatches(f, PlanBit(c.rec), Flatten(out.groups)[at])
    requires var rows := Flatten(out.groups);
             forall k | 0 <= k < |rows| && RowMatches(f, PlanBit(c.rec), rows[k]) && k != at ::
               Before(Priorities(rows), at, k)
    ensures Decides(n, c, rules, i)
    ensures rules[i].id == Some(Flatten(out.groups)[at].id) && rules[i].action == Some(Flatten(out.groups)[at].action)
  {
    var rows, origins := Flatten(out.groups), Origins(out.groups);
    OriginsAreOrdered(out.groups);
    RowsComeFromOrigins(out.groups, at);
    i := origins[at];
    var m :| 0 <= m < |out.groups[i]| && out.groups[i][m] == rows[at];
    GroupDecidesRule(n, out.tables, c, f, rules[i], out.groups[i]);
    forall j | 0 <= j < |rules| && Applies(n, c, rules[j]) && rules[j].priority.Some?
      ensures rules[i].priority.value < rules[j].priority.value
              || (rules[i].priority.value == rules[j].priority.value && i <= j)
    {
      GroupDecidesRule(n, out.tables, c, f, rules[j], out.groups[j]);
      var q :| 0 <= q < |out.groups[j]| && RowMatches(f, PlanBit(c.rec), out.groups[j][q]);
      var k := RowHasPosition(out.groups, j, q);
      if k != at { assert Before(Priorities(rows), at, k); }
    }
  }

  /** Compiler correctness, for every request, record and clock. */
  lemma CompiledPolicyIsCorrect(n: Names, c: Context, rules: seq<SourceRule>, f: nat)
    requires n.Valid() && CompileRules(n, rules).Some?
    requires IsFeatureWord(f, CompileRules(n, rules).value.tables, c)
    ensures var rows := StableSort(Flatten(CompileRules(n, rules).value.groups));
            match FirstHit(rows, f, PlanBit(c.rec))
            case None => forall i | 0 <= i < |rules| :: !Applies(n, c, rules[i])
            case Some(h) =>
              exists i: nat :: Decides(n, c, rules, i)
                          && rules[i].id == Some(rows[h].id) && rules[i].action == Some(rows[h].action)
  {
    var out := CompileRules(n, rules).value;
    RulesEncode(n, rules);
    var rows := Flatten(out.groups);
    if FirstHit(StableSort(rows), f, PlanBit(c.rec)).None? {
      SortedMiss(rows, f, PlanBit(c.rec));
      NothingApplies(n, c, rules, out, f);
    } else {
      var at := SortedHit(rows, f, PlanBit(c.rec));
      var i := LeastRowDecides(n, c, rules, out, f, at);
    }
  }

  /** The reference is unambiguous: at most one rule decides a request. */
  lemma DecidingRuleIsUnique(n: Names, c: Context, rules: seq<SourceRule>, i: nat, j: nat)
    requires Decides(n, c, rules, i) && Decides(n, c, rules, j)
    ensures i == j
  {
  }

  /** For a conflict-free rule, applying is exactly: the scope holds and every condition holds as written. */
  lemma AppliesAsWritten(n: Names, c: Context, r: SourceRule)
    requires n.Valid() && ClausesOf(n, r.conditions).Some? && NoConflict(ClausesOf(n, r.conditions).value)
    ensures Applies(n, c, r)
       <==> InScope(n, c, r.plans) && forall i | 0 <= i < |r.conditions| :: ConditionHolds(n, c, r.conditions[i])
  {
    WhenMeaning(n, c, r.conditions);
  }

  /** "LTE, and not LTE": a request on LTE meets the compiled rule and fails the second condition as written. */
  lemma SetWinsOverWritten(n: Names, c: Context, r: SourceRule)
    requires c.req.rat == Lte.Code() && r.plans == [] && r.conditions == [RatIn([Lte]), RatNotIn([Lte])]
    ensures Applies(n, c, r) && !ConditionHolds(n, c, r.conditions[1])
  {
    var cls := ClausesOf(n, r.conditions).value;
    assert cls[0] == AnyOf(RatAtoms([Lte])) && cls[1] == NoneOf(RatAtoms([Lte]));
    var x := RatIs(0);
    assert RatAtoms([Lte]) == [x];
    assert cls == [AnyOf([x]), NoneOf([x])];
    LteChoice(x, cls);
    var i :| 0 <= i < |Choices(cls)| && Choices(cls)[i] == {x};
    assert ChoiceHolds(TruthIn(c), Choices(cls)[i], Negatives(cls));
    assert [Lte][0].Code() == c.req.rat;
  }

  lemma LteChoice(x: Atom, cls: seq<Clause>)
    requires cls == [AnyOf([x]), NoneOf([x])]
    ensures {x} in Choices(cls)
  {
    var any := cls[..1];
    var one: seq<set<Atom>> := [{}];
    assert any == [AnyOf([x])] && any[..0] == [];
    assert Choices(any[..0]) == one && Choices(any) == Product(one, [x]);
    assert {x} == one[0] + {[x][0]};
    ProductMember(one, [x], {x});
    assert Choices(cls) == Choices(any);
  }
}
