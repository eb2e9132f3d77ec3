/**
 Each compiled row is one choice of alternatives, written in bits; comparing it with the feature word of a
 request decides whether that choice holds for the request.
 */
module RuleEncoding {
  import opened Common
  import opened Bits
  import opened Features
  import opened Rules
  import opened RuleMeaning
  import opened RuleCompiler

  predicate AtomIn(t: Tables, k: nat, s: set<Atom>) {
    AtomAt(t, k).Some? && AtomAt(t, k).value in s
  }

  predicate Known(t: Tables, s: set<Atom>) {
    forall a | a in s :: BitOf(t, a).Some?
  }

  /** Word `x` has exactly the bits of the atoms in `s`. */
  ghost predicate Spells(t: Tables, x: nat, s: set<Atom>) {
    Known(t, s) && forall k: nat :: TestBit(x, k) <==> AtomIn(t, k, s)
  }

  /** The row asks for the choice, and for the absence of the other negatives. */
  ghost predicate Encodes(t: Tables, row: Row, choice: set<Atom>, negatives: set<Atom>) {
    Spells(t, row.value, choice) && Spells(t, row.mask, choice + negatives)
  }

  lemma SpellsAdd(t: Tables, x: nat, s: set<Atom>, a: Atom, b: nat)
    requires t.Valid() && Spells(t, x, s) && BitOf(t, a) == Some(b)
    ensures Spells(t, SetBit(x, b), s + {a})
  {
    forall k: nat ensures TestBit(SetBit(x, b), k) <==> AtomIn(t, k, s + {a}) {
      TestBitOr(x, Pow2(b), k);
      TestBitPow2(b, k);
      LayoutIsOneToOne(t, a, k);
      LayoutIsOneToOne(t, a, b);
    }
  }

  lemma {:induction false} SpellsAddAll(t: Tables, x: nat, s: set<Atom>, atoms: seq<Atom>)
    requires t.Valid() && Spells(t, x, s)
    requires forall i | 0 <= i < |atoms| :: BitOf(t, atoms[i]).Some?
    ensures Spells(t, SetBits(x, BitsOf(t, atoms)), s + (set a | a in atoms))
    decreases |atoms|
  {
    var bits := BitsOf(t, atoms);
    if atoms == [] {
      assert s + (set a | a in atoms) == s;
    } else {
      var n := |atoms| - 1;
      var front, last := atoms[..n], atoms[n];
      assert BitsOf(t, front) == bits[..n];
      SpellsAddAll(t, x, s, front);
      SpellsAdd(t, SetBits(x, bits[..n]), s + (set a | a in front), last, bits[n]);
      assert atoms == front + [last];
      assert s + (set a | a in front) + {last} == s + (set a | a in atoms);
    }
  }

  lemma SpellsGrow(t: Tables, t': Tables, x: nat, s: set<Atom>)
    requires t.Valid() && t'.Valid() && t.ExtendedBy(t') && Spells(t, x, s)
    ensures Spells(t', x, s)
  {
    forall a | a in s ensures BitOf(t', a) == BitOf(t, a) {
      BitsAreStable(t, t', a);
    }
    forall k: nat ensures TestBit(x, k) <==> AtomIn(t', k, s) {
      if AtomAt(t, k).Some? {
        assert AtomAt(t', k) == AtomAt(t, k);
      } else if AtomAt(t', k).Some? && AtomAt(t', k).value in s {
        var a := AtomAt(t', k).value;
        LayoutIsOneToOne(t', a, k);
        LayoutIsOneToOne(t, a, k);
      }
    }
  }

  /** The match test of `evaluate()` decides the row's choice on the request. */
  lemma MatchDecidesChoice(t: Tables, c: Context, f: nat, row: Row, choice: set<Atom>, negatives: set<Atom>)
    requires t.Valid() && IsFeatureWord(f, t, c) && Encodes(t, row, choice, negatives)
    ensures And(f, row.mask) == row.value <==> ChoiceHolds(TruthIn(c), choice, negatives)
  {
    var v := TruthIn(c);
    if ChoiceHolds(v, choice, negatives) {
      forall k: nat ensures TestBit(And(f, row.mask), k) <==> TestBit(row.value, k) {
        TestBitAnd(f, row.mask, k);
        if AtomIn(t, k, choice + negatives) && !AtomIn(t, k, choice) {
          assert AtomAt(t, k).value in negatives - choice;
        }
      }
      EqualByBits(And(f, row.mask), row.value);
    }
    if And(f, row.mask) == row.value {
      forall a | a in choice + negatives ensures v(a) <==> a in choice {
        var k := BitOf(t, a).value;
        LayoutIsOneToOne(t, a, k);
        TestBitAnd(f, row.mask, k);
      }
    }
  }

  // ---------------------------------------------------------------- expansion

  ghost predicate EncodesAll(t: Tables, ms: seq<Row>, choices: seq<set<Atom>>, negatives: set<Atom>) {
    |ms| == |choices| && forall i | 0 <= i < |ms| :: Encodes(t, ms[i], choices[i], negatives)
  }

  lemma {:induction false} ExpandEncodes(
    t: Tables, ms: seq<Row>, choices: seq<set<Atom>>, negatives: set<Atom>, atoms: seq<Atom>)
    requires t.Valid() && EncodesAll(t, ms, choices, negatives)
    requires forall i | 0 <= i < |atoms| :: BitOf(t, atoms[i]).Some?
    ensures EncodesAll(t, Expand(ms, BitsOf(t, atoms)), Product(choices, atoms), negatives)
    decreases |ms|
  {
    if ms != [] {
      var n := |ms| - 1;
      var bits := BitsOf(t, atoms);
      ExpandEncodes(t, ms[..n], choices[..n], negatives, atoms);
      var block := seq(|atoms|, j requires 0 <= j < |atoms| => choices[n] + {atoms[j]});
      forall j | 0 <= j < |atoms| ensures Encodes(t, Alternatives(ms[n], bits)[j], block[j], negatives) {
        SpellsAdd(t, ms[n].value, choices[n], atoms[j], bits[j]);
        SpellsAdd(t, ms[n].mask, choices[n] + negatives, atoms[j], bits[j]);
        assert choices[n] + negatives + {atoms[j]} == choices[n] + {atoms[j]} + negatives;
      }
      assert Product(choices, atoms) == Product(choices[..n], atoms) + block;
    }
  }

  lemma NoneOfEncodes(t: Tables, ms: seq<Row>, choices: seq<set<Atom>>, negatives: set<Atom>, atoms: seq<Atom>)
    requires t.Valid() && EncodesAll(t, ms, choices, negatives)
    requires forall i | 0 <= i < |atoms| :: BitOf(t, atoms[i]).Some?
    ensures EncodesAll(t, AddNoneOf(ms, BitsOf(t, atoms)), choices, negatives + (set a | a in atoms))
  {
    forall i | 0 <= i < |ms|
      ensures Encodes(t, AddNoneOf(ms, BitsOf(t, atoms))[i], choices[i], negatives + (set a | a in atoms))
    {
      SpellsAddAll(t, ms[i].mask, choices[i] + negatives, atoms);
      assert choices[i] + negatives + (set a | a in atoms) == choices[i] + (negatives + (set a | a in atoms));
    }
  }

  /** `add_bit` is a one-element "any of" or "none of". */
  lemma AddBitEncodes(t: Tables, ms: seq<Row>, choices: seq<set<Atom>>, negatives: set<Atom>, a: Atom, want: bool)
    requires t.Valid() && EncodesAll(t, ms, choices, negatives) && BitOf(t, a).Some?
    ensures var b := BitOf(t, a).value;
            if want then EncodesAll(t, AddBit(ms, b, want), Product(choices, [a]), negatives)
            else EncodesAll(t, AddBit(ms, b, want), choices, negatives + {a})
  {
    var b := BitOf(t, a).value;
    forall i | 0 <= i < |ms|
      ensures if want then Encodes(t, AddBit(ms, b, want)[i], choices[i] + {a}, negatives)
              else Encodes(t, AddBit(ms, b, want)[i], choices[i], negatives + {a})
    {
      SpellsAdd(t, ms[i].value, choices[i], a, b);
      SpellsAdd(t, ms[i].mask, choices[i] + negatives, a, b);
      assert choices[i] + negatives + {a} == choices[i] + {a} + negatives;
      assert choices[i] + negatives + {a} == choices[i] + (negatives + {a});
    }
    ProductOfOne(choices, a);
  }

  lemma {:induction false} ProductOfOne(choices: seq<set<Atom>>, a: Atom)
    ensures |Product(choices, [a])| == |choices|
    ensures forall i | 0 <= i < |choices| :: Product(choices, [a])[i] == choices[i] + {a}
  {
    if choices != [] { ProductOfOne(choices[..|choices| - 1], a); }
  }

  // ---------------------------------------------------------------- conditions and rules

  lemma AppendClause(cls: seq<Clause>, cl: Clause)
    ensures Choices(cls + [cl])
         == if cl.AnyOf? && cl.atoms != [] then Product(Choices(cls), cl.atoms) else Choices(cls)
    ensures Negatives(cls + [cl]) == Negatives(cls) + if cl.NoneOf? then (set a | a in cl.atoms) else {}
  {
    var all := cls + [cl];
    assert all[..|cls|] == cls;
    forall x | x in Negatives(all) ensures x in Negatives(cls) || (cl.NoneOf? && x in cl.atoms) {
      var i, j :| 0 <= i < |all| && all[i].NoneOf? && 0 <= j < |all[i].atoms| && all[i].atoms[j] == x;
      if i < |cls| { assert cls[i].atoms[j] == x; }
    }
    forall x | x in Negatives(cls) ensures x in Negatives(all) {
      var i, j :| 0 <= i < |cls| && cls[i].NoneOf? && 0 <= j < |cls[i].atoms| && cls[i].atoms[j] == x;
      assert all[i].atoms[j] == x;
    }
    if cl.NoneOf? {
      forall x | x in cl.atoms ensures x in Negatives(all) {
        var j :| 0 <= j < |cl.atoms| && cl.atoms[j] == x;
        assert all[|cls|].atoms[j] == x;
      }
    }
  }

  ghost predicate ProgressEncodes(p: Progress, cls: seq<Clause>) {
    p.tables.Valid() && EncodesAll(p.tables, p.rows, Choices(cls), Negatives(cls))
  }

  lemma GrowTables(p: Progress, cls: seq<Clause>, t: Tables)
    requires ProgressEncodes(p, cls) && t.Valid() && p.tables.ExtendedBy(t)
    ensures ProgressEncodes(p.(tables := t), cls)
  {
    forall i | 0 <= i < |p.rows| ensures Encodes(t, p.rows[i], Choices(cls)[i], Negatives(cls)) {
      SpellsGrow(p.tables, t, p.rows[i].value, Choices(cls)[i]);
      SpellsGrow(p.tables, t, p.rows[i].mask, Choices(cls)[i] + Negatives(cls));
    }
  }

  lemma InternKeepsTables(t: Tables, pm: nat, w: Window)
    requires t.Valid()
    ensures var r := InternThreshold(t, pm); r.Some? ==>
              r.value.Valid() && t.ExtendedBy(r.value) && BitOf(r.value, UsageAtLeast(pm)).Some?
    ensures var r := InternWindow(t, w); r.Some? ==>
              r.value.Valid() && t.ExtendedBy(r.value) && BitOf(r.value, InWindow(w)).Some?
  {
  }

  /** What appending a clause does to an encoding, in terms of `Choices` and `Negatives` as given. */
  lemma ExtendEncoding(t: Tables, ms: seq<Row>, choices: seq<set<Atom>>, negatives: set<Atom>, cls: seq<Clause>)
    requires t.Valid() && EncodesAll(t, ms, choices, negatives)
    requires choices == Choices(cls) && negatives == Negatives(cls)
    ensures ProgressEncodes(Progress(t, ms), cls)
  {
  }

  lemma SingleAtom(p: Progress, cls: seq<Clause>, a: Atom, want: bool)
    requires ProgressEncodes(p, cls) && BitOf(p.tables, a).Some?
    ensures ProgressEncodes(p.(rows := AddBit(p.rows, BitOf(p.tables, a).value, want)),
                            cls + [if want then AnyOf([a]) else NoneOf([a])])
  {
    var cl := if want then AnyOf([a]) else NoneOf([a]);
    var ms := AddBit(p.rows, BitOf(p.tables, a).value, want);
    var cs, ns := Choices(cls), Negatives(cls);
    AddBitEncodes(p.tables, p.rows, cs, ns, a, want);
    var ns' := if want then ns else ns + {a};
    assert Negatives(cls + [cl]) == ns' && Choices(cls + [cl]) == (if want then Product(cs, [a]) else cs) by {
      AppendClause(cls, cl);
      assert (set x | x in [a]) == {a};
      assert ns + {} == ns;
    }
    ExtendEncoding(p.tables, ms, if want then Product(cs, [a]) else cs, ns', cls + [cl]);
  }

  lemma OneOfList(p: Progress, cls: seq<Clause>, atoms: seq<Atom>)
    requires ProgressEncodes(p, cls) && forall i | 0 <= i < |atoms| :: BitOf(p.tables, atoms[i]).Some?
    requires WithOneOf(p, atoms).Some?
    ensures ProgressEncodes(WithOneOf(p, atoms).value, cls + [AnyOf(atoms)])
  {
    var cs, ns := Choices(cls), Negatives(cls);
    var cs' := if atoms == [] then cs else Product(cs, atoms);
    assert Negatives(cls + [AnyOf(atoms)]) == ns && Choices(cls + [AnyOf(atoms)]) == cs' by {
      AppendClause(cls, AnyOf(atoms));
      assert ns + {} == ns;
    }
    if atoms != [] { ExpandEncodes(p.tables, p.rows, cs, ns, atoms); }
    ExtendEncoding(p.tables, WithOneOf(p, atoms).value.rows, cs', ns, cls + [AnyOf(atoms)]);
  }

  lemma NoneOfList(p: Progress, cls: seq<Clause>, atoms: seq<Atom>)
    requires ProgressEncodes(p, cls) && forall i | 0 <= i < |atoms| :: BitOf(p.tables, atoms[i]).Some?
    ensures ProgressEncodes(WithNoneOf(p, atoms), cls + [NoneOf(atoms)])
  {
    var cs, ns := Choices(cls), Negatives(cls);
    var ns' := ns + (set a | a in atoms);
    assert Negatives(cls + [NoneOf(atoms)]) == ns' && Choices(cls + [NoneOf(atoms)]) == cs by {
      AppendClause(cls, NoneOf(atoms));
    }
    NoneOfEncodes(p.tables, p.rows, cs, ns, atoms);
    ExtendEncoding(p.tables, WithNoneOf(p, atoms).rows, cs, ns', cls + [NoneOf(atoms)]);
  }

  /** Compiling one more condition extends the encoded conjunction by its clause. */
  lemma ConditionEncodes(n: Names, p: Progress, cls: seq<Clause>, cond: Condition)
    requires n.Valid() && ProgressEncodes(p, cls) && CompileCondition(n, p, cond).Some?
    ensures var p' := CompileCondition(n, p, cond).value;
            && ClauseOf(n, cond).Some?
            && ProgressEncodes(p', cls + [ClauseOf(n, cond).value])
            && p.tables.ExtendedBy(p'.tables)
  {
    match cond
    case FlagIs(f, want) => SingleAtom(p, cls, FlagSet(f), want);
    case StatusIn(ss) => OneOfList(p, cls, StatusAtoms(ss));
    case RatIn(rs) => OneOfList(p, cls, RatAtoms(rs));
    case RatNotIn(rs) => NoneOfList(p, cls, RatAtoms(rs));
    case DnnIn(ds) => OneOfList(p, cls, DnnAtoms(n, ds).value);
    case DnnNotIn(ds) => NoneOfList(p, cls, DnnAtoms(n, ds).value);
    case UsageAbove(pm) => ThresholdEncodes(p, cls, pm, true);
    case UsageBelow(pm) => ThresholdEncodes(p, cls, pm, false);
    case TimeBetween(w) => WindowEncodes(p, cls, w, true);
    case TimeNotBetween(w) => WindowEncodes(p, cls, w, false);
  }

  lemma ThresholdEncodes(p: Progress, cls: seq<Clause>, pm: nat, want: bool)
    requires ProgressEncodes(p, cls) && WithThreshold(p, pm, want).Some?
    ensures ProgressEncodes(WithThreshold(p, pm, want).value,
                            cls + [if want then AnyOf([UsageAtLeast(pm)]) else NoneOf([UsageAtLeast(pm)])])
    ensures p.tables.ExtendedBy(WithThreshold(p, pm, want).value.tables)
  {
    var t := InternThreshold(p.tables, pm).value;
    InternKeepsTables(p.tables, pm, Window(0, 0));
    GrowTables(p, cls, t);
    SingleAtom(p.(tables := t), cls, UsageAtLeast(pm), want);
  }

  lemma WindowEncodes(p: Progress, cls: seq<Clause>, w: Window, want: bool)
    requires ProgressEncodes(p, cls) && WithWindow(p, w, want).Some?
    ensures ProgressEncodes(WithWindow(p, w, want).value,
                            cls + [if want then AnyOf([InWindow(w)]) else NoneOf([InWindow(w)])])
    ensures p.tables.ExtendedBy(WithWindow(p, w, want).value.tables)
  {
    var t := InternWindow(p.tables, w).value;
    InternKeepsTables(p.tables, 0, w);
    GrowTables(p, cls, t);
    SingleAtom(p.(tables := t), cls, InWindow(w), want);
  }

  /** The rows of a `when` encode its choices, one row each. */
  lemma {:induction false} WhenEncodes(n: Names, t: Tables, conds: seq<Condition>)
    requires n.Valid() && t.Valid() && CompileWhen(n, t, conds).Some?
    ensures var p := CompileWhen(n, t, conds).value;
            && ClausesOf(n, conds).Some?
            && ProgressEncodes(p, ClausesOf(n, conds).value)
            && t.ExtendedBy(p.tables)
    decreases |conds|
  {
    if conds == [] {
      forall k: nat ensures !TestBit(0, k) { TestBitZero(k); }
    } else {
      var front, last := conds[..|conds| - 1], conds[|conds| - 1];
      WhenEncodes(n, t, front);
      ConditionEncodes(n, CompileWhen(n, t, front).value, ClausesOf(n, front).value, last);
    }
  }

  /** The rows `g` are source rule `r`: its header on every row, one row per choice of its `when`. */
  ghost predicate GroupEncodes(n: Names, t: Tables, r: SourceRule, g: seq<CompiledRule>) {
    && r.id.Some? && r.priority.Some? && r.action.Some?
    && ClausesOf(n, r.conditions).Some?
    && var cls := ClausesOf(n, r.conditions).value;
    && |g| == |Choices(cls)|
    && forall j | 0 <= j < |g| ::
         && Encodes(t, Row(g[j].mask, g[j].value), Choices(cls)[j], Negatives(cls))
         && PlanMask(n, r.plans) == Some(g[j].planMask)
         && g[j].id == r.id.value && g[j].priority == r.priority.value && g[j].action == r.action.value
  }

  lemma GroupGrows(n: Names, t: Tables, t': Tables, r: SourceRule, g: seq<CompiledRule>)
    requires t.Valid() && t'.Valid() && t.ExtendedBy(t') && GroupEncodes(n, t, r, g)
    ensures GroupEncodes(n, t', r, g)
  {
    var cls := ClausesOf(n, r.conditions).value;
    forall j | 0 <= j < |g| ensures Encodes(t', Row(g[j].mask, g[j].value), Choices(cls)[j], Negatives(cls)) {
      SpellsGrow(t, t', g[j].value, Choices(cls)[j]);
      SpellsGrow(t, t', g[j].mask, Choices(cls)[j] + Negatives(cls));
    }
  }

  lemma EmitEncodes(n: Names, t: Tables, r: SourceRule)
    requires n.Valid() && t.Valid() && CompileWhen(n, t, r.conditions).Some?
    requires r.id.Some? && r.priority.Some? && r.action.Some? && PlanMask(n, r.plans).Some?
    ensures var p := CompileWhen(n, t, r.conditions).value;
            && p.tables.Valid() && t.ExtendedBy(p.tables)
            && GroupEncodes(n, p.tables, r, Emit(r, PlanMask(n, r.plans).value, p.rows))
  {
    WhenEncodes(n, t, r.conditions);
  }

  ghost predicate GroupsEncode(n: Names, t: Tables, rules: seq<SourceRule>, groups: seq<seq<CompiledRule>>) {
    |groups| == |rules| && forall i | 0 <= i < |rules| :: GroupEncodes(n, t, rules[i], groups[i])
  }

  lemma GroupsGrow(n: Names, t: Tables, t': Tables, rules: seq<SourceRule>, groups: seq<seq<CompiledRule>>)
    requires t.Valid() && t'.Valid() && t.ExtendedBy(t') && GroupsEncode(n, t, rules, groups)
    ensures GroupsEncode(n, t', rules, groups)
  {
    forall i | 0 <= i < |rules| ensures GroupEncodes(n, t', rules[i], groups[i]) {
      GroupGrows(n, t, t', rules[i], groups[i]);
    }
  }

  lemma GroupsAppend(n: Names, t: Tables, rules: seq<SourceRule>, groups: seq<seq<CompiledRule>>,
                     r: SourceRule, g: seq<CompiledRule>)
    requires GroupsEncode(n, t, rules, groups) && GroupEncodes(n, t, r, g)
    ensures GroupsEncode(n, t, rules + [r], groups + [g])
  {
  }

  /** A successful compilation has a faithful group of rows for every source rule. */
  lemma {:induction false} RulesEncode(n: Names, rules: seq<SourceRule>)
    requires n.Valid() && CompileRules(n, rules).Some?
    ensures var out := CompileRules(n, rules).value;
            out.tables.Valid() && GroupsEncode(n, out.tables, rules, out.groups)
    decreases |rules|
  {
    if rules != [] {
      var front, r := rules[..|rules| - 1], rules[|rules| - 1];
      RulesEncode(n, front);
      RuleAppends(n, CompileRules(n, front).value, front, r);
      assert rules == front + [r];
    }
  }

  lemma RuleAppends(n: Names, before: Output, front: seq<SourceRule>, r: SourceRule)
    requires n.Valid() && before.tables.Valid() && GroupsEncode(n, before.tables, front, before.groups)
    requires CompileRule(n, before, r).Some?
    ensures var out := CompileRule(n, before, r).value;
            out.tables.Valid() && GroupsEncode(n, out.tables, front + [r], out.groups)
  {
    EmitEncodes(n, before.tables, r);
    var p := CompileWhen(n, before.tables, r.conditions).value;
    GroupsGrow(n, before.tables, p.tables, front, before.groups);
    GroupsAppend(n, p.tables, front, before.groups, r, Emit(r, PlanMask(n, r.plans).value, p.rows));
  }

  /** The last rule brings an id of its own. */
  lemma NewId(n: Names, front: seq<SourceRule>, r: SourceRule, ids: set<nat>) returns (before: set<nat>)
    requires n.Valid() && Ids(n, front + [r], ids)
    ensures Ids(n, front, before) && r.id.Some? && r.id.value != 0 && r.id.value !in before
    ensures ids == before + {r.id.value}
  {
    assert (front + [r])[..|front|] == front;
    before := CompileRules(n, front).value.ids;
  }

  /** The ids taken once the rules are compiled. */
  ghost predicate Ids(n: Names, rules: seq<SourceRule>, ids: set<nat>)
    requires n.Valid()
  {
    CompileRules(n, rules).Some? && CompileRules(n, rules).value.ids == ids
  }

  ghost predicate HasIdIn(r: SourceRule, ids: set<nat>) { r.id.Some? && r.id.value != 0 && r.id.value in ids }

  ghost predicate Distinct(rules: seq<SourceRule>, ids: set<nat>) {
    && (forall i | 0 <= i < |rules| :: HasIdIn(rules[i], ids))
    && forall i, j | 0 <= i < j < |rules| :: rules[i].id != rules[j].id
  }

  lemma OneMoreId(front: seq<SourceRule>, r: SourceRule, before: set<nat>)
    requires Distinct(front, before) && r.id.Some? && r.id.value != 0 && r.id.value !in before
    ensures Distinct(front + [r], before + {r.id.value})
  {
    var rules := front + [r];
    forall i | 0 <= i < |rules| ensures HasIdIn(rules[i], before + {r.id.value}) {
      if i < |front| { assert HasIdIn(front[i], before); }
    }
    forall i, j | 0 <= i < j < |rules| ensures rules[i].id != rules[j].id {
      assert HasIdIn(front[i], before);
    }
  }

  /** Two rules of a compiled file never share an id, and no rule has id 0. */
  lemma {:induction false} IdsAreDistinct(n: Names, rules: seq<SourceRule>, ids: set<nat>)
    requires n.Valid() && Ids(n, rules, ids)
    ensures Distinct(rules, ids)
    decreases |rules|
  {
    if rules != [] {
      var front, last := rules[..|rules| - 1], rules[|rules| - 1];
      assert rules == front + [last];
      var before := NewId(n, front, last, ids);
      IdsAreDistinct(n, front, before);
      OneMoreId(front, last, before);
    }
  }
}
