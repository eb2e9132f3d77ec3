/**
 The compiler the way the source runs it: an object that appends to its rule list and intern tables in place,
 counts errors, and goes on after one so that all of them get reported. It is proved to compute `CompileRules`.
 */
module CompilerObject {
  import opened Common
  import opened Bits
  import opened Features
  import opened Rules
  import opened RuleCompiler
  import opened RuleOrder

  lemma PrefixStep<T>(s: seq<T>, i: nat)
    requires i < |s|
    ensures s[..i + 1][..|s[..i + 1]| - 1] == s[..i] && s[..i + 1][|s[..i + 1]| - 1] == s[i]
  {
  }

  lemma {:induction false} FlattenAppend(groups: seq<seq<CompiledRule>>, g: seq<CompiledRule>)
    ensures Flatten(groups + [g]) == Flatten(groups) + g
  {
    assert (groups + [g])[..|groups|] == groups;
  }

  /** Set or clear condition on every row of `ms`, row by row. */
  method AddBitToAll(rows: seq<Row>, b: nat, want: bool) returns (ms: seq<Row>)
    ensures ms == AddBit(rows, b, want)
  {
    ms := rows;
    var i := 0;
    while i < |ms|
      invariant 0 <= i <= |ms| == |rows|
      invariant ms[..i] == AddBit(rows, b, want)[..i]
      invariant ms[i..] == rows[i..]
    {
      assert ms[i] == rows[i];
      var row := ms[i];
      row := row.(mask := SetBit(row.mask, b));
      if want {
        row := row.(value := SetBit(row.value, b));
      }
      ms := ms[i := row];
      i := i + 1;
    }
  }

  /** The cross product of rows and alternatives, refused when it would exceed the expansion limit. */
  method AddAlternatives(rows: seq<Row>, bits: seq<nat>) returns (ok: bool, ms: seq<Row>)
    ensures ok <==> AddOneOf(rows, bits).Some?
    ensures ok ==> ms == AddOneOf(rows, bits).value
  {
    if bits == [] {
      return true, rows;
    }
    if |rows| * |bits| > MAX_EXPANSION {
      return false, rows;
    }
    ms := [];
    for i := 0 to |rows|
      invariant ms == Expand(rows[..i], bits)
    {
      PrefixStep(rows, i);
      ghost var done := ms;
      for j := 0 to |bits|
        invariant ms == done + Alternatives(rows[i], bits)[..j]
      {
        ms := ms + [Row(SetBit(rows[i].mask, bits[j]), SetBit(rows[i].value, bits[j]))];
      }
      assert Alternatives(rows[i], bits)[..|bits|] == Alternatives(rows[i], bits);
    }
    assert rows[..|rows|] == rows;
    ok := true;
  }

  /** Every listed bit into every mask, values untouched. */
  method ForbidAll(rows: seq<Row>, bits: seq<nat>) returns (ms: seq<Row>)
    ensures ms == AddNoneOf(rows, bits)
  {
    ms := rows;
    var i := 0;
    while i < |ms|
      invariant 0 <= i <= |ms| == |rows|
      invariant ms[..i] == AddNoneOf(rows, bits)[..i]
      invariant ms[i..] == rows[i..]
    {
      assert ms[i] == rows[i];
      var mask := ms[i].mask;
      for j := 0 to |bits|
        invariant mask == SetBits(rows[i].mask, bits[..j])
      {
        PrefixStep(bits, j);
        mask := SetBit(mask, bits[j]);
      }
      assert bits[..|bits|] == bits;
      ms := ms[i := ms[i].(mask := mask)];
      i := i + 1;
    }
  }

  class Compiler {
    var dnns: seq<string>
    var plans: seq<string>
    var windows: seq<Window>
    var thresholds: seq<nat>
    var rules: seq<CompiledRule>
    var seenIds: set<nat>
    var errors: nat

    ghost function GetNames(): Names
      reads this
    {
      Names(dnns, plans)
    }

    ghost function GetTables(): Tables
      reads this
    {
      Tables(windows, thresholds)
    }

    constructor ()
      ensures GetNames() == Names([], []) && GetTables() == NO_TABLES
      ensures rules == [] && seenIds == {} && errors == 0
    {
      dnns, plans, windows, thresholds, rules, seenIds, errors := [], [], [], [], [], {}, 0;
    }

    /** The name table after an error-free load is the list as written: distinct and within the limit. */
    method LoadNames(items: seq<string>, limit: nat) returns (names: seq<string>)
      modifies this`errors
      ensures errors >= old(errors)
      ensures errors == old(errors)
         <==> |items| <= limit && forall i, j | 0 <= i < j < |items| :: items[i] != items[j]
      ensures errors == old(errors) ==> names == items
    {
      names := [];
      var i := 0;
      while i < |items|
        invariant 0 <= i <= |items|
        invariant errors >= old(errors)
        invariant errors == old(errors) ==>
          names == items[..i] && i <= limit && forall a, b | 0 <= a < b < i :: items[a] != items[b]
        invariant errors > old(errors) ==> exists a, b :: 0 <= a < b < i && items[a] == items[b]
      {
        if |names| >= limit {
          errors := errors + 1;
          return;
        }
        if items[i] in names {
          errors := errors + 1;
          assert old(errors) + 1 == errors ==> exists a :: 0 <= a < i && items[a] == items[i];
        } else {
          names := names + [items[i]];
        }
        i := i + 1;
      }
    }

    /** Reuse the threshold's bit, or assign the next free one; a negative result is "no room". */
    method InternUsageThreshold(permille: nat) returns (bit: int)
      modifies this`thresholds, this`errors
      ensures bit < 0 <==> InternThreshold(old(GetTables()), permille).None?
      ensures bit < 0 ==> errors == old(errors) + 1 && GetTables() == old(GetTables())
      ensures bit >= 0 ==> errors == old(errors)
      ensures bit >= 0 ==> InternThreshold(old(GetTables()), permille) == Some(GetTables())
      ensures bit >= 0 ==> BitOf(GetTables(), UsageAtLeast(permille)) == Some(bit)
    {
      var i := 0;
      while i < |thresholds|
        invariant 0 <= i <= |thresholds| && permille !in thresholds[..i]
      {
        if thresholds[i] == permille {
          FirstIndex(thresholds, permille, i);
          return THRESHOLD_BASE + i;
        }
        i := i + 1;
      }
      if |thresholds| >= MAX_THRESHOLDS {
        errors := errors + 1;
        return -1;
      }
      thresholds := thresholds + [permille];
      FirstIndex(thresholds, permille, i);
      return THRESHOLD_BASE + i;
    }

    method InternTimeWindow(w: Window) returns (bit: int)
      modifies this`windows, this`errors
      ensures bit < 0 <==> InternWindow(old(GetTables()), w).None?
      ensures bit < 0 ==> errors == old(errors) + 1 && GetTables() == old(GetTables())
      ensures bit >= 0 ==> errors == old(errors)
      ensures bit >= 0 ==> InternWindow(old(GetTables()), w) == Some(GetTables())
      ensures bit >= 0 ==> BitOf(GetTables(), InWindow(w)) == Some(bit)
    {
      var i := 0;
      while i < |windows|
        invariant 0 <= i <= |windows| && w !in windows[..i]
      {
        if windows[i] == w {
          FirstIndex(windows, w, i);
          return WINDOW_BASE + i;
        }
        i := i + 1;
      }
      if |windows| >= MAX_WINDOWS {
        errors := errors + 1;
        return -1;
      }
      windows := windows + [w];
      FirstIndex(windows, w, i);
      return WINDOW_BASE + i;
    }

    /** The bits of the listed DNN names, or an error at the first unknown one. */
    method ResolveDnns(names: seq<string>) returns (ok: bool, bits: seq<nat>)
      requires GetNames().Valid()
      modifies this`errors
      ensures ok <==> DnnAtoms(GetNames(), names).Some?
      ensures errors == if ok then old(errors) else old(errors) + 1
      ensures ok ==> bits == BitsOf(GetTables(), DnnAtoms(GetNames(), names).value)
    {
      bits := [];
      for i := 0 to |names|
        invariant errors == old(errors)
        invariant forall k | 0 <= k < i :: names[k] in dnns
        invariant |bits| == i
        invariant forall k | 0 <= k < i :: bits[k] == DNN_BASE + IndexOf(dnns, names[k]).value
      {
        var at := IndexOf(dnns, names[i]);
        if at.None? {
          errors := errors + 1;
          return false, [];
        }
        bits := bits + [DNN_BASE + at.value];
      }
      ok := true;
    }

    method CompileOne(p: Progress, cond: Condition) returns (ok: bool, ms: seq<Row>)
      requires GetNames().Valid() && p.tables == GetTables()
      modifies this`windows, this`thresholds, this`errors
      ensures ok <==> CompileCondition(GetNames(), p, cond).Some?
      ensures if ok then errors == old(errors) else errors > old(errors)
      ensures ok ==> CompileCondition(GetNames(), p, cond) == Some(Progress(GetTables(), ms))
    {
      ghost var n := GetNames();
      ok := true;
      ms := p.rows;
      match cond
      case FlagIs(f, want) =>
        ms := AddBitToAll(ms, FlagBit(f), want);
      case StatusIn(ss) =>
        ok, ms := AddAlternatives(ms, BitsOf(Tables(windows, thresholds), StatusAtoms(ss)));
        if !ok { errors := errors + 1; }
      case RatIn(rs) =>
        ok, ms := AddAlternatives(ms, BitsOf(Tables(windows, thresholds), RatAtoms(rs)));
        if !ok { errors := errors + 1; }
      case RatNotIn(rs) =>
        ms := ForbidAll(ms, BitsOf(Tables(windows, thresholds), RatAtoms(rs)));
      case DnnIn(ds) =>
        var known, bits := ResolveDnns(ds);
        if known {
          ok, ms := AddAlternatives(ms, bits);
          if !ok { errors := errors + 1; }
        } else {
          ok := false;
        }
      case DnnNotIn(ds) =>
        var known, bits := ResolveDnns(ds);
        if known { ms := ForbidAll(ms, bits); } else { ok := false; }
      case UsageAbove(pm) =>
        var bit := InternUsageThreshold(pm);
        if bit < 0 { ok := false; } else { ms := AddBitToAll(ms, bit, true); }
      case UsageBelow(pm) =>
        var bit := InternUsageThreshold(pm);
        if bit < 0 { ok := false; } else { ms := AddBitToAll(ms, bit, false); }
      case TimeBetween(w) =>
        var bit := InternTimeWindow(w);
        if bit < 0 { ok := false; } else { ms := AddBitToAll(ms, bit, true); }
      case TimeNotBetween(w) =>
        var bit := InternTimeWindow(w);
        if bit < 0 { ok := false; } else { ms := AddBitToAll(ms, bit, false); }
      case Malformed =>
        errors := errors + 1;
        ok := false;
    }

    method CompileConditions(conds: seq<Condition>) returns (ok: bool, ms: seq<Row>)
      requires GetNames().Valid()
      modifies this`windows, this`thresholds, this`errors
      ensures ok <==> CompileWhen(GetNames(), old(GetTables()), conds).Some?
      ensures if ok then errors == old(errors) else errors > old(errors)
      ensures ok ==> CompileWhen(GetNames(), old(GetTables()), conds) == Some(Progress(GetTables(), ms))
    {
      ms := [Row(0, 0)];
      for i := 0 to |conds|
        invariant errors == old(errors)
        invariant CompileWhen(GetNames(), old(GetTables()), conds[..i]) == Some(Progress(GetTables(), ms))
      {
        PrefixStep(conds, i);
        ok, ms := CompileOne(Progress(Tables(windows, thresholds), ms), conds[i]);
        if !ok {
          WhenStaysFailed(GetNames(), old(GetTables()), conds, i + 1);
          return;
        }
      }
      assert conds[..|conds|] == conds;
      ok := true;
    }

    method ResolvePlanMask(names: seq<string>) returns (ok: bool, mask: nat)
      modifies this`errors
      ensures ok <==> PlanMask(GetNames(), names).Some?
      ensures if ok then errors == old(errors) else errors > old(errors)
      ensures ok ==> PlanMask(GetNames(), names) == Some(mask)
    {
      ok, mask := true, 0;
      for i := 0 to |names|
        invariant errors >= old(errors)
        invariant if ok then errors == old(errors) else errors > old(errors)
        invariant if ok then PlanMask(GetNames(), names[..i]) == Some(mask) else PlanMask(GetNames(), names[..i]).None?
      {
        PrefixStep(names, i);
        var at := IndexOf(plans, names[i]);
        if at.None? {
          errors := errors + 1;
          ok := false;
        } else {
          mask := SetBit(mask, at.value);
        }
      }
      assert names[..|names|] == names;
    }

    method AppendRows(r: SourceRule, mask: nat, ms: seq<Row>)
      requires r.id.Some? && r.priority.Some? && r.action.Some?
      modifies this`rules
      ensures rules == old(rules) + Emit(r, mask, ms)
    {
      for i := 0 to |ms|
        invariant rules == old(rules) + Emit(r, mask, ms)[..i]
      {
        rules := rules +
          [CompiledRule(ms[i].mask, ms[i].value, mask, r.id.value, r.priority.value, r.action.value)];
      }
      assert Emit(r, mask, ms)[..|ms|] == Emit(r, mask, ms);
    }

    /** Compile one rule onto the table. Whether it succeeds is what the error count tells. */
    method LoadRule(r: SourceRule, ghost groups: seq<seq<CompiledRule>>) returns (ghost groups': seq<seq<CompiledRule>>)
      requires GetNames().Valid() && rules == Flatten(groups)
      modifies this`windows, this`thresholds, this`errors, this`rules, this`seenIds
      ensures errors >= old(errors)
      ensures var before := Output(old(GetTables()), groups, old(seenIds));
              if errors == old(errors)
              then CompileRule(GetNames(), before, r) == Some(Output(GetTables(), groups', seenIds))
              else CompileRule(GetNames(), before, r).None?
      ensures rules == Flatten(groups')
    {
      groups' := groups;
      if r.id.None? || r.id.value == 0 || r.id.value >= U32 {
        errors := errors + 1;
        return;
      }
      if r.id.value in seenIds {
        errors := errors + 1;
        return;
      }
      seenIds := seenIds + {r.id.value};
      if r.priority.None? || r.priority.value >= U32 {
        errors := errors + 1;
        return;
      }
      var planned, mask := ResolvePlanMask(r.plans);
      if !planned { return; }
      var ok, ms := CompileConditions(r.conditions);
      if !ok { return; }
      if r.action.None? {
        errors := errors + 1;
        return;
      }
      if |rules| + |ms| > MAX_RULES {
        errors := errors + 1;
        return;
      }
      AppendRows(r, mask, ms);
      groups' := groups + [Emit(r, mask, ms)];
      FlattenAppend(groups, Emit(r, mask, ms));
    }

    /** All rules in file order. The file is accepted exactly when no error was counted. */
    method LoadRules(source: seq<SourceRule>)
      requires GetNames().Valid() && GetTables() == NO_TABLES && rules == [] && seenIds == {}
      modifies this`windows, this`thresholds, this`errors, this`rules, this`seenIds
      ensures errors >= old(errors)
      ensures errors == old(errors) <==> CompileRules(GetNames(), source).Some?
      ensures errors == old(errors) ==>
                var out := CompileRules(GetNames(), source).value;
                GetTables() == out.tables && rules == Flatten(out.groups)
    {
      ghost var groups: seq<seq<CompiledRule>> := [];
      for i := 0 to |source|
        invariant errors >= old(errors)
        invariant rules == Flatten(groups)
        invariant if errors == old(errors)
                  then CompileRules(GetNames(), source[..i]) == Some(Output(GetTables(), groups, seenIds))
                  else CompileRules(GetNames(), source[..i]).None?
      {
        PrefixStep(source, i);
        groups := LoadRule(source[i], groups);
      }
      assert source[..|source|] == source;
    }

    /** `run()`: names, then rules, then the stable sort; nothing goes out unless everything compiled. */
    method Compile(dnnNames: seq<string>, planNames: seq<string>, source: seq<SourceRule>) returns (ok: bool)
      requires GetTables() == NO_TABLES && rules == [] && seenIds == {} && errors == 0
      modifies this
      ensures ok <==> planNames != [] && Names(dnnNames, planNames).Valid()
                      && CompileRules(Names(dnnNames, planNames), source).Some?
      ensures ok ==> GetNames() == Names(dnnNames, planNames)
      ensures ok ==> var out := CompileRules(GetNames(), source).value;
                     GetTables() == out.tables && rules == StableSort(Flatten(out.groups))
    {
      dnns := LoadNames(dnnNames, MAX_DNNS);
      if planNames == [] { errors := errors + 1; }
      plans := LoadNames(planNames, MAX_PLANS);
      if errors != 0 {
        return false;
      }
      LoadRules(source);
      if errors != 0 {
        return false;
      }
      rules := StableSort(rules);
      ok := true;
    }
  }

  lemma FirstIndex<T>(s: seq<T>, x: T, i: nat)
    requires i < |s| && s[i] == x && x !in s[..i]
    ensures IndexOf(s, x) == Some(i)
  {
    var j := IndexOf(s, x).value;
    assert forall k | 0 <= k < i :: s[..i][k] == s[k];
    assert forall k | 0 <= k < j :: s[..j][k] == s[k];
  }

  lemma {:induction false} WhenStaysFailed(n: Names, t: Tables, conds: seq<Condition>, i: nat)
    requires n.Valid() && i <= |conds| && CompileWhen(n, t, conds[..i]).None?
    ensures CompileWhen(n, t, conds).None?
    decreases |conds| - i
  {
    if i < |conds| {
      PrefixStep(conds, i);
      WhenStaysFailed(n, t, conds, i + 1);
    } else {
      assert conds[..i] == conds;
    }
  }
}
