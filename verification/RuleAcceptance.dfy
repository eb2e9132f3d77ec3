/** Exactly which rule files compile, in terms of what is written in them. */
module RuleAcceptance {
  import opened Common
  import opened Bits
  import opened Features
  import opened Rules
  import opened RuleCompiler

  // ---------------------------------------------------------------- what is written

  function ToSet<T>(s: seq<T>): set<T> { set x | x in s }

  /** How many alternatives a condition offers; an empty list asks for nothing. */
  function Choices(cond: Condition): (k: nat)
    ensures k >= 1
  {
    var k := match cond
      case StatusIn(ss) => |ss|
      case RatIn(rs) => |rs|
      case DnnIn(ds) => |ds|
      case _ => 1;
    if k == 0 then 1 else k
  }

  /** The number of rows a `when` stands for: the product of its alternatives. */
  function RowsOf(conds: seq<Condition>): (k: nat)
    ensures k >= 1
  {
    if conds == [] then 1 else RowsOf(conds[..|conds| - 1]) * Choices(conds[|conds| - 1])
  }

  function ThresholdsOf(cond: Condition): set<nat> {
    match cond case UsageAbove(p) => {p} case UsageBelow(p) => {p} case _ => {}
  }

  function WindowsOf(cond: Condition): set<Window> {
    match cond case TimeBetween(w) => {w} case TimeNotBetween(w) => {w} case _ => {}
  }

  function ThresholdsIn(conds: seq<Condition>): set<nat> {
    if conds == [] then {} else ThresholdsIn(conds[..|conds| - 1]) + ThresholdsOf(conds[|conds| - 1])
  }

  function WindowsIn(conds: seq<Condition>): set<Window> {
    if conds == [] then {} else WindowsIn(conds[..|conds| - 1]) + WindowsOf(conds[|conds| - 1])
  }

  /** The condition is well formed and names only known networks. */
  predicate Understood(n: Names, cond: Condition) {
    match cond
    case DnnIn(ds) => forall i | 0 <= i < |ds| :: ds[i] in n.dnns
    case DnnNotIn(ds) => forall i | 0 <= i < |ds| :: ds[i] in n.dnns
    case Malformed => false
    case _ => true
  }

  predicate AllUnderstood(n: Names, conds: seq<Condition>) { forall i | 0 <= i < |conds| :: Understood(n, conds[i]) }

  // ---------------------------------------------------------------- one condition

  /** The interned values are these. */
  ghost predicate Interned(t: Tables, thresholds: set<nat>, windows: set<Window>) {
    t.Valid() && ToSet(t.thresholds) == thresholds && ToSet(t.windows) == windows
  }

  lemma {:induction false} DistinctSize<T>(s: seq<T>)
    requires forall i, j | 0 <= i < j < |s| :: s[i] != s[j]
    ensures |ToSet(s)| == |s|
  {
    if s != [] {
      var front, last := s[..|s| - 1], s[|s| - 1];
      DistinctSize(front);
      assert ToSet(s) == ToSet(front) + {last};
      assert last !in front;
    }
  }

  lemma InternedSizes(t: Tables, thresholds: set<nat>, windows: set<Window>)
    requires Interned(t, thresholds, windows)
    ensures |t.thresholds| == |thresholds| && |t.windows| == |windows|
  {
    DistinctSize(t.thresholds);
    DistinctSize(t.windows);
  }

  lemma {:induction false} ExpandSize(ms: seq<Row>, bits: seq<nat>, k: nat)
    requires k == |bits|
    ensures |Expand(ms, bits)| == |ms| * k
  {
    if ms != [] {
      ExpandSize(ms[..|ms| - 1], bits, k);
      Distributes(|ms| - 1, k);
    }
  }

  lemma Distributes(a: nat, k: nat)
    ensures (a + 1) * k == a * k + k
  {
  }

  /** The result is refused for want of understanding or of room, and otherwise has so many rows and interned these. */
  ghost predicate Takes(q: Option<Progress>, understood: bool, rows: nat, thresholds: set<nat>, windows: set<Window>) {
    && (q.Some? <==> understood && rows <= 64 && |thresholds| <= 8 && |windows| <= 8)
    && (q.Some? ==> Interned(q.value.tables, thresholds, windows) && |q.value.rows| == rows)
  }

  predicate Distinct<T(==)>(s: seq<T>) { forall i, j | 0 <= i < j < |s| :: s[i] != s[j] }

  /** Adding a value to a table without repetitions, if it is not there yet. */
  lemma Interning<T>(s: seq<T>, x: T, all: set<T>)
    requires Distinct(s) && ToSet(s) == all
    ensures |s| == |all| && (x in s <==> x in all)
    ensures x in s ==> all + {x} == all
    ensures x !in s ==> Distinct(s + [x]) && ToSet(s + [x]) == all + {x} && |all + {x}| == |s| + 1
  {
    DistinctSize(s);
    if x in s {
      assert all + {x} == all;
    } else {
      assert ToSet(s + [x]) == all + {x};
      DistinctSize(s + [x]);
    }
  }

  lemma ThresholdInterned(t: Tables, permille: nat, ts: set<nat>, ws: set<Window>)
    requires Interned(t, ts, ws) && |ts| <= 8
    ensures InternThreshold(t, permille).Some? <==> |ts + {permille}| <= 8
    ensures InternThreshold(t, permille).Some? ==> Interned(InternThreshold(t, permille).value, ts + {permille}, ws)
  {
    Interning(t.thresholds, permille, ts);
  }

  lemma WindowInterned(t: Tables, w: Window, ts: set<nat>, ws: set<Window>)
    requires Interned(t, ts, ws) && |ws| <= 8
    ensures InternWindow(t, w).Some? <==> |ws + {w}| <= 8
    ensures InternWindow(t, w).Some? ==> Interned(InternWindow(t, w).value, ts, ws + {w})
  {
    Interning(t.windows, w, ws);
  }

  lemma ThresholdAccepted(p: Progress, permille: nat, want: bool, ts: set<nat>, ws: set<Window>)
    requires Interned(p.tables, ts, ws) && |p.rows| <= 64 && |ts| <= 8 && |ws| <= 8
    ensures Takes(WithThreshold(p, permille, want), true, |p.rows|, ts + {permille}, ws)
  {
    ThresholdInterned(p.tables, permille, ts, ws);
  }

  lemma WindowAccepted(p: Progress, w: Window, want: bool, ts: set<nat>, ws: set<Window>)
    requires Interned(p.tables, ts, ws) && |p.rows| <= 64 && |ts| <= 8 && |ws| <= 8
    ensures Takes(WithWindow(p, w, want), true, |p.rows|, ts, ws + {w})
  {
    WindowInterned(p.tables, w, ts, ws);
  }

  lemma OneOfAccepted(p: Progress, atoms: seq<Atom>, k: nat, thresholds: set<nat>, windows: set<Window>)
    requires forall i | 0 <= i < |atoms| :: BitOf(p.tables, atoms[i]).Some?
    requires Interned(p.tables, thresholds, windows) && |p.rows| <= 64 && |thresholds| <= 8 && |windows| <= 8
    requires k == if atoms == [] then 1 else |atoms|
    ensures Takes(WithOneOf(p, atoms), true, |p.rows| * k, thresholds, windows)
  {
    if atoms != [] { ExpandSize(p.rows, BitsOf(p.tables, atoms), k); }
  }

  /** Nothing is added but conditions on bits. */
  lemma NothingInterned(p: Progress, rows: seq<Row>, thresholds: set<nat>, windows: set<Window>)
    requires Interned(p.tables, thresholds, windows) && |thresholds| <= 8 && |windows| <= 8 && |rows| == |p.rows| <= 64
    ensures Takes(Some(p.(rows := rows)), true, |p.rows|, thresholds, windows)
  {
  }

  lemma ListTakes(n: Names, p: Progress, cond: Condition, k: nat, thresholds: set<nat>, windows: set<Window>)
    requires n.Valid() && Interned(p.tables, thresholds, windows) && k == Choices(cond)
    requires |p.rows| <= 64 && |thresholds| <= 8 && |windows| <= 8
    requires cond.StatusIn? || cond.RatIn? || cond.DnnIn?
    ensures Takes(CompileCondition(n, p, cond), Understood(n, cond), |p.rows| * k, thresholds, windows)
  {
    match cond
    case StatusIn(ss) => OneOfAccepted(p, StatusAtoms(ss), k, thresholds, windows);
    case RatIn(rs) => OneOfAccepted(p, RatAtoms(rs), k, thresholds, windows);
    case DnnIn(ds) => if DnnAtoms(n, ds).Some? { OneOfAccepted(p, DnnAtoms(n, ds).value, k, thresholds, windows); }
  }

  lemma BitsTake(n: Names, p: Progress, cond: Condition, thresholds: set<nat>, windows: set<Window>)
    requires n.Valid() && Interned(p.tables, thresholds, windows)
    requires |p.rows| <= 64 && |thresholds| <= 8 && |windows| <= 8
    requires cond.FlagIs? || cond.RatNotIn? || cond.DnnNotIn? || cond.Malformed?
    ensures Takes(CompileCondition(n, p, cond), Understood(n, cond), |p.rows|, thresholds, windows)
  {
    match cond
    case FlagIs(f, want) => NothingInterned(p, AddBit(p.rows, FlagBit(f), want), thresholds, windows);
    case RatNotIn(rs) => NothingInterned(p, AddNoneOf(p.rows, BitsOf(p.tables, RatAtoms(rs))), thresholds, windows);
    case DnnNotIn(ds) =>
      if DnnAtoms(n, ds).Some? {
        NothingInterned(p, AddNoneOf(p.rows, BitsOf(p.tables, DnnAtoms(n, ds).value)), thresholds, windows);
      }
    case Malformed =>
  }

  lemma ThresholdTakes(n: Names, p: Progress, cond: Condition, permille: nat, ts: set<nat>, ws: set<Window>)
    requires n.Valid() && Interned(p.tables, ts, ws) && |p.rows| <= 64 && |ts| <= 8 && |ws| <= 8
    requires cond == UsageAbove(permille) || cond == UsageBelow(permille)
    ensures Takes(CompileCondition(n, p, cond), true, |p.rows|, ts + {permille}, ws)
  {
    ThresholdAccepted(p, permille, cond.UsageAbove?, ts, ws);
  }

  lemma WindowTakes(n: Names, p: Progress, cond: Condition, w: Window, ts: set<nat>, ws: set<Window>)
    requires n.Valid() && Interned(p.tables, ts, ws) && |p.rows| <= 64 && |ts| <= 8 && |ws| <= 8
    requires cond == TimeBetween(w) || cond == TimeNotBetween(w)
    ensures Takes(CompileCondition(n, p, cond), true, |p.rows|, ts, ws + {w})
  {
    WindowAccepted(p, w, cond.TimeBetween?, ts, ws);
  }

  lemma TimesOne(a: nat, k: nat)
    requires k == 1
    ensures a * k == a
  {
  }

  /** Conditions that are no lists of alternatives: as many rows as before. */
  lemma SingleTakes(n: Names, p: Progress, cond: Condition, ts: set<nat>, ws: set<Window>)
    requires n.Valid() && Interned(p.tables, ts, ws) && |p.rows| <= 64 && |ts| <= 8 && |ws| <= 8
    requires !cond.StatusIn? && !cond.RatIn? && !cond.DnnIn?
    ensures Takes(CompileCondition(n, p, cond), Understood(n, cond), |p.rows|,
                  ts + ThresholdsOf(cond), ws + WindowsOf(cond))
  {
    if cond.UsageAbove? || cond.UsageBelow? {
      assert ws + WindowsOf(cond) == ws;
      ThresholdTakes(n, p, cond, cond.permille, ts, ws);
    } else if cond.TimeBetween? || cond.TimeNotBetween? {
      assert ts + ThresholdsOf(cond) == ts;
      WindowTakes(n, p, cond, cond.window, ts, ws);
    } else {
      assert ts + ThresholdsOf(cond) == ts && ws + WindowsOf(cond) == ws;
      BitsTake(n, p, cond, ts, ws);
    }
  }

  /** What a condition adds to a `when`. */
  lemma ConditionAccepted(n: Names, p: Progress, cond: Condition, k: nat, ts: set<nat>, ws: set<Window>)
    requires n.Valid() && Interned(p.tables, ts, ws) && |p.rows| <= 64 && |ts| <= 8 && |ws| <= 8
    requires k == Choices(cond)
    ensures Takes(CompileCondition(n, p, cond), Understood(n, cond), |p.rows| * k,
                  ts + ThresholdsOf(cond), ws + WindowsOf(cond))
  {
    if cond.StatusIn? || cond.RatIn? || cond.DnnIn? {
      assert ts + ThresholdsOf(cond) == ts && ws + WindowsOf(cond) == ws;
      ListTakes(n, p, cond, k, ts, ws);
    } else {
      TimesOne(|p.rows|, k);
      SingleTakes(n, p, cond, ts, ws);
    }
  }

  // ---------------------------------------------------------------- a `when`

  predicate WhenFits(n: Names, conds: seq<Condition>, thresholds: set<nat>, windows: set<Window>) {
    AllUnderstood(n, conds) && RowsOf(conds) <= 64 && |thresholds| <= 8 && |windows| <= 8
  }

  lemma Subsets<T>(a: set<T>, b: set<T>)
    requires a <= b
    ensures |a| <= |b|
  {
    var rest := b - a;
    assert b == a + rest;
  }

  lemma Factor(a: nat, b: nat)
    requires b >= 1
    ensures a <= a * b
  {
  }

  /** What a `when` adds to the values interned before it: when it is refused, and what it leaves otherwise. */
  ghost predicate WhenTakes(
    p: Option<Progress>, n: Names, conds: seq<Condition>, thresholds: set<nat>, windows: set<Window>)
  {
    && (p.Some? <==> WhenFits(n, conds, thresholds, windows))
    && (p.Some? ==> Interned(p.value.tables, thresholds, windows) && |p.value.rows| == RowsOf(conds))
  }

  /** A `when` compiles if and only if it is understood, has at most 64 rows and finds room for what it interns. */
  lemma {:induction false} WhenAccepted(n: Names, t: Tables, conds: seq<Condition>, ts: set<nat>, ws: set<Window>)
    requires n.Valid() && Interned(t, ts, ws)
    ensures WhenTakes(CompileWhen(n, t, conds), n, conds, ts + ThresholdsIn(conds), ws + WindowsIn(conds))
    decreases |conds|
  {
    if conds == [] {
      NothingTaken(n, t, ts, ws);
    } else {
      var front, last := conds[..|conds| - 1], conds[|conds| - 1];
      WhenAccepted(n, t, front, ts, ws);
      var p := CompileWhen(n, t, front);
      var fts, fws := ts + ThresholdsIn(front), ws + WindowsIn(front);
      assert ts + ThresholdsIn(conds) == fts + ThresholdsOf(last);
      assert ws + WindowsIn(conds) == fws + WindowsOf(last);
      assert conds == front + [last];
      WhenStep(n, p, front, last, fts, fws);
    }
  }

  lemma NothingTaken(n: Names, t: Tables, ts: set<nat>, ws: set<Window>)
    requires n.Valid() && Interned(t, ts, ws)
    ensures WhenTakes(Some(Progress(t, [Row(0, 0)])), n, [], ts + {}, ws + {})
  {
    InternedSizes(t, ts, ws);
    assert ts + {} == ts && ws + {} == ws;
  }

  lemma WhenStep(
    n: Names, p: Option<Progress>, front: seq<Condition>, last: Condition, fts: set<nat>, fws: set<Window>)
    requires n.Valid() && WhenTakes(p, n, front, fts, fws)
    ensures WhenTakes(if p.None? then None else CompileCondition(n, p.value, last),
                      n, front + [last], fts + ThresholdsOf(last), fws + WindowsOf(last))
  {
    if p.Some? {
      LastCondition(n, p.value, front, last, fts, fws);
    } else {
      NoRoomLater(n, front, last, fts, fws);
    }
  }

  lemma RowsOfMore(front: seq<Condition>, last: Condition)
    ensures RowsOf(front + [last]) == RowsOf(front) * Choices(last) >= RowsOf(front)
  {
    assert (front + [last])[..|front|] == front;
    Factor(RowsOf(front), Choices(last));
  }

  lemma LastCondition(
    n: Names, p: Progress, front: seq<Condition>, last: Condition, fts: set<nat>, fws: set<Window>)
    requires n.Valid() && WhenTakes(Some(p), n, front, fts, fws)
    ensures WhenTakes(CompileCondition(n, p, last), n, front + [last], fts + ThresholdsOf(last), fws + WindowsOf(last))
  {
    UnderstoodSplit(n, front + [last], front, last);
    RowsOfMore(front, last);
    ConditionAccepted(n, p, last, Choices(last), fts, fws);
  }

  lemma NoRoomLater(n: Names, front: seq<Condition>, last: Condition, fts: set<nat>, fws: set<Window>)
    requires !WhenFits(n, front, fts, fws)
    ensures !WhenFits(n, front + [last], fts + ThresholdsOf(last), fws + WindowsOf(last))
  {
    UnderstoodSplit(n, front + [last], front, last);
    RowsOfMore(front, last);
    Subsets(fts, fts + ThresholdsOf(last));
    Subsets(fws, fws + WindowsOf(last));
  }

  lemma UnderstoodSplit(n: Names, conds: seq<Condition>, front: seq<Condition>, last: Condition)
    requires conds == front + [last]
    ensures AllUnderstood(n, conds) <==> AllUnderstood(n, front) && Understood(n, last)
  {
    if AllUnderstood(n, conds) {
      assert Understood(n, conds[|front|]);
      forall i | 0 <= i < |front| ensures Understood(n, front[i]) { assert Understood(n, conds[i]); }
    }
  }

  // ---------------------------------------------------------------- a file

  /** The rule's own fields are there and in range, and everything it names is known. */
  predicate WellWritten(n: Names, r: SourceRule) {
    && HasFields(r) && AllPlansKnown(n, r.plans) && AllUnderstood(n, r.conditions) && RowsOf(r.conditions) <= 64
  }

  predicate HasFields(r: SourceRule) {
    && r.id.Some? && 0 < r.id.value < 0x1_0000_0000
    && r.priority.Some? && r.priority.value < 0x1_0000_0000 && r.action.Some?
  }

  predicate AllPlansKnown(n: Names, plans: seq<string>) { forall i | 0 <= i < |plans| :: plans[i] in n.plans }

  function TotalRows(rules: seq<SourceRule>): nat {
    if rules == [] then 0 else TotalRows(rules[..|rules| - 1]) + RowsOf(rules[|rules| - 1].conditions)
  }

  function AllThresholds(rules: seq<SourceRule>): set<nat> {
    if rules == [] then {} else AllThresholds(rules[..|rules| - 1]) + ThresholdsIn(rules[|rules| - 1].conditions)
  }

  function AllWindows(rules: seq<SourceRule>): set<Window> {
    if rules == [] then {} else AllWindows(rules[..|rules| - 1]) + WindowsIn(rules[|rules| - 1].conditions)
  }

  predicate DistinctIds(rules: seq<SourceRule>) {
    forall i, j | 0 <= i < j < |rules| :: rules[i].id != rules[j].id
  }

  /** What a file has to be like. */
  predicate Acceptable(n: Names, rules: seq<SourceRule>) {
    && (forall i | 0 <= i < |rules| :: WellWritten(n, rules[i])) && DistinctIds(rules)
    && |AllThresholds(rules)| <= 8 && |AllWindows(rules)| <= 8 && TotalRows(rules) <= 4096
  }

  ghost predicate HasId(rules: seq<SourceRule>, id: nat) { exists i :: 0 <= i < |rules| && rules[i].id == Some(id) }

  /** What a compiled file leaves. */
  ghost predicate Leaves(out: Output, rules: seq<SourceRule>) {
    && Interned(out.tables, AllThresholds(rules), AllWindows(rules)) && |Flatten(out.groups)| == TotalRows(rules)
    && forall id: nat :: id in out.ids <==> HasId(rules, id)
  }

  lemma {:induction false} PlansKnown(n: Names, plans: seq<string>)
    ensures PlanMask(n, plans).Some? <==> AllPlansKnown(n, plans)
  {
    if plans != [] {
      var front, last := plans[..|plans| - 1], plans[|plans| - 1];
      PlansKnown(n, front);
      assert forall i | 0 <= i < |front| :: front[i] == plans[i];
      assert (forall i | 0 <= i < |plans| :: plans[i] in n.plans) ==> last in n.plans;
    }
  }

  lemma FlattenMore(groups: seq<seq<CompiledRule>>, g: seq<CompiledRule>)
    ensures |Flatten(groups + [g])| == |Flatten(groups)| + |g|
  {
    assert (groups + [g])[..|groups|] == groups;
  }

  lemma IdsSplit(front: seq<SourceRule>, r: SourceRule)
    requires r.id.Some?
    ensures DistinctIds(front + [r]) <==> DistinctIds(front) && !HasId(front, r.id.value)
    ensures forall id: nat :: HasId(front + [r], id) <==> HasId(front, id) || r.id == Some(id)
  {
    var rules := front + [r];
    if DistinctIds(rules) {
      forall i, j | 0 <= i < j < |front| ensures front[i].id != front[j].id { assert rules[i].id != rules[j].id; }
      forall i | 0 <= i < |front| ensures front[i].id != r.id { assert rules[i].id != rules[|front|].id; }
    }
    forall id: nat ensures HasId(rules, id) <==> HasId(front, id) || r.id == Some(id) {
      if HasId(front, id) {
        var i :| 0 <= i < |front| && front[i].id == Some(id);
        assert rules[i].id == Some(id);
      }
      if r.id == Some(id) { assert rules[|front|].id == Some(id); }
    }
  }

  lemma WrittenSplit(n: Names, front: seq<SourceRule>, r: SourceRule)
    ensures (forall i | 0 <= i < |front + [r]| :: WellWritten(n, (front + [r])[i])) <==>
            (forall i | 0 <= i < |front| :: WellWritten(n, front[i])) && WellWritten(n, r)
  {
    var rules := front + [r];
    if forall i | 0 <= i < |rules| :: WellWritten(n, rules[i]) {
      assert WellWritten(n, rules[|front|]);
      forall i | 0 <= i < |front| ensures WellWritten(n, front[i]) { assert WellWritten(n, rules[i]); }
    }
  }

  lemma SumsSplit(front: seq<SourceRule>, r: SourceRule)
    ensures TotalRows(front + [r]) == TotalRows(front) + RowsOf(r.conditions)
    ensures AllThresholds(front + [r]) == AllThresholds(front) + ThresholdsIn(r.conditions)
    ensures AllWindows(front + [r]) == AllWindows(front) + WindowsIn(r.conditions)
  {
    assert (front + [r])[..|front|] == front;
  }

  /** What the last rule of a file has to be like besides the others. */
  ghost predicate FitsBehind(n: Names, front: seq<SourceRule>, r: SourceRule) {
    && WellWritten(n, r) && !HasId(front, r.id.value)
    && |AllThresholds(front) + ThresholdsIn(r.conditions)| <= 8 && |AllWindows(front) + WindowsIn(r.conditions)| <= 8
    && TotalRows(front) + RowsOf(r.conditions) <= 4096
  }

  lemma AcceptableMore(n: Names, front: seq<SourceRule>, r: SourceRule)
    requires Acceptable(n, front)
    ensures Acceptable(n, front + [r]) <==> FitsBehind(n, front, r)
  {
    WrittenSplit(n, front, r);
    SumsSplit(front, r);
    if r.id.Some? { IdsSplit(front, r); }
  }

  lemma RuleCompiles(n: Names, front: seq<SourceRule>, r: SourceRule, out: Output, p: Option<Progress>)
    requires n.Valid() && Leaves(out, front) && p == CompileWhen(n, out.tables, r.conditions)
    requires WhenTakes(p, n, r.conditions, AllThresholds(front) + ThresholdsIn(r.conditions),
                       AllWindows(front) + WindowsIn(r.conditions))
    ensures CompileRule(n, out, r).Some? <==> FitsBehind(n, front, r)
  {
    PlansKnown(n, r.plans);
    CompilesWhen(n, out, r, PlanMask(n, r.plans), p);
    FieldsIff(front, r, out);
  }

  lemma CompilesWhen(n: Names, out: Output, r: SourceRule, mask: Option<nat>, p: Option<Progress>)
    requires n.Valid() && p == CompileWhen(n, out.tables, r.conditions) && mask == PlanMask(n, r.plans)
    ensures CompileRule(n, out, r).Some? <==>
      HeaderOk(out.ids, r) && mask.Some? && p.Some? && |Flatten(out.groups)| + |p.value.rows| <= 4096
  {
  }

  lemma FieldsIff(front: seq<SourceRule>, r: SourceRule, out: Output)
    requires Leaves(out, front)
    ensures HeaderOk(out.ids, r) <==> HasFields(r) && !HasId(front, r.id.value)
  {
  }

  lemma RuleLeaves(n: Names, front: seq<SourceRule>, r: SourceRule, out: Output, p: Progress)
    requires n.Valid() && Leaves(out, front) && Some(p) == CompileWhen(n, out.tables, r.conditions)
    requires WhenTakes(Some(p), n, r.conditions, AllThresholds(front) + ThresholdsIn(r.conditions),
                       AllWindows(front) + WindowsIn(r.conditions))
    requires CompileRule(n, out, r).Some?
    ensures Leaves(CompileRule(n, out, r).value, front + [r])
  {
    FlattenMore(out.groups, Emit(r, PlanMask(n, r.plans).value, p.rows));
    LeavesMore(front, r, out, CompileRule(n, out, r).value);
  }

  lemma LeavesMore(front: seq<SourceRule>, r: SourceRule, out: Output, after: Output)
    requires Leaves(out, front) && r.id.Some? && after.ids == out.ids + {r.id.value}
    requires Interned(after.tables, AllThresholds(front) + ThresholdsIn(r.conditions),
                      AllWindows(front) + WindowsIn(r.conditions))
    requires |Flatten(after.groups)| == |Flatten(out.groups)| + RowsOf(r.conditions)
    ensures Leaves(after, front + [r])
  {
    SumsSplit(front, r);
    IdsSplit(front, r);
  }

  /** The last rule of a file whose others compile. */
  lemma RuleAccepted(n: Names, front: seq<SourceRule>, r: SourceRule, out: Output)
    requires n.Valid() && Acceptable(n, front) && Leaves(out, front)
    ensures CompileRule(n, out, r).Some? <==> Acceptable(n, front + [r])
    ensures CompileRule(n, out, r).Some? ==> Leaves(CompileRule(n, out, r).value, front + [r])
  {
    var p := CompileWhen(n, out.tables, r.conditions);
    WhenAccepted(n, out.tables, r.conditions, AllThresholds(front), AllWindows(front));
    AcceptableMore(n, front, r);
    RuleCompiles(n, front, r, out, p);
    if CompileRule(n, out, r).Some? { RuleLeaves(n, front, r, out, p.value); }
  }

  lemma FrontAcceptable(n: Names, front: seq<SourceRule>, r: SourceRule)
    requires Acceptable(n, front + [r])
    ensures Acceptable(n, front)
  {
    WrittenSplit(n, front, r);
    SumsSplit(front, r);
    assert WellWritten(n, r) by { assert WellWritten(n, (front + [r])[|front|]); }
    IdsSplit(front, r);
    Subsets(AllThresholds(front), AllThresholds(front + [r]));
    Subsets(AllWindows(front), AllWindows(front + [r]));
  }

  /**
   A file compiles if and only if every rule is well written, no two share an id, and there are at most 8 different
   thresholds, 8 different windows and 4096 rows in all.
   */
  lemma {:induction false} FileAccepted(n: Names, rules: seq<SourceRule>)
    requires n.Valid()
    ensures CompileRules(n, rules).Some? <==> Acceptable(n, rules)
    ensures CompileRules(n, rules).Some? ==> Leaves(CompileRules(n, rules).value, rules)
    decreases |rules|
  {
    if rules != [] {
      var front, last := rules[..|rules| - 1], rules[|rules| - 1];
      assert rules == front + [last];
      FileAccepted(n, front);
      if Acceptable(n, front) {
        RuleAccepted(n, front, last, CompileRules(n, front).value);
      } else if Acceptable(n, rules) {
        FrontAcceptable(n, front, last);
      }
    }
  }
}
