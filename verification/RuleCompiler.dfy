/**
 The rule compiler as a function: interning, expansion into (mask, value) rows, plan masks, and the checks
 that make compilation fail. `CompilerObject` runs the same thing the way the source does, by mutation.
 */
module RuleCompiler {
  import opened Common
  import opened Bits
  import opened Features
  import opened Rules

  datatype Row = Row(mask: nat, value: nat)

  datatype CompiledRule = CompiledRule(
    mask: nat, value: nat, planMask: nat, id: nat, priority: nat, action: Action)

  function SetBit(x: nat, b: nat): nat { Or(x, Pow2(b)) }

  // ---------------------------------------------------------------- rows

  function AddBit(ms: seq<Row>, b: nat, want: bool): seq<Row> {
    seq(|ms|, i requires 0 <= i < |ms| =>
      Row(SetBit(ms[i].mask, b), if want then SetBit(ms[i].value, b) else ms[i].value))
  }

  /** One row per row and alternative, rows outermost. */
  function Expand(ms: seq<Row>, bits: seq<nat>): seq<Row> {
    if ms == [] then []
    else
      var last := ms[|ms| - 1];
      Expand(ms[..|ms| - 1], bits) + Alternatives(last, bits)
  }

  function Alternatives(row: Row, bits: seq<nat>): seq<Row> {
    seq(|bits|, j requires 0 <= j < |bits| => Row(SetBit(row.mask, bits[j]), SetBit(row.value, bits[j])))
  }

  function SetBits(x: nat, bits: seq<nat>): nat {
    if bits == [] then x else SetBit(SetBits(x, bits[..|bits| - 1]), bits[|bits| - 1])
  }

  function AddNoneOf(ms: seq<Row>, bits: seq<nat>): seq<Row> {
    seq(|ms|, i requires 0 <= i < |ms| => Row(SetBits(ms[i].mask, bits), ms[i].value))
  }

  /** An empty list constrains nothing; too many rows is an error. */
  function AddOneOf(ms: seq<Row>, bits: seq<nat>): Option<seq<Row>> {
    if bits == [] then Some(ms)
    else if |ms| * |bits| > MAX_EXPANSION then None
    else Some(Expand(ms, bits))
  }

  // ---------------------------------------------------------------- interning

  function InternThreshold(t: Tables, p: nat): Option<Tables> {
    if p in t.thresholds then Some(t)
    else if |t.thresholds| >= MAX_THRESHOLDS then None
    else Some(t.(thresholds := t.thresholds + [p]))
  }

  function InternWindow(t: Tables, w: Window): Option<Tables> {
    if w in t.windows then Some(t)
    else if |t.windows| >= MAX_WINDOWS then None
    else Some(t.(windows := t.windows + [w]))
  }

  function BitsOf(t: Tables, atoms: seq<Atom>): (bits: seq<nat>)
    requires forall i | 0 <= i < |atoms| :: BitOf(t, atoms[i]).Some?
    ensures |bits| == |atoms| && forall i | 0 <= i < |atoms| :: BitOf(t, atoms[i]) == Some(bits[i])
  {
    seq(|atoms|, i requires 0 <= i < |atoms| => BitOf(t, atoms[i]).value)
  }

  // ---------------------------------------------------------------- conditions

  datatype Progress = Progress(tables: Tables, rows: seq<Row>)

  function WithOneOf(p: Progress, atoms: seq<Atom>): Option<Progress>
    requires forall i | 0 <= i < |atoms| :: BitOf(p.tables, atoms[i]).Some?
  {
    var ms := AddOneOf(p.rows, BitsOf(p.tables, atoms));
    if ms.None? then None else Some(p.(rows := ms.value))
  }

  function WithNoneOf(p: Progress, atoms: seq<Atom>): Progress
    requires forall i | 0 <= i < |atoms| :: BitOf(p.tables, atoms[i]).Some?
  {
    p.(rows := AddNoneOf(p.rows, BitsOf(p.tables, atoms)))
  }

  function WithThreshold(p: Progress, permille: nat, want: bool): Option<Progress> {
    var t := InternThreshold(p.tables, permille);
    if t.None? then None
    else Some(Progress(t.value, AddBit(p.rows, BitOf(t.value, UsageAtLeast(permille)).value, want)))
  }

  function WithWindow(p: Progress, w: Window, want: bool): Option<Progress> {
    var t := InternWindow(p.tables, w);
    if t.None? then None
    else Some(Progress(t.value, AddBit(p.rows, BitOf(t.value, InWindow(w)).value, want)))
  }

  function CompileCondition(n: Names, p: Progress, cond: Condition): Option<Progress>
    requires n.Valid()
  {
    match cond
    case FlagIs(f, want) => Some(p.(rows := AddBit(p.rows, FlagBit(f), want)))
    case StatusIn(ss) => WithOneOf(p, StatusAtoms(ss))
    case RatIn(rs) => WithOneOf(p, RatAtoms(rs))
    case RatNotIn(rs) => Some(WithNoneOf(p, RatAtoms(rs)))
    case DnnIn(ds) => var r := DnnAtoms(n, ds); if r.None? then None else WithOneOf(p, r.value)
    case DnnNotIn(ds) => var r := DnnAtoms(n, ds); if r.None? then None else Some(WithNoneOf(p, r.value))
    case UsageAbove(pm) => WithThreshold(p, pm, true)
    case UsageBelow(pm) => WithThreshold(p, pm, false)
    case TimeBetween(w) => WithWindow(p, w, true)
    case TimeNotBetween(w) => WithWindow(p, w, false)
    case Malformed => None
  }

  function CompileWhen(n: Names, t: Tables, conds: seq<Condition>): Option<Progress>
    requires n.Valid()
  {
    if conds == [] then Some(Progress(t, [Row(0, 0)]))
    else
      match CompileWhen(n, t, conds[..|conds| - 1])
      case None => None
      case Some(p) => CompileCondition(n, p, conds[|conds| - 1])
  }

  // ---------------------------------------------------------------- rules

  function PlanMask(n: Names, plans: seq<string>): Option<nat> {
    if plans == [] then Some(0)
    else
      var id := IndexOf(n.plans, plans[|plans| - 1]);
      match PlanMask(n, plans[..|plans| - 1])
      case None => None
      case Some(m) => if id.None? then None else Some(SetBit(m, id.value))
  }

  /** The rows of each source rule so far, and the ids already taken. */
  datatype Output = Output(tables: Tables, groups: seq<seq<CompiledRule>>, ids: set<nat>)

  function Flatten(groups: seq<seq<CompiledRule>>): seq<CompiledRule> {
    if groups == [] then [] else Flatten(groups[..|groups| - 1]) + groups[|groups| - 1]
  }

  predicate HeaderOk(ids: set<nat>, r: SourceRule) {
    && r.id.Some? && 0 < r.id.value < U32 && r.id.value !in ids
    && r.priority.Some? && r.priority.value < U32
    && r.action.Some?
  }

  function Emit(r: SourceRule, planMask: nat, ms: seq<Row>): seq<CompiledRule>
    requires r.id.Some? && r.priority.Some? && r.action.Some?
  {
    seq(|ms|, i requires 0 <= i < |ms| =>
      CompiledRule(ms[i].mask, ms[i].value, planMask, r.id.value, r.priority.value, r.action.value))
  }

  function CompileRule(n: Names, out: Output, r: SourceRule): Option<Output>
    requires n.Valid()
  {
    var mask := PlanMask(n, r.plans);
    var p := CompileWhen(n, out.tables, r.conditions);
    if !HeaderOk(out.ids, r) || mask.None? || p.None? then None
    else if |Flatten(out.groups)| + |p.value.rows| > MAX_RULES then None
    else Some(Output(p.value.tables, out.groups + [Emit(r, mask.value, p.value.rows)], out.ids + {r.id.value}))
  }

  const NO_TABLES := Tables([], [])

  /** All rules compiled, or `None` when any of them is an error: one error keeps the whole file out. */
  function CompileRules(n: Names, rules: seq<SourceRule>): Option<Output>
    requires n.Valid()
  {
    if rules == [] then Some(Output(NO_TABLES, [], {}))
    else
      match CompileRules(n, rules[..|rules| - 1])
      case None => None
      case Some(out) => CompileRule(n, out, rules[|rules| - 1])
  }
}
