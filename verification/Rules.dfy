/**
 Source rules, their direct meaning, and the (mask, value) rows they compile to.

 A `when` is a conjunction. Each entry either asks for at least one of some atoms or for none of them; the
 compiler turns the conjunction into one row per way of choosing an alternative from each "any of" list.
 A bit that one row requires both set and clear ends up required set, so the rows mean `SetWins` below; that
 is the plain conjunction exactly when no atom is asked for with both polarities.
 */
module Rules {
  import opened Common
  import opened Bits
  import opened Features

  const MAX_EXPANSION: nat := 64
  const MAX_RULES: nat := 4096

  datatype Rat = Lte | Nr | Wlan {
    function Code(): nat { match this case Lte => 0 case Nr => 1 case Wlan => 2 }
  }

  /** One entry of `when`, after its key has been recognised. */
  datatype Condition =
    | FlagIs(flag: Flag, want: bool)
    | StatusIn(statuses: seq<Status>)
    | RatIn(rats: seq<Rat>)
    | RatNotIn(rats: seq<Rat>)
    | DnnIn(dnns: seq<string>)
    | DnnNotIn(dnns: seq<string>)
    | UsageAbove(permille: nat)
    | UsageBelow(permille: nat)
    | TimeBetween(window: Window)
    | TimeNotBetween(window: Window)
    | Malformed

  datatype Action = Action(
    quotaBytes: nat, ambrUl: nat, ambrDl: nat, ratingGroup: nat, quotaValidity: nat,
    verdict: nat, reason: nat, qos5qi: nat, arp: nat, setFlags: nat, redirectId: nat,
    inheritQos: bool, inheritAmbr: bool, inheritQuota: bool, inheritRatingGroup: bool)

  /** A rule as written. `None` marks a field that is missing or does not parse; `plans` and `when` may be
      left out, which is the same as leaving them empty. */
  datatype SourceRule = SourceRule(
    id: Option<nat>, priority: Option<nat>, plans: seq<string>, conditions: seq<Condition>,
    action: Option<Action>)

  /** The name tables rules refer to. */
  datatype Names = Names(dnns: seq<string>, plans: seq<string>) {
    predicate Valid() {
      && |dnns| <= MAX_DNNS && |plans| <= MAX_PLANS
      && (forall i, j | 0 <= i < j < |dnns| :: dnns[i] != dnns[j])
      && (forall i, j | 0 <= i < j < |plans| :: plans[i] != plans[j])
    }
  }

  // ---------------------------------------------------------------- direct meaning

  predicate DnnNamed(n: Names, c: Context, names: seq<string>) {
    c.req.dnn < |n.dnns| && n.dnns[c.req.dnn] in names
  }

  /** What the author of a condition means by it; an empty "any of" list asks for nothing. */
  predicate ConditionHolds(n: Names, c: Context, cond: Condition) {
    match cond
    case FlagIs(f, want) => FlagHolds(c, f) == want
    case StatusIn(ss) => ss == [] || StatusOf(c.rec) in ss
    case RatIn(rs) => rs == [] || exists i :: 0 <= i < |rs| && rs[i].Code() == c.req.rat
    case RatNotIn(rs) => forall i | 0 <= i < |rs| :: rs[i].Code() != c.req.rat
    case DnnIn(ds) => ds == [] || DnnNamed(n, c, ds)
    case DnnNotIn(ds) => !DnnNamed(n, c, ds)
    case UsageAbove(p) => AtomHolds(c, UsageAtLeast(p))
    case UsageBelow(p) => !AtomHolds(c, UsageAtLeast(p))
    case TimeBetween(w) => w.Contains(c.req.localMinute % MINUTES_PER_DAY)
    case TimeNotBetween(w) => !w.Contains(c.req.localMinute % MINUTES_PER_DAY)
    case Malformed => false
  }

  /** An empty `plans` list means every plan, and every unknown subscriber too. */
  predicate InScope(n: Names, c: Context, plans: seq<string>) {
    plans == [] || (c.rec.Some? && c.rec.value.planId < |n.plans| && n.plans[c.rec.value.planId] in plans)
  }

  // ---------------------------------------------------------------- atoms with polarity

  datatype Clause = AnyOf(atoms: seq<Atom>) | NoneOf(atoms: seq<Atom>)

  function DnnAtoms(n: Names, names: seq<string>): (r: Option<seq<Atom>>)
    ensures r.None? <==> exists i :: 0 <= i < |names| && names[i] !in n.dnns
    ensures r.Some? ==> |r.value| == |names| && forall i | 0 <= i < |names| ::
              IndexOf(n.dnns, names[i]).Some? && r.value[i] == DnnIs(IndexOf(n.dnns, names[i]).value)
  {
    if names == [] then Some([])
    else
      var last := IndexOf(n.dnns, names[|names| - 1]);
      match DnnAtoms(n, names[..|names| - 1])
      case None => None
      case Some(front) => if last.None? then None else Some(front + [DnnIs(last.value)])
  }

  function RatAtoms(rats: seq<Rat>): seq<Atom> {
    seq(|rats|, i requires 0 <= i < |rats| => RatIs(rats[i].Code()))
  }

  function StatusAtoms(ss: seq<Status>): seq<Atom> {
    seq(|ss|, i requires 0 <= i < |ss| => StatusIs(ss[i]))
  }

  /** The clause a condition stands for, or `None` for an error. */
  function ClauseOf(n: Names, cond: Condition): Option<Clause> {
    match cond
    case FlagIs(f, want) => Some(if want then AnyOf([FlagSet(f)]) else NoneOf([FlagSet(f)]))
    case StatusIn(ss) => Some(AnyOf(StatusAtoms(ss)))
    case RatIn(rs) => Some(AnyOf(RatAtoms(rs)))
    case RatNotIn(rs) => Some(NoneOf(RatAtoms(rs)))
    case DnnIn(ds) => var r := DnnAtoms(n, ds); if r.None? then None else Some(AnyOf(r.value))
    case DnnNotIn(ds) => var r := DnnAtoms(n, ds); if r.None? then None else Some(NoneOf(r.value))
    case UsageAbove(p) => Some(AnyOf([UsageAtLeast(p)]))
    case UsageBelow(p) => Some(NoneOf([UsageAtLeast(p)]))
    case TimeBetween(w) => Some(AnyOf([InWindow(w)]))
    case TimeNotBetween(w) => Some(NoneOf([InWindow(w)]))
    case Malformed => None
  }

  function ClausesOf(n: Names, conds: seq<Condition>): (r: Option<seq<Clause>>)
    ensures r.Some? ==> |r.value| == |conds|
    ensures r.Some? ==> forall i | 0 <= i < |conds| :: ClauseOf(n, conds[i]) == Some(r.value[i])
    ensures r.None? ==> exists i :: 0 <= i < |conds| && ClauseOf(n, conds[i]).None?
  {
    if conds == [] then Some([])
    else
      var last := ClauseOf(n, conds[|conds| - 1]);
      match ClausesOf(n, conds[..|conds| - 1])
      case None => None
      case Some(front) => if last.None? then None else Some(front + [last.value])
  }

  /** An assignment of truth to atoms. */
  type Truth = Atom -> bool

  predicate ClauseHolds(v: Truth, cl: Clause) {
    match cl
    case AnyOf(atoms) => atoms == [] || exists i :: 0 <= i < |atoms| && v(atoms[i])
    case NoneOf(atoms) => forall i | 0 <= i < |atoms| :: !v(atoms[i])
  }

  predicate Plain(v: Truth, cls: seq<Clause>) {
    forall i | 0 <= i < |cls| :: ClauseHolds(v, cls[i])
  }

  /** The ways of choosing one alternative from each non-empty "any of", in expansion order. */
  function Choices(cls: seq<Clause>): (cs: seq<set<Atom>>)
    ensures |cs| >= 1
  {
    if cls == [] then [{}]
    else
      var front := Choices(cls[..|cls| - 1]);
      match cls[|cls| - 1]
      case AnyOf(atoms) => if atoms == [] then front else Product(front, atoms)
      case NoneOf(_) => front
  }

  /** Every set extended by every atom, sets outermost. */
  function Product(front: seq<set<Atom>>, atoms: seq<Atom>): (cs: seq<set<Atom>>)
    ensures front != [] && atoms != [] ==> cs != []
  {
    if front == [] then []
    else
      var last := front[|front| - 1];
      Product(front[..|front| - 1], atoms)
      + seq(|atoms|, j requires 0 <= j < |atoms| => last + {atoms[j]})
  }

  function Negatives(cls: seq<Clause>): set<Atom> {
    set i, j | 0 <= i < |cls| && cls[i].NoneOf? && 0 <= j < |cls[i].atoms| :: cls[i].atoms[j]
  }

  function Positives(cls: seq<Clause>): set<Atom> {
    set i, j | 0 <= i < |cls| && cls[i].AnyOf? && 0 <= j < |cls[i].atoms| :: cls[i].atoms[j]
  }

  /** One choice matches: all of it holds, and every other atom asked to be absent is. */
  predicate ChoiceHolds(v: Truth, choice: set<Atom>, negatives: set<Atom>) {
    && (forall a | a in choice :: v(a))
    && (forall a | a in negatives - choice :: !v(a))
  }

  /** What the rows mean: an atom asked for with both polarities counts as asked for. */
  predicate SetWins(v: Truth, cls: seq<Clause>) {
    exists i :: 0 <= i < |Choices(cls)| && ChoiceHolds(v, Choices(cls)[i], Negatives(cls))
  }

  /** No atom is asked for with both polarities. */
  predicate NoConflict(cls: seq<Clause>) {
    Positives(cls) !! Negatives(cls)
  }
}
