/**
 The feature word: the contract between the rule compiler and `evaluate()`.

 An `Atom` is one yes/no question a rule can ask about a request. `AtomHolds` answers it straight from the
 request, the subscriber record and the clock; `AtomAt` says which question each bit of the word stands for,
 given the thresholds and windows the compiler interned.
 */
module Features {
  import opened Common
  import opened Bits

  const MAX_PLANS: nat := 32
  const MAX_DNNS: nat := 16
  const MAX_WINDOWS: nat := 8
  const MAX_THRESHOLDS: nat := 8

  const RAT_BASE: nat := 0
  const RAT_BITS: nat := 8
  const DNN_BASE: nat := 8
  const DNN_BITS: nat := 16
  const WINDOW_BASE: nat := 40
  const THRESHOLD_BASE: nat := 48

  const MINUTES_PER_DAY: nat := 1440

  /** Minutes since local midnight; `start > end` wraps midnight. */
  datatype Window = Window(start: nat, end: nat) {
    predicate Contains(m: nat) {
      if start <= end then start <= m < end else m >= start || m < end
    }
  }

  datatype Status = Active | Suspended | Barred | Unknown

  /** The boolean conditions, in the order of their bits. */
  datatype Flag =
    | HomePlmn | Roaming | RoamingPartner | RoamingAllowed
    | ImeiKnown | ImeiBlocked
    | TetheringDetected | TetheringAllowed | Emergency
    | QuotaExhausted | PeriodExpired | RequestedGbr

  datatype Atom =
    | RatIs(rat: nat)
    | DnnIs(dnn: nat)
    | StatusIs(status: Status)
    | FlagSet(flag: Flag)
    | InWindow(window: Window)
    | UsageAtLeast(permille: nat)

  datatype Request = Request(
    seqNo: nat, clientTs: nat, imei: nat, plmn: nat, rat: nat, dnn: nat, requested5qi: nat, localMinute: nat,
    bytesUsed: nat, tetheringDetected: bool, emergency: bool, usageValid: bool)

  datatype Subscriber = Subscriber(
    planId: nat, status: nat, bytesUsed: nat, periodResetTs: nat, homePlmn: nat,
    roamingAllowed: bool, tetheringAllowed: bool)

  datatype Plan = Plan(
    quotaBytes: nat, quotaValidity: nat, ratingGroup: nat, ambrUl: nat, ambrDl: nat, qos5qi: nat, arp: nat,
    tetheringAllowed: bool)

  /** Everything one decision is made from: the policy's tables, the request, the record and the clock. */
  datatype Context = Context(
    plans: seq<Plan>, partners: set<nat>, blocklist: set<nat>,
    req: Request, rec: Option<Subscriber>, now: nat)
  {
    /** `RuleSet::plan` of the subscriber's plan id. */
    function PlanOf(): Option<Plan> {
      if rec.Some? && rec.value.planId < |plans| then Some(plans[rec.value.planId]) else None
    }

    /** Usage reported by the serving node wins over the replicated counter. */
    function Usage(): nat {
      if req.usageValid then req.bytesUsed else if rec.Some? then rec.value.bytesUsed else 0
    }

    /** 0 means unmetered. */
    function Quota(): nat {
      if PlanOf().Some? then PlanOf().value.quotaBytes else 0
    }
  }

  function StatusOf(rec: Option<Subscriber>): Status {
    if rec.None? then Unknown
    else if rec.value.status == 0 then Active
    else if rec.value.status == 1 then Suspended
    else if rec.value.status == 2 then Barred
    else Unknown
  }

  /** Standardized GBR 5QI values, table 5.7.4-1 of TS 23.501. */
  predicate IsGbr(q: nat) {
    1 <= q <= 4 || 65 <= q <= 67 || 71 <= q <= 76
  }

  predicate FlagHolds(c: Context, f: Flag) {
    match f
    case HomePlmn => c.rec.Some? && c.req.plmn == c.rec.value.homePlmn
    case Roaming => c.rec.Some? ==> c.req.plmn != c.rec.value.homePlmn
    case RoamingPartner => c.rec.Some? && c.req.plmn != c.rec.value.homePlmn && c.req.plmn in c.partners
    case RoamingAllowed => c.rec.Some? && c.rec.value.roamingAllowed
    case ImeiKnown => c.req.imei != 0
    case ImeiBlocked => c.req.imei != 0 && c.req.imei in c.blocklist
    case TetheringDetected => c.req.tetheringDetected
    case TetheringAllowed =>
      c.rec.Some? && (c.rec.value.tetheringAllowed || (c.PlanOf().Some? && c.PlanOf().value.tetheringAllowed))
    case Emergency => c.req.emergency
    case QuotaExhausted => c.rec.Some? && c.Quota() != 0 && c.Usage() >= c.Quota()
    case PeriodExpired =>
      c.rec.Some? && c.now != 0 && c.rec.value.periodResetTs != 0 && c.now >= c.rec.value.periodResetTs
    case RequestedGbr => IsGbr(c.req.requested5qi)
  }

  /** The direct answer to an atom. */
  predicate AtomHolds(c: Context, a: Atom) {
    match a
    case RatIs(r) => c.req.rat == r
    case DnnIs(d) => c.req.dnn == d
    case StatusIs(s) => StatusOf(c.rec) == s
    case FlagSet(f) => FlagHolds(c, f)
    case InWindow(w) => w.Contains(c.req.localMinute % MINUTES_PER_DAY)
    case UsageAtLeast(p) => c.rec.Some? && c.Quota() != 0 && c.Usage() * 1000 >= c.Quota() * p
  }

  // ---------------------------------------------------------------- layout

  /** The thresholds and windows the compiler has given a bit. */
  datatype Tables = Tables(windows: seq<Window>, thresholds: seq<nat>) {
    predicate Valid() {
      && |windows| <= MAX_WINDOWS
      && |thresholds| <= MAX_THRESHOLDS
      && (forall i, j | 0 <= i < j < |windows| :: windows[i] != windows[j])
      && (forall i, j | 0 <= i < j < |thresholds| :: thresholds[i] != thresholds[j])
    }

    predicate ExtendedBy(t: Tables) {
      windows <= t.windows && thresholds <= t.thresholds
    }
  }

  function StatusBit(s: Status): nat {
    match s case Active => 24 case Suspended => 25 case Barred => 26 case Unknown => 27
  }

  function FlagBit(f: Flag): nat {
    match f
    case HomePlmn => 28 case Roaming => 29 case RoamingPartner => 30 case RoamingAllowed => 31
    case ImeiKnown => 32 case ImeiBlocked => 33
    case TetheringDetected => 34 case TetheringAllowed => 35 case Emergency => 36
    case QuotaExhausted => 37 case PeriodExpired => 38 case RequestedGbr => 39
  }

  function IndexOf<T(==)>(s: seq<T>, x: T): (i: Option<nat>)
    ensures i.Some? ==> i.value < |s| && s[i.value] == x && x !in s[..i.value]
    ensures i.None? <==> x !in s
  {
    if s == [] then None
    else if s[0] == x then Some(0)
    else
      match IndexOf(s[1..], x)
      case None => None
      case Some(i) => assert s[1..][..i] == s[1..i + 1]; Some(i + 1)
  }

  /** The bit an atom is asked through, if it has one. */
  function BitOf(t: Tables, a: Atom): Option<nat> {
    match a
    case RatIs(r) => if r < RAT_BITS then Some(RAT_BASE + r) else None
    case DnnIs(d) => if d < DNN_BITS then Some(DNN_BASE + d) else None
    case StatusIs(s) => Some(StatusBit(s))
    case FlagSet(f) => Some(FlagBit(f))
    case InWindow(w) =>
      var i := IndexOf(t.windows, w);
      if i.Some? then Some(WINDOW_BASE + i.value) else None
    case UsageAtLeast(p) =>
      var i := IndexOf(t.thresholds, p);
      if i.Some? then Some(THRESHOLD_BASE + i.value) else None
  }

  /** The atom a bit stands for; `None` for reserved and unassigned bits. */
  function AtomAt(t: Tables, k: nat): Option<Atom> {
    if k < 8 then Some(RatIs(k))
    else if k < 24 then Some(DnnIs(k - 8))
    else if k < 28 then
      Some(StatusIs(if k == 24 then Active else if k == 25 then Suspended else if k == 26 then Barred else Unknown))
    else if k < 40 then
      Some(FlagSet(
        if k == 28 then HomePlmn else if k == 29 then Roaming else if k == 30 then RoamingPartner
        else if k == 31 then RoamingAllowed else if k == 32 then ImeiKnown else if k == 33 then ImeiBlocked
        else if k == 34 then TetheringDetected else if k == 35 then TetheringAllowed else if k == 36 then Emergency
        else if k == 37 then QuotaExhausted else if k == 38 then PeriodExpired else RequestedGbr))
    else if k < 48 then
      if k - 40 < |t.windows| then Some(InWindow(t.windows[k - 40])) else None
    else if k < 56 then
      if k - 48 < |t.thresholds| then Some(UsageAtLeast(t.thresholds[k - 48])) else None
    else None
  }

  /** The layout gives distinct atoms distinct bits, all below 56: `BitOf` and `AtomAt` are inverse. */
  lemma LayoutIsOneToOne(t: Tables, a: Atom, k: nat)
    requires t.Valid()
    ensures BitOf(t, a) == Some(k) <==> AtomAt(t, k) == Some(a)
    ensures BitOf(t, a) == Some(k) ==> k < 56
  {
    match a
    case InWindow(w) =>
      if 40 <= k < 40 + |t.windows| && t.windows[k - 40] == w {
        var i := IndexOf(t.windows, w).value;
        assert i == k - 40;
      }
    case UsageAtLeast(p) =>
      if 48 <= k < 48 + |t.thresholds| && t.thresholds[k - 48] == p {
        var i := IndexOf(t.thresholds, p).value;
        assert i == k - 48;
      }
    case _ =>
  }

  /** Interning more thresholds or windows moves no bit already given out. */
  lemma BitsAreStable(t: Tables, t': Tables, a: Atom)
    requires t.Valid() && t'.Valid() && t.ExtendedBy(t') && BitOf(t, a).Some?
    ensures BitOf(t', a) == BitOf(t, a)
  {
    var k := BitOf(t, a).value;
    LayoutIsOneToOne(t, a, k);
    assert AtomAt(t', k) == AtomAt(t, k);
    LayoutIsOneToOne(t', a, k);
  }

  /** The feature word of a context: bit `k` answers the atom it stands for. */
  ghost predicate IsFeatureWord(f: nat, t: Tables, c: Context) {
    forall k: nat :: TestBit(f, k) <==> AtomAt(t, k).Some? && AtomHolds(c, AtomAt(t, k).value)
  }

  // ---------------------------------------------------------------- what the atoms ask

  /** A window holds its start and not its end, and is the complement of the window with its ends exchanged. */
  lemma WindowsComplement(s: nat, e: nat, m: nat)
    ensures s != e ==> Window(s, e).Contains(s) && !Window(s, e).Contains(e)
    ensures s != e ==> (Window(s, e).Contains(m) <==> !Window(e, s).Contains(m))
    ensures !Window(s, s).Contains(m)
  {
  }

  /** How many of the first `n` minutes of the day a window holds. */
  function MinutesIn(w: Window, n: nat): nat {
    if n == 0 then 0 else MinutesIn(w, n - 1) + if w.Contains(n - 1) then 1 else 0
  }

  lemma {:induction false} MinutesSoFar(w: Window, n: nat)
    ensures w.start <= w.end ==>
      MinutesIn(w, n) == if n <= w.start then 0 else if n <= w.end then n - w.start else w.end - w.start
    ensures w.start > w.end ==>
      MinutesIn(w, n) == if n <= w.end then n else if n <= w.start then w.end else w.end + (n - w.start)
  {
    if n > 0 { MinutesSoFar(w, n - 1); }
  }

  /** A window lasts from its start to its end, past midnight if it ends before it starts. */
  lemma WindowLasts(w: Window)
    requires w.start < MINUTES_PER_DAY && w.end < MINUTES_PER_DAY
    ensures MinutesIn(w, MINUTES_PER_DAY) == (w.end - w.start) % MINUTES_PER_DAY
  {
    MinutesSoFar(w, MINUTES_PER_DAY);
  }

  /** Usage that the serving node reports decides alone; only without it the record's counter does. */
  lemma ReportedUsageWins(c: Context, rec: Subscriber, other: nat, f: Flag, permille: nat)
    requires c.rec == Some(rec)
    ensures var d := if c.req.usageValid then c.(rec := Some(rec.(bytesUsed := other)))
                     else c.(req := c.req.(bytesUsed := other));
            && (FlagHolds(d, f) <==> FlagHolds(c, f))
            && (AtomHolds(d, UsageAtLeast(permille)) <==> AtomHolds(c, UsageAtLeast(permille)))
  {
  }

  /** With a metered plan the quota is exhausted exactly when the reported usage, if any, has reached it. */
  lemma ExhaustedWhen(c: Context, rec: Subscriber, plan: Plan)
    requires c.rec == Some(rec) && c.PlanOf() == Some(plan) && plan.quotaBytes > 0
    ensures c.req.usageValid ==> (FlagHolds(c, QuotaExhausted) <==> c.req.bytesUsed >= plan.quotaBytes)
    ensures !c.req.usageValid ==> (FlagHolds(c, QuotaExhausted) <==> rec.bytesUsed >= plan.quotaBytes)
  {
  }

  /** A request is at home or roaming, never both; a partner is roaming, a blocked device is known. */
  lemma FlagsExclude(c: Context)
    ensures FlagHolds(c, HomePlmn) <==> !FlagHolds(c, Roaming)
    ensures FlagHolds(c, RoamingPartner) ==> FlagHolds(c, Roaming)
    ensures FlagHolds(c, ImeiBlocked) ==> FlagHolds(c, ImeiKnown)
    ensures c.rec.None? ==> FlagHolds(c, Roaming) && !FlagHolds(c, RoamingPartner) && !FlagHolds(c, RoamingAllowed)
  {
  }

  /** Either the record or the plan allows tethering; the period expires at its reset time; 0 stands for "none". */
  lemma FlagsTurn(c: Context, rec: Subscriber, permille: nat)
    requires c.rec == Some(rec)
    ensures rec.tetheringAllowed ==> FlagHolds(c, TetheringAllowed)
    ensures c.PlanOf().Some? && c.PlanOf().value.tetheringAllowed ==> FlagHolds(c, TetheringAllowed)
    ensures !rec.tetheringAllowed && c.PlanOf().None? ==> !FlagHolds(c, TetheringAllowed)
    ensures c.now == rec.periodResetTs > 0 ==> FlagHolds(c, PeriodExpired)
    ensures c.now < rec.periodResetTs || rec.periodResetTs == 0 || c.now == 0 ==> !FlagHolds(c, PeriodExpired)
    ensures c.req.imei == 0 ==> !FlagHolds(c, ImeiKnown) && !FlagHolds(c, ImeiBlocked)
    ensures c.Quota() == 0 ==> !FlagHolds(c, QuotaExhausted) && !AtomHolds(c, UsageAtLeast(permille))
  {
  }

  /** The status bits follow the status codes; a code beyond them, or no record, is unknown. */
  lemma StatusBitFollowsCode(rec: Subscriber)
    ensures StatusBit(StatusOf(Some(rec))) == 24 + (if rec.status < 3 then rec.status else 3)
    ensures StatusBit(StatusOf(None)) == 27
  {
  }

  /** The guaranteed-bit-rate values of the standard, listed. */
  lemma GbrValues(q: nat)
    ensures IsGbr(q) <==> q in {1, 2, 3, 4, 65, 66, 67, 71, 72, 73, 74, 75, 76}
  {
  }
}
