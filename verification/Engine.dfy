/** The request path: building the feature word, scanning the rules, and filling in the decision. */
module Engine {
  import opened Common
  import opened Bits
  import opened Features
  import opened Rules
  import opened RuleMeaning
  import opened RuleCompiler
  import opened RuleEncoding
  import opened RuleOrder
  import opened PolicySemantics

  const VERDICT_DENY: nat := 1
  const REASON_NO_MATCHING_RULE: nat := 12
  const FLAG_USAGE_FROM_REQUEST: nat := 5

  datatype RuleSet = RuleSet(version: nat, rules: seq<CompiledRule>, tables: Tables, defaultAction: Action)

  datatype Decision = Decision(
    seqNo: nat, clientTs: nat, policyVersion: nat, ruleId: nat,
    verdict: nat, reason: nat, redirectId: nat, flags: nat,
    qos5qi: nat, arp: nat, ambrUl: nat, ambrDl: nat, ratingGroup: nat, quotaBytes: nat, quotaValidity: nat)

  // ---------------------------------------------------------------- feature word

  function SetIf(f: nat, b: nat, cond: bool): (r: nat)
    ensures forall k: nat :: TestBit(r, k) <==> TestBit(f, k) || (cond && k == b)
  {
    assert forall k: nat :: TestBit(SetBit(f, b), k) <==> TestBit(f, k) || k == b by {
      forall k: nat ensures TestBit(SetBit(f, b), k) <==> TestBit(f, k) || k == b {
        TestBitOr(f, Pow2(b), k);
        TestBitPow2(b, k);
      }
    }
    if cond then SetBit(f, b) else f
  }

  /** The bits already answered while the word is being built. */
  type Answered = nat -> bool

  /** The answered bits are right, and all others still clear. */
  ghost predicate RightOn(f: nat, t: Tables, c: Context, done: Answered) {
    forall k: nat :: TestBit(f, k) <==> done(k) && AtomAt(t, k).Some? && AtomHolds(c, AtomAt(t, k).value)
  }

  ghost function With(done: Answered, b: nat): Answered { (k: nat) => done(k) || k == b }

  ghost function WithRange(done: Answered, lo: nat, hi: nat): Answered { (k: nat) => done(k) || lo <= k < hi }

  /** Setting a fresh bit to its atom's answer. */
  method Answer(f0: nat, b: nat, cond: bool, ghost t: Tables, ghost c: Context, ghost done: Answered)
    returns (f: nat)
    requires RightOn(f0, t, c, done) && !done(b)
    requires AtomAt(t, b).Some? && (cond <==> AtomHolds(c, AtomAt(t, b).value))
    ensures RightOn(f, t, c, With(done, b))
  {
    f := SetIf(f0, b, cond);
  }

  /** The two one-hot groups. */
  method OneHotBits(t: Tables, c: Context) returns (f: nat)
    ensures RightOn(f, t, c, (k: nat) => k < 24)
  {
    forall k: nat ensures !TestBit(0, k) { TestBitZero(k); }
    f := 0;
    if c.req.rat < RAT_BITS { f := SetIf(f, RAT_BASE + c.req.rat, true); }
    assert RightOn(f, t, c, (k: nat) => k < 8);
    if c.req.dnn < DNN_BITS { f := SetIf(f, DNN_BASE + c.req.dnn, true); }
  }

  /** Device and session bits. */
  method RequestBits(t: Tables, c: Context, f0: nat, ghost done0: Answered)
    returns (f: nat, ghost done: Answered)
    requires RightOn(f0, t, c, done0) && forall b: nat :: 32 <= b < 40 ==> !done0(b)
    ensures RightOn(f, t, c, done)
    ensures forall b: nat :: done(b) <==> done0(b) || b == 32 || b == 33 || b == 34 || b == 36 || b == 39
  {
    var req := c.req;
    f, done := f0, done0;
    f := Answer(f, FlagBit(ImeiKnown), req.imei != 0, t, c, done);
    done := With(done, 32);
    f := Answer(f, FlagBit(ImeiBlocked), req.imei != 0 && req.imei in c.blocklist, t, c, done);
    done := With(done, 33);
    f := Answer(f, FlagBit(TetheringDetected), req.tetheringDetected, t, c, done);
    done := With(done, 34);
    f := Answer(f, FlagBit(Emergency), req.emergency, t, c, done);
    done := With(done, 36);
    f := Answer(f, FlagBit(RequestedGbr), IsGbr(req.requested5qi), t, c, done);
    done := With(done, 39);
  }

  method WindowBits(t: Tables, c: Context, f0: nat, ghost done: Answered) returns (f: nat)
    requires t.Valid() && RightOn(f0, t, c, done) && forall b: nat :: 40 <= b < 48 ==> !done(b)
    ensures RightOn(f, t, c, WithRange(done, 40, 48))
  {
    f := f0;
    var minute := c.req.localMinute % MINUTES_PER_DAY;
    for i := 0 to |t.windows|
      invariant RightOn(f, t, c, WithRange(done, 40, 40 + i))
    {
      f := SetIf(f, WINDOW_BASE + i, t.windows[i].Contains(minute));
    }
  }

  method ThresholdBits(t: Tables, c: Context, f0: nat, ghost done: Answered) returns (f: nat)
    requires t.Valid() && c.rec.Some? && RightOn(f0, t, c, done) && forall b: nat :: 48 <= b < 56 ==> !done(b)
    ensures RightOn(f, t, c, WithRange(done, 48, 56))
  {
    f := f0;
    var usage, quota := c.Usage(), c.Quota();
    for i := 0 to |t.thresholds|
      invariant RightOn(f, t, c, WithRange(done, 48, 48 + i))
    {
      f := SetIf(f, THRESHOLD_BASE + i, quota != 0 && usage * 1000 >= quota * t.thresholds[i]);
    }
  }

  /** Exactly one of the four status bits. */
  method StatusBits(t: Tables, c: Context, f0: nat, ghost done: Answered) returns (f: nat)
    requires RightOn(f0, t, c, done) && forall b: nat :: 24 <= b < 28 ==> !done(b)
    ensures RightOn(f, t, c, WithRange(done, 24, 28))
  {
    f := SetIf(f0, StatusBit(StatusOf(c.rec)), true);
  }

  /** Location bits. */
  method LocationBits(t: Tables, c: Context, f0: nat, ghost done0: Answered)
    returns (f: nat, ghost done: Answered)
    requires c.rec.Some? && RightOn(f0, t, c, done0) && forall b: nat :: 28 <= b < 32 ==> !done0(b)
    ensures RightOn(f, t, c, done)
    ensures forall b: nat :: done(b) <==> done0(b) || 28 <= b < 32
  {
    var req, rec := c.req, c.rec.value;
    f, done := f0, done0;
    var home := req.plmn == rec.homePlmn;
    f := Answer(f, FlagBit(HomePlmn), home, t, c, done);
    done := With(done, 28);
    f := Answer(f, FlagBit(Roaming), !home, t, c, done);
    done := With(done, 29);
    f := Answer(f, FlagBit(RoamingPartner), !home && req.plmn in c.partners, t, c, done);
    done := With(done, 30);
    f := Answer(f, FlagBit(RoamingAllowed), rec.roamingAllowed, t, c, done);
    done := With(done, 31);
  }

  /** Entitlement, quota and period bits. */
  method EntitlementBits(t: Tables, c: Context, f0: nat, ghost done0: Answered)
    returns (f: nat, ghost done: Answered)
    requires c.rec.Some? && RightOn(f0, t, c, done0) && !done0(35) && !done0(37) && !done0(38)
    ensures RightOn(f, t, c, done)
    ensures forall b: nat :: done(b) <==> done0(b) || b == 35 || b == 37 || b == 38
  {
    var rec := c.rec.value;
    f, done := f0, done0;
    var plan := c.PlanOf();
    var planTethering := plan.Some? && plan.value.tetheringAllowed;
    f := Answer(f, FlagBit(TetheringAllowed), planTethering || rec.tetheringAllowed, t, c, done);
    done := With(done, 35);
    f := Answer(f, FlagBit(QuotaExhausted), c.Quota() != 0 && c.Usage() >= c.Quota(), t, c, done);
    done := With(done, 37);
    var expired := c.now != 0 && rec.periodResetTs != 0 && c.now >= rec.periodResetTs;
    f := Answer(f, FlagBit(PeriodExpired), expired, t, c, done);
    done := With(done, 38);
  }

  /** An unknown subscriber answers no to every subscriber question but these two. */
  lemma UnknownSubscriber(t: Tables, c: Context, k: nat)
    requires c.rec.None? && AtomAt(t, k).Some?
    requires (28 <= k < 32 && k != 29) || k == 35 || k == 37 || k == 38 || 48 <= k < 56
    ensures !AtomHolds(c, AtomAt(t, k).value)
  {
  }

  /** Every bit of the word answers its atom, for every request, record and clock. */
  method BuildFeatures(t: Tables, c: Context) returns (f: nat)
    requires t.Valid()
    ensures IsFeatureWord(f, t, c)
  {
    f := OneHotBits(t, c);
    ghost var done: Answered := (k: nat) => k < 24;
    f, done := RequestBits(t, c, f, done);
    f := WindowBits(t, c, f, done);
    done := WithRange(done, 40, 48);
    f := StatusBits(t, c, f, done);
    done := WithRange(done, 24, 28);
    if c.rec.None? {
      f := Answer(f, FlagBit(Roaming), true, t, c, done);
      done := With(done, 29);
      forall k: nat | AtomAt(t, k).Some? && !done(k) ensures !AtomHolds(c, AtomAt(t, k).value) {
        UnknownSubscriber(t, c, k);
      }
      return;
    }
    f, done := LocationBits(t, c, f, done);
    f, done := EntitlementBits(t, c, f, done);
    f := ThresholdBits(t, c, f, done);
    done := WithRange(done, 48, 56);
    assert forall k: nat | AtomAt(t, k).Some? :: done(k);
  }

  lemma FeatureWordIsUnique(f: nat, g: nat, t: Tables, c: Context)
    requires IsFeatureWord(f, t, c) && IsFeatureWord(g, t, c)
    ensures f == g
  {
    EqualByBits(f, g);
  }

  // ---------------------------------------------------------------- decision

  /** The reply for a request decided by `act`; `hit` tells a rule from the default action. */
  function Fill(version: nat, c: Context, hit: Option<nat>, act: Action): Decision {
    var plan := c.PlanOf();
    var left := if plan.Some? && plan.value.quotaBytes > c.Usage() then plan.value.quotaBytes - c.Usage() else 0;
    var deny := act.verdict == VERDICT_DENY;
    Decision(
      c.req.seqNo, c.req.clientTs, version, if hit.Some? then hit.value else 0,
      act.verdict, if hit.Some? then act.reason else REASON_NO_MATCHING_RULE, act.redirectId,
      if c.req.usageValid then SetBit(act.setFlags, FLAG_USAGE_FROM_REQUEST) else act.setFlags,
      if deny then 0 else if act.inheritQos && plan.Some? then plan.value.qos5qi else act.qos5qi,
      if deny then 0 else if act.inheritQos && plan.Some? then plan.value.arp else act.arp,
      if deny then 0 else if act.inheritAmbr && plan.Some? then plan.value.ambrUl else act.ambrUl,
      if deny then 0 else if act.inheritAmbr && plan.Some? then plan.value.ambrDl else act.ambrDl,
      if act.inheritRatingGroup && plan.Some? then plan.value.ratingGroup else act.ratingGroup,
      if deny then 0 else if act.inheritQuota && plan.Some? then left else act.quotaBytes,
      if deny then 0 else if act.inheritQuota && plan.Some? then plan.value.quotaValidity else act.quotaValidity)
  }

  /** Feature word, first-match scan and field-by-field decision. */
  method Evaluate(rs: RuleSet, c: Context) returns (d: Decision)
    requires rs.tables.Valid()
    ensures exists f :: IsFeatureWord(f, rs.tables, c) && d == Scanned(rs, c, f)
  {
    var f := BuildFeatures(rs.tables, c);
    var i := FindRow(rs.rules, f, PlanBit(c.rec));
    if i < |rs.rules| {
      d := Decide(rs.version, c, Some(rs.rules[i].id), rs.rules[i].action);
    } else {
      d := Decide(rs.version, c, None, rs.defaultAction);
    }
    assert d == Scanned(rs, c, f);
  }

  /** The scan. */
  method FindRow(rules: seq<CompiledRule>, f: nat, planBit: nat) returns (i: nat)
    ensures FirstHit(rules, f, planBit) == if i < |rules| then Some(i) else None
  {
    i := 0;
    while i < |rules| && !RowMatches(f, planBit, rules[i])
      invariant i <= |rules|
      invariant forall k | 0 <= k < i :: !RowMatches(f, planBit, rules[k])
    {
      i := i + 1;
    }
  }

  /** The reply, field by field: the rule's value, or the plan's where the rule inherits. */
  method Decide(version: nat, c: Context, hit: Option<nat>, act: Action) returns (d: Decision)
    ensures d == Fill(version, c, hit, act)
  {
    var plan := c.PlanOf();
    var ruleId, reason := 0, REASON_NO_MATCHING_RULE;
    if hit.Some? { ruleId, reason := hit.value, act.reason; }

    var qos, arp := act.qos5qi, act.arp;
    if act.inheritQos && plan.Some? { qos, arp := plan.value.qos5qi, plan.value.arp; }
    var ul, dl := act.ambrUl, act.ambrDl;
    if act.inheritAmbr && plan.Some? { ul, dl := plan.value.ambrUl, plan.value.ambrDl; }
    var group := if act.inheritRatingGroup && plan.Some? then plan.value.ratingGroup else act.ratingGroup;
    var quota, validity := act.quotaBytes, act.quotaValidity;
    if act.inheritQuota && plan.Some? {
      quota := if plan.value.quotaBytes > c.Usage() then plan.value.quotaBytes - c.Usage() else 0;
      validity := plan.value.quotaValidity;
    }
    var flags := act.setFlags;
    if c.req.usageValid { flags := SetBit(flags, FLAG_USAGE_FROM_REQUEST); }
    if act.verdict == VERDICT_DENY {
      ul, dl, quota, validity, qos, arp := 0, 0, 0, 0, 0, 0;
    }
    d := Decision(c.req.seqNo, c.req.clientTs, version, ruleId, act.verdict, reason, act.redirectId, flags,
                  qos, arp, ul, dl, group, quota, validity);
  }

  function Scanned(rs: RuleSet, c: Context, f: nat): Decision {
    match FirstHit(rs.rules, f, PlanBit(c.rec))
    case None => Fill(rs.version, c, None, rs.defaultAction)
    case Some(h) => Fill(rs.version, c, Some(rs.rules[h].id), rs.rules[h].action)
  }

  // ---------------------------------------------------------------- end to end

  /** The rule set is what the compiler makes of these names and rules. */
  ghost predicate CompiledFrom(rs: RuleSet, n: Names, source: seq<SourceRule>) {
    && n.Valid() && CompileRules(n, source).Some?
    && rs.tables == CompileRules(n, source).value.tables
    && rs.rules == StableSort(Flatten(CompileRules(n, source).value.groups))
  }

  /** The whole path, source file to reply: the reply is the one the deciding source rule calls for, under the
      direct reading of the rules, or the default action's when no rule applies. */
  lemma DecisionIsTheSourceRules(rs: RuleSet, n: Names, source: seq<SourceRule>, c: Context, f: nat)
    requires CompiledFrom(rs, n, source) && IsFeatureWord(f, rs.tables, c)
    ensures rs.tables.Valid()
    ensures forall i: nat | Decides(n, c, source, i) ::
              && source[i].id.Some? && source[i].action.Some?
              && Scanned(rs, c, f) == Fill(rs.version, c, source[i].id, source[i].action.value)
    ensures (forall i | 0 <= i < |source| :: !Applies(n, c, source[i])) ==>
              Scanned(rs, c, f) == Fill(rs.version, c, None, rs.defaultAction)
    ensures (exists i :: 0 <= i < |source| && Applies(n, c, source[i])) ==> exists i: nat :: Decides(n, c, source, i)
  {
    RulesEncode(n, source);
    CompiledPolicyIsCorrect(n, c, source, f);
    forall i: nat, j: nat | Decides(n, c, source, i) && Decides(n, c, source, j) ensures i == j {
      DecidingRuleIsUnique(n, c, source, i, j);
    }
  }

  // ---------------------------------------------------------------- what a reply says

  /** The field is the plan's where the rule inherits it and there is a plan, else the rule's. */
  ghost predicate TakenFrom(field: nat, inherited: bool, plan: Option<Plan>, ofPlan: Plan -> nat, ofRule: nat) {
    if inherited && plan.Some? then field == ofPlan(plan.value) else field == ofRule
  }

  /** What is left of the plan's quota when the rule inherits it, else the rule's grant. */
  ghost predicate Grants(d: Decision, c: Context, act: Action) {
    if act.inheritQuota && c.PlanOf().Some?
    then if c.PlanOf().value.quotaBytes > c.Usage()
         then d.quotaBytes + c.Usage() == c.PlanOf().value.quotaBytes
         else d.quotaBytes == 0
    else d.quotaBytes == act.quotaBytes
  }

  /** The authorization: nothing in a denial, else each field from its own source. */
  ghost predicate Authorizes(d: Decision, c: Context, act: Action) {
    if act.verdict == 1
    then d.qos5qi == d.arp == d.ambrUl == d.ambrDl == d.quotaBytes == d.quotaValidity == 0
    else
      && TakenFrom(d.qos5qi, act.inheritQos, c.PlanOf(), (p: Plan) => p.qos5qi, act.qos5qi)
      && TakenFrom(d.arp, act.inheritQos, c.PlanOf(), (p: Plan) => p.arp, act.arp)
      && TakenFrom(d.ambrUl, act.inheritAmbr, c.PlanOf(), (p: Plan) => p.ambrUl, act.ambrUl)
      && TakenFrom(d.ambrDl, act.inheritAmbr, c.PlanOf(), (p: Plan) => p.ambrDl, act.ambrDl)
      && TakenFrom(d.quotaValidity, act.inheritQuota, c.PlanOf(), (p: Plan) => p.quotaValidity, act.quotaValidity)
      && Grants(d, c, act)
  }

  /** The reply of version `version` to the request, decided by `act` of the rule `id` for `reason`. */
  ghost predicate Answers(d: Decision, version: nat, c: Context, id: nat, reason: nat, act: Action) {
    && (d.seqNo, d.clientTs, d.policyVersion) == (c.req.seqNo, c.req.clientTs, version)
    && (d.ruleId, d.reason, d.verdict, d.redirectId) == (id, reason, act.verdict, act.redirectId)
    && (forall k: nat :: TestBit(d.flags, k) <==> TestBit(act.setFlags, k) || (k == 5 && c.req.usageValid))
    && TakenFrom(d.ratingGroup, act.inheritRatingGroup, c.PlanOf(), (p: Plan) => p.ratingGroup, act.ratingGroup)
    && Authorizes(d, c, act)
  }

  /** Every reply that is filled in answers, for every action, denials included. */
  lemma FillAnswers(version: nat, c: Context, hit: Option<nat>, act: Action)
    ensures var d := Fill(version, c, hit, act);
            if hit.Some? then Answers(d, version, c, hit.value, act.reason, act)
            else Answers(d, version, c, 0, 12, act)
  {
    if c.req.usageValid {
      forall k: nat
        ensures TestBit(SetBit(act.setFlags, FLAG_USAGE_FROM_REQUEST), k) <==> TestBit(act.setFlags, k) || k == 5
      {
        TestBitOr(act.setFlags, Pow2(FLAG_USAGE_FROM_REQUEST), k);
        TestBitPow2(FLAG_USAGE_FROM_REQUEST, k);
      }
    }
  }

  /** And only one reply does. */
  lemma OneAnswer(d: Decision, e: Decision, version: nat, c: Context, id: nat, reason: nat, act: Action)
    requires Answers(d, version, c, id, reason, act) && Answers(e, version, c, id, reason, act)
    ensures d == e
  {
    EqualByBits(d.flags, e.flags);
  }
}
