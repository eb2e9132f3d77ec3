/** From a rule file to a reply: the compiler object, the table it leaves behind, and the engine. */
module PolicyPath {
  import opened Common
  import opened Features
  import opened Rules
  import opened RuleMeaning
  import opened RuleCompiler
  import opened RuleAcceptance
  import RuleEncoding
  import opened PolicySemantics
  import opened CompilerObject
  import opened Engine

  /** The file is accepted. */
  ghost predicate Accepted(n: Names, source: seq<SourceRule>) {
    n.plans != [] && n.Valid() && Acceptable(n, source)
  }

  /** The reply carries the rule's id, reason and verdict, and authorizes what its action says. */
  ghost predicate AnswersFor(d: Decision, version: nat, c: Context, r: SourceRule) {
    && r.id.Some? && r.action.Some? && d.ruleId == r.id.value && d.verdict == r.action.value.verdict
    && Answers(d, version, c, r.id.value, r.action.value.reason, r.action.value)
  }

  /** The reply the source rules call for: the deciding rule's, or the default action's when none applies. */
  ghost predicate CalledFor(
    d: Decision, n: Names, source: seq<SourceRule>, version: nat, defaultAction: Action, c: Context)
  {
    if exists i :: 0 <= i < |source| && Applies(n, c, source[i])
    then exists i: nat :: Decides(n, c, source, i) && AnswersFor(d, version, c, source[i])
    else Answers(d, version, c, 0, 12, defaultAction)
  }

  /** Compile a file and answer one request with what the compiler left behind. */
  method CompileAndEvaluate(
    dnns: seq<string>, plans: seq<string>, source: seq<SourceRule>, version: nat, defaultAction: Action, c: Context)
    returns (r: Option<Decision>)
    ensures r.Some? <==> Accepted(Names(dnns, plans), source)
    ensures r.Some? ==> CalledFor(r.value, Names(dnns, plans), source, version, defaultAction, c)
  {
    if Names(dnns, plans).Valid() { FileAccepted(Names(dnns, plans), source); }
    var compiler := new Compiler();
    var ok := compiler.Compile(dnns, plans, source);
    if !ok { return None; }
    var rs := RuleSet(version, compiler.rules, Tables(compiler.windows, compiler.thresholds), defaultAction);
    ghost var n := Names(dnns, plans);
    assert CompiledFrom(rs, n, source);
    CompiledTablesAreValid(rs, n, source);
    var d := Evaluate(rs, c);
    ghost var f :| IsFeatureWord(f, rs.tables, c) && d == Scanned(rs, c, f);
    SourceRulesAnswer(rs, n, source, c, f, d);
    r := Some(d);
  }

  lemma SourceRulesAnswer(rs: RuleSet, n: Names, source: seq<SourceRule>, c: Context, f: nat, d: Decision)
    requires CompiledFrom(rs, n, source) && IsFeatureWord(f, rs.tables, c) && d == Scanned(rs, c, f)
    ensures CalledFor(d, n, source, rs.version, rs.defaultAction, c)
  {
    DecisionIsTheSourceRules(rs, n, source, c, f);
    if exists i :: 0 <= i < |source| && Applies(n, c, source[i]) {
      var i: nat :| Decides(n, c, source, i);
      FillAnswers(rs.version, c, source[i].id, source[i].action.value);
      assert AnswersFor(d, rs.version, c, source[i]);
    } else {
      FillAnswers(rs.version, c, None, rs.defaultAction);
    }
  }

  lemma CompiledTablesAreValid(rs: RuleSet, n: Names, source: seq<SourceRule>)
    requires CompiledFrom(rs, n, source)
    ensures rs.tables.Valid()
  {
    RuleEncoding.RulesEncode(n, source);
  }
}
