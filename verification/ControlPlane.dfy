/**
 Hot reload: version assignment, the plan-prefix check and the reload counters.

 Reloads hold one mutex, so a run is a sequence of whole calls. What the compiler makes of the file each time
 is an input. Version numbers are 32-bit and come from a counter that every compilation advances.
 */
module ControlPlane {
  import opened Common

  datatype RuleSet = RuleSet(version: nat, planNames: seq<string>)

  /** The compiler's verdict on the rules file; `Compiled` carries the plan names it declares. */
  datatype Outcome = Rejected | Compiled(planNames: seq<string>)

  /** `published` is every rule set that ever went live with the number of the compilation it came from. */
  datatype Control = Control(
    live: Option<RuleSet>,
    nextVersion: nat,
    attempts: nat,
    successes: nat,
    failures: nat,
    currentVersion: nat,
    compilations: nat,
    published: seq<(nat, RuleSet)>)

  datatype Event = Initialize(outcome: Outcome) | Reload(outcome: Outcome)

  const START := Control(None, 1, 0, 0, 0, 0, 0, [])

  function Publish(s: Control, names: seq<string>): Control {
    var rs := RuleSet(s.nextVersion, names);
    s.(live := Some(rs), currentVersion := rs.version, published := s.published + [(s.compilations, rs)])
  }

  function Compile(s: Control): Control {
    s.(nextVersion := (s.nextVersion + 1) % U32, compilations := s.compilations + 1)
  }

  /** One call; `initialize()` sets the counters rather than advancing them. */
  function Apply(s: Control, e: Event): Control {
    match e
    case Initialize(Rejected) => Compile(s)
    case Initialize(Compiled(names)) =>
      Compile(Publish(s, names)).(attempts := 1, successes := 1)
    case Reload(Rejected) => Compile(s).(attempts := s.attempts + 1, failures := s.failures + 1)
    case Reload(Compiled(names)) =>
      if s.live.Some? && !(s.live.value.planNames <= names) then
        Compile(s).(attempts := s.attempts + 1, failures := s.failures + 1)
      else
        Compile(Publish(s, names)).(attempts := s.attempts + 1, successes := s.successes + 1)
  }

  /** The service initializes once, before anything else, and only reloads afterwards. */
  predicate WellOrdered(events: seq<Event>) {
    forall i | 0 <= i < |events| :: events[i].Initialize? <==> i == 0
  }

  function Run(events: seq<Event>): Control {
    if events == [] then START else Apply(Run(events[..|events| - 1]), events[|events| - 1])
  }

  // ---------------------------------------------------------------- what every run keeps

  predicate Consistent(s: Control) {
    && s.attempts == s.successes + s.failures
    && |s.published| == s.successes
    && s.nextVersion == (1 + s.compilations) % U32
    && (s.live.None? <==> s.published == [])
    && (s.live.Some? ==>
          s.live.value == s.published[|s.published| - 1].1 && s.currentVersion == s.live.value.version)
  }

  predicate Chained(s: Control) {
    && (forall i | 0 <= i < |s.published| ::
          && s.published[i].0 < s.compilations
          && s.published[i].1.version == (1 + s.published[i].0) % U32)
    && (forall i, j | 0 <= i < j < |s.published| ::
          && s.published[i].0 < s.published[j].0
          && s.published[i].1.planNames <= s.published[j].1.planNames)
  }

  /** Publishing extends the chain by one, provided the plan names extend the live ones. */
  lemma PublishKeepsChain(s: Control, names: seq<string>)
    requires Consistent(s) && Chained(s)
    requires s.live.Some? ==> s.live.value.planNames <= names
    ensures Chained(Compile(Publish(s, names)))
  {
    var p := s.published;
    forall i | 0 <= i < |p| ensures p[i].1.planNames <= names {
      if i < |p| - 1 { PrefixTransitive(p[i].1.planNames, p[|p| - 1].1.planNames, names); }
    }
  }

  lemma PrefixTransitive(a: seq<string>, b: seq<string>, c: seq<string>)
    requires a <= b <= c
    ensures a <= c
  {
  }

  lemma ApplyKeepsChain(s: Control, e: Event)
    requires Consistent(s) && Chained(s)
    requires e.Initialize? ==> s.live.None?
    ensures Chained(Apply(s, e))
  {
    if e.outcome.Compiled? && (s.live.Some? ==> s.live.value.planNames <= e.outcome.planNames) {
      PublishKeepsChain(s, e.outcome.planNames);
    }
  }

  lemma ApplyKeepsCounters(s: Control, e: Event)
    requires Consistent(s)
    requires e.Initialize? ==> s.attempts == 0 && s.published == []
    ensures Consistent(Apply(s, e))
  {
    NextVersionWraps(s.compilations);
  }

  lemma ApplyKeeps(s: Control, e: Event)
    requires Consistent(s) && Chained(s)
    requires e.Initialize? ==> s.attempts == 0
    ensures Consistent(Apply(s, e)) && Chained(Apply(s, e))
  {
    assert s.attempts == 0 ==> |s.published| == 0;
    ApplyKeepsChain(s, e);
    ApplyKeepsCounters(s, e);
  }

  lemma NextVersionWraps(k: nat)
    ensures ((1 + k) % U32 + 1) % U32 == (1 + (k + 1)) % U32
  {
  }

  /** Counters, live version and the chain of published rule sets, over every run. */
  lemma {:induction false} RunsStayConsistent(events: seq<Event>)
    requires WellOrdered(events)
    ensures Consistent(Run(events)) && Chained(Run(events))
    decreases |events|
  {
    if events != [] {
      RunsStayConsistent(events[..|events| - 1]);
      ApplyKeeps(Run(events[..|events| - 1]), events[|events| - 1]);
    }
  }

  /** A plan id stored while one rule set was live names the same plan under every later one. */
  lemma PlanIdsAreStable(events: seq<Event>, i: nat, j: nat, id: nat)
    requires WellOrdered(events) && i <= j < |Run(events).published|
    requires id < |Run(events).published[i].1.planNames|
    ensures id < |Run(events).published[j].1.planNames|
    ensures Run(events).published[j].1.planNames[id] == Run(events).published[i].1.planNames[id]
  {
    RunsStayConsistent(events);
    if i < j {
      assert Run(events).published[i].1.planNames <= Run(events).published[j].1.planNames;
    }
  }

  /** A failed reload changes nothing but the counters, and says so by exactly one failure. */
  lemma FailedReloadKeepsLive(s: Control, outcome: Outcome)
    ensures var s' := Apply(s, Reload(outcome));
            if s'.failures == s.failures then
              && s'.successes == s.successes + 1
              && outcome.Compiled? && s'.live.Some? && s'.live.value.planNames == outcome.planNames
            else
              && s'.failures == s.failures + 1 && s'.successes == s.successes
              && s'.live == s.live && s'.currentVersion == s.currentVersion && s'.published == s.published
  {
  }

  /** Every plan keeps its position; new ones come behind. */
  predicate KeepsPlans(names: seq<string>, live: seq<string>) {
    |live| <= |names| && forall i | 0 <= i < |live| :: names[i] == live[i]
  }

  /** A file that compiles goes live, under the next version, if and only if nothing is live or it keeps the plans. */
  lemma PublishedIff(s: Control, names: seq<string>)
    ensures var t := Apply(s, Reload(Compiled(names)));
            var keeps := s.live.None? || KeepsPlans(names, s.live.value.planNames);
            && (t.live.Some? && t.live.value.planNames == names <==> keeps)
            && t.published == (if keeps then s.published + [(s.compilations, RuleSet(s.nextVersion, names))]
                               else s.published)
            && t.currentVersion == (if keeps then s.nextVersion else s.currentVersion)
    ensures var t := Apply(s, Initialize(Compiled(names)));
            t.live == Some(RuleSet(s.nextVersion, names)) && t.currentVersion == s.nextVersion
  {
    if s.live.Some? {
      var live := s.live.value.planNames;
      assert KeepsPlans(names, live) ==> live == names[..|live|];
    }
  }

  /** Published versions strictly increase as long as the counter has not wrapped. */
  lemma VersionsIncrease(events: seq<Event>, i: nat, j: nat)
    requires WellOrdered(events) && |events| < U32
    requires i < j < |Run(events).published|
    ensures Run(events).published[i].1.version < Run(events).published[j].1.version
  {
    RunsStayConsistent(events);
    CompilationsCounted(events);
  }

  lemma {:induction false} CompilationsCounted(events: seq<Event>)
    ensures Run(events).compilations == |events|
    decreases |events|
  {
    if events != [] { CompilationsCounted(events[..|events| - 1]); }
  }

  /** The exact condition: of two rule sets published less than 2^32 compilations apart, the later one has
      the larger version just when the counter did not wrap between them. */
  lemma VersionOrder(events: seq<Event>, i: nat, j: nat)
    requires WellOrdered(events) && i < j < |Run(events).published|
    requires Run(events).published[j].0 - Run(events).published[i].0 < U32
    ensures Run(events).published[i].1.version < Run(events).published[j].1.version
       <==> (1 + Run(events).published[i].0) / U32 == (1 + Run(events).published[j].0) / U32
  {
    RunsStayConsistent(events);
    var a, b := 1 + Run(events).published[i].0, 1 + Run(events).published[j].0;
    assert a == U32 * (a / U32) + a % U32;
    assert b == U32 * (b / U32) + b % U32;
  }

  /** One initialization and then reloads of the same good file, `n` calls in all. */
  function Steady(n: nat, names: seq<string>): (events: seq<Event>)
    ensures |events| == n && WellOrdered(events)
  {
    seq(n, k => if k == 0 then Initialize(Compiled(names)) else Reload(Compiled(names)))
  }

  lemma {:induction false} SteadyPublishesAll(n: nat, names: seq<string>)
    ensures var s := Run(Steady(n, names));
            && |s.published| == n
            && (forall i | 0 <= i < n :: s.published[i].0 == i)
            && (n > 0 ==> s.live == Some(s.published[n - 1].1) && s.live.value.planNames == names)
  {
    if n > 0 {
      assert Steady(n, names)[..n - 1] == Steady(n - 1, names);
      SteadyPublishesAll(n - 1, names);
      CompilationsCounted(Steady(n - 1, names));
    }
  }

  /** The wrap is reachable: 2^32 good calls publish version 0 right after version 0xFFFFFFFF. */
  lemma VersionWraps(names: seq<string>)
    ensures var p := Run(Steady(U32, names)).published;
            && |p| == U32
            && p[U32 - 2].1.version == U32 - 1
            && p[U32 - 1].1.version == 0
  {
    SteadyPublishesAll(U32, names);
    RunsStayConsistent(Steady(U32, names));
  }

  // ---------------------------------------------------------------- the object

  /** The control plane's state and calls; each is the corresponding step of the run above. */
  class Plane {
    var live: Option<RuleSet>
    var nextVersion: nat
    var attempts: nat
    var successes: nat
    var failures: nat
    var currentVersion: nat
    ghost var compilations: nat
    ghost var published: seq<(nat, RuleSet)>

    ghost function State(): Control
      reads this
    {
      Control(live, nextVersion, attempts, successes, failures, currentVersion, compilations, published)
    }

    constructor ()
      ensures State() == START && Consistent(State()) && Chained(State())
    {
      live, nextVersion := None, 1;
      attempts, successes, failures, currentVersion := 0, 0, 0, 0;
      compilations, published := 0, [];
    }

    method TakeVersion() returns (v: nat)
      modifies this
      ensures v == old(nextVersion) && State() == Compile(old(State()))
    {
      v := nextVersion;
      nextVersion := (nextVersion + 1) % U32;
      compilations := compilations + 1;
    }

    method GoLive(rs: RuleSet)
      requires compilations > 0
      modifies this
      ensures State() == old(State()).(live := Some(rs), currentVersion := rs.version,
                                       published := old(published) + [(old(compilations) - 1, rs)])
    {
      live, currentVersion := Some(rs), rs.version;
      published := published + [(compilations - 1, rs)];
    }

    /** `initialize()`: compile, and on success publish version 1 and set the counters. */
    method InitializeRules(outcome: Outcome) returns (ok: bool)
      requires attempts == 0 && Consistent(State()) && Chained(State())
      modifies this
      ensures State() == Apply(old(State()), Initialize(outcome))
      ensures ok <==> outcome.Compiled?
      ensures Consistent(State()) && Chained(State())
    {
      ApplyKeeps(State(), Initialize(outcome));
      var v := TakeVersion();
      match outcome
      case Rejected => ok := false;
      case Compiled(names) =>
        GoLive(RuleSet(v, names));
        attempts, successes := 1, 1;
        ok := true;
    }

    /** `reload_rules()`: refuse a broken file or one that moves a plan, otherwise swap it in. */
    method ReloadRules(outcome: Outcome) returns (ok: bool)
      requires Consistent(State()) && Chained(State())
      modifies this
      ensures State() == Apply(old(State()), Reload(outcome))
      ensures ok <==> outcome.Compiled? && (old(live).Some? ==> old(live).value.planNames <= outcome.planNames)
      ensures Consistent(State()) && Chained(State())
    {
      ghost var before := State();
      ApplyKeeps(before, Reload(outcome));
      attempts := attempts + 1;
      var v := TakeVersion();
      match outcome
      case Rejected =>
        failures := failures + 1;
        ok := false;
      case Compiled(names) =>
        var kept := true;
        if live.Some? {
          kept := PlansKept(live.value.planNames, names);
        }
        if kept {
          GoLive(RuleSet(v, names));
          successes := successes + 1;
          ok := true;
        } else {
          failures := failures + 1;
          ok := false;
        }
    }

    /** The position-by-position comparison of plan names. */
    method PlansKept(oldNames: seq<string>, newNames: seq<string>) returns (kept: bool)
      ensures kept <==> oldNames <= newNames
    {
      var i := 0;
      while i < |oldNames|
        invariant 0 <= i <= |oldNames| && i <= |newNames|
        invariant oldNames[..i] == newNames[..i]
      {
        if i >= |newNames| || newNames[i] != oldNames[i] {
          return false;
        }
        i := i + 1;
      }
      return true;
    }
  }
}
