/**
 The deployed domain as one machine: threads register, read, unregister and register again while the writer
 publishes and scans, and the control plane reads the last three slots by index without registering.

 A compare-and-swap drains the thread's own store buffer, and the store that releases a slot leaves the buffer after
 every store to that slot's epoch.
 */
module RcuDeployment {
  import opened Common
  import R = RcuRegistry
  import P = RcuProtocol
  import RcuNecessity

  /** The control plane's readers by index. */
  const BY_INDEX: nat := 3

  /** The control plane sizes the domain at worker threads plus four. */
  function DomainSlots(workers: nat): nat { workers + 4 }

  /** Readers 0, 1, ... are the threads; the last three are the control plane's. */
  datatype State = State(g: R.Registry, s: P.State) {
    predicate Shaped(workers: nat, threads: nat) {
      && R.Bounded(g) && |g.inUse| == DomainSlots(workers) && |g.callers| == threads
      && |s.slots| == DomainSlots(workers) && |s.readers| == |s.buffers| == threads + BY_INDEX
    }
  }

  /** The slot a reader uses, or used last. */
  function SlotOf(g: R.Registry, r: nat): nat
    requires |g.inUse| >= BY_INDEX
  {
    if r < |g.callers| then (if R.Owns(g.callers[r]) then g.callers[r].slot else 0)
    else if r < |g.callers| + BY_INDEX then |g.inUse| - 1 - (r - |g.callers|) else 0
  }

  function ConfigOf(g: R.Registry): (c: P.Config)
    requires R.Bounded(g) && |g.inUse| >= BY_INDEX
    ensures c.WellFormed() && c.slots == |g.inUse| && |c.slotOf| == |g.callers| + BY_INDEX && c.fenced
    ensures forall r | 0 <= r < |c.slotOf| :: c.slotOf[r] == SlotOf(g, r)
  {
    P.Config(|g.inUse|, seq(|g.callers| + BY_INDEX, r requires 0 <= r < |g.callers| + BY_INDEX => SlotOf(g, r)), true)
  }

  datatype Step = Reg(reg: R.Step) | Core(core: P.Step)

  function Init(workers: nat, threads: nat): (d: State)
    ensures d.Shaped(workers, threads)
  {
    var g := R.Init(DomainSlots(workers), threads);
    State(g, P.Init(ConfigOf(g)))
  }

  /** `read()` is for registered threads and for the control plane. */
  predicate MayRead(g: R.Registry, r: nat) { r >= |g.callers| || g.callers[r].Registered? }

  predicate Enabled(workers: nat, threads: nat, d: State, step: Step)
    requires d.Shaped(workers, threads)
  {
    match step
    case Reg(reg) =>
      && R.Enabled(d.g, reg)
      && (reg.TrySlot? || reg.Release? ==> d.s.buffers[reg.t] == [])
      && (reg.Unregister? ==> d.s.readers[reg.t].Outside?)
    case Core(core) =>
      P.Enabled(ConfigOf(d.g), d.s, core) && (core.LoadEpoch? ==> MayRead(d.g, core.r))
  }

  function Next(workers: nat, threads: nat, d: State, step: Step): (d': State)
    requires d.Shaped(workers, threads) && Enabled(workers, threads, d, step)
    ensures d'.Shaped(workers, threads) && d.g.calls <= d'.g.calls
  {
    match step
    case Reg(reg) => State(R.Next(d.g, reg), if reg.Unregister? then Quiesce(d.s, reg.t) else d.s)
    case Core(core) => d.(s := P.Next(ConfigOf(d.g), d.s, core))
  }

  /** The first store of `unregister_reader`. */
  function Quiesce(s: P.State, t: nat): P.State
    requires t < |s.buffers|
  {
    s.(buffers := s.buffers[t := s.buffers[t] + [P.QUIESCENT]])
  }

  function Final(workers: nat, threads: nat, steps: seq<Step>): (d: Option<State>)
    ensures d.Some? ==> d.value.Shaped(workers, threads)
  {
    if steps == [] then Some(Init(workers, threads))
    else
      match Final(workers, threads, steps[..|steps| - 1])
      case None => None
      case Some(d) =>
        var last := steps[|steps| - 1];
        if Enabled(workers, threads, d, last) then Some(Next(workers, threads, d, last)) else None
  }

  // ---------------------------------------------------------------- invariant

  /** A thread without a slot is outside and has nothing on the way; one that is leaving is outside. */
  predicate IdleWithoutSlot(d: State)
    requires |d.g.callers| <= |d.s.readers| == |d.s.buffers|
  {
    forall t | 0 <= t < |d.g.callers| ::
      && (!R.Owns(d.g.callers[t]) ==> !P.Busy(d.s, t))
      && (!d.g.callers[t].Registered? ==> d.s.readers[t].Outside?)
  }

  ghost predicate Invariant(workers: nat, threads: nat, d: State)
    requires d.Shaped(workers, threads)
  {
    R.Invariant(d.g) && IdleWithoutSlot(d) && P.Invariant(ConfigOf(d.g), d.s)
  }

  /** Few threads, or few registrations so far. */
  predicate Few(workers: nat, threads: nat, calls: nat) { threads <= workers + 1 || calls <= workers + 1 }

  /** With few threads, however often they register, slots stay below those read by index: busy readers are apart. */
  lemma BusyReadersAreApart(workers: nat, threads: nat, d: State)
    requires d.Shaped(workers, threads) && R.Invariant(d.g) && IdleWithoutSlot(d) && Few(workers, threads, d.g.calls)
    ensures P.Apart(ConfigOf(d.g), d.s)
  {
    var c := ConfigOf(d.g);
    forall r, q | 0 <= r < q < |d.s.readers| && P.Busy(d.s, r) && P.Busy(d.s, q)
      ensures c.slotOf[r] != c.slotOf[q]
    {
      if r < threads {
        assert R.Owns(d.g.callers[r]);
        R.OwnedBelowThreads(d.g, r);
      }
      if q < threads { assert R.Owns(d.g.callers[q]); }
    }
  }

  /** A reader that is outside may change its slot, and a store of it may be on the way. */
  lemma OutsideMayMove(c: P.Config, c': P.Config, s: P.State, s': P.State, t: nat, b: seq<nat>)
    requires c.WellFormed() && c'.WellFormed() && P.Shaped(c, s) && c'.slots == c.slots && |c'.slotOf| == |c.slotOf|
    requires t < |s.readers| && s.readers[t].Outside?
    requires forall r | 0 <= r < |c.slotOf| && r != t :: c'.slotOf[r] == c.slotOf[r]
    requires s' == s.(buffers := s.buffers[t := b])
    requires P.Invariant(c, s)
    ensures P.Shaped(c', s') && P.Invariant(c', s')
  {
    assert forall p: nat :: P.Places(s', p) == P.Places(s, p);
  }

  lemma RegKeepsInvariant(workers: nat, threads: nat, d: State, reg: R.Step)
    requires d.Shaped(workers, threads) && Invariant(workers, threads, d)
    requires Enabled(workers, threads, d, Reg(reg))
    ensures Invariant(workers, threads, Next(workers, threads, d, Reg(reg)))
  {
    var d' := Next(workers, threads, d, Reg(reg));
    R.StepKeepsInvariant(d.g, reg);
    var b := d'.s.buffers[reg.t];
    assert d'.s == d.s.(buffers := d.s.buffers[reg.t := b]);
    OutsideMayMove(ConfigOf(d.g), ConfigOf(d'.g), d.s, d'.s, reg.t, b);
  }

  lemma CoreKeepsIdle(workers: nat, threads: nat, d: State, core: P.Step)
    requires d.Shaped(workers, threads) && IdleWithoutSlot(d)
    requires Enabled(workers, threads, d, Core(core))
    ensures IdleWithoutSlot(Next(workers, threads, d, Core(core)))
  {
  }

  lemma {:induction false} InvariantHolds(workers: nat, threads: nat, steps: seq<Step>)
    requires Final(workers, threads, steps).Some?
    requires Few(workers, threads, Final(workers, threads, steps).value.g.calls)
    ensures Invariant(workers, threads, Final(workers, threads, steps).value)
    decreases |steps|
  {
    if steps == [] {
      R.InitInvariant(DomainSlots(workers), threads);
    } else {
      var prefix, last := steps[..|steps| - 1], steps[|steps| - 1];
      InvariantHolds(workers, threads, prefix);
      var d := Final(workers, threads, prefix).value;
      match last
      case Reg(reg) => RegKeepsInvariant(workers, threads, d, reg);
      case Core(core) =>
        BusyReadersAreApart(workers, threads, d);
        CoreKeepsIdle(workers, threads, d, core);
        P.InvariantPreserved(ConfigOf(d.g), d.s, core);
    }
  }

  /** With at most one thread beyond the workers no guard dangles, however often threads come and go. */
  lemma FewThreadsAreSafe(workers: nat, threads: nat, steps: seq<Step>)
    requires Final(workers, threads, steps).Some?
    requires Few(workers, threads, Final(workers, threads, steps).value.g.calls)
    ensures P.Safe(Final(workers, threads, steps).value.s)
  {
    InvariantHolds(workers, threads, steps);
  }

  /** However threads come and go, two with a slot never share it, and a slot claimed is below the number of calls. */
  lemma {:induction false} OwnedSlotsAreDistinctAndLow(workers: nat, threads: nat, steps: seq<Step>)
    requires Final(workers, threads, steps).Some?
    ensures var g := Final(workers, threads, steps).value.g;
      && R.Invariant(g)
      && (forall t | 0 <= t < threads && R.Owns(g.callers[t]) :: g.callers[t].slot < g.calls)
      && (forall t, u | 0 <= t < u < threads && R.Owns(g.callers[t]) && R.Owns(g.callers[u]) ::
            g.callers[t].slot != g.callers[u].slot)
    decreases |steps|
  {
    if steps == [] {
      R.InitInvariant(DomainSlots(workers), threads);
    } else {
      var prefix, last := steps[..|steps| - 1], steps[|steps| - 1];
      OwnedSlotsAreDistinctAndLow(workers, threads, prefix);
      if last.Reg? { R.StepKeepsInvariant(Final(workers, threads, prefix).value.g, last.reg); }
    }
  }

  // ---------------------------------------------------------------- one registration too many

  lemma Extend(workers: nat, threads: nat, steps: seq<Step>, step: Step)
    requires Final(workers, threads, steps).Some?
    requires Enabled(workers, threads, Final(workers, threads, steps).value, step)
    ensures Final(workers, threads, steps + [step])
         == Some(Next(workers, threads, Final(workers, threads, steps).value, step))
  {
    assert (steps + [step])[..|steps|] == steps;
  }

  /** Threads 0..k-1 registered one after the other, and nothing else happened. */
  predicate InOrder(workers: nat, threads: nat, d: State, k: nat) {
    && k <= |d.g.callers| && k <= |d.g.inUse| && d.g.calls == k && d.s == Init(workers, threads).s
    && (forall t | 0 <= t < |d.g.callers| ::
          d.g.callers[t] == if t < k then R.Registered(t) else R.Unregistered)
    && (forall i | 0 <= i < |d.g.inUse| :: d.g.inUse[i] == (i < k))
  }

  /** The same while thread `k` has tried the slots before `i`. */
  predicate ScanningInOrder(workers: nat, threads: nat, d: State, k: nat, i: nat) {
    && k < |d.g.callers| && d.g.calls == k + 1 && d.g.callers[k] == R.Trying(i) && d.s == Init(workers, threads).s
    && (forall t | 0 <= t < |d.g.callers| && t != k ::
          d.g.callers[t] == if t < k then R.Registered(t) else R.Unregistered)
    && (forall j | 0 <= j < |d.g.inUse| :: d.g.inUse[j] == (j < k))
  }

  lemma {:induction false} ScanToFree(workers: nat, threads: nat, before: seq<Step>, k: nat, i: nat)
    returns (steps: seq<Step>)
    requires i <= k < DomainSlots(workers) && k < threads && Final(workers, threads, before).Some?
    requires ScanningInOrder(workers, threads, Final(workers, threads, before).value, k, i)
    ensures Final(workers, threads, steps).Some?
    ensures InOrder(workers, threads, Final(workers, threads, steps).value, k + 1)
    decreases k - i
  {
    Extend(workers, threads, before, Reg(R.TrySlot(k)));
    var s1 := before + [Reg(R.TrySlot(k))];
    if i == k {
      steps := s1;
    } else {
      steps := ScanToFree(workers, threads, s1, k, i + 1);
    }
  }

  lemma {:induction false} RegisterInOrder(workers: nat, threads: nat, k: nat) returns (steps: seq<Step>)
    requires k <= DomainSlots(workers) && k <= threads
    ensures Final(workers, threads, steps).Some?
    ensures InOrder(workers, threads, Final(workers, threads, steps).value, k)
  {
    if k == 0 {
      steps := [];
    } else {
      var s0 := RegisterInOrder(workers, threads, k - 1);
      Extend(workers, threads, s0, Reg(R.Call(k - 1)));
      steps := ScanToFree(workers, threads, s0 + [Reg(R.Call(k - 1))], k - 1, 0);
    }
  }

  function Cores(steps: seq<P.Step>): seq<Step> {
    if steps == [] then [] else Cores(steps[..|steps| - 1]) + [Core(steps[|steps| - 1])]
  }

  /** A run of the domain with the slots as they are now is a run of the deployment. */
  lemma {:induction false} RunOfDomain(workers: nat, threads: nat, before: seq<Step>, steps: seq<P.Step>)
    requires Final(workers, threads, before).Some?
    requires var d := Final(workers, threads, before).value;
      && d.s == P.Init(ConfigOf(d.g)) && P.Final(ConfigOf(d.g), steps).Some?
      && forall r | r in RcuNecessity.Entering(steps) :: MayRead(d.g, r)
    ensures var d := Final(workers, threads, before).value;
      Final(workers, threads, before + Cores(steps)) == Some(d.(s := P.Final(ConfigOf(d.g), steps).value))
    decreases |steps|
  {
    if steps == [] {
      assert before + Cores(steps) == before;
    } else {
      var front, last := steps[..|steps| - 1], steps[|steps| - 1];
      RunOfDomain(workers, threads, before, front);
      Extend(workers, threads, before + Cores(front), Core(last));
      assert before + Cores(steps) == before + Cores(front) + [Core(last)];
    }
  }

  /** Two registrations beyond the worker threads reach a slot the control plane reads, and a guard can dangle. */
  lemma OneMoreRegistrationIsUnsafe(workers: nat, threads: nat) returns (steps: seq<Step>)
    requires threads >= workers + 2
    ensures Final(workers, threads, steps).Some? && Final(workers, threads, steps).value.g.calls == workers + 2
    ensures !P.Safe(Final(workers, threads, steps).value.s)
  {
    var before := RegisterInOrder(workers, threads, workers + 2);
    var d := Final(workers, threads, before).value;
    var c, r, q := ConfigOf(d.g), workers + 1, threads + 2;
    assert c.slotOf[r] == workers + 1 == c.slotOf[q];
    var core := RcuNecessity.SharedSlotDangles(c, r, q);
    RunOfDomain(workers, threads, before, core);
    steps := before + Cores(core);
  }

  ghost predicate SafeInEveryRun(workers: nat, threads: nat) {
    forall steps :: Final(workers, threads, steps).Some? ==> P.Safe(Final(workers, threads, steps).value.s)
  }

  /** The exact limit: the deployment is safe in every run if and only if it has at most workers + 1 reader threads. */
  lemma ThreadLimit(workers: nat, threads: nat)
    ensures SafeInEveryRun(workers, threads) <==> threads <= workers + 1
  {
    if threads <= workers + 1 {
      forall steps | Final(workers, threads, steps).Some? ensures P.Safe(Final(workers, threads, steps).value.s) {
        FewThreadsAreSafe(workers, threads, steps);
      }
    } else {
      var steps := OneMoreRegistrationIsUnsafe(workers, threads);
    }
  }

  /** The datagram and the HTTP workers together: safe if and only if there is at most one of each. */
  lemma BothFrontsLimit(workers: nat)
    ensures SafeInEveryRun(workers, 2 * workers) <==> workers <= 1
  {
    ThreadLimit(workers, 2 * workers);
  }

  /** In runs with at most `m` registrations: safe if and only if `m` or the number of threads is at most workers + 1. */
  lemma RegistrationLimit(workers: nat, threads: nat, m: nat)
    ensures (forall steps ::
               Final(workers, threads, steps).Some? && Final(workers, threads, steps).value.g.calls <= m
               ==> P.Safe(Final(workers, threads, steps).value.s))
            <==> Few(workers, threads, m)
  {
    if Few(workers, threads, m) {
      forall steps | Final(workers, threads, steps).Some? && Final(workers, threads, steps).value.g.calls <= m
        ensures P.Safe(Final(workers, threads, steps).value.s)
      {
        FewThreadsAreSafe(workers, threads, steps);
      }
    } else {
      var steps := OneMoreRegistrationIsUnsafe(workers, threads);
    }
  }
}
