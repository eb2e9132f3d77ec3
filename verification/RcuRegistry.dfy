/**
 `register_reader` / `unregister_reader` as interleaved steps: each compare-and-swap of the scan for a free slot,
 and the two stores of a release, of which the second becomes visible after the first.
 */
module RcuRegistry {
  import opened Common

  /** Where a thread is between registering and having released its slot. */
  datatype Caller =
    | Unregistered
    | Trying(next: nat)
    | Registered(slot: nat)
    | Leaving(slot: nat)
    | Refused

  /** The thread has a slot: claimed, and not yet visibly released. */
  predicate Owns(c: Caller) { c.Registered? || c.Leaving? }

  /** `calls`, `claims` and `reach` record history: calls made, calls that claimed, slots ever claimed. */
  datatype Registry = Registry(
    inUse: seq<bool>,
    callers: seq<Caller>,
    calls: nat,
    claims: nat,
    reach: nat)

  datatype Step =
    | Call(t: nat)
    | TrySlot(t: nat)
    | Unregister(t: nat)
    | Release(t: nat)

  function Init(slots: nat, threads: nat): Registry {
    Registry(seq(slots, i => false), seq(threads, t => Unregistered), 0, 0, 0)
  }

  predicate Bounded(g: Registry) {
    forall t | 0 <= t < |g.callers| :: Owns(g.callers[t]) ==> g.callers[t].slot < |g.inUse|
  }

  predicate Enabled(g: Registry, step: Step) {
    && step.t < |g.callers|
    && match step
       case Call(t) => g.callers[t].Unregistered? || g.callers[t].Refused?
       case TrySlot(t) => g.callers[t].Trying?
       case Unregister(t) => g.callers[t].Registered?
       case Release(t) => g.callers[t].Leaving?
  }

  function Next(g: Registry, step: Step): (g': Registry)
    requires Bounded(g) && Enabled(g, step)
    ensures Bounded(g') && |g'.inUse| == |g.inUse| && |g'.callers| == |g.callers| && g.calls <= g'.calls
    ensures forall t | 0 <= t < |g.callers| && t != step.t :: g'.callers[t] == g.callers[t]
  {
    match step
    case Call(t) => g.(callers := g.callers[t := Trying(0)], calls := g.calls + 1)
    case TrySlot(t) =>
      var i := g.callers[t].next;
      if i >= |g.inUse| then
        g.(callers := g.callers[t := Refused])
      else if g.inUse[i] then
        g.(callers := g.callers[t := Trying(i + 1)])
      else
        g.(inUse := g.inUse[i := true], callers := g.callers[t := Registered(i)],
           claims := g.claims + 1, reach := if i < g.reach then g.reach else i + 1)
    case Unregister(t) => g.(callers := g.callers[t := Leaving(g.callers[t].slot)])
    case Release(t) =>
      g.(inUse := g.inUse[g.callers[t].slot := false], callers := g.callers[t := Unregistered])
  }

  // ---------------------------------------------------------------- invariant

  /** Threads own distinct slots, all of them marked in use. */
  predicate Owned(g: Registry)
    requires Bounded(g)
  {
    && (forall t | 0 <= t < |g.callers| && Owns(g.callers[t]) :: g.inUse[g.callers[t].slot])
    && (forall t, u | 0 <= t < u < |g.callers| && Owns(g.callers[t]) && Owns(g.callers[u]) ::
          g.callers[t].slot != g.callers[u].slot)
  }

  /** The slots ever claimed form a prefix: a scan gets past a slot only by seeing it claimed. */
  predicate PrefixClaimed(g: Registry) {
    && (forall i | 0 <= i < |g.inUse| && g.inUse[i] :: i < g.reach)
    && (forall t | 0 <= t < |g.callers| && g.callers[t].Trying? :: g.callers[t].next <= g.reach)
    && (forall t | 0 <= t < |g.callers| && Owns(g.callers[t]) :: g.callers[t].slot < g.reach)
  }

  function TryingCount(cs: seq<Caller>): nat {
    if cs == [] then 0 else (if cs[0].Trying? then 1 else 0) + TryingCount(cs[1..])
  }

  /** Each claim uses up a call of its own. */
  predicate Counted(g: Registry) {
    g.reach <= g.claims && g.claims + TryingCount(g.callers) <= g.calls
  }

  /** Every slot in use has an owner. */
  predicate HasOwners(g: Registry) {
    forall i | 0 <= i < |g.inUse| && g.inUse[i] :: HasOwner(g.callers, i)
  }

  predicate HasOwner(cs: seq<Caller>, i: nat) { exists t :: 0 <= t < |cs| && Owns(cs[t]) && cs[t].slot == i }

  /** The thread has its slot, or its scan, at `i` or beyond. */
  predicate IsAtOrBeyond(c: Caller, i: nat) { (Owns(c) && c.slot >= i) || (c.Trying? && c.next >= i) }

  function Beyond(cs: seq<Caller>, i: nat): (n: nat)
    ensures n <= |cs|
  {
    if cs == [] then 0 else (if IsAtOrBeyond(cs[0], i) then 1 else 0) + Beyond(cs[1..], i)
  }

  /** At or beyond slot `i` there are no more threads than if each slot before it had kept one back. */
  ghost predicate Crowded(g: Registry) {
    forall i: nat :: Beyond(g.callers, i) > 0 ==> Beyond(g.callers, i) + i <= |g.callers|
  }

  ghost predicate Invariant(g: Registry) {
    Bounded(g) && Owned(g) && PrefixClaimed(g) && Counted(g) && HasOwners(g) && Crowded(g)
  }

  lemma {:induction false} TryingCountUpdate(cs: seq<Caller>, t: nat, x: Caller)
    requires t < |cs|
    ensures TryingCount(cs[t := x]) + (if cs[t].Trying? then 1 else 0)
         == TryingCount(cs) + (if x.Trying? then 1 else 0)
  {
    if t == 0 {
      assert cs[0 := x][1..] == cs[1..];
    } else {
      assert cs[t := x][1..] == cs[1..][t - 1 := x];
      TryingCountUpdate(cs[1..], t - 1, x);
    }
  }

  lemma {:induction false} NobodyTrying(threads: nat)
    ensures TryingCount(seq(threads, t => Unregistered)) == 0
  {
    if threads > 0 {
      assert seq(threads, t => Unregistered)[1..] == seq(threads - 1, t => Unregistered);
      NobodyTrying(threads - 1);
    }
  }

  lemma StepKeepsOwned(g: Registry, step: Step)
    requires Bounded(g) && Enabled(g, step) && Owned(g)
    ensures Owned(Next(g, step))
  {
  }

  lemma StepKeepsPrefix(g: Registry, step: Step)
    requires Bounded(g) && Enabled(g, step) && PrefixClaimed(g)
    ensures PrefixClaimed(Next(g, step))
  {
  }

  lemma StepKeepsCounted(g: Registry, step: Step)
    requires Bounded(g) && Enabled(g, step) && PrefixClaimed(g) && Counted(g)
    ensures Counted(Next(g, step))
  {
    var g' := Next(g, step);
    TryingCountUpdate(g.callers, step.t, g'.callers[step.t]);
    assert g'.callers == g.callers[step.t := g'.callers[step.t]];
  }

  lemma StepKeepsOwners(g: Registry, step: Step)
    requires Bounded(g) && Enabled(g, step) && Owned(g) && HasOwners(g)
    ensures HasOwners(Next(g, step))
  {
    var g' := Next(g, step);
    forall i | 0 <= i < |g'.inUse| && g'.inUse[i] ensures HasOwner(g'.callers, i) {
      if g.inUse[i] {
        assert HasOwner(g.callers, i);
        var t :| 0 <= t < |g.callers| && Owns(g.callers[t]) && g.callers[t].slot == i;
        assert Owns(g'.callers[t]) && g'.callers[t].slot == i;
      } else {
        assert Owns(g'.callers[step.t]) && g'.callers[step.t].slot == i;
      }
    }
  }

  lemma {:induction false} BeyondUpdate(cs: seq<Caller>, t: nat, x: Caller, i: nat)
    requires t < |cs|
    ensures Beyond(cs[t := x], i) + (if IsAtOrBeyond(cs[t], i) then 1 else 0)
         == Beyond(cs, i) + (if IsAtOrBeyond(x, i) then 1 else 0)
  {
    if t == 0 {
      assert cs[0 := x][1..] == cs[1..];
    } else {
      assert cs[t := x][1..] == cs[1..][t - 1 := x];
      BeyondUpdate(cs[1..], t - 1, x, i);
    }
  }

  lemma {:induction false} BeyondMonotone(cs: seq<Caller>, i: nat)
    ensures Beyond(cs, i + 1) <= Beyond(cs, i)
  {
    if cs != [] { BeyondMonotone(cs[1..], i); }
  }

  /** A thread at slot `i` and no further is counted there and not beyond. */
  lemma {:induction false} OneAt(cs: seq<Caller>, i: nat, t: nat)
    requires t < |cs| && IsAtOrBeyond(cs[t], i) && !IsAtOrBeyond(cs[t], i + 1)
    ensures Beyond(cs, i) >= Beyond(cs, i + 1) + 1
  {
    if t == 0 { BeyondMonotone(cs[1..], i); } else { OneAt(cs[1..], i, t - 1); }
  }

  lemma {:induction false} TwoAt(cs: seq<Caller>, i: nat, t: nat, u: nat)
    requires t < u < |cs|
    requires IsAtOrBeyond(cs[t], i) && !IsAtOrBeyond(cs[t], i + 1)
    requires IsAtOrBeyond(cs[u], i) && !IsAtOrBeyond(cs[u], i + 1)
    ensures Beyond(cs, i) >= Beyond(cs, i + 1) + 2
  {
    if t == 0 { OneAt(cs[1..], i, u - 1); } else { TwoAt(cs[1..], i, t - 1, u - 1); }
  }

  /** A scan that passes slot `i` leaves its owner behind. */
  lemma PassLeavesOwner(g: Registry, t: nat, i: nat)
    requires HasOwners(g) && Crowded(g) && i < |g.inUse| && g.inUse[i]
    requires t < |g.callers| && g.callers[t] == Trying(i)
    ensures Beyond(g.callers, i + 1) + 1 + (i + 1) <= |g.callers|
  {
    assert HasOwner(g.callers, i);
    var u :| 0 <= u < |g.callers| && Owns(g.callers[u]) && g.callers[u].slot == i;
    if t < u { TwoAt(g.callers, i, t, u); } else { TwoAt(g.callers, i, u, t); }
  }

  lemma StepKeepsCrowded(g: Registry, step: Step)
    requires Bounded(g) && Enabled(g, step) && HasOwners(g) && Crowded(g)
    ensures Crowded(Next(g, step))
  {
    var g' := Next(g, step);
    var x := g'.callers[step.t];
    assert g'.callers == g.callers[step.t := x];
    forall i: nat | Beyond(g'.callers, i) > 0 ensures Beyond(g'.callers, i) + i <= |g'.callers| {
      BeyondUpdate(g.callers, step.t, x, i);
      if IsAtOrBeyond(x, i) && !IsAtOrBeyond(g.callers[step.t], i) && i > 0 {
        PassLeavesOwner(g, step.t, i - 1);
      }
    }
  }

  lemma {:induction false} BeyondMember(cs: seq<Caller>, i: nat, t: nat)
    requires t < |cs| && IsAtOrBeyond(cs[t], i)
    ensures Beyond(cs, i) > 0
  {
    if t > 0 { BeyondMember(cs[1..], i, t - 1); }
  }

  /** However often threads register, a slot owned is below the number of threads. */
  lemma OwnedBelowThreads(g: Registry, t: nat)
    requires Invariant(g) && t < |g.callers| && Owns(g.callers[t])
    ensures g.callers[t].slot < |g.callers|
  {
    BeyondMember(g.callers, g.callers[t].slot, t);
  }

  lemma StepKeepsInvariant(g: Registry, step: Step)
    requires Invariant(g) && Enabled(g, step)
    ensures Invariant(Next(g, step))
  {
    StepKeepsOwned(g, step);
    StepKeepsPrefix(g, step);
    StepKeepsCounted(g, step);
    StepKeepsOwners(g, step);
    StepKeepsCrowded(g, step);
  }

  lemma InitInvariant(slots: nat, threads: nat)
    ensures Invariant(Init(slots, threads))
  {
    NobodyTrying(threads);
    forall i: nat ensures Beyond(Init(slots, threads).callers, i) == 0 {
      NobodyBeyond(threads, i);
    }
  }

  lemma {:induction false} NobodyBeyond(threads: nat, i: nat)
    ensures Beyond(seq(threads, t => Unregistered), i) == 0
  {
    if threads > 0 {
      assert seq(threads, t => Unregistered)[1..] == seq(threads - 1, t => Unregistered);
      NobodyBeyond(threads - 1, i);
    }
  }
}
