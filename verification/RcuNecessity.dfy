/**
 Both hypotheses of the RCU safety theorem are needed: without the reader's fence, or with two readers on one
 slot, some schedule frees a snapshot under a guard. Safety over all schedules is therefore equivalent to them.
 */
module RcuNecessity {
  import opened Common
  import opened RcuProtocol

  /** The readers that enter `read()` in a run. */
  function Entering(steps: seq<Step>): set<nat> {
    if steps == [] then {}
    else
      var last := steps[|steps| - 1];
      Entering(steps[..|steps| - 1]) + if last.LoadEpoch? then {last.r} else {}
  }

  lemma Extend(c: Config, steps: seq<Step>, step: Step)
    requires c.WellFormed() && Final(c, steps).Some? && Enabled(c, Final(c, steps).value, step)
    ensures Final(c, steps + [step]) == Some(Next(c, Final(c, steps).value, step))
    ensures Entering(steps + [step]) == Entering(steps) + if step.LoadEpoch? then {step.r} else {}
  {
    assert (steps + [step])[..|steps|] == steps;
  }

  /** `publish()` into the empty domain, as `initialize()` does. */
  lemma PublishFirst(c: Config) returns (steps: seq<Step>)
    requires c.WellFormed()
    ensures Final(c, steps) == Some(Init(c).(current := 1, handed := 1, epoch := 2)) && Entering(steps) == {}
  {
    Extend(c, [], Exchange);
    Extend(c, [Exchange], Bump);
    assert [Exchange] + [Bump] == [Exchange, Bump];
    Extend(c, [Exchange, Bump], PublishOnly);
    steps := [Exchange, Bump] + [PublishOnly];
  }

  /** The scan walks through quiescent slots from wherever it stands to the end. */
  lemma {:induction false} ScanThrough(c: Config, before: seq<Step>) returns (steps: seq<Step>)
    requires c.WellFormed() && Final(c, before).Some?
    requires var s := Final(c, before).value;
             && s.writer.Scanning? && s.writer.next <= |s.slots|
             && forall i | s.writer.next <= i < |s.slots| :: s.slots[i] == QUIESCENT
    ensures var s := Final(c, before).value;
            Final(c, steps) == Some(s.(writer := s.writer.(next := |s.slots|)))
    ensures Entering(steps) == Entering(before)
    decreases |Final(c, before).value.slots| - Final(c, before).value.writer.next
  {
    var s := Final(c, before).value;
    if s.writer.next == |s.slots| {
      steps := before;
    } else {
      Extend(c, before, ScanSlot);
      steps := ScanThrough(c, before + [ScanSlot]);
    }
  }

  /** A whole `swap_and_reclaim` while every slot looks quiescent frees the replaced snapshot. */
  lemma SwapOverQuiescentSlots(c: Config, before: seq<Step>) returns (steps: seq<Step>)
    requires c.WellFormed() && Final(c, before).Some?
    requires var s := Final(c, before).value;
             s.writer.Idle? && forall i | 0 <= i < |s.slots| :: s.slots[i] == QUIESCENT
    ensures var s := Final(c, before).value;
            && Final(c, steps).Some?
            && Final(c, steps).value.readers == s.readers
            && Snapshot(s.current) <= Final(c, steps).value.freed
    ensures Entering(steps) == Entering(before)
  {
    Extend(c, before, Exchange);
    var s1 := before + [Exchange];
    Extend(c, s1, Bump);
    var s2 := s1 + [Bump];
    Extend(c, s2, LoadTarget);
    var s3 := ScanThrough(c, s2 + [LoadTarget]);
    Extend(c, s3, Reclaim);
    steps := s3 + [Reclaim];
  }

  /** Reader `r` runs `read()` to the end with its store flushed before the fence. */
  lemma Enter(c: Config, before: seq<Step>, r: nat) returns (steps: seq<Step>)
    requires c.WellFormed() && Final(c, before).Some?
    requires var s := Final(c, before).value;
             r < |s.readers| && s.readers[r].Outside? && s.buffers[r] == [] && !s.writer.Destroyed?
    ensures var s := Final(c, before).value;
            Final(c, steps) == Some(s.(readers := s.readers[r := Guarding(s.epoch, s.current)],
                                       slots := s.slots[c.slotOf[r] := s.epoch]))
    ensures Entering(steps) == Entering(before) + {r}
  {
    var s := Final(c, before).value;
    Extend(c, before, LoadEpoch(r));
    var s1 := before + [LoadEpoch(r)];
    Extend(c, s1, StoreEpoch(r));
    var s2 := s1 + [StoreEpoch(r)];
    Extend(c, s2, Flush(r));
    var s3 := s2 + [Flush(r)];
    assert (s.buffers[r] + [s.epoch])[1..] == s.buffers[r];
    assert Final(c, s3).value.buffers == s.buffers;
    Extend(c, s3, Fence(r));
    var s4 := s3 + [Fence(r)];
    Extend(c, s4, LoadPointer(r));
    steps := s4 + [LoadPointer(r)];
    assert Final(c, steps).value.readers == s.readers[r := Guarding(s.epoch, s.current)];
  }

  /** Reader `r` drops its guard and the store reaches its slot. */
  lemma Exit(c: Config, before: seq<Step>, r: nat) returns (steps: seq<Step>)
    requires c.WellFormed() && Final(c, before).Some?
    requires var s := Final(c, before).value; r < |s.readers| && s.readers[r].Guarding? && s.buffers[r] == []
    ensures var s := Final(c, before).value;
            Final(c, steps) == Some(s.(readers := s.readers[r := Outside],
                                       slots := s.slots[c.slotOf[r] := QUIESCENT]))
    ensures Entering(steps) == Entering(before)
  {
    var s := Final(c, before).value;
    Extend(c, before, Leave(r));
    var s1 := before + [Leave(r)];
    Extend(c, s1, Flush(r));
    steps := s1 + [Flush(r)];
    assert (s.buffers[r] + [QUIESCENT])[1..] == s.buffers[r];
    assert Final(c, steps).value.buffers == s.buffers;
  }

  /** Without the fence the epoch can still sit in the store buffer while the pointer is already loaded. */
  lemma UnfencedReadDangles(c: Config) returns (steps: seq<Step>)
    requires c.WellFormed() && !c.fenced && |c.slotOf| > 0
    ensures Final(c, steps).Some? && !Safe(Final(c, steps).value)
  {
    var s0 := PublishFirst(c);
    Extend(c, s0, LoadEpoch(0));
    var s1 := s0 + [LoadEpoch(0)];
    Extend(c, s1, StoreEpoch(0));
    var s2 := s1 + [StoreEpoch(0)];
    Extend(c, s2, Fence(0));
    var s3 := s2 + [Fence(0)];
    Extend(c, s3, LoadPointer(0));
    var s4 := s3 + [LoadPointer(0)];
    steps := SwapOverQuiescentSlots(c, s4);
    assert Final(c, steps).value.readers[0] == Guarding(2, 1);
  }

  /** With a shared slot, one reader leaving erases the epoch that protected the other. */
  lemma SharedSlotDangles(c: Config, r: nat, q: nat) returns (steps: seq<Step>)
    requires c.WellFormed() && r < q < |c.slotOf| && c.slotOf[r] == c.slotOf[q]
    ensures Final(c, steps).Some? && !Safe(Final(c, steps).value) && Entering(steps) == {r, q}
  {
    var s0 := PublishFirst(c);
    var s1 := Enter(c, s0, q);
    var s2 := Enter(c, s1, r);
    var s3 := Exit(c, s2, r);
    steps := SwapOverQuiescentSlots(c, s3);
    assert Final(c, steps).value.readers[q] == Guarding(2, 1);
  }

  ghost predicate SafeInEveryRun(c: Config)
    requires c.WellFormed()
  {
    forall steps :: Final(c, steps).Some? ==> Safe(Final(c, steps).value)
  }

  /** Exactly when the domain is safe: readers are fenced and no two of them share a slot. */
  lemma SafetyCondition(c: Config)
    requires c.WellFormed()
    ensures SafeInEveryRun(c) <==> c.Exclusive() && (c.fenced || c.slotOf == [])
  {
    if !c.Exclusive() {
      var r, q :| 0 <= r < q < |c.slotOf| && c.slotOf[r] == c.slotOf[q];
      var steps := SharedSlotDangles(c, r, q);
    } else if c.slotOf != [] && !c.fenced {
      var steps := UnfencedReadDangles(c);
    } else {
      forall steps | Final(c, steps).Some? ensures Safe(Final(c, steps).value) {
        if c.fenced { GuardsNeverDangle(c, steps); } else { NoReaders(c, steps); }
      }
    }
  }

  lemma NoReaders(c: Config, steps: seq<Step>)
    requires c.WellFormed() && c.slotOf == [] && Final(c, steps).Some?
    ensures Safe(Final(c, steps).value)
  {
    assert Shaped(c, Final(c, steps).value);
  }

  /** The subtle case is real: a passed slot shows an epoch below the target under a live guard. */
  lemma PassedSlotCanShowStaleEpoch(c: Config) returns (steps: seq<Step>)
    requires c.WellFormed() && |c.slotOf| > 0
    ensures Final(c, steps).Some?
    ensures var s := Final(c, steps).value;
            && s.writer.Scanning? && c.slotOf[0] < s.writer.next
            && s.readers[0].Guarding?
            && QUIESCENT < s.slots[c.slotOf[0]] < s.writer.target
  {
    var s0 := PublishFirst(c);
    Extend(c, s0, LoadEpoch(0));
    var s1 := s0 + [LoadEpoch(0)];
    Extend(c, s1, Exchange);
    var s2 := s1 + [Exchange];
    Extend(c, s2, Bump);
    var s3 := s2 + [Bump];
    Extend(c, s3, LoadTarget);
    var s4 := ScanThrough(c, s3 + [LoadTarget]);
    Extend(c, s4, StoreEpoch(0));
    var s5 := s4 + [StoreEpoch(0)];
    Extend(c, s5, Flush(0));
    var s6 := s5 + [Flush(0)];
    Extend(c, s6, Fence(0));
    var s7 := s6 + [Fence(0)];
    Extend(c, s7, LoadPointer(0));
    steps := s7 + [LoadPointer(0)];
  }
}
