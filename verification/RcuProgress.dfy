/**
 What the grace period waits for, and nothing else: a scan is held up exactly by slots that show an epoch older than
 the one it waits for, such an epoch is that of a reader that loaded it before the bump, and once the readers leave
 the retired snapshots are freed.
 */
module RcuProgress {
  import opened Common
  import opened RcuProtocol
  import opened RcuNecessity

  // ---------------------------------------------------------------- the writer alone

  /** The scan waits for the epoch that is current while it runs. */
  predicate WaitsForCurrent(s: State) {
    s.epoch >= 1 && (s.writer.Scanning? ==> s.writer.target == s.epoch && s.writer.next <= |s.slots|)
  }

  lemma {:induction false} AlwaysWaitsForCurrent(c: Config, steps: seq<Step>)
    requires c.WellFormed() && Final(c, steps).Some?
    ensures WaitsForCurrent(Final(c, steps).value)
  {
    if steps != [] {
      AlwaysWaitsForCurrent(c, steps[..|steps| - 1]);
    }
  }

  /** A slot that does not hold up a grace period: quiescent, or entered at the new epoch. */
  predicate Open(s: State, i: nat)
    requires i < |s.slots|
  {
    s.slots[i] == 0 || s.slots[i] >= s.epoch
  }

  predicate AllOpen(s: State, from: nat) { forall i | from <= i < |s.slots| :: Open(s, i) }

  ghost predicate Scans(steps: seq<Step>) { forall i | 0 <= i < |steps| :: steps[i].ScanSlot? }

  /** The scan and the reclamation, without any other thread taking a step. */
  ghost predicate WriterEnds(c: Config, steps: seq<Step>, more: seq<Step>)
    requires c.WellFormed()
  {
    Scans(more) && Final(c, steps + more + [Reclaim]).Some?
  }

  /** What a swap that returns true leaves: the retired pointer and all parked ones are freed. */
  ghost predicate Reclaimed(s: State, t: State)
    requires s.writer.Scanning?
  {
    && t.freed == s.freed + Snapshot(s.writer.was) + s.parked && t.parked == multiset{}
    && t.writer.Idle? && t.current == s.current && t.readers == s.readers && t.slots == s.slots
  }

  /** The run ends in the state `s`. */
  ghost predicate Reaches(c: Config, steps: seq<Step>, s: State) { c.WellFormed() && Final(c, steps) == Some(s) }

  lemma OneStep(c: Config, steps: seq<Step>, s: State, step: Step) returns (t: State)
    requires Reaches(c, steps, s) && Enabled(c, s, step)
    ensures t == Next(c, s, step) && Reaches(c, steps + [step], t)
  {
    Extend(c, steps, step);
    t := Next(c, s, step);
  }

  /** Over open slots the scan goes through, whatever epochs at or above the target they show. */
  lemma {:induction false} OpenSlotsLetThrough(c: Config, steps: seq<Step>, s: State) returns (more: seq<Step>)
    requires Reaches(c, steps, s) && s.writer.Scanning? && WaitsForCurrent(s) && AllOpen(s, s.writer.next)
    ensures Scans(more) && Reaches(c, steps + more, s.(writer := s.writer.(next := |s.slots|)))
    decreases |s.slots| - s.writer.next
  {
    if s.writer.next == |s.slots| {
      more := [];
      assert steps + more == steps;
    } else {
      assert Open(s, s.writer.next);
      var t := OneStep(c, steps, s, ScanSlot);
      assert forall i | t.writer.next <= i < |t.slots| :: Open(s, i) == Open(t, i);
      var rest := OpenSlotsLetThrough(c, steps + [ScanSlot], t);
      more := [ScanSlot] + rest;
      assert steps + more == steps + [ScanSlot] + rest;
    }
  }

  /** The state before the last step. */
  lemma LastStep(c: Config, steps: seq<Step>, more: seq<Step>, t: State) returns (u: State)
    requires c.WellFormed() && more != [] && Reaches(c, steps + more, t)
    ensures Reaches(c, steps + more[..|more| - 1], u) && Enabled(c, u, more[|more| - 1])
    ensures t == Next(c, u, more[|more| - 1])
  {
    assert (steps + more)[..|steps + more| - 1] == steps + more[..|more| - 1];
    u := Final(c, steps + more[..|more| - 1]).value;
  }

  /** From `s` to `t` the scan has gone on, over open slots. */
  ghost predicate Scanned(s: State, t: State) {
    && s.writer.Scanning? && t.writer.Scanning? && WaitsForCurrent(s)
    && t == s.(writer := s.writer.(next := t.writer.next)) && s.writer.next <= t.writer.next <= |s.slots|
    && forall i | s.writer.next <= i < t.writer.next :: Open(s, i)
  }

  lemma ScannedFurther(c: Config, s: State, u: State, t: State)
    requires c.WellFormed() && Shaped(c, u) && Scanned(s, u) && Enabled(c, u, ScanSlot) && t == Next(c, u, ScanSlot)
    ensures Scanned(s, t)
  {
    assert Open(s, u.writer.next);
  }

  /** And over no other: a scan that gets to the end found every slot open. */
  lemma {:induction false} ThroughOnlyOpenSlots(c: Config, steps: seq<Step>, s: State, more: seq<Step>, t: State)
    requires Reaches(c, steps, s) && s.writer.Scanning? && WaitsForCurrent(s)
    requires Scans(more) && Reaches(c, steps + more, t)
    ensures Scanned(s, t)
    decreases |more|
  {
    if more == [] {
      assert steps + more == steps;
    } else {
      var u := LastStep(c, steps, more, t);
      ThroughOnlyOpenSlots(c, steps, s, more[..|more| - 1], u);
      ScannedFurther(c, s, u, t);
    }
  }

  /**
   In every reachable scanning state the writer can end the grace period by itself, freeing what it retired, if and
   only if every slot still to be scanned is quiescent or shows the current epoch or a later one.
   */
  lemma WriterEndsAloneIff(c: Config, steps: seq<Step>)
    requires c.WellFormed() && Final(c, steps).Some? && Final(c, steps).value.writer.Scanning?
    ensures var s := Final(c, steps).value;
            (exists more :: WriterEnds(c, steps, more)) <==> AllOpen(s, s.writer.next)
    ensures var s := Final(c, steps).value;
            forall more | WriterEnds(c, steps, more) :: Reclaimed(s, Final(c, steps + more + [Reclaim]).value)
  {
    AlwaysWaitsForCurrent(c, steps);
    var s := Final(c, steps).value;
    if AllOpen(s, s.writer.next) {
      var more := OpenSlotsLetThrough(c, steps, s);
      Extend(c, steps + more, Reclaim);
      assert WriterEnds(c, steps, more);
    }
    forall more | WriterEnds(c, steps, more)
      ensures AllOpen(s, s.writer.next) && Reclaimed(s, Final(c, steps + more + [Reclaim]).value)
    {
      assert (steps + more + [Reclaim])[..|steps + more|] == steps + more;
      ThroughOnlyOpenSlots(c, steps, s, more, Final(c, steps + more).value);
    }
  }

  // ---------------------------------------------------------------- whom the writer waits for

  /** The reader has stored the epoch it loaded and not yet taken it back. */
  predicate Stored(rd: Reader) { rd.EpochStored? || rd.PastFence? || rd.Guarding? }

  /** What the slot will show once the reader's stores have arrived. */
  function LastWritten(c: Config, s: State, r: nat): nat
    requires c.WellFormed() && Shaped(c, s) && r < |s.readers|
  {
    if s.buffers[r] == [] then s.slots[c.slotOf[r]] else s.buffers[r][|s.buffers[r]| - 1]
  }

  predicate WroteItsEpoch(c: Config, s: State, r: nat)
    requires c.WellFormed() && Shaped(c, s) && r < |s.readers|
  {
    LastWritten(c, s, r) == if Stored(s.readers[r]) then s.readers[r].e else QUIESCENT
  }

  ghost predicate Used(c: Config, j: nat) { exists r :: 0 <= r < |c.slotOf| && c.slotOf[r] == j }

  ghost predicate Tracked(c: Config, s: State)
    requires c.WellFormed() && Shaped(c, s)
  {
    && (forall r | 0 <= r < |s.readers| :: WroteItsEpoch(c, s, r))
    && forall j | 0 <= j < |s.slots| && s.slots[j] != QUIESCENT :: Used(c, j)
  }

  lemma FlushTracked(c: Config, s: State, q: nat, r: nat)
    requires c.WellFormed() && c.Exclusive() && Shaped(c, s) && Enabled(c, s, Flush(q)) && Tracked(c, s)
    requires r < |s.readers|
    ensures WroteItsEpoch(c, Next(c, s, Flush(q)), r)
  {
    assert WroteItsEpoch(c, s, r);
    if r == q {
      var b := s.buffers[q];
      if |b| > 1 { assert b[1..][|b| - 2] == b[|b| - 1]; }
    } else {
      assert c.slotOf[r] != c.slotOf[q];
    }
  }

  lemma StepTracked(c: Config, s: State, step: Step)
    requires c.WellFormed() && c.Exclusive() && Shaped(c, s) && Enabled(c, s, step) && Tracked(c, s)
    ensures Tracked(c, Next(c, s, step))
  {
    var t := Next(c, s, step);
    forall r | 0 <= r < |t.readers| ensures WroteItsEpoch(c, t, r) {
      assert WroteItsEpoch(c, s, r);
      if step.Flush? { FlushTracked(c, s, step.r, r); }
    }
    forall j | 0 <= j < |t.slots| && t.slots[j] != QUIESCENT ensures Used(c, j) {
      if step.Flush? && j == c.slotOf[step.r] {} else { assert s.slots[j] != QUIESCENT; }
    }
  }

  lemma {:induction false} AlwaysTracked(c: Config, steps: seq<Step>)
    requires c.WellFormed() && c.Exclusive() && Final(c, steps).Some?
    ensures Tracked(c, Final(c, steps).value)
  {
    if steps != [] {
      var front := steps[..|steps| - 1];
      AlwaysTracked(c, front);
      StepTracked(c, Final(c, front).value, steps[|steps| - 1]);
    }
  }

  /** At step `k` of the run reader `r` loaded the epoch `v`. */
  ghost predicate LoadedAt(c: Config, steps: seq<Step>, r: nat, v: nat, k: nat)
    requires c.WellFormed()
  {
    k < |steps| && steps[k] == LoadEpoch(r) && Final(c, steps[..k]).Some? && Final(c, steps[..k]).value.epoch == v
  }

  ghost predicate Loaded(c: Config, steps: seq<Step>, r: nat, v: nat)
    requires c.WellFormed()
  {
    exists k: nat :: LoadedAt(c, steps, r, v, k)
  }

  /** Every epoch a reader holds, has on the way or shows was loaded by it. */
  ghost predicate EpochsLoaded(c: Config, steps: seq<Step>, s: State, r: nat)
    requires c.WellFormed() && Shaped(c, s) && r < |s.readers|
  {
    && (!s.readers[r].Outside? ==> Loaded(c, steps, r, s.readers[r].e))
    && (forall i | 0 <= i < |s.buffers[r]| && s.buffers[r][i] != QUIESCENT :: Loaded(c, steps, r, s.buffers[r][i]))
    && (s.slots[c.slotOf[r]] != QUIESCENT ==> Loaded(c, steps, r, s.slots[c.slotOf[r]]))
  }

  lemma LoadedStays(c: Config, front: seq<Step>, step: Step, r: nat, v: nat)
    requires c.WellFormed() && Loaded(c, front, r, v)
    ensures Loaded(c, front + [step], r, v)
  {
    var k: nat :| LoadedAt(c, front, r, v, k);
    assert (front + [step])[..k] == front[..k];
    assert LoadedAt(c, front + [step], r, v, k);
  }

  lemma StepLoaded(c: Config, front: seq<Step>, step: Step, s: State, r: nat)
    requires c.WellFormed() && c.Exclusive() && Final(c, front) == Some(s) && Enabled(c, s, step)
    requires r < |s.readers| && EpochsLoaded(c, front, s, r)
    ensures EpochsLoaded(c, front + [step], Next(c, s, step), r)
  {
    var t, steps := Next(c, s, step), front + [step];
    forall v | Loaded(c, front, r, v) ensures Loaded(c, steps, r, v) { LoadedStays(c, front, step, r, v); }
    if step == LoadEpoch(r) {
      assert steps[..|front|] == front;
      assert LoadedAt(c, steps, r, s.epoch, |front|);
    }
    if step.Flush? && step.r != r { assert c.slotOf[step.r] != c.slotOf[r]; }
  }

  lemma {:induction false} AlwaysLoaded(c: Config, steps: seq<Step>, r: nat)
    requires c.WellFormed() && c.Exclusive() && Final(c, steps).Some? && r < |c.slotOf|
    ensures EpochsLoaded(c, steps, Final(c, steps).value, r)
    decreases |steps|
  {
    if steps != [] {
      var front, last := steps[..|steps| - 1], steps[|steps| - 1];
      AlwaysLoaded(c, front, r);
      StepLoaded(c, front, last, Final(c, front).value, r);
      assert steps == front + [last];
    }
  }

  /**
   A swap gives up only on a slot that shows an older epoch. The reader of that slot loaded this epoch before the bump,
   and is still inside with it or has its next store on the way.
   */
  lemma GivesUpOnOldReader(c: Config, steps: seq<Step>) returns (r: nat, k: nat)
    requires c.WellFormed() && c.Exclusive() && Final(c, steps).Some? && Enabled(c, Final(c, steps).value, GiveUp)
    ensures var s := Final(c, steps).value;
            && r < |s.readers| && c.slotOf[r] == s.writer.next < |s.slots|
            && 1 <= s.slots[s.writer.next] < s.epoch && LoadedAt(c, steps, r, s.slots[s.writer.next], k)
            && (s.buffers[r] != [] || (Stored(s.readers[r]) && s.readers[r].e == s.slots[s.writer.next]))
  {
    AlwaysWaitsForCurrent(c, steps);
    AlwaysTracked(c, steps);
    var s := Final(c, steps).value;
    var j := s.writer.next;
    assert Used(c, j);
    r :| 0 <= r < |c.slotOf| && c.slotOf[r] == j;
    assert WroteItsEpoch(c, s, r);
    AlwaysLoaded(c, steps, r);
    k :| LoadedAt(c, steps, r, s.slots[j], k);
  }

  /** Giving up is possible exactly where the writer cannot scan on, whatever the configuration. */
  lemma GivesUpIffHeldUp(c: Config, steps: seq<Step>)
    requires c.WellFormed() && Final(c, steps).Some?
    ensures var s := Final(c, steps).value;
            Enabled(c, s, GiveUp) <==>
              s.writer.Scanning? && s.writer.next < |s.slots| && 1 <= s.slots[s.writer.next] < s.epoch
  {
    AlwaysWaitsForCurrent(c, steps);
  }

  // ---------------------------------------------------------------- readers that leave

  /** How many more steps the reader takes until it is outside and its stores have arrived. */
  function Work(s: State, r: nat): nat
    requires r < |s.readers| == |s.buffers|
  {
    |s.buffers[r]| +
    match s.readers[r]
    case Outside => 0
    case EpochLoaded(_) => 6
    case EpochStored(_) => 4
    case PastFence(_) => 3
    case Guarding(_, _) => 2
  }

  /** Only reader `r` and its slot have moved. */
  ghost predicate OnlyMoved(c: Config, s: State, t: State, r: nat)
    requires c.WellFormed() && Shaped(c, s) && Shaped(c, t)
  {
    && t.writer == s.writer && t.epoch == s.epoch && t.current == s.current && t.parked == s.parked
    && t.freed == s.freed && forall q | 0 <= q < |s.readers| && q != r ::
         t.readers[q] == s.readers[q] && t.buffers[q] == s.buffers[q]
  }

  /** The reader's next step: drain the buffer first, then go on towards the outside. */
  function TowardsOutside(s: State, r: nat): Step
    requires r < |s.readers| == |s.buffers|
  {
    if s.buffers[r] != [] then Flush(r)
    else match s.readers[r]
      case Outside => Flush(r)
      case EpochLoaded(_) => StoreEpoch(r)
      case EpochStored(_) => Fence(r)
      case PastFence(_) => LoadPointer(r)
      case Guarding(_, _) => Leave(r)
  }

  lemma WorkShrinks(c: Config, s: State, r: nat)
    requires c.WellFormed() && Shaped(c, s) && r < |s.readers| && Work(s, r) > 0
    ensures Enabled(c, s, TowardsOutside(s, r))
    ensures var t := Next(c, s, TowardsOutside(s, r)); Work(t, r) < Work(s, r) && OnlyMoved(c, s, t, r)
  {
  }

  lemma {:induction false} ReaderLeaves(c: Config, steps: seq<Step>, s: State, r: nat)
    returns (more: seq<Step>, t: State)
    requires Reaches(c, steps, s) && r < |s.readers|
    ensures Reaches(c, steps + more, t) && Work(t, r) == 0 && OnlyMoved(c, s, t, r)
    decreases Work(s, r)
  {
    if Work(s, r) == 0 {
      more, t := [], s;
      assert steps + more == steps;
    } else {
      var step := TowardsOutside(s, r);
      WorkShrinks(c, s, r);
      var u := OneStep(c, steps, s, step);
      var rest;
      rest, t := ReaderLeaves(c, steps + [step], u, r);
      more := [step] + rest;
      assert steps + more == steps + [step] + rest;
    }
  }

  /** Nothing but readers and slots has moved, and the first `n` readers are outside. */
  ghost predicate FirstOutside(c: Config, s: State, t: State, n: nat)
    requires c.WellFormed() && Shaped(c, s) && Shaped(c, t)
  {
    && t.writer == s.writer && t.epoch == s.epoch && t.current == s.current && t.parked == s.parked
    && t.freed == s.freed && n <= |t.readers| && forall q | 0 <= q < n :: Work(t, q) == 0
  }

  lemma OneMoreOutside(c: Config, s: State, u: State, t: State, r: nat)
    requires c.WellFormed() && Shaped(c, s) && Shaped(c, u) && Shaped(c, t)
    requires FirstOutside(c, s, u, r) && r < |u.readers| && OnlyMoved(c, u, t, r) && Work(t, r) == 0
    ensures FirstOutside(c, s, t, r + 1)
  {
    forall q | 0 <= q < r + 1 ensures Work(t, q) == 0 {
      if q < r { assert Work(t, q) == Work(u, q); }
    }
  }

  /** One more reader leaves. */
  lemma NextLeaves(c: Config, steps: seq<Step>, s: State, front: seq<Step>, u: State, r: nat)
    returns (more: seq<Step>, t: State)
    requires c.WellFormed() && Shaped(c, s) && Shaped(c, u) && Reaches(c, steps + front, u)
    requires r < |u.readers| && FirstOutside(c, s, u, r)
    ensures Reaches(c, steps + more, t) && Shaped(c, t) && FirstOutside(c, s, t, r + 1)
  {
    var last;
    last, t := ReaderLeaves(c, steps + front, u, r);
    more := front + last;
    assert steps + more == steps + front + last;
    OneMoreOutside(c, s, u, t, r);
  }

  lemma {:induction false} ReadersLeave(c: Config, steps: seq<Step>, s: State, n: nat)
    returns (more: seq<Step>, t: State)
    requires Reaches(c, steps, s) && n <= |s.readers|
    ensures Reaches(c, steps + more, t) && Shaped(c, t) && FirstOutside(c, s, t, n)
    decreases n
  {
    if n == 0 {
      more, t := [], s;
      assert steps + more == steps;
    } else {
      var front, u := ReadersLeave(c, steps, s, n - 1);
      more, t := NextLeaves(c, steps, s, front, u, n - 1);
    }
  }

  /** When all readers are outside and their stores have arrived, no slot shows an epoch. */
  lemma OutsideIsQuiescent(c: Config, t: State, i: nat)
    requires c.WellFormed() && Shaped(c, t) && Tracked(c, t) && i < |t.slots|
    requires forall r | 0 <= r < |t.readers| :: Work(t, r) == 0
    ensures t.slots[i] == QUIESCENT
  {
    if Used(c, i) {
      var r :| 0 <= r < |c.slotOf| && c.slotOf[r] == i;
      assert WroteItsEpoch(c, t, r) && Work(t, r) == 0;
    }
  }

  /** From every reachable scanning state some continuation frees the retired pointer and everything parked. */
  lemma GracePeriodCanEnd(c: Config, steps: seq<Step>) returns (more: seq<Step>)
    requires c.WellFormed() && c.Exclusive() && Final(c, steps).Some? && Final(c, steps).value.writer.Scanning?
    ensures Final(c, steps + more).Some?
    ensures var s, t := Final(c, steps).value, Final(c, steps + more).value;
            t.freed == s.freed + Snapshot(s.writer.was) + s.parked && t.parked == multiset{} && t.writer.Idle?
  {
    var out, t := ReadersLeave(c, steps, Final(c, steps).value, |c.slotOf|);
    var there := steps + out;
    AlwaysTracked(c, there);
    forall i | 0 <= i < |t.slots| ensures Open(t, i) { OutsideIsQuiescent(c, t, i); }
    WriterEndsAloneIff(c, there);
    var scan :| WriterEnds(c, there, scan);
    more := out + scan + [Reclaim];
    assert steps + more == there + scan + [Reclaim];
  }
}
