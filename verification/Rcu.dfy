/**
 The RCU domain as a machine whose steps are its individual atomic accesses.

 Readers and the one reloading writer interleave freely. A reader's stores to its slot go through a FIFO
 store buffer that empties into memory at arbitrary later moments; `read()`'s sequentially consistent fence
 waits until the buffer is empty. The writer's accesses are read-modify-writes or follow its own fence, so
 they act on memory directly. A run in which every store is flushed at once is a sequentially consistent one.
 */
module RcuProtocol {
  import opened Common

  /** The null snapshot pointer. Snapshots are numbered from 1 in the order the domain receives them. */
  const NULL: nat := 0
  /** The slot value of a reader that is outside every critical section. */
  const QUIESCENT: nat := 0

  /** `slotOf[r]` is the slot reader `r` reads through; `fenced` says whether `read()` runs its fence. */
  datatype Config = Config(slots: nat, slotOf: seq<nat>, fenced: bool) {
    predicate WellFormed() {
      forall r | 0 <= r < |slotOf| :: slotOf[r] < slots
    }

    /** No two readers share a slot. */
    predicate Exclusive() {
      forall r, q | 0 <= r < q < |slotOf| :: slotOf[r] != slotOf[q]
    }
  }

  /** Where a reader is inside `read()` and its guard; `e` is the epoch it loaded. */
  datatype Reader =
    | Outside
    | EpochLoaded(e: nat)
    | EpochStored(e: nat)
    | PastFence(e: nat)
    | Guarding(e: nat, p: nat)

  /** Where the writer is inside `swap_and_reclaim()`; `was` is the pointer it is retiring. */
  datatype Writer =
    | Idle
    | Exchanged(was: nat)
    | Bumped(was: nat)
    | Scanning(was: nat, target: nat, next: nat)
    | Destroyed

  datatype State = State(
    current: nat,
    epoch: nat,
    slots: seq<nat>,
    readers: seq<Reader>,
    buffers: seq<seq<nat>>,
    writer: Writer,
    parked: multiset<nat>,
    freed: multiset<nat>,
    handed: nat)

  datatype Step =
    | LoadEpoch(r: nat)
    | StoreEpoch(r: nat)
    | Fence(r: nat)
    | LoadPointer(r: nat)
    | Leave(r: nat)
    | Flush(r: nat)
    | Exchange
    | Bump
    | PublishOnly
    | LoadTarget
    | ScanSlot
    | GiveUp
    | Reclaim
    | Destroy

  function Init(c: Config): State {
    State(NULL, 1, seq(c.slots, i => QUIESCENT), seq(|c.slotOf|, r => Outside),
          seq(|c.slotOf|, r => []), Idle, multiset{}, multiset{}, 0)
  }

  /** The shape every state of a run has. */
  predicate Shaped(c: Config, s: State) {
    && |s.slots| == c.slots
    && |s.readers| == |s.buffers| == |c.slotOf|
  }

  /** The snapshots `delete p` gives back: none for the null pointer. */
  function Snapshot(p: nat): multiset<nat> {
    if p == NULL then multiset{} else multiset{p}
  }

  /** The scan's test: the slot is quiescent or was entered at the new epoch or later. */
  predicate Passed(v: nat, target: nat) {
    v == QUIESCENT || v >= target
  }

  predicate Enabled(c: Config, s: State, step: Step)
    requires c.WellFormed() && Shaped(c, s)
  {
    match step
    case LoadEpoch(r) => r < |s.readers| && s.readers[r].Outside? && !s.writer.Destroyed?
    case StoreEpoch(r) => r < |s.readers| && s.readers[r].EpochLoaded?
    case Fence(r) => r < |s.readers| && s.readers[r].EpochStored? && (c.fenced ==> s.buffers[r] == [])
    case LoadPointer(r) => r < |s.readers| && s.readers[r].PastFence?
    case Leave(r) => r < |s.readers| && s.readers[r].Guarding?
    case Flush(r) => r < |s.readers| && s.buffers[r] != []
    case Exchange => s.writer.Idle?
    case Bump => s.writer.Exchanged?
    // `initialize()` publishes without a grace period; the domain is empty then.
    case PublishOnly => s.writer.Bumped? && s.writer.was == NULL
    case LoadTarget => s.writer.Bumped?
    case ScanSlot =>
      s.writer.Scanning? && s.writer.next < |s.slots| && Passed(s.slots[s.writer.next], s.writer.target)
    case GiveUp =>
      s.writer.Scanning? && s.writer.next < |s.slots| && !Passed(s.slots[s.writer.next], s.writer.target)
    case Reclaim => s.writer.Scanning? && s.writer.next == |s.slots|
    // Guards may not outlive the domain.
    case Destroy => s.writer.Idle? && forall r | 0 <= r < |s.readers| :: s.readers[r].Outside?
  }

  function Next(c: Config, s: State, step: Step): (s': State)
    requires c.WellFormed() && Shaped(c, s) && Enabled(c, s, step)
    ensures Shaped(c, s')
  {
    match step
    case LoadEpoch(r) => s.(readers := s.readers[r := EpochLoaded(s.epoch)])
    case StoreEpoch(r) =>
      var e := s.readers[r].e;
      s.(readers := s.readers[r := EpochStored(e)], buffers := s.buffers[r := s.buffers[r] + [e]])
    case Fence(r) => s.(readers := s.readers[r := PastFence(s.readers[r].e)])
    case LoadPointer(r) => s.(readers := s.readers[r := Guarding(s.readers[r].e, s.current)])
    case Leave(r) =>
      s.(readers := s.readers[r := Outside], buffers := s.buffers[r := s.buffers[r] + [QUIESCENT]])
    case Flush(r) =>
      s.(slots := s.slots[c.slotOf[r] := s.buffers[r][0]], buffers := s.buffers[r := s.buffers[r][1..]])
    case Exchange =>
      s.(current := s.handed + 1, handed := s.handed + 1, writer := Exchanged(s.current))
    case Bump => s.(epoch := s.epoch + 1, writer := Bumped(s.writer.was))
    case PublishOnly => s.(writer := Idle)
    case LoadTarget => s.(writer := Scanning(s.writer.was, s.epoch, 0))
    case ScanSlot => s.(writer := s.writer.(next := s.writer.next + 1))
    case GiveUp =>
      s.(parked := s.parked + Snapshot(s.writer.was), writer := Idle)
    case Reclaim =>
      s.(freed := s.freed + Snapshot(s.writer.was) + s.parked, parked := multiset{}, writer := Idle)
    case Destroy =>
      s.(freed := s.freed + Snapshot(s.current) + s.parked, parked := multiset{}, current := NULL,
         writer := Destroyed)
  }

  /** The state a schedule leads to from the start, or `None` when some step of it is not enabled. */
  function Final(c: Config, steps: seq<Step>): (s: Option<State>)
    requires c.WellFormed()
    ensures s.Some? ==> Shaped(c, s.value)
  {
    if steps == [] then Some(Init(c))
    else
      match Final(c, steps[..|steps| - 1])
      case None => None
      case Some(s) => if Enabled(c, s, steps[|steps| - 1]) then Some(Next(c, s, steps[|steps| - 1])) else None
  }

  /** No guard holds a snapshot that has been deleted. */
  predicate Safe(s: State) {
    forall r | 0 <= r < |s.readers| && s.readers[r].Guarding? :: s.readers[r].p !in s.freed
  }

  // ---------------------------------------------------------------- grace periods

  /** The pointer the writer took out of `current` and has neither parked nor freed yet. */
  function Retiring(w: Writer): nat {
    if w.Exchanged? || w.Bumped? || w.Scanning? then w.was else NULL
  }

  /** How many of the four places snapshot `p` is in, counting a place as often as it holds `p`. */
  function Places(s: State, p: nat): nat {
    Snapshot(s.current)[p] + Snapshot(Retiring(s.writer))[p] + s.parked[p] + s.freed[p]
  }

  /** Each snapshot handed over is in exactly one place: current, being retired, parked or freed. */
  ghost predicate Conserved(s: State) {
    forall p: nat :: Places(s, p) == if 1 <= p <= s.handed then 1 else 0
  }

  predicate EpochsBounded(s: State) {
    && s.epoch >= 1
    && forall r | 0 <= r < |s.readers| && !s.readers[r].Outside? :: 1 <= s.readers[r].e <= s.epoch
  }

  /** Past the fence a reader's slot shows its epoch, and nothing of its own is still on the way. */
  predicate SlotsPublished(c: Config, s: State)
    requires c.WellFormed() && Shaped(c, s)
  {
    forall r | 0 <= r < |s.readers| && (s.readers[r].PastFence? || s.readers[r].Guarding?) ::
      s.buffers[r] == [] && s.slots[c.slotOf[r]] == s.readers[r].e
  }

  /** A stored epoch is in the slot already, or is the last thing in the buffer. */
  predicate StoresPending(c: Config, s: State)
    requires c.WellFormed() && Shaped(c, s)
  {
    forall r | 0 <= r < |s.readers| && s.readers[r].EpochStored? ::
      if s.buffers[r] == [] then s.slots[c.slotOf[r]] == s.readers[r].e
      else s.buffers[r][|s.buffers[r]| - 1] == s.readers[r].e
  }

  /** A guard on a replaced snapshot was entered at an epoch older than the grace period that retires it. */
  predicate StaleGuardsAreOld(s: State) {
    forall r | 0 <= r < |s.readers| && s.readers[r].Guarding? && s.readers[r].p != s.current ::
      s.readers[r].e < s.epoch || s.writer.Exchanged?
  }

  /** Behind the scan only the current snapshot is held, whatever epoch the slot shows. */
  predicate ScannedAreCurrent(c: Config, s: State)
    requires c.WellFormed() && Shaped(c, s)
  {
    s.writer.Scanning? ==>
      && s.writer.target == s.epoch
      && s.writer.next <= |s.slots|
      && forall r | 0 <= r < |s.readers| && s.readers[r].Guarding? && c.slotOf[r] < s.writer.next ::
           s.readers[r].p == s.current
  }

  ghost predicate Invariant(c: Config, s: State)
    requires c.WellFormed() && Shaped(c, s)
  {
    && EpochsBounded(s)
    && SlotsPublished(c, s)
    && StoresPending(c, s)
    && StaleGuardsAreOld(s)
    && ScannedAreCurrent(c, s)
    && Conserved(s)
    && Safe(s)
  }

  predicate IsReaderStep(step: Step) {
    step.LoadEpoch? || step.StoreEpoch? || step.Fence? || step.LoadPointer? || step.Leave? || step.Flush?
  }

  lemma ReaderStepMovesNothing(c: Config, s: State, step: Step)
    requires c.WellFormed() && Shaped(c, s) && Enabled(c, s, step) && IsReaderStep(step)
    ensures var s' := Next(c, s, step);
      s'.current == s.current && s'.writer == s.writer && s'.parked == s.parked && s'.freed == s.freed
  {
  }

  /** Steps of the writer that free nothing: the pointer it holds stays being retired, or becomes parked. */
  lemma WriterStepMoves(c: Config, s: State, step: Step, p: nat)
    requires c.WellFormed() && Shaped(c, s) && Enabled(c, s, step)
    requires step.Exchange? || step.Bump? || step.PublishOnly? || step.LoadTarget? || step.ScanSlot? || step.GiveUp?
    ensures Places(Next(c, s, step), p) == Places(s, p) + if step.Exchange? && p == s.handed + 1 then 1 else 0
  {
  }

  lemma FreeingStepMoves(c: Config, s: State, step: Step, p: nat)
    requires c.WellFormed() && Shaped(c, s) && Enabled(c, s, step) && (step.Reclaim? || step.Destroy?)
    ensures Places(Next(c, s, step), p) == Places(s, p)
  {
  }

  /** A step moves a snapshot from one place to another; only `Exchange` brings in a new one. */
  lemma StepMovesSnapshots(c: Config, s: State, step: Step, p: nat)
    requires c.WellFormed() && Shaped(c, s) && Enabled(c, s, step)
    ensures Places(Next(c, s, step), p) == Places(s, p) + if step.Exchange? && p == s.handed + 1 then 1 else 0
  {
    if IsReaderStep(step) {
      ReaderStepMovesNothing(c, s, step);
    } else if step.Reclaim? || step.Destroy? {
      FreeingStepMoves(c, s, step, p);
    } else {
      WriterStepMoves(c, s, step, p);
    }
  }

  lemma ConservationPreserved(c: Config, s: State, step: Step)
    requires c.WellFormed() && Shaped(c, s) && Enabled(c, s, step)
    requires Conserved(s)
    ensures Conserved(Next(c, s, step))
  {
    var s' := Next(c, s, step);
    forall p: nat ensures Places(s', p) == if 1 <= p <= s'.handed then 1 else 0 {
      StepMovesSnapshots(c, s, step, p);
    }
  }

  lemma EpochsPreserved(c: Config, s: State, step: Step)
    requires c.WellFormed() && Shaped(c, s) && Enabled(c, s, step)
    requires EpochsBounded(s)
    ensures EpochsBounded(Next(c, s, step))
  {
  }

  /** A reader that is inside `read()` or a guard, or whose stores are still on the way. */
  predicate Busy(s: State, r: nat)
    requires r < |s.readers| == |s.buffers|
  {
    !s.readers[r].Outside? || s.buffers[r] != []
  }

  /** Busy readers are on slots of their own. */
  predicate Apart(c: Config, s: State)
    requires c.WellFormed() && Shaped(c, s)
  {
    forall r, q | 0 <= r < q < |s.readers| && Busy(s, r) && Busy(s, q) :: c.slotOf[r] != c.slotOf[q]
  }

  lemma SlotsPreserved(c: Config, s: State, step: Step)
    requires c.WellFormed() && Shaped(c, s) && Enabled(c, s, step)
    requires Apart(c, s) && c.fenced
    requires SlotsPublished(c, s) && StoresPending(c, s)
    ensures SlotsPublished(c, Next(c, s, step)) && StoresPending(c, Next(c, s, step))
  {
    if step.Flush? {
      var s' := Next(c, s, step);
      var b := s.buffers[step.r];
      assert s'.buffers[step.r] == b[1..];
      if |b| > 1 { assert b[1..][|b| - 2] == b[|b| - 1]; }
      assert Busy(s, step.r);
      forall r | 0 <= r < |s.readers| && r != step.r && !s.readers[r].Outside?
        ensures c.slotOf[r] != c.slotOf[step.r]
      {
        assert Busy(s, r);
      }
    }
  }

  lemma StalenessPreserved(c: Config, s: State, step: Step)
    requires c.WellFormed() && Shaped(c, s) && Enabled(c, s, step)
    requires EpochsBounded(s) && SlotsPublished(c, s) && Conserved(s)
    requires StaleGuardsAreOld(s) && ScannedAreCurrent(c, s)
    ensures StaleGuardsAreOld(Next(c, s, step)) && ScannedAreCurrent(c, Next(c, s, step))
  {
  }

  /** The reclaiming step meets no guard: every one of them holds the current snapshot by then. */
  lemma SafetyPreserved(c: Config, s: State, step: Step)
    requires c.WellFormed() && Shaped(c, s) && Enabled(c, s, step)
    requires Invariant(c, s)
    ensures Safe(Next(c, s, step))
  {
    assert Places(s, s.current) <= 1 && Places(s, NULL) == 0;
    if step.Reclaim? {
      forall r | 0 <= r < |s.readers| && s.readers[r].Guarding?
        ensures s.readers[r].p !in Next(c, s, step).freed
      {
        assert s.readers[r].p == s.current;
      }
    }
  }

  /** Every step of readers that are apart keeps the invariant. */
  lemma InvariantPreserved(c: Config, s: State, step: Step)
    requires c.WellFormed() && Shaped(c, s) && Enabled(c, s, step) && c.fenced
    requires Apart(c, s) && Invariant(c, s)
    ensures Invariant(c, Next(c, s, step))
  {
    ConservationPreserved(c, s, step);
    EpochsPreserved(c, s, step);
    SlotsPreserved(c, s, step);
    StalenessPreserved(c, s, step);
    SafetyPreserved(c, s, step);
  }

  lemma {:induction false} InvariantHolds(c: Config, steps: seq<Step>)
    requires c.WellFormed() && c.Exclusive() && c.fenced
    requires Final(c, steps).Some?
    ensures Invariant(c, Final(c, steps).value)
    decreases |steps|
  {
    if steps != [] {
      var prefix, last := steps[..|steps| - 1], steps[|steps| - 1];
      InvariantHolds(c, prefix);
      InvariantPreserved(c, Final(c, prefix).value, last);
    }
  }

  // ---------------------------------------------------------------- theorems

  /** In every interleaving, parked snapshots and timed-out grace periods included, no guard dangles. */
  lemma GuardsNeverDangle(c: Config, steps: seq<Step>)
    requires c.WellFormed() && c.Exclusive() && c.fenced
    requires Final(c, steps).Some?
    ensures Safe(Final(c, steps).value)
  {
    InvariantHolds(c, steps);
  }

  /** A slot the scan has passed may show any epoch later, but its reader holds the current snapshot. */
  lemma ScannedReadersHoldCurrent(c: Config, steps: seq<Step>, r: nat)
    requires c.WellFormed() && c.Exclusive() && c.fenced
    requires Final(c, steps).Some?
    requires var s := Final(c, steps).value;
             r < |s.readers| && s.readers[r].Guarding? && s.writer.Scanning? && c.slotOf[r] < s.writer.next
    ensures var s := Final(c, steps).value;
            s.readers[r].p == s.current && s.readers[r].p != s.writer.was && s.readers[r].p !in s.parked
  {
    InvariantHolds(c, steps);
    var s := Final(c, steps).value;
    PublishedOnceScanning(c, steps);
    assert Places(s, s.current) == 1;
  }

  lemma {:induction false} PublishedOnceScanning(c: Config, steps: seq<Step>)
    requires c.WellFormed() && Final(c, steps).Some?
    ensures Published(Final(c, steps).value)
  {
    if steps != [] {
      var prefix, last := steps[..|steps| - 1], steps[|steps| - 1];
      PublishedOnceScanning(c, prefix);
      PublishedPreserved(c, Final(c, prefix).value, last);
    }
  }

  /** While the writer is at work a snapshot is current. */
  predicate Published(s: State) {
    s.current <= s.handed && (!s.writer.Idle? && !s.writer.Destroyed? ==> s.current != NULL)
  }

  lemma PublishedPreserved(c: Config, s: State, step: Step)
    requires c.WellFormed() && Shaped(c, s) && Enabled(c, s, step) && Published(s)
    ensures Published(Next(c, s, step))
  {
  }

  /** Fenced or not, shared slots or not: every snapshot is in exactly one place and none is freed twice. */
  lemma {:induction false} SnapshotsConserved(c: Config, steps: seq<Step>)
    requires c.WellFormed() && Final(c, steps).Some?
    ensures Conserved(Final(c, steps).value)
    ensures forall p: nat :: Final(c, steps).value.freed[p] <= 1
  {
    if steps != [] {
      var prefix, last := steps[..|steps| - 1], steps[|steps| - 1];
      SnapshotsConserved(c, prefix);
      ConservationPreserved(c, Final(c, prefix).value, last);
    }
    var s := Final(c, steps).value;
    forall p: nat ensures s.freed[p] <= 1 {
      assert Places(s, p) <= 1;
    }
  }

  /** A `swap_and_reclaim` that returns true leaves exactly the current snapshot allocated. */
  lemma SuccessfulSwapLeavesOnlyCurrent(c: Config, steps: seq<Step>, p: nat)
    requires c.WellFormed() && steps != [] && steps[|steps| - 1] == Reclaim
    requires Final(c, steps).Some?
    ensures var s := Final(c, steps).value;
            1 <= p <= s.handed ==> (p !in s.freed <==> p == s.current)
  {
    SnapshotsConserved(c, steps);
    var s := Final(c, steps).value;
    assert Places(s, p) == if 1 <= p <= s.handed then 1 else 0;
  }
}
