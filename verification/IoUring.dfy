/**
 The io_uring worker's buffer ownership.

 The kernel is a nondeterministic environment: it accepts any number of queued operations, completes the ones
 it has in any order at any moment, and decides each result. The worker reaps one completion at a time. Every
 real execution of the worker loop is one of these runs.
 */
module IoUring {
  import opened Common

  /** A receive into slot `i`, or a send from slot `i` of the reply `payload` encoded there. */
  datatype Op = Recv(i: nat) | Send(i: nat, payload: int)

  /** What a completion turns out to be. */
  datatype Outcome =
    | SendDone(ok: bool)
    | RecvFailed
    | RecvUnusable            // wrong size, or no policy loaded
    | RecvRequest(wellFormed: bool, reply: int)

  datatype State = State(
    free: seq<nat>,           // stack of free send slots
    queued: seq<Op>,          // prepared, not yet submitted
    kernel: seq<Op>,          // submitted, not yet completed
    done: seq<Op>,            // completed, not yet reaped
    buffers: seq<int>,        // contents of the send slots
    requests: nat, badMagic: nat, repliesSent: nat, sendFailures: nat)

  datatype Event =
    | Submit(n: nat)          // the kernel takes the first `n` queued operations
    | Complete(k: nat)        // the k-th operation in the kernel completes
    | Reap(outcome: Outcome)  // the worker handles the oldest completion

  /** `next_pow2`: the least power of two at or above `n`, starting from `p`. */
  function PowerFrom(p: nat, n: nat): (r: nat)
    requires p >= 1
    ensures r >= n && r >= p
    decreases n - p
  {
    if p >= n then p else PowerFrom(2 * p, n)
  }

  /** Size of the submission queue. */
  function Entries(batch: nat): nat { PowerFrom(8, batch * 4) }

  function Receives(batch: nat): seq<Op> { seq(batch, (i: nat) => Recv(i)) }

  /** The free stack as filled at start-up, slot 0 on top. */
  function AllFree(n: nat): seq<nat> { seq(n, i requires 0 <= i < n => n - 1 - i) }

  function Start(batch: nat): State {
    State(AllFree(2 * batch), Receives(batch), [], [], seq(2 * batch, i => 0), 0, 0, 0, 0)
  }

  /** `io_uring_get_sqe` and prep: an operation goes in unless the submission queue is full. */
  predicate HasRoom(batch: nat, s: State) { |s.queued| < Entries(batch) }

  function Enqueue(s: State, op: Op): State { s.(queued := s.queued + [op]) }

  /** `arm_recv`, whose result the loop ignores: with a full queue the slot would be lost. */
  function ArmRecv(batch: nat, s: State, i: nat): State {
    if HasRoom(batch, s) then Enqueue(s, Recv(i)) else s
  }

  /** Encode the reply into the top free slot and queue its send; no free slot or a full queue drops it. */
  function QueueReply(batch: nat, s: State, reply: int): State {
    if s.free == [] then s.(sendFailures := s.sendFailures + 1)
    else
      var top := s.free[|s.free| - 1];
      var written := if top < |s.buffers| then s.(buffers := s.buffers[top := reply]) else s;
      if HasRoom(batch, written) then
        Enqueue(written, Send(top, reply)).(free := s.free[..|s.free| - 1])
      else
        written.(sendFailures := s.sendFailures + 1)
  }

  function ReapOne(batch: nat, s: State, op: Op, outcome: Outcome): State {
    match op
    case Send(i, _) =>
      var s1 := s.(free := s.free + [i]);
      if outcome.SendDone? && outcome.ok then s1.(repliesSent := s.repliesSent + 1)
      else s1.(sendFailures := s.sendFailures + 1)
    case Recv(i) =>
      match outcome
      case RecvRequest(wellFormed, reply) =>
        ArmRecv(batch, QueueReply(batch, CountRequest(s, wellFormed), reply), i)
      case _ => ArmRecv(batch, s, i)
  }

  predicate Enabled(s: State, e: Event) {
    match e
    case Submit(n) => n <= |s.queued|
    case Complete(k) => k < |s.kernel|
    case Reap(outcome) => s.done != [] && (outcome.SendDone? <==> s.done[0].Send?)
  }

  function Apply(batch: nat, s: State, e: Event): State
    requires Enabled(s, e)
  {
    match e
    case Submit(n) => s.(kernel := s.kernel + s.queued[..n], queued := s.queued[n..])
    case Complete(k) => s.(kernel := s.kernel[..k] + s.kernel[k + 1..], done := s.done + [s.kernel[k]])
    case Reap(outcome) => ReapOne(batch, s.(done := s.done[1..]), s.done[0], outcome)
  }

  /** The state a schedule of events leads to, or `None` when some event of it is not possible. */
  function After(batch: nat, events: seq<Event>): Option<State> {
    if events == [] then Some(Start(batch))
    else
      match After(batch, events[..|events| - 1])
      case None => None
      case Some(s) => if Enabled(s, events[|events| - 1]) then Some(Apply(batch, s, events[|events| - 1])) else None
  }

  // ---------------------------------------------------------------- where each slot is

  predicate IsSlot(op: Op, sending: bool, i: nat) { op.i == i && op.Send? == sending }

  /** How often slot `i` of a kind occurs among operations. */
  function Occurs(ops: seq<Op>, sending: bool, i: nat): nat {
    if ops == [] then 0
    else Occurs(ops[..|ops| - 1], sending, i) + if IsSlot(ops[|ops| - 1], sending, i) then 1 else 0
  }

  function OccursFree(free: seq<nat>, i: nat): nat {
    if free == [] then 0 else OccursFree(free[..|free| - 1], i) + if free[|free| - 1] == i then 1 else 0
  }

  /** In how many places a slot is: free list, submission queue, kernel, completion queue. */
  function Places(s: State, sending: bool, i: nat): nat {
    (if sending then OccursFree(s.free, i) else 0)
    + Occurs(s.queued, sending, i) + Occurs(s.kernel, sending, i) + Occurs(s.done, sending, i)
  }

  lemma {:induction false} OccursConcat(a: seq<Op>, b: seq<Op>, sending: bool, i: nat)
    ensures Occurs(a + b, sending, i) == Occurs(a, sending, i) + Occurs(b, sending, i)
    decreases |b|
  {
    if b == [] {
      assert a + b == a;
    } else {
      var n := |b| - 1;
      assert (a + b)[..|a + b| - 1] == a + b[..n];
      OccursConcat(a, b[..n], sending, i);
    }
  }

  lemma OccursOne(op: Op, sending: bool, i: nat)
    ensures Occurs([op], sending, i) == if IsSlot(op, sending, i) then 1 else 0
  {
    assert [op][..0] == [];
  }

  lemma OccursFreePush(free: seq<nat>, x: nat, i: nat)
    ensures OccursFree(free + [x], i) == OccursFree(free, i) + if x == i then 1 else 0
  {
    assert (free + [x])[..|free|] == free;
  }

  lemma EnqueuePlaces(s: State, op: Op, sending: bool, i: nat)
    ensures Places(Enqueue(s, op), sending, i) == Places(s, sending, i) + if IsSlot(op, sending, i) then 1 else 0
  {
    OccursConcat(s.queued, [op], sending, i);
    OccursOne(op, sending, i);
  }

  /** All operations and free slots together: the count that bounds the submission queue. */
  function Held(s: State): nat { |s.free| + |s.queued| + |s.kernel| + |s.done| }

  lemma QueueReplyMoves(batch: nat, s: State, reply: int, sending: bool, i: nat)
    requires HasRoom(batch, s)
    ensures Places(QueueReply(batch, s, reply), sending, i) == Places(s, sending, i)
    ensures Held(QueueReply(batch, s, reply)) == Held(s)
  {
    if s.free != [] {
      var n := |s.free| - 1;
      var op := Send(s.free[n], reply);
      var s1 := s.(free := s.free[..n]);
      PopPlaces(s, sending, i);
      EnqueuePlaces(s1, op, sending, i);
      var s2 := QueueReply(batch, s, reply);
      assert s2.free == s1.free && s2.queued == s.queued + [op] && s2.kernel == s.kernel && s2.done == s.done;
    }
  }

  /** Taking the top slot off the free list. */
  lemma PopPlaces(s: State, sending: bool, i: nat)
    requires s.free != []
    ensures var n := |s.free| - 1;
      Places(s, sending, i) == Places(s.(free := s.free[..n]), sending, i) + if sending && s.free[n] == i then 1 else 0
  {
    var n := |s.free| - 1;
    assert s.free == s.free[..n] + [s.free[n]];
    OccursFreePush(s.free[..n], s.free[n], i);
  }

  /** The counters of a decoded request. */
  function CountRequest(s: State, wellFormed: bool): State {
    if wellFormed then s.(requests := s.requests + 1) else s.(badMagic := s.badMagic + 1)
  }

  lemma RequestMoves(batch: nat, s: State, j: nat, wellFormed: bool, reply: int, sending: bool, i: nat)
    requires Held(s) + 1 < Entries(batch)
    ensures var s' := ArmRecv(batch, QueueReply(batch, CountRequest(s, wellFormed), reply), j);
            && Places(s', sending, i) == Places(s, sending, i) + (if IsSlot(Recv(j), sending, i) then 1 else 0)
            && Held(s') == Held(s) + 1
  {
    var s1 := CountRequest(s, wellFormed);
    assert Places(s1, sending, i) == Places(s, sending, i) && Held(s1) == Held(s);
    QueueReplyMoves(batch, s1, reply, sending, i);
    EnqueuePlaces(QueueReply(batch, s1, reply), Recv(j), sending, i);
  }

  /** Reaping puts the completed slot back where it belongs. */
  lemma ReapMoves(batch: nat, s: State, op: Op, outcome: Outcome, sending: bool, i: nat)
    requires Held(s) + 1 < Entries(batch)
    requires outcome.SendDone? <==> op.Send?
    ensures Places(ReapOne(batch, s, op, outcome), sending, i)
         == Places(s, sending, i) + if IsSlot(op, sending, i) then 1 else 0
    ensures Held(ReapOne(batch, s, op, outcome)) == Held(s) + 1
  {
    if op.Send? {
      OccursFreePush(s.free, op.i, i);
    } else if outcome.RecvRequest? {
      RequestMoves(batch, s, op.i, outcome.wellFormed, outcome.reply, sending, i);
    } else {
      EnqueuePlaces(s, op, sending, i);
    }
  }

  lemma EventMoves(batch: nat, s: State, e: Event, sending: bool, i: nat)
    requires Enabled(s, e) && Held(s) < Entries(batch)
    ensures Places(Apply(batch, s, e), sending, i) == Places(s, sending, i)
    ensures Held(Apply(batch, s, e)) == Held(s)
  {
    match e
    case Submit(n) =>
      assert s.queued == s.queued[..n] + s.queued[n..];
      OccursConcat(s.queued[..n], s.queued[n..], sending, i);
      OccursConcat(s.kernel, s.queued[..n], sending, i);
    case Complete(k) => CompleteMoves(s, k, sending, i);
    case Reap(outcome) =>
      assert s.done == [s.done[0]] + s.done[1..];
      OccursConcat([s.done[0]], s.done[1..], sending, i);
      OccursOne(s.done[0], sending, i);
      ReapMoves(batch, s.(done := s.done[1..]), s.done[0], outcome, sending, i);
  }

  lemma CompleteMoves(s: State, k: nat, sending: bool, i: nat)
    requires k < |s.kernel|
    ensures var s' := s.(kernel := s.kernel[..k] + s.kernel[k + 1..], done := s.done + [s.kernel[k]]);
            Places(s', sending, i) == Places(s, sending, i)
  {
    assert s.kernel == s.kernel[..k] + [s.kernel[k]] + s.kernel[k + 1..];
    OccursConcat(s.kernel[..k] + [s.kernel[k]], s.kernel[k + 1..], sending, i);
    OccursConcat(s.kernel[..k], [s.kernel[k]], sending, i);
    OccursConcat(s.kernel[..k], s.kernel[k + 1..], sending, i);
    OccursConcat(s.done, [s.kernel[k]], sending, i);
  }

  // ---------------------------------------------------------------- start-up

  lemma {:induction false} ReceivesOnce(batch: nat, sending: bool, i: nat)
    ensures Occurs(Receives(batch), sending, i) == if !sending && i < batch then 1 else 0
  {
    if batch > 0 {
      assert Receives(batch)[..batch - 1] == Receives(batch - 1);
      ReceivesOnce(batch - 1, sending, i);
    }
  }

  lemma {:induction false} DescendingOnce(free: seq<nat>, i: nat)
    requires forall k, m | 0 <= k < m < |free| :: free[k] > free[m]
    ensures OccursFree(free, i) == if i in free then 1 else 0
    decreases |free|
  {
    if free != [] {
      var n := |free| - 1;
      assert free == free[..n] + [free[n]];
      DescendingOnce(free[..n], i);
    }
  }

  lemma StartPlaces(batch: nat, sending: bool, i: nat)
    ensures Places(Start(batch), sending, i) == if i < (if sending then 2 * batch else batch) then 1 else 0
    ensures Held(Start(batch)) == 3 * batch
  {
    ReceivesOnce(batch, sending, i);
    var free := AllFree(2 * batch);
    DescendingOnce(free, i);
    if i < 2 * batch { assert free[2 * batch - 1 - i] == i; }
  }

  // ---------------------------------------------------------------- buffers and counters

  /** What is still on its way out of slot `i` is what was encoded there. */
  predicate Intact(ops: seq<Op>, buffers: seq<int>) {
    forall k | 0 <= k < |ops| && ops[k].Send? :: ops[k].i < |buffers| && buffers[ops[k].i] == ops[k].payload
  }

  predicate BuffersIntact(s: State) { Intact(s.queued, s.buffers) && Intact(s.kernel, s.buffers) }

  function Sends(ops: seq<Op>): nat {
    if ops == [] then 0 else Sends(ops[..|ops| - 1]) + if ops[|ops| - 1].Send? then 1 else 0
  }

  /** Replies handed to the ring and not yet accounted for. */
  function Outstanding(s: State): nat { Sends(s.queued) + Sends(s.kernel) + Sends(s.done) }

  predicate Accounted(s: State) {
    s.requests + s.badMagic == s.repliesSent + s.sendFailures + Outstanding(s)
  }

  lemma {:induction false} SendsConcat(a: seq<Op>, b: seq<Op>)
    ensures Sends(a + b) == Sends(a) + Sends(b)
    decreases |b|
  {
    if b == [] {
      assert a + b == a;
    } else {
      var n := |b| - 1;
      assert (a + b)[..|a + b| - 1] == a + b[..n];
      SendsConcat(a, b[..n]);
    }
  }

  lemma SendsOne(op: Op)
    ensures Sends([op]) == if op.Send? then 1 else 0
  {
    assert [op][..0] == [];
  }

  /** Replies owed so far, replies settled so far. */
  function Owed(s: State): nat { s.requests + s.badMagic }
  function Settled(s: State): nat { s.repliesSent + s.sendFailures }

  lemma QueueReplyAccounts(batch: nat, s: State, reply: int)
    ensures var s' := QueueReply(batch, s, reply);
            Settled(s') + Outstanding(s') == Settled(s) + Outstanding(s) + 1 && Owed(s') == Owed(s)
  {
    if s.free != [] {
      var out := Send(s.free[|s.free| - 1], reply);
      SendsOne(out);
      SendsConcat(s.queued, [out]);
    }
  }

  lemma ArmAccounts(batch: nat, s: State, i: nat)
    ensures var s' := ArmRecv(batch, s, i);
            Settled(s') + Outstanding(s') == Settled(s) + Outstanding(s) && Owed(s') == Owed(s)
  {
    SendsOne(Recv(i));
    SendsConcat(s.queued, [Recv(i)]);
  }

  lemma ReapAccounts(batch: nat, s: State, op: Op, outcome: Outcome)
    requires outcome.SendDone? <==> op.Send?
    requires Owed(s) == Settled(s) + Outstanding(s) + Sends([op])
    ensures Accounted(ReapOne(batch, s, op, outcome))
  {
    SendsOne(op);
    if op.Recv? && outcome.RecvRequest? {
      var s1 := CountRequest(s, outcome.wellFormed);
      QueueReplyAccounts(batch, s1, outcome.reply);
      ArmAccounts(batch, QueueReply(batch, s1, outcome.reply), op.i);
    } else if op.Recv? {
      ArmAccounts(batch, s, op.i);
    }
  }

  lemma EventAccounts(batch: nat, s: State, e: Event)
    requires Enabled(s, e) && Accounted(s)
    ensures Accounted(Apply(batch, s, e))
  {
    match e
    case Submit(n) =>
      assert s.queued == s.queued[..n] + s.queued[n..];
      SendsConcat(s.queued[..n], s.queued[n..]);
      SendsConcat(s.kernel, s.queued[..n]);
    case Complete(k) =>
      assert s.kernel == s.kernel[..k] + [s.kernel[k]] + s.kernel[k + 1..];
      SendsConcat(s.kernel[..k] + [s.kernel[k]], s.kernel[k + 1..]);
      SendsConcat(s.kernel[..k], [s.kernel[k]]);
      SendsConcat(s.kernel[..k], s.kernel[k + 1..]);
      SendsConcat(s.done, [s.kernel[k]]);
    case Reap(outcome) =>
      assert s.done == [s.done[0]] + s.done[1..];
      SendsConcat([s.done[0]], s.done[1..]);
      ReapAccounts(batch, s.(done := s.done[1..]), s.done[0], outcome);
  }

  lemma {:induction false} OccursMember(ops: seq<Op>, k: nat)
    requires k < |ops|
    ensures Occurs(ops, ops[k].Send?, ops[k].i) >= 1
    decreases |ops|
  {
    if k < |ops| - 1 {
      assert ops[..|ops| - 1][k] == ops[k];
      OccursMember(ops[..|ops| - 1], k);
    }
  }

  /** The slot a reply is written into is nowhere in flight. */
  lemma TopIsIdle(s: State, ops: seq<Op>)
    requires s.free != [] && (ops == s.queued || ops == s.kernel || ops == s.done)
    requires Places(s, true, s.free[|s.free| - 1]) <= 1
    ensures forall k | 0 <= k < |ops| && ops[k].Send? :: ops[k].i != s.free[|s.free| - 1]
  {
    var top := s.free[|s.free| - 1];
    forall k | 0 <= k < |ops| && ops[k].Send? ensures ops[k].i != top {
      OccursMember(ops, k);
    }
  }

  lemma ReapKeepsBuffers(batch: nat, s: State, op: Op, outcome: Outcome)
    requires BuffersIntact(s)
    requires s.free != [] ==> s.free[|s.free| - 1] < |s.buffers| && Places(s, true, s.free[|s.free| - 1]) <= 1
    ensures BuffersIntact(ReapOne(batch, s, op, outcome))
    ensures |ReapOne(batch, s, op, outcome).buffers| == |s.buffers|
  {
    if op.Recv? && outcome.RecvRequest? {
      var s1 := CountRequest(s, outcome.wellFormed);
      assert Places(s1, true, if s.free == [] then 0 else s.free[|s.free| - 1])
          == Places(s, true, if s.free == [] then 0 else s.free[|s.free| - 1]);
      ReplyKeepsBuffers(batch, s1, outcome.reply);
    }
  }

  lemma ReplyKeepsBuffers(batch: nat, s: State, reply: int)
    requires BuffersIntact(s)
    requires s.free != [] ==> s.free[|s.free| - 1] < |s.buffers| && Places(s, true, s.free[|s.free| - 1]) <= 1
    ensures BuffersIntact(QueueReply(batch, s, reply)) && |QueueReply(batch, s, reply).buffers| == |s.buffers|
  {
    if s.free != [] {
      TopIsIdle(s, s.queued);
      TopIsIdle(s, s.kernel);
    }
  }

  // ---------------------------------------------------------------- theorems

  lemma QueueHasRoom(batch: nat)
    ensures 3 * batch < Entries(batch)
  {
  }

  /** Every slot is in exactly one place, every reply is accounted for, and every buffer in flight is intact. */
  ghost predicate Sound(batch: nat, s: State) {
    && Held(s) == 3 * batch
    && |s.buffers| == 2 * batch
    && (forall i: nat :: Places(s, true, i) == if i < 2 * batch then 1 else 0)
    && (forall i: nat :: Places(s, false, i) == if i < batch then 1 else 0)
    && BuffersIntact(s)
    && Accounted(s)
  }

  lemma {:induction false} OccursFreeMember(free: seq<nat>, k: nat)
    requires k < |free|
    ensures OccursFree(free, free[k]) >= 1
    decreases |free|
  {
    if k < |free| - 1 {
      assert free[..|free| - 1][k] == free[k];
      OccursFreeMember(free[..|free| - 1], k);
    }
  }

  lemma SlotsStayPlaced(batch: nat, s: State, e: Event)
    requires Sound(batch, s) && Enabled(s, e)
    ensures var s' := Apply(batch, s, e);
            && Held(s') == 3 * batch
            && (forall i: nat :: Places(s', true, i) == if i < 2 * batch then 1 else 0)
            && (forall i: nat :: Places(s', false, i) == if i < batch then 1 else 0)
  {
    QueueHasRoom(batch);
    var s' := Apply(batch, s, e);
    EventMoves(batch, s, e, true, 0);
    forall i: nat
      ensures Places(s', true, i) == if i < 2 * batch then 1 else 0
      ensures Places(s', false, i) == if i < batch then 1 else 0
    {
      EventMoves(batch, s, e, true, i);
      EventMoves(batch, s, e, false, i);
    }
  }

  lemma BuffersStayIntact(batch: nat, s: State, e: Event)
    requires Sound(batch, s) && Enabled(s, e)
    ensures BuffersIntact(Apply(batch, s, e)) && |Apply(batch, s, e).buffers| == 2 * batch
  {
    if e.Reap? {
      var s1 := s.(done := s.done[1..]);
      if s.free != [] {
        var top := s.free[|s.free| - 1];
        OccursFreeMember(s.free, |s.free| - 1);
        assert Places(s, true, top) == if top < 2 * batch then 1 else 0;
        assert s.done == [s.done[0]] + s.done[1..];
        OccursConcat([s.done[0]], s.done[1..], true, top);
      }
      ReapKeepsBuffers(batch, s1, s.done[0], e.outcome);
    }
  }

  /** Ownership, accounting and buffer integrity in every run. */
  lemma {:induction false} EveryRunIsSound(batch: nat, events: seq<Event>)
    requires After(batch, events).Some?
    ensures Sound(batch, After(batch, events).value)
    decreases |events|
  {
    if events == [] {
      forall i: nat
        ensures Places(Start(batch), true, i) == if i < 2 * batch then 1 else 0
        ensures Places(Start(batch), false, i) == if i < batch then 1 else 0
      {
        StartPlaces(batch, true, i);
        StartPlaces(batch, false, i);
      }
      StartPlaces(batch, true, 0);
      NoSends(batch);
    } else {
      EveryRunIsSound(batch, events[..|events| - 1]);
      var s, e := After(batch, events[..|events| - 1]).value, events[|events| - 1];
      StepStaysSound(batch, s, e);
    }
  }

  lemma {:induction false} NoSends(batch: nat)
    ensures Sends(Receives(batch)) == 0
  {
    if batch > 0 {
      assert Receives(batch)[..batch - 1] == Receives(batch - 1);
      NoSends(batch - 1);
    }
  }

  /** The submission queue never fills, so no receive slot is ever lost and no reply dropped for lack of an
      entry: one is still free after both pushes of a reaped request. */
  lemma SubmissionQueueNeverFull(batch: nat, events: seq<Event>)
    requires After(batch, events).Some?
    ensures |After(batch, events).value.queued| <= 3 * batch < Entries(batch)
  {
    EveryRunIsSound(batch, events);
    QueueHasRoom(batch);
  }

  /** The slot the worker encodes its next reply into is not queued, not in the kernel and not completed. */
  lemma NoBufferInFlightIsOverwritten(batch: nat, events: seq<Event>)
    requires After(batch, events).Some? && After(batch, events).value.free != []
    ensures var s := After(batch, events).value;
            var top := s.free[|s.free| - 1];
            && top < 2 * batch
            && Occurs(s.queued, true, top) == Occurs(s.kernel, true, top) == Occurs(s.done, true, top) == 0
  {
    EveryRunIsSound(batch, events);
    var s := After(batch, events).value;
    OccursFreeMember(s.free, |s.free| - 1);
    assert Places(s, true, s.free[|s.free| - 1]) <= 1;
  }

  // ---------------------------------------------------------------- the worker

  /** The worker's own data and the two shared queues. What the kernel holds is a ghost. */
  class Worker {
    const batch: nat
    const buffers: array<int>
    var free: seq<nat>
    var queued: seq<Op>
    var requests: nat
    var badMagic: nat
    var repliesSent: nat
    var sendFailures: nat
    var done: seq<Op>
    ghost var kernel: seq<Op>

    ghost function View(): State
      reads this, buffers
    {
      State(free, queued, kernel, done, buffers[..], requests, badMagic, repliesSent, sendFailures)
    }

    /** The start-up code: every send slot free, every receive slot armed. */
    constructor (b: nat)
      ensures batch == b && fresh(buffers) && View() == Start(b)
    {
      batch := b;
      buffers := new int[2 * b](i => 0);
      free, queued, kernel, done := [], [], [], [];
      requests, badMagic, repliesSent, sendFailures := 0, 0, 0, 0;
      new;
      for i := 0 to 2 * b
        invariant free == AllFree(2 * b)[..i] && queued == [] && kernel == [] && done == []
        invariant requests == badMagic == repliesSent == sendFailures == 0
        invariant buffers[..] == seq(2 * b, i => 0)
      {
        free := free + [2 * b - 1 - i];
      }
      QueueHasRoom(b);
      for i := 0 to b
        invariant free == AllFree(2 * b) && queued == Receives(i) && kernel == [] && done == []
        invariant requests == badMagic == repliesSent == sendFailures == 0
        invariant buffers[..] == seq(2 * b, i => 0)
      {
        var armed := Arm(i);
        assert Receives(i + 1) == Receives(i) + [Recv(i)];
      }
    }

    method Arm(i: nat) returns (armed: bool)
      modifies this`queued
      ensures armed <==> old(HasRoom(batch, View()))
      ensures View() == ArmRecv(batch, old(View()), i)
    {
      armed := |queued| < Entries(batch);
      if armed {
        queued := queued + [Recv(i)];
      }
    }

    method Reply(reply: int)
      requires free != [] ==> free[|free| - 1] < buffers.Length
      modifies this`free, this`queued, this`sendFailures, buffers
      ensures View() == QueueReply(batch, old(View()), reply)
    {
      if free != [] {
        var top := free[|free| - 1];
        buffers[top] := reply;
        if |queued| < Entries(batch) {
          queued := queued + [Send(top, reply)];
          free := free[..|free| - 1];
        } else {
          sendFailures := sendFailures + 1;
        }
      } else {
        sendFailures := sendFailures + 1;
      }
    }

    /** The loop body of `io_uring_for_each_cqe`, for the oldest completion. In a sound state the slot on top
        of the free list is in range (`FreeTopInRange`). */
    method Handle(outcome: Outcome)
      requires Enabled(View(), Reap(outcome)) && (free != [] ==> free[|free| - 1] < buffers.Length)
      modifies this, buffers
      ensures View() == Apply(batch, old(View()), Reap(outcome))
    {
      var op := done[0];
      done := done[1..];
      if op.Send? {
        FinishSend(op.i, outcome.SendDone? && outcome.ok);
        return;
      }
      if outcome.RecvRequest? {
        CountMessage(outcome.wellFormed);
        Reply(outcome.reply);
      }
      var armed := Arm(op.i);
    }

    /** A send completion: count it and give its slot back. */
    method FinishSend(i: nat, ok: bool)
      modifies this`free, this`repliesSent, this`sendFailures
      ensures var s := old(View());
        View() == if ok then s.(free := s.free + [i], repliesSent := s.repliesSent + 1)
                  else s.(free := s.free + [i], sendFailures := s.sendFailures + 1)
    {
      if ok { repliesSent := repliesSent + 1; } else { sendFailures := sendFailures + 1; }
      free := free + [i];
    }

    method CountMessage(wellFormed: bool)
      modifies this`requests, this`badMagic
      ensures View() == CountRequest(old(View()), wellFormed)
    {
      if wellFormed { requests := requests + 1; } else { badMagic := badMagic + 1; }
    }

    method HandleSoundly(outcome: Outcome)
      requires Sound(batch, View()) && Enabled(View(), Reap(outcome))
      modifies this, buffers
      ensures Sound(batch, View()) && View() == Apply(batch, old(View()), Reap(outcome))
    {
      FreeTopInRange(batch, View());
      StepStaysSound(batch, View(), Reap(outcome));
      Handle(outcome);
    }

    /** One round of the loop: reap what has completed, oldest first. */
    method Round(outcomes: seq<Outcome>)
      requires Sound(batch, View()) && Fits(done, outcomes)
      modifies this, buffers
      ensures Sound(batch, View()) && View() == ReapAll(batch, old(View()), outcomes)
    {
      var k := 0;
      while k < |outcomes|
        invariant 0 <= k <= |outcomes|
        invariant Sound(batch, View()) && View() == ReapAll(batch, old(View()), outcomes[..k])
      {
        assert outcomes[..k + 1][..k] == outcomes[..k];
        HandleSoundly(outcomes[k]);
        k := k + 1;
      }
      assert outcomes[..k] == outcomes;
    }
  }

  /** The outcomes fit the oldest completions, kind by kind. */
  predicate Fits(done: seq<Op>, outcomes: seq<Outcome>) {
    |outcomes| <= |done| && forall k | 0 <= k < |outcomes| :: outcomes[k].SendDone? <==> done[k].Send?
  }

  /** Reaping several completions in order. */
  function ReapAll(batch: nat, s: State, outcomes: seq<Outcome>): (s': State)
    requires Fits(s.done, outcomes)
    ensures s'.done == s.done[|outcomes|..]
  {
    if outcomes == [] then s
    else
      var s1 := ReapAll(batch, s, outcomes[..|outcomes| - 1]);
      ReapKeepsDone(batch, s1, outcomes[|outcomes| - 1]);
      Apply(batch, s1, Reap(outcomes[|outcomes| - 1]))
  }

  lemma ReapKeepsDone(batch: nat, s: State, outcome: Outcome)
    requires Enabled(s, Reap(outcome))
    ensures Apply(batch, s, Reap(outcome)).done == s.done[1..]
  {
  }

  lemma StepStaysSound(batch: nat, s: State, e: Event)
    requires Sound(batch, s) && Enabled(s, e)
    ensures Sound(batch, Apply(batch, s, e))
  {
    SlotsStayPlaced(batch, s, e);
    BuffersStayIntact(batch, s, e);
    EventAccounts(batch, s, e);
  }

  lemma FreeTopInRange(batch: nat, s: State)
    requires Sound(batch, s)
    ensures s.free != [] ==> s.free[|s.free| - 1] < 2 * batch
  {
    if s.free != [] {
      OccursFreeMember(s.free, |s.free| - 1);
      assert Places(s, true, s.free[|s.free| - 1]) >= 1;
    }
  }
}
