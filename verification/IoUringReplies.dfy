/** What the io_uring worker sends and counts, over every run: each counter, and the replies in their order. */
module IoUringReplies {
  import opened Common
  import opened IoUring

  // ---------------------------------------------------------------- slots and replies in flight

  /** Every send slot is free or carries a reply. */
  predicate SlotsAddUp(batch: nat, s: State) { |s.free| + Outstanding(s) == 2 * batch }

  lemma ReplyAddsUp(batch: nat, s: State, reply: int)
    ensures var t := QueueReply(batch, s, reply); |t.free| + Outstanding(t) == |s.free| + Outstanding(s)
  {
    if s.free != [] {
      var out := Send(s.free[|s.free| - 1], reply);
      SendsOne(out);
      SendsConcat(s.queued, [out]);
    }
  }

  lemma ArmAddsUp(batch: nat, s: State, i: nat)
    ensures var t := ArmRecv(batch, s, i); |t.free| + Outstanding(t) == |s.free| + Outstanding(s)
  {
    SendsOne(Recv(i));
    SendsConcat(s.queued, [Recv(i)]);
  }

  lemma ReapAddsUp(batch: nat, s: State, op: Op, outcome: Outcome)
    ensures var t := ReapOne(batch, s, op, outcome);
            |t.free| + Outstanding(t) == |s.free| + Outstanding(s) + if op.Send? then 1 else 0
  {
    if op.Recv? && outcome.RecvRequest? {
      var s1 := CountRequest(s, outcome.wellFormed);
      assert |s1.free| + Outstanding(s1) == |s.free| + Outstanding(s);
      ReplyAddsUp(batch, s1, outcome.reply);
      ArmAddsUp(batch, QueueReply(batch, s1, outcome.reply), op.i);
    } else if op.Recv? {
      ArmAddsUp(batch, s, op.i);
    }
  }

  lemma EventAddsUp(batch: nat, s: State, e: Event)
    requires Enabled(s, e) && SlotsAddUp(batch, s)
    ensures SlotsAddUp(batch, Apply(batch, s, e))
  {
    match e
    case Submit(n) =>
      assert s.queued == s.queued[..n] + s.queued[n..];
      SendsConcat(s.queued[..n], s.queued[n..]);
      SendsConcat(s.kernel, s.queued[..n]);
    case Complete(k) =>
      assert s.kernel == s.kernel[..k] + [s.kernel[k]] + s.kernel[k + 1..];
      SendsConcat(s.kernel[..k] + [s.kernel[k]], s.kernel[k + 1..]);
      SendsConcat(s.kernel[..k], [s.kernel[k]]);
      SendsConcat(s.kernel[..k], s.kernel[k + 1..]);
      SendsConcat(s.done, [s.kernel[k]]);
    case Reap(outcome) =>
      assert s.done == [s.done[0]] + s.done[1..];
      SendsConcat([s.done[0]], s.done[1..]);
      SendsOne(s.done[0]);
      ReapAddsUp(batch, s.(done := s.done[1..]), s.done[0], outcome);
  }

  /** So the worker runs out of slots exactly when all of them carry replies. */
  lemma {:induction false} NoSlotMeansAllInFlight(batch: nat, events: seq<Event>)
    requires After(batch, events).Some?
    ensures SlotsAddUp(batch, After(batch, events).value)
    ensures After(batch, events).value.free == [] <==> Outstanding(After(batch, events).value) == 2 * batch
    decreases |events|
  {
    if events == [] {
      NoSends(batch);
    } else {
      NoSlotMeansAllInFlight(batch, events[..|events| - 1]);
      EventAddsUp(batch, After(batch, events[..|events| - 1]).value, events[|events| - 1]);
    }
  }

  // ---------------------------------------------------------------- counters

  /** How many reaped completions had such an outcome. */
  function CountOf(events: seq<Event>, which: Outcome -> bool): nat {
    if events == [] then 0
    else
      var e := events[|events| - 1];
      CountOf(events[..|events| - 1], which) + if e.Reap? && which(e.outcome) then 1 else 0
  }

  /** How many requests found no free slot for their reply. */
  function Dropped(batch: nat, events: seq<Event>): nat
    requires After(batch, events).Some?
  {
    if events == [] then 0
    else
      var front, e := events[..|events| - 1], events[|events| - 1];
      var none := After(batch, front).value.free == [];
      Dropped(batch, front) + if e.Reap? && e.outcome.RecvRequest? && none then 1 else 0
  }

  function IsRequest(wellFormed: bool): Outcome -> bool {
    (o: Outcome) => o.RecvRequest? && o.wellFormed == wellFormed
  }

  function IsSend(ok: bool): Outcome -> bool { (o: Outcome) => o.SendDone? && o.ok == ok }

  ghost predicate Counted(batch: nat, events: seq<Event>, s: State)
    requires After(batch, events).Some?
  {
    && s.requests == CountOf(events, IsRequest(true)) && s.badMagic == CountOf(events, IsRequest(false))
    && s.repliesSent == CountOf(events, IsSend(true))
    && s.sendFailures == CountOf(events, IsSend(false)) + Dropped(batch, events)
  }

  lemma ReapCounts(batch: nat, s: State, outcome: Outcome)
    requires Enabled(s, Reap(outcome)) && HasRoom(batch, s)
    ensures var t := Apply(batch, s, Reap(outcome));
            && t.requests == s.requests + (if outcome.RecvRequest? && outcome.wellFormed then 1 else 0)
            && t.badMagic == s.badMagic + (if outcome.RecvRequest? && !outcome.wellFormed then 1 else 0)
            && t.repliesSent == s.repliesSent + (if outcome.SendDone? && outcome.ok then 1 else 0)
            && t.sendFailures == s.sendFailures + (if outcome.SendDone? && !outcome.ok then 1 else 0)
                                 + (if outcome.RecvRequest? && s.free == [] then 1 else 0)
  {
  }

  /** Each counter is the number of the outcomes it is named after; a reply without a slot is a failed send. */
  lemma {:induction false} EveryRunIsCounted(batch: nat, events: seq<Event>)
    requires After(batch, events).Some?
    ensures Counted(batch, events, After(batch, events).value)
    decreases |events|
  {
    if events != [] {
      var front, e := events[..|events| - 1], events[|events| - 1];
      EveryRunIsCounted(batch, front);
      SubmissionQueueNeverFull(batch, front);
      if e.Reap? { ReapCounts(batch, After(batch, front).value, e.outcome); }
    }
  }

  // ---------------------------------------------------------------- the replies themselves

  function Payloads(ops: seq<Op>): seq<int> {
    if ops == [] then []
    else Payloads(ops[..|ops| - 1]) + if ops[|ops| - 1].Send? then [ops[|ops| - 1].payload] else []
  }

  lemma {:induction false} PayloadsConcat(a: seq<Op>, b: seq<Op>)
    ensures Payloads(a + b) == Payloads(a) + Payloads(b)
    decreases |b|
  {
    if b == [] {
      assert a + b == a;
    } else {
      var n := |b| - 1;
      assert (a + b)[..|a + b| - 1] == a + b[..n];
      PayloadsConcat(a, b[..n]);
    }
  }

  lemma PayloadsMore(ops: seq<Op>, op: Op)
    ensures Payloads(ops + [op]) == Payloads(ops) + if op.Send? then [op.payload] else []
  {
    assert (ops + [op])[..|ops|] == ops;
  }

  /** What the kernel was given to send, in order. */
  function Submitted(batch: nat, events: seq<Event>): seq<int>
    requires After(batch, events).Some?
  {
    if events == [] then []
    else
      var front, e := events[..|events| - 1], events[|events| - 1];
      Submitted(batch, front) + Submits(After(batch, front).value, e)
  }

  function Submits(s: State, e: Event): seq<int> {
    if e.Submit? && e.n <= |s.queued| then Payloads(s.queued[..e.n]) else []
  }

  /** The replies to the requests reaped while a slot was free, in order. */
  function Answered(batch: nat, events: seq<Event>): seq<int>
    requires After(batch, events).Some?
  {
    if events == [] then []
    else
      var front, e := events[..|events| - 1], events[|events| - 1];
      Answered(batch, front) + Answers(After(batch, front).value, e)
  }

  function Answers(s: State, e: Event): seq<int> {
    if e.Reap? && e.outcome.RecvRequest? && s.free != [] then [e.outcome.reply] else []
  }

  lemma RequestQueues(batch: nat, s: State, i: nat, reply: int)
    requires |s.queued| + 1 < Entries(batch)
    ensures Payloads(ArmRecv(batch, QueueReply(batch, s, reply), i).queued)
         == Payloads(s.queued) + if s.free != [] then [reply] else []
  {
    if s.free == [] {
      PayloadsMore(s.queued, Recv(i));
    } else {
      var out := Send(s.free[|s.free| - 1], reply);
      PayloadsMore(s.queued, out);
      PayloadsMore(s.queued + [out], Recv(i));
    }
  }

  lemma ReapQueues(batch: nat, s: State, outcome: Outcome)
    requires Enabled(s, Reap(outcome)) && |s.queued| + 1 < Entries(batch)
    ensures Payloads(Apply(batch, s, Reap(outcome)).queued) == Payloads(s.queued) + Answers(s, Reap(outcome))
  {
    var op, s1 := s.done[0], s.(done := s.done[1..]);
    if op.Recv? && outcome.RecvRequest? {
      RequestQueues(batch, CountRequest(s1, outcome.wellFormed), op.i, outcome.reply);
    } else if op.Recv? {
      PayloadsMore(s.queued, Recv(op.i));
    }
  }

  lemma SubmitQueues(s: State, n: nat)
    requires n <= |s.queued|
    ensures Payloads(s.queued[..n]) + Payloads(s.queued[n..]) == Payloads(s.queued)
  {
    assert s.queued == s.queued[..n] + s.queued[n..];
    PayloadsConcat(s.queued[..n], s.queued[n..]);
  }

  /** Over every run: what was submitted, then what is queued, are the replies to the requests, each once, in order. */
  lemma {:induction false} RepliesInOrder(batch: nat, events: seq<Event>)
    requires After(batch, events).Some?
    ensures Submitted(batch, events) + Payloads(After(batch, events).value.queued) == Answered(batch, events)
    decreases |events|
  {
    if events == [] {
      NoPayloads(batch);
    } else {
      var front, e := events[..|events| - 1], events[|events| - 1];
      var s := After(batch, front).value;
      RepliesInOrder(batch, front);
      if e.Reap? { RoomForTwo(batch, front); }
      EventQueues(batch, s, e);
      Splice(Submitted(batch, front), Payloads(s.queued), Answered(batch, front),
             Submits(s, e), Payloads(Apply(batch, s, e).queued), Answers(s, e));
    }
  }

  lemma Splice(a: seq<int>, queued: seq<int>, all: seq<int>, sent: seq<int>, next: seq<int>, more: seq<int>)
    requires a + queued == all && sent + next == queued + more
    ensures (a + sent) + next == all + more
  {
    assert (a + sent) + next == a + (sent + next) == a + (queued + more) == (a + queued) + more;
  }

  lemma EventQueues(batch: nat, s: State, e: Event)
    requires Enabled(s, e) && (e.Reap? ==> |s.queued| + 1 < Entries(batch))
    ensures Submits(s, e) + Payloads(Apply(batch, s, e).queued) == Payloads(s.queued) + Answers(s, e)
  {
    if e.Submit? { SubmitQueues(s, e.n); }
    if e.Reap? { ReapQueues(batch, s, e.outcome); }
  }

  lemma RoomForTwo(batch: nat, events: seq<Event>)
    requires After(batch, events).Some? && After(batch, events).value.done != []
    ensures |After(batch, events).value.queued| + 1 < Entries(batch)
  {
    EveryRunIsSound(batch, events);
    QueueHasRoom(batch);
  }

  lemma {:induction false} NoPayloads(batch: nat)
    ensures Payloads(Receives(batch)) == []
  {
    if batch > 0 {
      assert Receives(batch)[..batch - 1] == Receives(batch - 1);
      NoPayloads(batch - 1);
    }
  }
}
