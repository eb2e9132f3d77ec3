/**
 The open-loop load generator's bookkeeping, UDP path.

 Clocks, send results and incoming datagrams are inputs. Times are exact: the send interval is a real number of
 nanoseconds and a scheduled time is the floor of the exact schedule, where the source accumulates doubles.
 */
module LoadGen {
  import opened Bits
  import opened Common

  const MAX_BURST: nat := 256

  datatype InFlight = InFlight(scheduled: nat, sentAt: nat, live: bool)

  /** A datagram read from the socket. */
  datatype Reply = Garbage | Decision(seqNo: nat, clientTs: nat)

  /** What the environment does during one iteration of the loop. `sendOk` and `clock` are indexed by the
      position in the burst. */
  datatype Iteration = Iteration(
    now: nat, sendOk: nat -> bool, clock: nat -> nat, replies: seq<Reply>, sweepClock: nat)

  function LiveCount(slots: seq<InFlight>): nat {
    if slots == [] then 0 else LiveCount(slots[..|slots| - 1]) + if slots[|slots| - 1].live then 1 else 0
  }

  /** When the k-th request is due, whatever happened to the ones before it. */
  function DueTime(start: nat, interval: real, k: nat): int {
    (start as real + k as real * interval).Floor
  }

  /** The schedule as the loop builds it, one interval at a time. */
  function Due(start: nat, interval: real, k: nat): real {
    if k == 0 then start as real else Due(start, interval, k - 1) + interval
  }

  lemma {:induction false} DueClosedForm(start: nat, interval: real, k: nat)
    ensures Due(start, interval, k) == start as real + k as real * interval
  {
    if k > 0 {
      DueClosedForm(start, interval, k - 1);
      assert k as real == (k - 1) as real + 1.0;
      assert ((k - 1) as real + 1.0) * interval == (k - 1) as real * interval + interval;
    }
  }

  lemma DueTimes(start: nat, interval: real, carried: seq<nat>)
    requires forall k | 0 <= k < |carried| :: carried[k] == Due(start, interval, k).Floor
    ensures forall k | 0 <= k < |carried| :: carried[k] == DueTime(start, interval, k)
  {
    forall k | 0 <= k < |carried| ensures carried[k] == DueTime(start, interval, k) {
      DueClosedForm(start, interval, k);
    }
  }

  lemma {:induction false} DueIsNatural(start: nat, interval: real, k: nat)
    requires interval > 0.0
    ensures Due(start, interval, k) >= start as real && Due(start, interval, k).Floor >= 0
  {
    if k > 0 { DueIsNatural(start, interval, k - 1); }
  }

  lemma SeqStep(n: nat)
    ensures (n % U32 + 1) % U32 == (n + 1) % U32
  {
  }

  lemma {:induction false} LiveUpdate(slots: seq<InFlight>, i: nat, x: InFlight)
    requires i < |slots|
    ensures LiveCount(slots[i := x]) + (if slots[i].live then 1 else 0)
         == LiveCount(slots) + (if x.live then 1 else 0)
    decreases |slots|
  {
    var n := |slots| - 1;
    if i == n {
      assert slots[i := x][..n] == slots[..n];
    } else {
      assert slots[i := x][..n] == slots[..n][i := x];
      LiveUpdate(slots[..n], i, x);
    }
  }

  lemma {:induction false} NoneLive(n: nat, x: InFlight)
    requires !x.live
    ensures LiveCount(seq(n, i => x)) == 0
  {
    if n > 0 {
      assert seq(n, i => x)[..n - 1] == seq(n - 1, i => x);
      NoneLive(n - 1, x);
    }
  }

  /** The reply answers what is live in its slot: same slot, same scheduled time. */
  predicate Settles(slots: seq<InFlight>, i: nat, clientTs: nat)
    requires i < |slots|
  {
    slots[i].live && slots[i].scheduled == clientTs
  }

  /** A slot after the timeout sweep. The ordering test guards the unsigned subtraction. */
  function Swept(slot: InFlight, now: nat, timeout: nat): InFlight {
    if slot.live && now > slot.sentAt && now - slot.sentAt > timeout then slot.(live := false) else slot
  }

  /** A request is written off when its timeout has passed since it was sent, and never before it was. */
  lemma WrittenOffWhen(slot: InFlight, now: nat, timeout: nat)
    ensures Swept(slot, now, timeout).live <==> slot.live && now <= slot.sentAt + timeout
    ensures Swept(slot, now, timeout).(live := slot.live) == slot
  {
  }

  // ---------------------------------------------------------------- what one iteration does

  /** The schedule, and the mask that finds a request's slot. */
  datatype Pace = Pace(start: nat, interval: real, mask: nat)

  /** The books: what was sent and failed to be, what came back, and the table of requests in flight. */
  datatype Book = Book(sent: nat, errors: nat, received: nat, bad: nat, stale: nat, slots: seq<InFlight>)

  function Scheduled(c: Pace, k: nat): nat
    requires c.interval > 0.0
  {
    DueIsNatural(c.start, c.interval, k);
    Due(c.start, c.interval, k).Floor
  }

  function Put(slots: seq<InFlight>, i: nat, x: InFlight): seq<InFlight> {
    if i < |slots| then slots[i := x] else slots
  }

  /** Request `k + j`, the j-th of a burst, is due and its send succeeds. */
  predicate GoesOut(c: Pace, k: nat, now: nat, sendOk: nat -> bool, j: nat) {
    Due(c.start, c.interval, k + j) <= now as real && sendOk(j)
  }

  /** A burst of `b` requests: all of them go out, and the next one does not, or would be one too many. */
  ghost predicate IsBurst(c: Pace, k: nat, now: nat, sendOk: nat -> bool, b: nat) {
    && b <= MAX_BURST && (forall j | 0 <= j < b :: GoesOut(c, k, now, sendOk, j))
    && (b == MAX_BURST || !GoesOut(c, k, now, sendOk, b))
  }

  lemma {:induction false} BurstFrom(c: Pace, k: nat, now: nat, sendOk: nat -> bool, j: nat) returns (b: nat)
    requires j <= MAX_BURST && forall i | 0 <= i < j :: GoesOut(c, k, now, sendOk, i)
    ensures IsBurst(c, k, now, sendOk, b)
    decreases MAX_BURST - j
  {
    b := j;
    if j < MAX_BURST && GoesOut(c, k, now, sendOk, j) { b := BurstFrom(c, k, now, sendOk, j + 1); }
  }

  lemma BurstExists(c: Pace, k: nat, now: nat, sendOk: nat -> bool)
    ensures exists b: nat :: IsBurst(c, k, now, sendOk, b)
  {
    var b := BurstFrom(c, k, now, sendOk, 0);
  }

  lemma NoLonger(c: Pace, k: nat, now: nat, sendOk: nat -> bool, a: nat, b: nat)
    requires a <= MAX_BURST && (forall j | 0 <= j < a :: GoesOut(c, k, now, sendOk, j))
    requires b == MAX_BURST || !GoesOut(c, k, now, sendOk, b)
    ensures a <= b
  {
  }

  /** How many requests an iteration sends, the first of them request `k`. */
  ghost function Burst(c: Pace, k: nat, now: nat, sendOk: nat -> bool): (b: nat)
    ensures IsBurst(c, k, now, sendOk, b)
  {
    BurstExists(c, k, now, sendOk);
    var b: nat :| IsBurst(c, k, now, sendOk, b);
    b
  }

  /** The burst of an iteration is the only number that is one. */
  lemma BurstIs(c: Pace, k: nat, now: nat, sendOk: nat -> bool, b: nat)
    requires IsBurst(c, k, now, sendOk, b)
    ensures b == Burst(c, k, now, sendOk)
  {
    var a := Burst(c, k, now, sendOk);
    NoLonger(c, k, now, sendOk, a, b);
    NoLonger(c, k, now, sendOk, b, a);
  }

  /** One request, sent at `at`, in its slot over whatever was there. */
  function OneSend(c: Pace, b: Book, at: nat): Book
    requires c.interval > 0.0
  {
    var slot := InFlight(Scheduled(c, b.sent), at, true);
    b.(sent := b.sent + 1, slots := Put(b.slots, And(b.sent % U32, c.mask), slot))
  }

  /** The next `n` requests. */
  function Sends(c: Pace, b: Book, clock: nat -> nat, n: nat): (r: Book)
    requires c.interval > 0.0
    ensures r.sent == b.sent + n && |r.slots| == |b.slots|
  {
    if n == 0 then b
    else
      OneSend(c, Sends(c, b, clock, n - 1), clock(n - 1))
  }

  /** Step 1: the burst, and an error if it ended at a failed send. */
  ghost function SendStep(c: Pace, b: Book, it: Iteration): Book
    requires c.interval > 0.0
  {
    var n := Burst(c, b.sent, it.now, it.sendOk);
    var p := Sends(c, b, it.clock, n);
    if n < MAX_BURST && Due(c.start, c.interval, b.sent + n) <= it.now as real then p.(errors := p.errors + 1) else p
  }

  /** A reply settles its request, is garbage, or is stale. */
  function OneReply(c: Pace, b: Book, r: Reply): Book {
    match r
    case Garbage => b.(bad := b.bad + 1)
    case Decision(seqNo, clientTs) =>
      var i := And(seqNo, c.mask);
      if i < |b.slots| && Settles(b.slots, i, clientTs)
      then b.(received := b.received + 1, slots := b.slots[i := b.slots[i].(live := false)])
      else b.(stale := b.stale + 1)
  }

  /** Step 2: the first `n` replies. */
  function Reads(c: Pace, b: Book, replies: seq<Reply>, n: nat): (r: Book)
    requires n <= |replies|
    ensures r.sent == b.sent && r.errors == b.errors && |r.slots| == |b.slots|
  {
    if n == 0 then b else OneReply(c, Reads(c, b, replies, n - 1), replies[n - 1])
  }

  function ReadCount(replies: seq<Reply>, limit: nat): (n: nat)
    ensures n <= |replies|
  {
    if limit < |replies| then limit else |replies|
  }

  /** Step 3: the timeout sweep. */
  function SweptAll(slots: seq<InFlight>, now: nat, timeout: nat): seq<InFlight> {
    seq(|slots|, j requires 0 <= j < |slots| => Swept(slots[j], now, timeout))
  }

  ghost function Iterated(c: Pace, b: Book, it: Iteration, limit: nat, sweepDue: bool, timeout: nat): Book
    requires c.interval > 0.0
  {
    var p := SendStep(c, b, it);
    var q := Reads(c, p, it.replies, ReadCount(it.replies, limit));
    if sweepDue then q.(slots := SweptAll(q.slots, it.sweepClock, timeout)) else q
  }

  /** The books after `n` iterations and when the next sweep is due. */
  ghost function Ran(c: Pace, b: Book, its: seq<Iteration>, n: nat, limit: nat, timeout: nat): (Book, nat)
    requires c.interval > 0.0 && n <= |its|
  {
    if n == 0 then (b, c.start + timeout)
    else
      var (p, sweepAt) := Ran(c, b, its, n - 1, limit, timeout);
      var it := its[n - 1];
      var due := it.now >= sweepAt;
      (Iterated(c, p, it, limit, due, timeout), if due then it.sweepClock + timeout else sweepAt)
  }

  /** A late reply counts whatever time it carries. */
  function OneLate(c: Pace, b: Book, r: Reply): Book {
    if r.Decision? && And(r.seqNo, c.mask) < |b.slots| && b.slots[And(r.seqNo, c.mask)].live then
      var i := And(r.seqNo, c.mask);
      b.(received := b.received + 1, slots := b.slots[i := b.slots[i].(live := false)])
    else b
  }

  /** The tail: the first `n` late replies. */
  function Late(c: Pace, b: Book, tail: seq<Reply>, n: nat): (r: Book)
    requires n <= |tail|
    ensures r == b.(received := r.received, slots := r.slots) && |r.slots| == |b.slots|
  {
    if n == 0 then b else OneLate(c, Late(c, b, tail, n - 1), tail[n - 1])
  }

  /** The books `b` after `j` requests of a burst that goes on. */
  ghost predicate InBurst(c: Pace, before: Book, it: Iteration, j: nat, b: Book) {
    && c.interval > 0.0 && j <= MAX_BURST && b == Sends(c, before, it.clock, j)
    && forall i | 0 <= i < j :: GoesOut(c, before.sent, it.now, it.sendOk, i)
  }

  lemma BurstStarts(c: Pace, b: Book, it: Iteration)
    requires c.interval > 0.0
    ensures InBurst(c, b, it, 0, b)
  {
  }

  lemma BurstGoesOn(c: Pace, before: Book, it: Iteration, j: nat, b: Book)
    requires InBurst(c, before, it, j, b) && j < MAX_BURST
    requires Due(c.start, c.interval, b.sent) <= it.now as real && it.sendOk(j)
    ensures InBurst(c, before, it, j + 1, OneSend(c, b, it.clock(j)))
  {
  }

  lemma BurstFails(c: Pace, before: Book, it: Iteration, j: nat, b: Book)
    requires InBurst(c, before, it, j, b) && j < MAX_BURST
    requires Due(c.start, c.interval, b.sent) <= it.now as real && !it.sendOk(j)
    ensures b.(errors := b.errors + 1) == SendStep(c, before, it)
  {
    BurstIs(c, before.sent, it.now, it.sendOk, j);
  }

  lemma BurstEnds(c: Pace, before: Book, it: Iteration, j: nat, b: Book)
    requires InBurst(c, before, it, j, b) && (j == MAX_BURST || (it.now as real) < Due(c.start, c.interval, b.sent))
    ensures b == SendStep(c, before, it) && b.errors == before.errors && b.sent == before.sent + j
  {
    BurstIs(c, before.sent, it.now, it.sendOk, j);
    SendsKeepErrors(c, before, it.clock, j);
  }

  lemma {:induction false} SendsKeepErrors(c: Pace, b: Book, clock: nat -> nat, n: nat)
    requires c.interval > 0.0
    ensures Sends(c, b, clock, n).errors == b.errors
  {
    if n > 0 { SendsKeepErrors(c, b, clock, n - 1); }
  }

  /** The books `b` and the next sweep after `n` iterations. */
  ghost predicate HasRun(
    c: Pace, before: Book, its: seq<Iteration>, n: nat, limit: nat, timeout: nat, b: Book, sweepAt: nat)
  {
    c.interval > 0.0 && n <= |its| && Ran(c, before, its, n, limit, timeout) == (b, sweepAt)
  }

  lemma RunGoesOn(
    c: Pace, before: Book, its: seq<Iteration>, n: nat, limit: nat, timeout: nat, b: Book, sweepAt: nat, after: Book)
    requires HasRun(c, before, its, n, limit, timeout, b, sweepAt) && n < |its|
    requires after == Iterated(c, b, its[n], limit, its[n].now >= sweepAt, timeout)
    ensures HasRun(c, before, its, n + 1, limit, timeout, after,
                   if its[n].now >= sweepAt then its[n].sweepClock + timeout else sweepAt)
  {
  }

  // ---------------------------------------------------------------- what is sent

  /** How many requests `n` iterations send: a matter of their clocks and send results alone. */
  ghost function SentAfter(c: Pace, its: seq<Iteration>, n: nat): nat
    requires n <= |its|
  {
    if n == 0 then 0
    else
      var k := SentAfter(c, its, n - 1);
      k + Burst(c, k, its[n - 1].now, its[n - 1].sendOk)
  }

  lemma {:induction false} RepliesDoNotMatter(
    c: Pace, b: Book, its: seq<Iteration>, n: nat, limit: nat, timeout: nat)
    requires c.interval > 0.0 && n <= |its| && b.sent == 0
    ensures Ran(c, b, its, n, limit, timeout).0.sent == SentAfter(c, its, n)
  {
    if n > 0 {
      RepliesDoNotMatter(c, b, its, n - 1, limit, timeout);
      var (p, sweepAt) := Ran(c, b, its, n - 1, limit, timeout);
      IterationSends(c, p, its[n - 1], limit, its[n - 1].now >= sweepAt, timeout);
    }
  }

  lemma IterationSends(c: Pace, b: Book, it: Iteration, limit: nat, sweepDue: bool, timeout: nat)
    requires c.interval > 0.0
    ensures Iterated(c, b, it, limit, sweepDue, timeout).sent == b.sent + Burst(c, b.sent, it.now, it.sendOk)
  {
  }

  /** No send fails, the clock does not go back, and no burst is cut short. */
  ghost predicate Keeping(c: Pace, its: seq<Iteration>, n: nat) {
    && n <= |its| && (forall i, j: nat | 0 <= i < n :: its[i].sendOk(j))
    && (forall i | 0 <= i < n :: Burst(c, SentAfter(c, its, i), its[i].now, its[i].sendOk) < 256)
    && forall i | 0 < i < n :: its[i - 1].now <= its[i].now
  }

  /** Request `k` is due by `now`. */
  predicate Reached(c: Pace, k: nat, now: nat) { Due(c.start, c.interval, k) <= now as real }

  /** The first `k` requests are due by `now`, and no more. */
  ghost predicate AllDue(c: Pace, k: nat, now: nat) { !Reached(c, k, now) && (k > 0 ==> Reached(c, k - 1, now)) }

  /** Request `k` is due when `k` intervals have passed. */
  lemma ReachedWhen(c: Pace, k: nat, now: nat)
    ensures Reached(c, k, now) <==> k as real * c.interval <= now as real - c.start as real
  {
    DueClosedForm(c.start, c.interval, k);
  }

  lemma PaceStep(c: Pace, k: nat, now: nat, sendOk: nat -> bool, b: nat)
    requires b == Burst(c, k, now, sendOk) < 256 && sendOk(b) && (k > 0 ==> Reached(c, k - 1, now))
    ensures AllDue(c, k + b, now)
  {
    if b > 0 { assert GoesOut(c, k, now, sendOk, b - 1); }
  }

  lemma KeepingLast(c: Pace, its: seq<Iteration>, n: nat, k: nat, b: nat)
    requires 0 < n && Keeping(c, its, n) && k == SentAfter(c, its, n - 1)
    requires b == Burst(c, k, its[n - 1].now, its[n - 1].sendOk)
    ensures b < 256 && its[n - 1].sendOk(b) && (n > 1 ==> its[n - 2].now <= its[n - 1].now)
    ensures Keeping(c, its, n - 1) && SentAfter(c, its, n) == k + b
  {
  }

  /** Then the requests sent are exactly those due by the last clock value, whatever came back. */
  lemma {:induction false} SendsWhatIsDue(c: Pace, its: seq<Iteration>, n: nat, sent: nat)
    requires 0 < n && Keeping(c, its, n) && sent == SentAfter(c, its, n)
    ensures AllDue(c, sent, its[n - 1].now)
    decreases n
  {
    var k, it := SentAfter(c, its, n - 1), its[n - 1];
    var b := Burst(c, k, it.now, it.sendOk);
    KeepingLast(c, its, n, k, b);
    if n > 1 {
      SendsWhatIsDue(c, its, n - 1, k);
      StillReached(c, k, its[n - 2].now, it.now);
    }
    PaceStep(c, k, it.now, it.sendOk, b);
  }

  lemma StillReached(c: Pace, k: nat, earlier: nat, now: nat)
    requires AllDue(c, k, earlier) && earlier <= now
    ensures k > 0 ==> Reached(c, k - 1, now)
  {
  }

  // ---------------------------------------------------------------- what is read

  function Garbages(replies: seq<Reply>, n: nat): nat
    requires n <= |replies|
  {
    if n == 0 then 0 else Garbages(replies, n - 1) + if replies[n - 1].Garbage? then 1 else 0
  }

  /** Every reply read is counted once, and each that settles takes one live request out of the table. */
  lemma {:induction false} ReadsAddUp(c: Pace, b: Book, replies: seq<Reply>, n: nat)
    requires n <= |replies|
    ensures var r := Reads(c, b, replies, n);
            && (r.received - b.received) + (r.bad - b.bad) + (r.stale - b.stale) == n
            && r.bad - b.bad == Garbages(replies, n)
            && LiveCount(r.slots) + (r.received - b.received) == LiveCount(b.slots)
            && b.received <= r.received && b.stale <= r.stale
  {
    if n > 0 {
      ReadsAddUp(c, b, replies, n - 1);
      var p := Reads(c, b, replies, n - 1);
      if replies[n - 1].Decision? {
        var i := And(replies[n - 1].seqNo, c.mask);
        if i < |p.slots| { LiveUpdate(p.slots, i, p.slots[i].(live := false)); }
      }
    }
  }

  /** A slot that is not live when reading starts, or no longer is, settles nothing. */
  lemma {:induction false} DeadStaysDead(c: Pace, b: Book, replies: seq<Reply>, m: nat, n: nat, i: nat)
    requires m <= n <= |replies| && i < |b.slots| && !Reads(c, b, replies, m).slots[i].live
    ensures !Reads(c, b, replies, n).slots[i].live
    decreases n
  {
    if m < n { DeadStaysDead(c, b, replies, m, n - 1, i); }
  }

  ghost predicate SettlesAt(c: Pace, b: Book, replies: seq<Reply>, j: nat)
    requires j < |replies|
  {
    Reads(c, b, replies, j + 1).received > Reads(c, b, replies, j).received
  }

  /** Of two replies to the same slot at most one settles it: duplicates are stale. */
  lemma SettledOnce(c: Pace, b: Book, replies: seq<Reply>, j: nat, k: nat)
    requires j < k < |replies| && replies[j].Decision? && replies[k].Decision?
    requires And(replies[j].seqNo, c.mask) == And(replies[k].seqNo, c.mask)
    ensures !SettlesAt(c, b, replies, j) || !SettlesAt(c, b, replies, k)
  {
    if SettlesAt(c, b, replies, j) {
      DeadStaysDead(c, b, replies, j + 1, k, And(replies[j].seqNo, c.mask));
    }
  }

  /** A reply to the request in slot `i`, carrying its scheduled time. */
  predicate IsReplyTo(c: Pace, slots: seq<InFlight>, i: nat, r: Reply)
    requires i < |slots|
  {
    r.Decision? && And(r.seqNo, c.mask) == i && r.clientTs == slots[i].scheduled
  }

  /** A request is still live if and only if it was and none of the replies read is its own. */
  lemma {:induction false} LiveUntilAnswered(c: Pace, b: Book, replies: seq<Reply>, n: nat, i: nat)
    requires n <= |replies| && i < |b.slots|
    ensures var slot := Reads(c, b, replies, n).slots[i];
            && slot == b.slots[i].(live := slot.live)
            && (slot.live <==> b.slots[i].live && forall j | 0 <= j < n :: !IsReplyTo(c, b.slots, i, replies[j]))
  {
    if n > 0 { LiveUntilAnswered(c, b, replies, n - 1, i); }
  }

  /** In the tail any reply to its slot will do. */
  lemma {:induction false} LiveUntilLate(c: Pace, b: Book, tail: seq<Reply>, n: nat, i: nat)
    requires n <= |tail| && i < |b.slots|
    ensures Late(c, b, tail, n).slots[i].live <==>
              b.slots[i].live && forall j | 0 <= j < n :: !(tail[j].Decision? && And(tail[j].seqNo, c.mask) == i)
  {
    if n > 0 { LiveUntilLate(c, b, tail, n - 1, i); }
  }

  /** When nothing is live any more, late replies change nothing. */
  lemma {:induction false} LateWhenDone(c: Pace, b: Book, tail: seq<Reply>, m: nat, n: nat)
    requires m <= n <= |tail| && LiveCount(Late(c, b, tail, m).slots) == 0
    ensures Late(c, b, tail, n) == Late(c, b, tail, m)
    decreases n
  {
    if m < n {
      LateWhenDone(c, b, tail, m, n - 1);
      var p := Late(c, b, tail, n - 1);
      NoLiveSlot(p.slots);
    }
  }

  lemma {:induction false} NoLiveSlot(slots: seq<InFlight>)
    requires LiveCount(slots) == 0
    ensures forall i | 0 <= i < |slots| :: !slots[i].live
  {
    if slots != [] { NoLiveSlot(slots[..|slots| - 1]); }
  }

  class Sender {
    const start: nat
    const interval: real
    const mask: nat
    ghost const log: nat
    const inflight: array<InFlight>
    var nextSend: real
    var seqNo: nat
    var sent: nat
    var received: nat
    var lost: nat
    var sendErrors: nat
    var badReplies: nat
    var staleReplies: nat
    /** The scheduled time each sent request carried on the wire, in sending order. */
    ghost var carried: seq<nat>

    ghost function PaceOf(): Pace
      reads this
    {
      Pace(start, interval, mask)
    }

    ghost function Books(): Book
      reads this, inflight
    {
      Book(sent, sendErrors, received, badReplies, staleReplies, inflight[..])
    }

    /** Every sent request is answered, written off or still live. */
    ghost predicate Conserved()
      reads this, inflight
    {
      sent == received + lost + LiveCount(inflight[..])
    }

    /** The schedule: request k carries its due time, and the next one is due when it should be. */
    ghost predicate OnSchedule()
      reads this
    {
      && |carried| == sent
      && nextSend == Due(start, interval, sent)
      && seqNo == sent % U32
      && forall k | 0 <= k < sent :: carried[k] == Due(start, interval, k).Floor
    }

    ghost predicate Valid()
      reads this, inflight
    {
      && inflight.Length == Pow2(log) && mask == inflight.Length - 1
      && interval > 0.0
      && Conserved() && OnSchedule()
    }

    constructor (s: nat, i: real, ghost k: nat, size: nat)
      requires i > 0.0 && size == Pow2(k)
      ensures Valid() && fresh(inflight) && start == s && interval == i && lost == 0
      ensures Books() == Book(0, 0, 0, 0, 0, seq(size, j => InFlight(0, 0, false)))
    {
      start, interval, log, mask := s, i, k, size - 1;
      inflight := new InFlight[size](j => InFlight(0, 0, false));
      nextSend, seqNo := s as real, 0;
      sent, received, lost, sendErrors, badReplies, staleReplies := 0, 0, 0, 0, 0, 0;
      carried := [];
      new;
      assert inflight[..] == seq(size, j => InFlight(0, 0, false));
      NoneLive(size, InFlight(0, 0, false));
    }

    method SetSlot(i: nat, x: InFlight)
      requires i < inflight.Length
      modifies inflight
      ensures inflight[..] == old(inflight[..])[i := x]
      ensures LiveCount(inflight[..]) + (if old(inflight[i]).live then 1 else 0)
           == LiveCount(old(inflight[..])) + (if x.live then 1 else 0)
    {
      LiveUpdate(inflight[..], i, x);
      inflight[i] := x;
    }

    /** Slot of a sequence number; the mask keeps it in the table. */
    function SlotOf(n: nat): nat
      reads this
    {
      And(n, mask)
    }

    lemma SlotInRange(n: nat)
      requires inflight.Length == Pow2(log) && mask == inflight.Length - 1
      ensures SlotOf(n) < inflight.Length
    {
      AndMask(n, log);
    }

    /** One due request. A failed send leaves the schedule where it is. */
    method IssueOne(ok: bool, at: nat)
      requires Valid()
      modifies this`sent, this`lost, this`seqNo, this`nextSend, this`carried, this`sendErrors, inflight
      ensures Valid()
      ensures Books() == if ok then OneSend(PaceOf(), old(Books()), at)
                         else old(Books()).(errors := old(sendErrors) + 1)
      ensures if ok then carried == old(carried) + [old(nextSend).Floor] else carried == old(carried)
    {
      if ok {
        Emit(at);
      } else {
        sendErrors := sendErrors + 1;
      }
    }

    /** Put a request into its slot, over whatever unanswered request was there. */
    method Occupy(scheduled: nat, at: nat)
      requires inflight.Length == Pow2(log) && mask == inflight.Length - 1
      modifies this`lost, inflight
      ensures lost + LiveCount(inflight[..]) == old(lost) + LiveCount(old(inflight[..])) + 1
      ensures SlotOf(seqNo) < inflight.Length
      ensures inflight[..] == old(inflight[..])[SlotOf(seqNo) := InFlight(scheduled, at, true)]
    {
      SlotInRange(seqNo);
      var i := SlotOf(seqNo);
      if inflight[i].live {
        lost := lost + 1;
      }
      SetSlot(i, InFlight(scheduled, at, true));
    }

    /** Move the schedule on by one interval. */
    method Advance()
      requires OnSchedule() && interval > 0.0
      modifies this`sent, this`seqNo, this`nextSend, this`carried
      ensures OnSchedule() && sent == old(sent) + 1 && nextSend == old(nextSend) + interval
      ensures carried == old(carried) + [old(nextSend).Floor]
    {
      DueIsNatural(start, interval, sent);
      SeqStep(sent);
      carried := carried + [nextSend.Floor];
      sent := sent + 1;
      seqNo := (seqNo + 1) % U32;
      nextSend := nextSend + interval;
    }

    method Emit(at: nat)
      requires Valid()
      modifies this`sent, this`lost, this`seqNo, this`nextSend, this`carried, inflight
      ensures Valid() && carried == old(carried) + [old(nextSend).Floor]
      ensures Books() == OneSend(PaceOf(), old(Books()), at)
    {
      DueIsNatural(start, interval, sent);
      Occupy(nextSend.Floor, at);
      Advance();
    }

    /** Step 1 of the loop: everything due by `now`, at most a bounded burst, stopping at the first failure. */
    method SendDue(it: Iteration)
      requires Valid()
      modifies this`sent, this`lost, this`seqNo, this`nextSend, this`carried, this`sendErrors, inflight
      ensures Valid() && old(carried) <= carried
      ensures Books() == SendStep(PaceOf(), old(Books()), it)
      ensures sendErrors == old(sendErrors) ==> (it.now as real) < nextSend || sent == old(sent) + MAX_BURST
    {
      ghost var c, before := PaceOf(), Books();
      BurstStarts(c, before, it);
      var burst := 0;
      while it.now as real >= nextSend && burst < MAX_BURST
        invariant Valid() && old(carried) <= carried && InBurst(c, before, it, burst, Books())
        decreases MAX_BURST - burst
      {
        ghost var b := Books();
        var ok := it.sendOk(burst);
        IssueOne(ok, it.clock(burst));
        if !ok {
          BurstFails(c, before, it, burst, b);
          SendsKeepErrors(c, before, it.clock, burst);
          return;
        }
        BurstGoesOn(c, before, it, burst, b);
        burst := burst + 1;
      }
      BurstEnds(c, before, it, burst, Books());
    }

    /** A reply settles its request only if the slot is live and carries the same scheduled time. */
    method Accept(r: Reply)
      requires Valid()
      modifies this`received, this`badReplies, this`staleReplies, inflight
      ensures Valid() && Books() == OneReply(PaceOf(), old(Books()), r)
    {
      if r.Garbage? {
        badReplies := badReplies + 1;
        return;
      }
      SlotInRange(r.seqNo);
      var i := SlotOf(r.seqNo);
      if !inflight[i].live || inflight[i].scheduled != r.clientTs {
        staleReplies := staleReplies + 1;
        return;
      }
      SetSlot(i, inflight[i].(live := false));
      received := received + 1;
    }

    /** Step 2: read replies, at most `limit`. */
    method DrainReplies(replies: seq<Reply>, limit: nat)
      requires Valid()
      modifies this`received, this`badReplies, this`staleReplies, inflight
      ensures Valid() && Books() == Reads(PaceOf(), old(Books()), replies, ReadCount(replies, limit))
    {
      var i := 0;
      while i < limit && i < |replies|
        invariant i <= ReadCount(replies, limit)
        invariant Valid() && Books() == Reads(PaceOf(), old(Books()), replies, i)
      {
        Accept(replies[i]);
        i := i + 1;
      }
    }

    method WriteOff(i: nat)
      requires Valid() && i < inflight.Length && inflight[i].live
      modifies this`lost, inflight
      ensures Valid() && lost == old(lost) + 1
      ensures inflight[..] == old(inflight[..])[i := old(inflight[i]).(live := false)]
    {
      SetSlot(i, inflight[i].(live := false));
      lost := lost + 1;
    }

    /** Step 3: write off live requests older than the timeout. */
    method Sweep(now: nat, timeout: nat)
      requires Valid()
      modifies this`lost, inflight
      ensures Valid() && Books() == old(Books()).(slots := SweptAll(old(inflight[..]), now, timeout))
    {
      var i := 0;
      while i < inflight.Length
        invariant 0 <= i <= inflight.Length && Valid()
        invariant forall j | 0 <= j < i :: inflight[j] == Swept(old(inflight[j]), now, timeout)
        invariant forall j | i <= j < inflight.Length :: inflight[j] == old(inflight[j])
      {
        var slot := inflight[i];
        if slot.live && now > slot.sentAt && now - slot.sentAt > timeout {
          WriteOff(i);
        }
        i := i + 1;
      }
      assert inflight[..] == SweptAll(old(inflight[..]), now, timeout);
    }

    method RunIteration(it: Iteration, limit: nat, sweepDue: bool, timeout: nat)
      requires Valid()
      modifies this, inflight
      ensures Valid() && old(carried) <= carried
      ensures Books() == Iterated(PaceOf(), old(Books()), it, limit, sweepDue, timeout)
      ensures sendErrors == old(sendErrors) ==> (it.now as real) < nextSend || sent == old(sent) + 256
    {
      SendDue(it);
      DrainReplies(it.replies, limit);
      if sweepDue {
        Sweep(it.sweepClock, timeout);
      }
    }

    /** One turn of the loop: an iteration, with a sweep if it is time for one. */
    method Turn(its: seq<Iteration>, i: nat, limit: nat, timeout: nat, sweepAt: nat, ghost before: Book)
      returns (next: nat)
      requires Valid() && i < |its| && HasRun(PaceOf(), before, its, i, limit, timeout, Books(), sweepAt)
      modifies this, inflight
      ensures Valid() && HasRun(PaceOf(), before, its, i + 1, limit, timeout, Books(), next)
    {
      ghost var b := Books();
      next := sweepAt;
      var sweepDue := its[i].now >= sweepAt;
      RunIteration(its[i], limit, sweepDue, timeout);
      if sweepDue {
        next := its[i].sweepClock + timeout;
      }
      RunGoesOn(PaceOf(), before, its, i, limit, timeout, b, sweepAt, Books());
    }

    /** The open loop over any environment. */
    method RunWindow(its: seq<Iteration>, limit: nat, timeout: nat)
      requires Valid()
      modifies this, inflight
      ensures Valid() && Books() == Ran(PaceOf(), old(Books()), its, |its|, limit, timeout).0
    {
      ghost var before := Books();
      var sweepAt: nat := start + timeout;
      var i := 0;
      while i < |its|
        invariant 0 <= i <= |its| && Valid() && HasRun(PaceOf(), before, its, i, limit, timeout, Books(), sweepAt)
      {
        sweepAt := Turn(its, i, limit, timeout, sweepAt, before);
        i := i + 1;
      }
    }

    /** The loop, then the tail. Nothing is unaccounted for at any iteration boundary, at the end sent = received +
        lost, and request k carried floor(start + k * interval) whatever the replies, send failures and stalls were. */
    method RunOpenLoop(its: seq<Iteration>, limit: nat, timeout: nat, tail: seq<Reply>)
      requires Valid() && sent == 0
      modifies this, inflight
      ensures sent == received + lost && sent == SentAfter(PaceOf(), its, |its|)
      ensures |carried| == sent && forall k | 0 <= k < sent :: carried[k] == DueTime(start, interval, k)
      ensures Books() == Late(PaceOf(), Ran(PaceOf(), old(Books()), its, |its|, limit, timeout).0, tail, |tail|)
    {
      RunWindow(its, limit, timeout);
      RepliesDoNotMatter(PaceOf(), old(Books()), its, |its|, limit, timeout);
      DrainTail(tail);
      DueTimes(start, interval, carried);
    }

    method AcceptLate(r: Reply)
      requires Valid()
      modifies this`received, inflight
      ensures Valid() && Books() == OneLate(PaceOf(), old(Books()), r)
    {
      if r.Decision? {
        SlotInRange(r.seqNo);
        var k := SlotOf(r.seqNo);
        if inflight[k].live {
          SetSlot(k, inflight[k].(live := false));
          received := received + 1;
        }
      }
    }

    /** After the window: late replies count whatever time they carry, and what is still live is lost. */
    method DrainTail(tail: seq<Reply>)
      requires Valid()
      modifies this`received, this`lost, inflight
      ensures sent == received + lost && OnSchedule()
      ensures Books() == Late(PaceOf(), old(Books()), tail, |tail|)
    {
      var i := 0;
      while i < |tail|
        invariant 0 <= i <= |tail| && Valid() && Books() == Late(PaceOf(), old(Books()), tail, i)
      {
        var outstanding := CountLive();
        if outstanding == 0 {
          LateWhenDone(PaceOf(), old(Books()), tail, i, |tail|);
          break;
        }
        AcceptLate(tail[i]);
        i := i + 1;
      }
      var n := CountLive();
      lost := lost + n;
    }

    /** `outstanding()`: the counting loop. */
    method CountLive() returns (n: nat)
      ensures n == LiveCount(inflight[..])
    {
      n := 0;
      for i := 0 to inflight.Length
        invariant n == LiveCount(inflight[..i])
      {
        assert inflight[..i + 1][..i] == inflight[..i];
        if inflight[i].live { n := n + 1; }
      }
      assert inflight[..inflight.Length] == inflight[..];
    }
  }
}
