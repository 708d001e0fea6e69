/** Backpressure towards one client (send_or_drop in gateway/src/lib/server.rs): a bounded queue that never
    blocks the sender, counts what it drops, queues a warning every 1,000 drops and gives up at 10,000. */
module Backpressure {
  import opened Common

  const WARN_EVERY := 1_000
  const DROP_LIMIT := 10_000

  datatype Frame<T> = Payload(msg: T) | Warning(dropped: nat)

  datatype Sender<T> = Sender(
    queue: seq<Frame<T>>,
    closed: bool,
    dropCount: nat,
    totalSent: nat,
    pendingWarning: Option<nat>)

  /** The non-blocking enqueue of the bounded channel. */
  predicate HasRoom<T>(s: Sender<T>, cap: nat) { !s.closed && |s.queue| < cap }

  function Enqueued<T>(s: Sender<T>, cap: nat, f: Frame<T>): Sender<T> {
    if HasRoom(s, cap) then s.(queue := s.queue + [f]) else s
  }

  /** A pending warning is attempted first, whatever becomes of it. */
  function AfterWarning<T>(s: Sender<T>, cap: nat): Sender<T> {
    if s.pendingWarning.None? then s
    else Enqueued(s.(pendingWarning := None), cap, Warning(s.pendingWarning.value))
  }

  function SendOrDrop<T>(s: Sender<T>, cap: nat, msg: T): (Sender<T>, bool) {
    var w := AfterWarning(s, cap);
    if w.closed then (w, false)
    else if HasRoom(w, cap) then (Enqueued(w, cap, Payload(msg)).(totalSent := w.totalSent + 1), true)
    else
      var drops := w.dropCount + 1;
      (w.(dropCount := drops, pendingWarning := if drops % WARN_EVERY == 0 then Some(drops) else w.pendingWarning),
       drops < DROP_LIMIT)
  }

  // ---- Runs: sends, receives by the socket task, and the closing of the receiver, in any mix ----

  datatype Op<T> = Send(msg: T) | Receive | Close

  datatype Trace<T> = Trace(
    sender: Sender<T>,
    offered: seq<T>,
    accepted: seq<T>,
    enqueued: seq<Frame<T>>,
    delivered: seq<Frame<T>>,
    attempted: seq<nat>,
    refused: nat,
    allTrue: bool)

  function Idle<T>(): Sender<T> { Sender([], false, 0, 0, None) }

  ghost function Step<T>(t: Trace<T>, cap: nat, op: Op<T>): Trace<T> {
    var s := t.sender;
    match op
    case Receive => if s.queue == [] then t
                    else t.(sender := s.(queue := s.queue[1..]), delivered := t.delivered + [s.queue[0]])
    case Close => t.(sender := s.(closed := true))
    case Send(msg) =>
      var (s', ok) := SendOrDrop(s, cap, msg);
      Sent(t, s', msg, ok)
  }

  /** The trace after a send that turned the sender into s'. */
  ghost function Sent<T>(t: Trace<T>, s': Sender<T>, msg: T, ok: bool): Trace<T> {
    var s := t.sender;
    Trace(s',
          t.offered + [msg],
          if s'.totalSent > s.totalSent then t.accepted + [msg] else t.accepted,
          if |s.queue| <= |s'.queue| then t.enqueued + s'.queue[|s.queue|..] else t.enqueued,
          t.delivered,
          if s.pendingWarning.Some? then t.attempted + [s.pendingWarning.value] else t.attempted,
          if s.closed then t.refused + 1 else t.refused,
          t.allTrue && ok)
  }

  ghost function Run<T>(cap: nat, ops: seq<Op<T>>): Trace<T> {
    if ops == [] then Trace(Idle(), [], [], [], [], [], 0, true)
    else Step(Run(cap, ops[..|ops| - 1]), cap, ops[|ops| - 1])
  }

  lemma QueueGrows<T>(s: Sender<T>, cap: nat, msg: T)
    ensures var s' := SendOrDrop(s, cap, msg).0;
            && s.queue <= s'.queue
            && s'.queue[|s.queue|..] ==
                 (if s.pendingWarning.Some? && HasRoom(s, cap) then [Warning(s.pendingWarning.value)] else [])
                 + (if s'.totalSent > s.totalSent then [Payload(msg)] else [])
  {
  }

  /** Frames of a list that are real messages. */
  ghost function Payloads<T>(frames: seq<Frame<T>>): seq<T> {
    if frames == [] then []
    else Payloads(frames[..|frames| - 1]) +
         (if frames[|frames| - 1].Payload? then [frames[|frames| - 1].msg] else [])
  }

  lemma {:induction false} PayloadsAppend<T>(a: seq<Frame<T>>, b: seq<Frame<T>>)
    ensures Payloads(a + b) == Payloads(a) + Payloads(b)
  {
    if b == [] {
      assert a + b == a;
    } else {
      PayloadsAppend(a, b[..|b| - 1]);
      assert (a + b)[..|a + b| - 1] == a + b[..|b| - 1];
    }
  }

  /** a is b with some elements left out. */
  ghost predicate Subsequence<T>(a: seq<T>, b: seq<T>) {
    a == [] || (b != [] && (Subsequence(a, b[..|b| - 1]) ||
                            (a[|a| - 1] == b[|b| - 1] && Subsequence(a[..|a| - 1], b[..|b| - 1]))))
  }

  /** Conservation: every call is a sent message, a dropped one, or one refused by a closed channel; and what
      was sent is, in order, part of what was offered. */
  lemma {:induction false} CallsAreConserved<T>(cap: nat, ops: seq<Op<T>>)
    ensures var t := Run(cap, ops);
            && |t.offered| == t.sender.totalSent + t.sender.dropCount + t.refused
            && t.sender.totalSent == |t.accepted|
            && Subsequence(t.accepted, t.offered)
            && (!t.sender.closed ==> t.refused == 0)
  {
    if ops == [] {
    } else {
      CallsAreConserved(cap, ops[..|ops| - 1]);
      var t, op := Run(cap, ops[..|ops| - 1]), ops[|ops| - 1];
      ConservedStep(t, cap, op);
    }
  }

  ghost predicate Conserved<T>(t: Trace<T>) {
    && |t.offered| == t.sender.totalSent + t.sender.dropCount + t.refused
    && t.sender.totalSent == |t.accepted|
    && Subsequence(t.accepted, t.offered)
    && (!t.sender.closed ==> t.refused == 0)
  }

  lemma ConservedStep<T>(t: Trace<T>, cap: nat, op: Op<T>)
    requires Conserved(t)
    ensures Conserved(Step(t, cap, op))
  {
    if op.Send? {
      var (s', ok) := SendOrDrop(t.sender, cap, op.msg);
      SendCounts(t.sender, cap, op.msg);
      ConservedSend(t, s', op.msg, ok);
    }
  }

  lemma ConservedSend<T>(t: Trace<T>, s': Sender<T>, msg: T, ok: bool)
    requires Conserved(t) && s'.closed == t.sender.closed
    requires s'.totalSent + s'.dropCount + (if s'.closed then 1 else 0) == t.sender.totalSent + t.sender.dropCount + 1
    requires t.sender.totalSent <= s'.totalSent <= t.sender.totalSent + 1
    ensures Conserved(Sent(t, s', msg, ok))
  {
    SubsequenceGrows(t.accepted, t.offered, msg);
  }

  /** One call changes exactly one of the three counts, by one. */
  lemma SendCounts<T>(s: Sender<T>, cap: nat, msg: T)
    ensures var s' := SendOrDrop(s, cap, msg).0;
            && s'.totalSent + s'.dropCount + (if s.closed then 1 else 0) == s.totalSent + s.dropCount + 1
            && s.totalSent <= s'.totalSent <= s.totalSent + 1 && s.dropCount <= s'.dropCount
            && s'.closed == s.closed
  {
  }

  lemma SubsequenceGrows<T>(a: seq<T>, b: seq<T>, x: T)
    requires Subsequence(a, b)
    ensures Subsequence(a, b + [x]) && Subsequence(a + [x], b + [x])
  {
    assert (b + [x])[..|b|] == b && (a + [x])[..|a|] == a;
  }

  /** First in, first out: what the socket task has taken out and what is still queued, together, are the
      frames ever enqueued; without the warnings they are the accepted messages; the queue stays bounded. */
  lemma {:induction false} QueueIsFifo<T>(cap: nat, ops: seq<Op<T>>)
    ensures var t := Run(cap, ops);
            && t.delivered + t.sender.queue == t.enqueued
            && Payloads(t.delivered) + Payloads(t.sender.queue) == t.accepted
            && |t.sender.queue| <= cap
  {
    if ops == [] {
    } else {
      var front, op := ops[..|ops| - 1], ops[|ops| - 1];
      QueueIsFifo(cap, front);
      FifoStep(Run(cap, front), cap, op);
    }
  }

  ghost predicate Fifo<T>(t: Trace<T>, cap: nat) {
    && t.delivered + t.sender.queue == t.enqueued
    && Payloads(t.delivered) + Payloads(t.sender.queue) == t.accepted
    && |t.sender.queue| <= cap
  }

  lemma FifoStep<T>(t: Trace<T>, cap: nat, op: Op<T>)
    requires Fifo(t, cap)
    ensures Fifo(Step(t, cap, op), cap)
  {
    match op {
      case Receive => ReceiveKeepsFifo(t, cap);
      case Close =>
      case Send(msg) => SendKeepsFifo(t, cap, msg);
    }
  }

  lemma ReceiveKeepsFifo<T>(t: Trace<T>, cap: nat)
    requires Fifo(t, cap)
    ensures Fifo(Step(t, cap, Receive), cap)
  {
    if t.sender.queue != [] {
      TakeFirst(t.delivered, t.sender.queue);
    }
  }

  lemma TakeFirst<T>(done: seq<Frame<T>>, q: seq<Frame<T>>)
    requires q != []
    ensures done + [q[0]] + q[1..] == done + q
    ensures Payloads(done + [q[0]]) + Payloads(q[1..]) == Payloads(done) + Payloads(q)
  {
    assert q == [q[0]] + q[1..];
    Associative(done, [q[0]], q[1..]);
    PayloadsAppend([q[0]], q[1..]);
    PayloadsAppend(done, [q[0]]);
    Associative(Payloads(done), Payloads([q[0]]), Payloads(q[1..]));
  }

  lemma Associative<T>(a: seq<T>, b: seq<T>, c: seq<T>)
    ensures a + b + c == a + (b + c)
  {
  }

  lemma SendKeepsFifo<T>(t: Trace<T>, cap: nat, msg: T)
    requires Fifo(t, cap)
    ensures Fifo(Step(t, cap, Send(msg)), cap)
  {
    var (s', ok) := SendOrDrop(t.sender, cap, msg);
    QueueGrows(t.sender, cap, msg);
    AddedPayloads(t.sender, cap, msg);
    SendKeepsBound(t.sender, cap, msg);
    SentKeepsFifo(t, s', msg, ok, cap);
  }

  lemma SentKeepsFifo<T>(t: Trace<T>, s': Sender<T>, msg: T, ok: bool, cap: nat)
    requires Fifo(t, cap) && t.sender.queue <= s'.queue && |s'.queue| <= cap
    requires Payloads(s'.queue[|t.sender.queue|..]) == if s'.totalSent > t.sender.totalSent then [msg] else []
    ensures Fifo(Sent(t, s', msg, ok), cap)
  {
    var q := t.sender.queue;
    var added := s'.queue[|q|..];
    assert s'.queue == q + added;
    PayloadsAppend(q, added);
    Associative(t.delivered, q, added);
    Associative(Payloads(t.delivered), Payloads(q), Payloads(added));
  }

  lemma SendKeepsBound<T>(s: Sender<T>, cap: nat, msg: T)
    ensures |s.queue| <= cap ==> |SendOrDrop(s, cap, msg).0.queue| <= cap
  {
  }

  lemma AddedPayloads<T>(s: Sender<T>, cap: nat, msg: T)
    ensures var s' := SendOrDrop(s, cap, msg).0;
            Payloads(s'.queue[|s.queue|..]) == if s'.totalSent > s.totalSent then [msg] else []
  {
    QueueGrows(s, cap, msg);
    var w: seq<Frame<T>> := if s.pendingWarning.Some? && HasRoom(s, cap) then [Warning(s.pendingWarning.value)] else [];
    var p: seq<Frame<T>> := if SendOrDrop(s, cap, msg).0.totalSent > s.totalSent then [Payload(msg)] else [];
    PayloadsAppend(w, p);
    if w != [] {
      assert w[..0] == [];
    }
    if p != [] {
      assert p[..0] == [];
    }
  }

  lemma {:induction false} FullSubsequence<T>(a: seq<T>, b: seq<T>)
    requires Subsequence(a, b)
    ensures |a| <= |b| && (|a| == |b| ==> a == b)
  {
    if a == [] {
    } else {
      if Subsequence(a, b[..|b| - 1]) {
        FullSubsequence(a, b[..|b| - 1]);
      } else {
        FullSubsequence(a[..|a| - 1], b[..|b| - 1]);
        assert a == a[..|a| - 1] + [a[|a| - 1]] && b == b[..|b| - 1] + [b[|b| - 1]];
      }
    }
  }

  /** On a connection that dropped and refused nothing, what the client has received is a prefix of what
      the handler offered, interspersed only with warnings. */
  lemma ReceivedIsPrefix<T>(cap: nat, ops: seq<Op<T>>)
    requires var t := Run(cap, ops); t.sender.dropCount == 0 && t.refused == 0
    ensures var t := Run(cap, ops); Payloads(t.delivered) <= t.offered
  {
    CallsAreConserved(cap, ops);
    QueueIsFifo(cap, ops);
    FullSubsequence(Run(cap, ops).accepted, Run(cap, ops).offered);
  }

  /** 1000, 2000, ..., 1000 n. */
  ghost function Thousands(n: nat): seq<nat> { seq(n, i requires 0 <= i < n => WARN_EVERY * (i + 1)) }

  /** The warnings attempted, with the one still pending, are exactly one per thousand drops, in order: none is
      overwritten or repeated. */
  lemma {:induction false} WarningsAreTheThousands<T>(cap: nat, ops: seq<Op<T>>)
    ensures var t := Run(cap, ops);
            t.attempted + (if t.sender.pendingWarning.Some? then [t.sender.pendingWarning.value] else [])
            == Thousands(t.sender.dropCount / WARN_EVERY)
  {
    if ops == [] {
    } else {
      WarningsAreTheThousands(cap, ops[..|ops| - 1]);
      WarningStep(Run(cap, ops[..|ops| - 1]), cap, ops[|ops| - 1]);
    }
  }

  ghost function Warned<T>(t: Trace<T>): seq<nat> {
    t.attempted + (if t.sender.pendingWarning.Some? then [t.sender.pendingWarning.value] else [])
  }

  lemma WarningStep<T>(t: Trace<T>, cap: nat, op: Op<T>)
    requires Warned(t) == Thousands(t.sender.dropCount / WARN_EVERY)
    ensures var t' := Step(t, cap, op); Warned(t') == Thousands(t'.sender.dropCount / WARN_EVERY)
  {
    if op.Send? {
      var s' := SendOrDrop(t.sender, cap, op.msg).0;
      WarningAfterSend(t.sender, cap, op.msg);
      if s'.dropCount > t.sender.dropCount {
        NextThousand(t.sender.dropCount);
      }
    }
  }

  lemma WarningAfterSend<T>(s: Sender<T>, cap: nat, msg: T)
    ensures var s' := SendOrDrop(s, cap, msg).0;
            && s.dropCount <= s'.dropCount <= s.dropCount + 1
            && s'.pendingWarning ==
                 if s'.dropCount > s.dropCount && s'.dropCount % WARN_EVERY == 0 then Some(s'.dropCount) else None
  {
  }

  lemma NextThousand(d: nat)
    ensures (d + 1) % WARN_EVERY == 0 ==>
              Thousands((d + 1) / WARN_EVERY) == Thousands(d / WARN_EVERY) + [d + 1]
    ensures (d + 1) % WARN_EVERY != 0 ==> (d + 1) / WARN_EVERY == d / WARN_EVERY
  {
    if (d + 1) % WARN_EVERY == 0 {
      assert (d + 1) / WARN_EVERY == d / WARN_EVERY + 1;
    }
  }

  /** Every call so far has returned true exactly when the channel refused none and fewer than the limit
      were dropped. */
  lemma {:induction false} AllTrueIff<T>(cap: nat, ops: seq<Op<T>>)
    ensures var t := Run(cap, ops);
            t.allTrue <==> t.refused == 0 && t.sender.dropCount < DROP_LIMIT
  {
    if ops == [] {
    } else {
      AllTrueIff(cap, ops[..|ops| - 1]);
    }
  }

  /** When a message is dropped although the queue had room as the call came in: exactly when the pending
      warning takes the last place. */
  lemma WarningDisplacesIff<T>(s: Sender<T>, cap: nat, msg: T)
    requires HasRoom(s, cap)
    ensures SendOrDrop(s, cap, msg).0.totalSent == s.totalSent <==> s.pendingWarning.Some? && |s.queue| == cap - 1
  {
  }

  ghost function Sends<T>(msg: T, k: nat): seq<Op<T>> { if k == 0 then [] else Sends(msg, k - 1) + [Send(msg)] }

  /** k sends and nothing received: the queue fills, the rest is dropped. */
  lemma {:induction false} SendsFillTheQueue<T>(cap: nat, msg: T, k: nat)
    requires k <= cap + WARN_EVERY
    ensures IsFilled(Run(cap, Sends(msg, k)).sender, cap, k)
  {
    if k == 0 {
    } else {
      SendsFillTheQueue(cap, msg, k - 1);
      assert Sends(msg, k)[..|Sends(msg, k)| - 1] == Sends(msg, k - 1);
      SendFills(Run(cap, Sends(msg, k - 1)).sender, cap, msg, k);
    }
  }

  ghost predicate IsFilled<T>(s: Sender<T>, cap: nat, k: nat) {
    && !s.closed && |s.queue| == Min(k, cap) && s.dropCount == k - Min(k, cap)
    && s.pendingWarning == if k < cap + WARN_EVERY then None else Some(WARN_EVERY)
  }

  lemma SendFills<T>(s: Sender<T>, cap: nat, msg: T, k: nat)
    requires 0 < k <= cap + WARN_EVERY && IsFilled(s, cap, k - 1)
    ensures IsFilled(SendOrDrop(s, cap, msg).0, cap, k)
  {
    FirstThousand(s.dropCount + 1);
  }

  lemma FirstThousand(d: nat)
    requires 0 < d <= WARN_EVERY
    ensures d % WARN_EVERY == 0 <==> d == WARN_EVERY
  {
  }

  /** The displacement does happen, at any capacity: fill the queue, have a thousand messages dropped, free one
      place. The next message is dropped as well. */
  lemma WarningDoesDisplace<T>(cap: nat, msg: T, next: T)
    requires cap > 0
    ensures var s := Run(cap, Sends(msg, cap + WARN_EVERY) + [Receive]).sender;
            && HasRoom(s, cap) && s.pendingWarning == Some(WARN_EVERY) && |s.queue| == cap - 1
            && SendOrDrop(s, cap, next).0.dropCount == s.dropCount + 1
  {
    var ops := Sends(msg, cap + WARN_EVERY);
    SendsFillTheQueue(cap, msg, cap + WARN_EVERY);
    assert (ops + [Receive])[..|ops|] == ops;
  }

  class ClientSender<T> {
    const capacity: nat
    var queue: seq<Frame<T>>
    var closed: bool
    var dropCount: nat
    var totalSent: nat
    var pendingWarning: Option<nat>
    /** Everything that happened on this connection. */
    ghost var ops: seq<Op<T>>

    ghost function Abs(): Sender<T>
      reads this
    {
      Sender(queue, closed, dropCount, totalSent, pendingWarning)
    }

    ghost predicate Valid()
      reads this
    {
      Abs() == Run(capacity, ops).sender
    }

    constructor (capacity: nat := 4_096)
      ensures Valid() && ops == [] && this.capacity == capacity
    {
      this.capacity := capacity;
      queue, closed, dropCount, totalSent, pendingWarning, ops := [], false, 0, 0, None, [];
    }

    method TrySend(f: Frame<T>) returns (ok: bool)
      modifies this`queue
      ensures ok == old(HasRoom(Abs(), capacity)) && Abs() == Enqueued(old(Abs()), capacity, f)
    {
      ok := !closed && |queue| < capacity;
      if ok {
        queue := queue + [f];
      }
    }

    method SendMessage(msg: T) returns (ok: bool)
      requires Valid()
      modifies this
      ensures Valid() && ops == old(ops) + [Send(msg)]
      ensures (Abs(), ok) == old(SendOrDrop(Abs(), capacity, msg))
      ensures Run(capacity, ops).allTrue == (old(Run(capacity, ops)).allTrue && ok)
    {
      ghost var before := Abs();
      if pendingWarning.Some? {
        var dropped := pendingWarning.value;
        pendingWarning := None;
        var _ := TrySend(Warning(dropped));
      }
      assert Abs() == AfterWarning(before, capacity);
      var sent := TrySend(Payload(msg));
      if sent {
        totalSent := totalSent + 1;
        ok := true;
      } else if !closed {
        dropCount := dropCount + 1;
        if dropCount % WARN_EVERY == 0 {
          pendingWarning := Some(dropCount);
        }
        ok := dropCount < DROP_LIMIT;
      } else {
        ok := false;
      }
      assert (Abs(), ok) == SendOrDrop(before, capacity, msg);
      ops := ops + [Send(msg)];
      assert ops[..|ops| - 1] == old(ops);
    }

    /** The socket task takes the oldest frame. */
    method ReceiveFrame() returns (f: Option<Frame<T>>)
      requires Valid()
      modifies this`queue, this`ops
      ensures Valid() && ops == old(ops) + [Receive]
      ensures Run(capacity, ops).delivered ==
              old(Run(capacity, ops)).delivered + (if f.Some? then [f.value] else [])
    {
      ops := ops + [Receive];
      assert ops[..|ops| - 1] == old(ops);
      if queue == [] {
        return None;
      }
      f := Some(queue[0]);
      queue := queue[1..];
    }

    method CloseReceiver()
      requires Valid()
      modifies this`closed, this`ops
      ensures Valid() && ops == old(ops) + [Close]
    {
      closed := true;
      ops := ops + [Close];
      assert ops[..|ops| - 1] == old(ops);
    }
  }
}
