/** What a live client is sent, said item by item: which received events are batched, which metrics go out, under
    which seqno, and in what order. */
module Deliveries {
  import opened Common
  import opened Lifecycle
  import opened EventFilter
  import opened Subscription
  import opened Items
  import opened LiveSession

  // ---- One received item ----

  /** An event past the cut that, tagged with the commit stage of its block, passes the base filter, the stage gate
      and, when names are given, the names and the field filter. */
  ghost predicate Batchable(sub: ClientSubscription, base: Filter, cut: nat, r: Received) {
    && r.si.seqno > cut && r.si.item.EventItem?
    && var e: Event := r.si.item.event;
       Wanted(sub, e.(commitStage := r.stage), base)
  }

  ghost predicate BatchedAs(sub: ClientSubscription, base: Filter, cut: nat, r: Received, b: BatchedEvent) {
    && Batchable(sub, base, cut, r)
    && b.origin == r.si.seqno
    && var e: Event := r.si.item.event;
       b.event == e.(commitStage := r.stage)
  }

  /** A metric past the cut whose own flag the subscription has set. */
  ghost predicate Sendable(sub: ClientSubscription, cut: nat, r: Received) {
    && r.si.seqno > cut && r.si.item.Metric?
    && (|| (r.si.item.kind == Tps && sub.includeTps)
        || (r.si.item.kind == ContentionReport && sub.includeContention)
        || (r.si.item.kind == TopAccesses && sub.includeTopAccesses)
        || (r.si.item.kind == LifecycleUpdate && sub.includeLifecycle))
  }

  ghost predicate SentAs(sub: ClientSubscription, cut: nat, r: Received, f: WireFrame) {
    Sendable(sub, cut, r) && f == MetricFrame(r.si.seqno, r.si.item)
  }

  lemma JudgeIff(sub: ClientSubscription, base: Filter, cut: nat, r: Received)
    requires r.si.seqno > cut
    ensures var out := Judge(sub, base, r.si.item, r.stage);
            && (out.EventOut? <==> Batchable(sub, base, cut, r))
            && (out.EventOut? ==> BatchedAs(sub, base, cut, r, BatchedEvent(r.si.seqno, out.event)))
            && (out.MetricOut? <==> Sendable(sub, cut, r))
            && (out.MetricOut? ==> SentAs(sub, cut, r, MetricFrame(r.si.seqno, out.item)))
  {
    if r.si.item.EventItem? {
      var e: Event := r.si.item.event;
      WantedIff(sub, e.(commitStage := r.stage), base);
    }
  }

  // ---- A list of received items ----

  /** The batch is made of the batchable events, in the order received: at tells where each came from. */
  ghost predicate Batches(sub: ClientSubscription, base: Filter, cut: nat, rs: seq<Received>, bs: seq<BatchedEvent>, at: seq<nat>) {
    && |at| == |bs|
    && (forall k :: 0 <= k < |at| ==> at[k] < |rs| && BatchedAs(sub, base, cut, rs[at[k]], bs[k]))
    && (forall k, l :: 0 <= k < l < |at| ==> at[k] < at[l])
    && (forall i :: 0 <= i < |rs| && Batchable(sub, base, cut, rs[i]) ==> i in at)
  }

  ghost predicate Sends(sub: ClientSubscription, cut: nat, rs: seq<Received>, fs: seq<WireFrame>, at: seq<nat>) {
    && |at| == |fs|
    && (forall k :: 0 <= k < |at| ==> at[k] < |rs| && SentAs(sub, cut, rs[at[k]], fs[k]))
    && (forall k, l :: 0 <= k < l < |at| ==> at[k] < at[l])
    && (forall i :: 0 <= i < |rs| && Sendable(sub, cut, rs[i]) ==> i in at)
  }

  lemma {:induction false} BatchIsExact(sub: ClientSubscription, base: Filter, cut: nat, rs: seq<Received>) returns (at: seq<nat>)
    ensures Batches(sub, base, cut, rs, EventsOf(JudgeAll(sub, base, rs, cut)), at)
  {
    if rs == [] {
      at := [];
    } else {
      var n := |rs| - 1;
      var before := BatchIsExact(sub, base, cut, rs[..n]);
      var bs := EventsOf(JudgeAll(sub, base, rs[..n], cut));
      assert rs[..n + 1] == rs;
      JudgeOneMore(sub, base, rs, n, cut);
      if Batchable(sub, base, cut, rs[n]) {
        JudgeIff(sub, base, cut, rs[n]);
        at := before + [n];
        OneMoreBatched(sub, base, cut, rs, bs, before, BatchedEvent(rs[n].si.seqno, Judge(sub, base, rs[n].si.item, rs[n].stage).event));
      } else {
        if rs[n].si.seqno > cut {
          JudgeIff(sub, base, cut, rs[n]);
        }
        at := before;
        NoneMoreBatched(sub, base, cut, rs, bs, at);
      }
    }
  }

  lemma OneMoreBatched(sub: ClientSubscription, base: Filter, cut: nat, rs: seq<Received>, bs: seq<BatchedEvent>, at: seq<nat>,
                       b: BatchedEvent)
    requires rs != [] && Batches(sub, base, cut, rs[..|rs| - 1], bs, at) && BatchedAs(sub, base, cut, rs[|rs| - 1], b)
    ensures Batches(sub, base, cut, rs, bs + [b], at + [|rs| - 1])
  {
    assert (at + [|rs| - 1])[|at|] == |rs| - 1;
    forall i | 0 <= i < |rs| && Batchable(sub, base, cut, rs[i]) ensures i in at + [|rs| - 1] {
      if i < |rs| - 1 {
        assert rs[..|rs| - 1][i] == rs[i];
      }
    }
  }

  lemma NoneMoreBatched(sub: ClientSubscription, base: Filter, cut: nat, rs: seq<Received>, bs: seq<BatchedEvent>, at: seq<nat>)
    requires rs != [] && Batches(sub, base, cut, rs[..|rs| - 1], bs, at) && !Batchable(sub, base, cut, rs[|rs| - 1])
    ensures Batches(sub, base, cut, rs, bs, at)
  {
    forall i | 0 <= i < |rs| && Batchable(sub, base, cut, rs[i]) ensures i in at {
      assert rs[..|rs| - 1][i] == rs[i];
    }
  }

  lemma {:induction false} SendsAreExact(sub: ClientSubscription, base: Filter, cut: nat, rs: seq<Received>) returns (at: seq<nat>)
    ensures Sends(sub, cut, rs, MetricsOf(JudgeAll(sub, base, rs, cut)), at)
  {
    if rs == [] {
      at := [];
    } else {
      var n := |rs| - 1;
      var before := SendsAreExact(sub, base, cut, rs[..n]);
      var fs := MetricsOf(JudgeAll(sub, base, rs[..n], cut));
      assert rs[..n + 1] == rs;
      JudgeOneMore(sub, base, rs, n, cut);
      if Sendable(sub, cut, rs[n]) {
        JudgeIff(sub, base, cut, rs[n]);
        at := before + [n];
        OneMoreSent(sub, cut, rs, fs, before, MetricFrame(rs[n].si.seqno, Judge(sub, base, rs[n].si.item, rs[n].stage).item));
      } else {
        if rs[n].si.seqno > cut {
          JudgeIff(sub, base, cut, rs[n]);
        }
        at := before;
        NoneMoreSent(sub, cut, rs, fs, at);
      }
    }
  }

  lemma OneMoreSent(sub: ClientSubscription, cut: nat, rs: seq<Received>, fs: seq<WireFrame>, at: seq<nat>, f: WireFrame)
    requires rs != [] && Sends(sub, cut, rs[..|rs| - 1], fs, at) && SentAs(sub, cut, rs[|rs| - 1], f)
    ensures Sends(sub, cut, rs, fs + [f], at + [|rs| - 1])
  {
    assert (at + [|rs| - 1])[|at|] == |rs| - 1;
    forall i | 0 <= i < |rs| && Sendable(sub, cut, rs[i]) ensures i in at + [|rs| - 1] {
      if i < |rs| - 1 {
        assert rs[..|rs| - 1][i] == rs[i];
      }
    }
  }

  lemma NoneMoreSent(sub: ClientSubscription, cut: nat, rs: seq<Received>, fs: seq<WireFrame>, at: seq<nat>)
    requires rs != [] && Sends(sub, cut, rs[..|rs| - 1], fs, at) && !Sendable(sub, cut, rs[|rs| - 1])
    ensures Sends(sub, cut, rs, fs, at)
  {
    forall i | 0 <= i < |rs| && Sendable(sub, cut, rs[i]) ensures i in at {
      assert rs[..|rs| - 1][i] == rs[i];
    }
  }

  /** An event is batched exactly when some received item is batchable as it. */
  lemma BatchIff(sub: ClientSubscription, base: Filter, cut: nat, rs: seq<Received>, b: BatchedEvent)
    ensures b in EventsOf(JudgeAll(sub, base, rs, cut)) <==> exists i :: 0 <= i < |rs| && BatchedAs(sub, base, cut, rs[i], b)
  {
    var bs := EventsOf(JudgeAll(sub, base, rs, cut));
    var at := BatchIsExact(sub, base, cut, rs);
    if b in bs {
      var k :| 0 <= k < |bs| && bs[k] == b;
      assert BatchedAs(sub, base, cut, rs[at[k]], b);
    }
    if i :| 0 <= i < |rs| && BatchedAs(sub, base, cut, rs[i], b) {
      var k :| 0 <= k < |at| && at[k] == i;
      assert bs[k] == b;
    }
  }

  /** The same of metrics. */
  lemma SentIff(sub: ClientSubscription, base: Filter, cut: nat, rs: seq<Received>, f: WireFrame)
    ensures f in MetricsOf(JudgeAll(sub, base, rs, cut)) <==> exists i :: 0 <= i < |rs| && SentAs(sub, cut, rs[i], f)
  {
    var fs := MetricsOf(JudgeAll(sub, base, rs, cut));
    var at := SendsAreExact(sub, base, cut, rs);
    if f in fs {
      var k :| 0 <= k < |fs| && fs[k] == f;
      assert SentAs(sub, cut, rs[at[k]], f);
    }
    if i :| 0 <= i < |rs| && SentAs(sub, cut, rs[i], f) {
      var k :| 0 <= k < |at| && at[k] == i;
      assert fs[k] == f;
    }
  }

  // ---- The frames of a drain ----

  /** The batch of the batchable events comes first, if there are any; then one frame for each sendable metric,
      under its own seqno, in the order received. The batch bears the seqno of the last metric frame, or, with no
      metrics, that of the item that woke the handler. */
  ghost predicate Delivers(sub: ClientSubscription, base: Filter, cut: nat, rs: seq<Received>, frames: seq<WireFrame>) {
    exists bs, fs, inBatch, inFrames ::
      && Batches(sub, base, cut, rs, bs, inBatch) && Sends(sub, cut, rs, fs, inFrames)
      && IsDelivery(rs, bs, fs, frames)
  }

  ghost predicate IsDelivery(rs: seq<Received>, bs: seq<BatchedEvent>, fs: seq<WireFrame>, frames: seq<WireFrame>) {
    if bs == [] then frames == fs
    else
      && |frames| == 1 + |fs| && frames[1..] == fs && frames[0].Events? && frames[0].events == bs && rs != []
      && (fs == [] ==> frames[0].seqno == rs[0].si.seqno)
      && (fs != [] ==> frames[0].seqno == WireSeqno(fs[|fs| - 1]))
  }

  lemma DrainDelivers(sub: ClientSubscription, base: Filter, cut: nat, first: Received, more: seq<Received>)
    requires first.si.seqno > cut
    ensures var ps := JudgeAll(sub, base, [first] + more, cut);
            ps != [] && Delivers(sub, base, cut, [first] + more, DrainFrames(ps))
  {
    var rs := [first] + more;
    var ps := JudgeAll(sub, base, rs, cut);
    FirstJudged(sub, base, first, more, cut);
    var inBatch := BatchIsExact(sub, base, cut, rs);
    var inFrames := SendsAreExact(sub, base, cut, rs);
    assert IsDelivery(rs, EventsOf(ps), MetricsOf(ps), DrainFrames(ps));
  }

  // ---- The channels ----

  /** Which metrics each channel starts out with. */
  lemma ChannelMetrics(c: Channel, cut: nat, r: Received)
    requires r.si.seqno > cut && r.si.item.Metric?
    ensures Sendable(FromChannel(c), cut, r) <==>
            match c
            case All => true
            case Blocks => r.si.item.kind == Tps || r.si.item.kind == LifecycleUpdate
            case Transactions => false
            case Contention => r.si.item.kind == ContentionReport
            case LifecycleOnly => r.si.item.kind == LifecycleUpdate
  {
  }

  /** Which events each channel starts out with, when no base filter restricts them. */
  lemma ChannelEvents(c: Channel, cut: nat, r: Received)
    requires r.si.seqno > cut && r.si.item.EventItem?
    ensures Batchable(FromChannel(c), [], cut, r) <==>
            match c
            case All => true
            case Blocks =>
              r.si.item.event.name in {BlockStart, BlockEnd, BlockReject, BlockQC, BlockFinalized, BlockVerified}
            case Transactions =>
              r.si.item.event.name in {TxnHeaderStart, TxnEnd, TxnReject, TxnEvmOutput, TxnLog, TxnCallFrame, NativeTransfer}
            case Contention => true
            case LifecycleOnly => true
  {
  }
}
