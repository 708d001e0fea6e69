/** The live half of a connection (process_item_with_seqno and the drain in handle_ws,
    gateway/src/lib/server.rs): received items are sorted into an event batch and a list of metric messages,
    and at the end of the drain the batch goes out first, under the seqno of the last metric. */
module LiveSession {
  import opened Common
  import opened Lifecycle
  import opened EventFilter
  import opened Subscription
  import opened Items

  /** What becomes of one item under the subscription and the commit stage of the moment. */
  datatype Outcome = EventOut(event: Event) | MetricOut(item: Item) | Declined

  datatype Processed = Processed(seqno: nat, outcome: Outcome)

  predicate WantsMetric(sub: ClientSubscription, kind: MetricKind) {
    match kind
    case Tps => sub.includeTps
    case ContentionReport => sub.includeContention
    case TopAccesses => sub.includeTopAccesses
    case LifecycleUpdate => sub.includeLifecycle
  }

  function Judge(sub: ClientSubscription, base: Filter, item: Item, stage: Option<Stage>): Outcome {
    match item
    case EventItem(event) =>
      var e: Event := event;
      var tagged := e.(commitStage := stage);
      if WantsEvent(sub, tagged, base) == Accept then EventOut(tagged) else Declined
    case Metric(kind, _) => if WantsMetric(sub, kind) then MetricOut(item) else Declined
  }

  // ---- Frames on the wire ----

  /** origin is the seqno of the item an event came from; it is not on the wire. */
  datatype BatchedEvent = BatchedEvent(origin: nat, event: Event)

  datatype WireFrame =
    | Control                                              // Hello, Resume, Warning: seqno 0
    | State(seqno: nat)                                    // one message of a snapshot
    | Replay(seqno: nat, json: Json)
    | Events(seqno: nat, events: seq<BatchedEvent>)
    | MetricFrame(seqno: nat, item: Item)

  function EventsOf(ps: seq<Processed>): seq<BatchedEvent> {
    if ps == [] then []
    else
      var p := ps[|ps| - 1];
      EventsOf(ps[..|ps| - 1]) + (if p.outcome.EventOut? then [BatchedEvent(p.seqno, p.outcome.event)] else [])
  }

  function MetricsOf(ps: seq<Processed>): seq<WireFrame> {
    if ps == [] then []
    else
      var p := ps[|ps| - 1];
      MetricsOf(ps[..|ps| - 1]) + (if p.outcome.MetricOut? then [MetricFrame(p.seqno, p.outcome.item)] else [])
  }

  function WireSeqno(f: WireFrame): nat { if f.Control? then 0 else f.seqno }

  /** The frames of one drain. */
  function DrainFrames(ps: seq<Processed>): seq<WireFrame>
    requires ps != []
  {
    var events, metrics := EventsOf(ps), MetricsOf(ps);
    var batchSeqno := if metrics != [] then WireSeqno(metrics[|metrics| - 1]) else ps[0].seqno;
    (if events != [] then [Events(batchSeqno, events)] else []) + metrics
  }

  /** One received item, with the commit stage the tracker gives its block at that moment. */
  datatype Received = Received(si: SequencedItem, stage: Option<Stage>)

  function JudgeAll(sub: ClientSubscription, base: Filter, rs: seq<Received>, cut: nat): seq<Processed> {
    if rs == [] then []
    else
      var r := rs[|rs| - 1];
      JudgeAll(sub, base, rs[..|rs| - 1], cut) +
      (if r.si.seqno <= cut then [] else [Processed(r.si.seqno, Judge(sub, base, r.si.item, r.stage))])
  }

  class LiveClient {
    var subscription: ClientSubscription
    const base: Filter
    const lastSentSeqno: nat
    var eventsBuf: seq<BatchedEvent>
    var messagesBuf: seq<WireFrame>

    constructor (subscription: ClientSubscription, base: Filter, lastSentSeqno: nat)
      ensures this.subscription == subscription && this.base == base && this.lastSentSeqno == lastSentSeqno
      ensures eventsBuf == [] && messagesBuf == []
    {
      this.subscription, this.base, this.lastSentSeqno := subscription, base, lastSentSeqno;
      eventsBuf, messagesBuf := [], [];
    }

    method ProcessItem(r: Received)
      modifies this`eventsBuf, this`messagesBuf
      ensures var out := Judge(subscription, base, r.si.item, r.stage);
              && eventsBuf == old(eventsBuf) + (if out.EventOut? then [BatchedEvent(r.si.seqno, out.event)] else [])
              && messagesBuf == old(messagesBuf) + (if out.MetricOut? then [MetricFrame(r.si.seqno, out.item)] else [])
    {
      match r.si.item {
        case EventItem(event) =>
          var e: Event := event;
          e := e.(commitStage := r.stage);
          if WantsEvent(subscription, e, base) == Accept {
            eventsBuf := eventsBuf + [BatchedEvent(r.si.seqno, e)];
          }
        case Metric(kind, _) =>
          if WantsMetric(subscription, kind) {
            messagesBuf := messagesBuf + [MetricFrame(r.si.seqno, r.si.item)];
          }
      }
    }

    /** A drain: the item that woke the handler, then whatever else is there, then the frames. */
    method Drain(first: Received, more: seq<Received>) returns (frames: seq<WireFrame>)
      requires eventsBuf == [] && messagesBuf == [] && first.si.seqno > lastSentSeqno
      modifies this`eventsBuf, this`messagesBuf
      ensures eventsBuf == [] && messagesBuf == []
      ensures var ps := JudgeAll(subscription, base, [first] + more, lastSentSeqno);
              ps != [] && ps[0].seqno == first.si.seqno && frames == DrainFrames(ps)
    {
      FirstJudged(subscription, base, first, more, lastSentSeqno);
      Collect([first] + more);
      frames := Flush(first.si.seqno, JudgeAll(subscription, base, [first] + more, lastSentSeqno));
    }

    method Collect(all: seq<Received>)
      requires eventsBuf == [] && messagesBuf == []
      modifies this`eventsBuf, this`messagesBuf
      ensures eventsBuf == EventsOf(JudgeAll(subscription, base, all, lastSentSeqno))
      ensures messagesBuf == MetricsOf(JudgeAll(subscription, base, all, lastSentSeqno))
    {
      for i := 0 to |all|
        invariant eventsBuf == EventsOf(JudgeAll(subscription, base, all[..i], lastSentSeqno))
        invariant messagesBuf == MetricsOf(JudgeAll(subscription, base, all[..i], lastSentSeqno))
      {
        JudgeOneMore(subscription, base, all, i, lastSentSeqno);
        if all[i].si.seqno > lastSentSeqno {
          ProcessItem(all[i]);
        }
      }
      assert all[..|all|] == all;
    }

    method Flush(firstSeqno: nat, ghost ps: seq<Processed>) returns (frames: seq<WireFrame>)
      requires ps != [] && ps[0].seqno == firstSeqno && eventsBuf == EventsOf(ps) && messagesBuf == MetricsOf(ps)
      modifies this`eventsBuf, this`messagesBuf
      ensures eventsBuf == [] && messagesBuf == []
      ensures frames == DrainFrames(ps)
    {
      frames := [];
      if eventsBuf != [] {
        var batchSeqno := if messagesBuf != [] then WireSeqno(messagesBuf[|messagesBuf| - 1]) else firstSeqno;
        frames := [Events(batchSeqno, eventsBuf)];
        eventsBuf := [];
      }
      frames := frames + messagesBuf;
      messagesBuf := [];
    }
  }

  lemma JudgeOneMore(sub: ClientSubscription, base: Filter, rs: seq<Received>, n: nat, cut: nat)
    requires n < |rs|
    ensures var before, after := JudgeAll(sub, base, rs[..n], cut), JudgeAll(sub, base, rs[..n + 1], cut);
            var out := Judge(sub, base, rs[n].si.item, rs[n].stage);
            var seqno := rs[n].si.seqno;
            && EventsOf(after) == EventsOf(before) + (if seqno > cut && out.EventOut? then [BatchedEvent(seqno, out.event)] else [])
            && MetricsOf(after) == MetricsOf(before) + (if seqno > cut && out.MetricOut? then [MetricFrame(seqno, out.item)] else [])
  {
    JudgeLast(sub, base, rs, n, cut);
    if rs[n].si.seqno > cut {
      SortOneMore(JudgeAll(sub, base, rs[..n], cut), Processed(rs[n].si.seqno, Judge(sub, base, rs[n].si.item, rs[n].stage)));
    }
  }

  lemma JudgeLast(sub: ClientSubscription, base: Filter, rs: seq<Received>, n: nat, cut: nat)
    requires n < |rs|
    ensures var before, p := JudgeAll(sub, base, rs[..n], cut), Processed(rs[n].si.seqno, Judge(sub, base, rs[n].si.item, rs[n].stage));
            JudgeAll(sub, base, rs[..n + 1], cut) == if rs[n].si.seqno > cut then before + [p] else before
  {
    assert rs[..n + 1][..n] == rs[..n];
  }

  lemma SortOneMore(ps: seq<Processed>, p: Processed)
    ensures EventsOf(ps + [p]) == EventsOf(ps) + (if p.outcome.EventOut? then [BatchedEvent(p.seqno, p.outcome.event)] else [])
    ensures MetricsOf(ps + [p]) == MetricsOf(ps) + (if p.outcome.MetricOut? then [MetricFrame(p.seqno, p.outcome.item)] else [])
  {
    assert (ps + [p])[..|ps|] == ps;
  }

  lemma {:induction false} FirstJudged(sub: ClientSubscription, base: Filter, first: Received, more: seq<Received>, cut: nat)
    requires first.si.seqno > cut
    ensures var ps := JudgeAll(sub, base, [first] + more, cut);
            ps != [] && ps[0].seqno == first.si.seqno
  {
    var all := [first] + more;
    if more == [] {
      assert JudgeAll(sub, base, all[..0], cut) == [];
    } else {
      assert all[..|all| - 1] == [first] + more[..|more| - 1];
      FirstJudged(sub, base, first, more[..|more| - 1], cut);
    }
  }
}
