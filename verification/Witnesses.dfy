/** A run of the whole chain in which a client is caught between a batch and its metrics: what the cursor theorem of
    Resume warns of does happen. Two items are published; a client resumes from the first and is sent the second; one
    event and one metric are published and taken in one drain (gateway/src/lib/server.rs:869-909). */
module Witnesses {
  import opened Common
  import opened EventFilter
  import opened Subscription
  import opened Items
  import opened Forwarder
  import opened LiveSession
  import opened Resume
  import opened Handoff
  import opened Chain
  import opened DroppedFrames
  import Backpressure

  // ---- The run ----

  function Opening(p: Publication, q: Publication): seq<Action> {
    Publishing(p) + Publishing(q) + [Subscribe(Some(1)), Decide, ReplayNext, ReplayNext]
  }

  function MixedRun(p: Publication, q: Publication, e: Publication, m: Publication): seq<Action> {
    Opening(p, q) + Publishing(e) + Publishing(m) + [Recv, TryRecv] + [TryRecv]
  }

  ghost function TwoPublished(p: Publication, q: Publication, max: nat): System {
    START.(seqno := 2, history := Window([p, q], max), published := [p, q])
  }

  lemma TwoArePublished(max: nat, cap: nat, p: Publication, q: Publication)
    ensures Exec(max, cap, Publishing(p) + Publishing(q)) == TwoPublished(p, q, max)
  {
    FirstIsPublished(max, cap, p);
    PublishedOnce(max, cap, Publishing(p), q);
    WindowGrows([p], q, max);
    assert [p] + [q] == [p, q];
  }

  /** With a history of two, a client that has seen the first item is sent the second. */
  lemma SecondIsSelected(p: Publication, q: Publication, max: nat)
    requires max >= 2
    ensures Selection(Window([p, q], max), Some(1)) == [ReplayEntry(2, q.json)]
  {
    var history := Window([p, q], max);
    ResumeIff(history, Some(1));
    assert history[1..] == [ReplayEntry(2, q.json)];
  }

  lemma ReplayedOne(s: System, max: nat, cap: nat, e: ReplayEntry)
    requires s.handler == Connecting && s.forwarder == Idle && s.replayed == [] && Selection(s.history, Some(1)) == [e]
    ensures Step(Step(Step(Step(s, max, cap, Subscribe(Some(1))), max, cap, Decide), max, cap, ReplayNext), max, cap, ReplayNext)
            == s.(handler := Waiting, cursor := Some(1), subscribedAt := s.seqno, mode := Handoff.Resume,
                  replayed := [e], lastSent := e.seqno)
  {
    var s1 := s.(handler := Subscribed, cursor := Some(1), subscribedAt := s.seqno);
    assert Step(s, max, cap, Subscribe(Some(1))) == s1;
    var s2 := s1.(handler := Replaying([e], 0), mode := Handoff.Resume);
    assert Step(s1, max, cap, Decide) == s2;
    var s3 := s2.(handler := Replaying([e], 1), replayed := [e], lastSent := e.seqno);
    assert Step(s2, max, cap, ReplayNext) == s3;
  }

  ghost function Opened(p: Publication, q: Publication, max: nat): System {
    TwoPublished(p, q, max).(handler := Waiting, cursor := Some(1), subscribedAt := 2, mode := Handoff.Resume,
                             replayed := [ReplayEntry(2, q.json)], lastSent := 2)
  }

  lemma OpeningRuns(max: nat, cap: nat, p: Publication, q: Publication)
    requires max >= 2
    ensures Exec(max, cap, Opening(p, q)) == Opened(p, q, max)
  {
    TwoArePublished(max, cap, p, q);
    SecondIsSelected(p, q, max);
    ExecFour(max, cap, Publishing(p) + Publishing(q), Subscribe(Some(1)), Decide, ReplayNext, ReplayNext);
    ReplayedOne(TwoPublished(p, q, max), max, cap, ReplayEntry(2, q.json));
  }

  /** Two unread items past the cut are taken in one drain. */
  lemma TwoAreDrained(s: System, max: nat, cap: nat, a: SequencedItem, b: SequencedItem)
    requires s.handler == Waiting && !s.lagged && s.queue == [a, b] && a.seqno > s.lastSent && b.seqno > s.lastSent
    requires s.drains == []
    ensures Step(Step(Step(s, max, cap, Recv), max, cap, TryRecv), max, cap, TryRecv)
            == s.(queue := [], drains := [[a, b]], batch := [])
  {
    var s1 := s.(queue := [b], batch := [a], handler := Draining);
    assert s.queue[1..] == [b];
    assert Step(s, max, cap, Recv) == s1;
    assert [b][1..] == [] && [a] + [b] == [a, b];
    var s2 := s1.(queue := [], batch := [a, b]);
    assert Step(s1, max, cap, TryRecv) == s2;
    assert [] + [[a, b]] == [[a, b]];
  }

  lemma TwoAreWaiting(max: nat, cap: nat, p: Publication, q: Publication, e: Publication, m: Publication)
    requires max >= 2 && cap >= 2
    ensures var s := Exec(max, cap, Opening(p, q) + Publishing(e) + Publishing(m));
            s == Opened(p, q, max).(seqno := 4, published := s.published, history := s.history,
                                    queue := [SequencedItem(3, e.item), SequencedItem(4, m.item)])
  {
    var s0 := Opened(p, q, max);
    OpeningRuns(max, cap, p, q);
    PublishedOnce(max, cap, Opening(p, q), e);
    var s1 := Exec(max, cap, Opening(p, q) + Publishing(e));
    assert s1 == s0.(seqno := 3, published := s1.published, history := s1.history, queue := [SequencedItem(3, e.item)]);
    PublishedOnce(max, cap, Opening(p, q) + Publishing(e), m);
  }

  /** Where the run ends: live after a replay of item 2, with items 3 and 4 taken in one drain. */
  lemma MixedRunEnds(max: nat, cap: nat, p: Publication, q: Publication, e: Publication, m: Publication)
    requires max >= 2 && cap >= 2
    ensures var s := Exec(max, cap, MixedRun(p, q, e, m));
            && IsLive(s) && s.mode == Handoff.Resume && s.lost == {} && s.cursor == Some(1) && s.lastSent == 2
            && s.replayed == [ReplayEntry(2, q.json)]
            && s.drains == [[SequencedItem(3, e.item), SequencedItem(4, m.item)]]
  {
    var a, b := SequencedItem(3, e.item), SequencedItem(4, m.item);
    var acts := Opening(p, q) + Publishing(e) + Publishing(m);
    TwoAreWaiting(max, cap, p, q, e, m);
    ExecTwo(max, cap, acts, Recv, TryRecv);
    ExecStep(max, cap, acts + [Recv, TryRecv], TryRecv);
    TwoAreDrained(Exec(max, cap, acts), max, cap, a, b);
  }

  // ---- The connection ----

  /** How a subscription to everything judges the drain. */
  lemma BothAreWanted(e: ExecutedEvent, kind: MetricKind, content: int, cut: nat)
    requires cut < 3
    ensures var rs := [Received(SequencedItem(3, EventItem(e)), None), Received(SequencedItem(4, Metric(kind, content)), None)];
            && PastCut(rs, cut) == [rs[0].si, rs[1].si]
            && var ps := JudgeAll(FromChannel(All), [], rs, cut);
               |ps| == 2 && ps[0].outcome.EventOut? && ps[1].outcome.MetricOut?
  {
    var a := Received(SequencedItem(3, EventItem(e)), None);
    var b := Received(SequencedItem(4, Metric(kind, content)), None);
    assert [a, b][..1] == [a] && [a][..0] == [];
    assert PastCut([a], cut) == [a.si];
    assert Judge(FromChannel(All), [], a.si.item, None).EventOut?;
    assert JudgeAll(FromChannel(All), [], [a], cut) == [Processed(3, Judge(FromChannel(All), [], a.si.item, None))];
  }

  /** The run reaches a connection on which a client that stops after its second frame holds an unsafe cursor, and whose
      seqnos do not rise strictly: replay of item 2, the batch with event 3 under seqno 4, metric 4. */
  lemma UnsafeStopHappens(max: nat, cap: nat, p: Publication, q: Publication, e: ExecutedEvent, kind: MetricKind, content: int,
                          json: Json) returns (session: Session)
    requires max >= 2 && cap >= 2
    ensures var acts := MixedRun(p, q, Publication(EventItem(e), json), Publication(Metric(kind, content), json));
            var s := Exec(max, cap, acts);
            && IsLive(s) && s.mode == Handoff.Resume && s.lost == {}
            && IsSession(session) && s.cursor == Some(session.start) && session.opening == ReplayFrames(s.replayed)
            && Judges(session.drains, s.drains) && |SessionFrames(session)| == 3
            && StopsUnsafely(session, 2) && !Safe(session, SessionFrames(session)[..2])
            && !Ascends(SessionFrames(session))
  {
    var a, b := Publication(EventItem(e), json), Publication(Metric(kind, content), json);
    var received := [[Received(SequencedItem(3, a.item), None), Received(SequencedItem(4, b.item), None)]];
    MixedRunEnds(max, cap, p, q, a, b);
    BothAreWanted(e, kind, content, 2);
    session := HandlerRunIsSession(max, cap, MixedRun(p, q, a, b), [FromChannel(All)], [], received);
    DrainsAreJudged([FromChannel(All)], [], received, 2, Exec(max, cap, MixedRun(p, q, a, b)).drains);
    MixedDrainIsUnsafe(session);
  }

  lemma MixedDrainIsUnsafe(s: Session)
    requires IsSession(s) && |s.opening| == 1 && |s.drains| == 1 && |s.drains[0]| == 2
    requires s.drains[0][0].outcome.EventOut? && s.drains[0][1].outcome.MetricOut?
    ensures |SessionFrames(s)| == 3 && StopsUnsafely(s, 2)
    ensures !Safe(s, SessionFrames(s)[..2]) && !Ascends(SessionFrames(s))
  {
    DrainOfTwo(s.drains[0]);
    assert s.drains[1..] == [];
    assert |Frames(s.drains)| == 2;
    CursorIsSafeIff(s, 2);
    SessionAscendsIff(s);
  }

  lemma DrainOfTwo(ps: seq<Processed>)
    requires |ps| == 2 && ps[0].outcome.EventOut? && ps[1].outcome.MetricOut?
    ensures Mixed(ps) && |DrainFrames(ps)| == 2
  {
    SortOneMore([], ps[0]);
    SortOneMore([ps[0]], ps[1]);
    assert [] + [ps[0]] == [ps[0]] && [ps[0]] + [ps[1]] == ps;
  }

  // ---- Dropped frames ----

  /** Both cases of DroppedFrames occur on one connection, whose drain is a metric, an event and a metric. If the batch is
      dropped and the first metric received, reconnecting brings the batch back; if the batch is received and the
      metrics dropped, it does not bring them back. */
  lemma DroppedFramesBothWays(s: Session)
    requires IsReplay(s) && IsSession(s) && |s.drains| == 1 && |s.drains[0]| == 3
    requires s.drains[0][0].outcome.MetricOut? && s.drains[0][1].outcome.EventOut? && s.drains[0][2].outcome.MetricOut?
    ensures var d, frames := |s.opening|, SessionFrames(s);
            && |frames| == d + 3
            && Safe(s, frames[..d] + [frames[d + 1]])
            && !Safe(s, frames[..d + 1] + [])
  {
    var d, frames, ps := |s.opening|, SessionFrames(s), s.drains[0];
    DrainOfThree(ps);
    assert s.drains[1..] == [] && Frames(s.drains) == DrainFrames(ps);
    FirstOfTwo(frames[d + 1..], frames[d + 1], frames[d + 2]);
    var first := [frames[d + 1]];
    assert first[0] == MetricsOf(ps)[0];
    assert s.drains[0][0].seqno == Seqnos(Joined(s.drains))[0] && s.drains[0][1].seqno == Seqnos(Joined(s.drains))[1];
    assert EarlierMetricsOnly(ps, first);
    DroppedFrameIsRecoveredIff(s, d, first);
    DroppedFrameIsRecoveredIff(s, d + 1, []);
  }

  lemma FirstOfTwo<T>(s: seq<T>, x: T, y: T)
    requires s == [x, y]
    ensures Backpressure.Subsequence([x], s)
  {
    assert s[..1] == [x] && [x][..0] == [];
    assert Backpressure.Subsequence([x], [x]);
  }

  lemma DrainOfThree(ps: seq<Processed>)
    requires |ps| == 3 && ps[0].outcome.MetricOut? && ps[1].outcome.EventOut? && ps[2].outcome.MetricOut?
    ensures EventsOf(ps) == [BatchedEvent(ps[1].seqno, ps[1].outcome.event)]
    ensures MetricsOf(ps) == [MetricFrame(ps[0].seqno, ps[0].outcome.item), MetricFrame(ps[2].seqno, ps[2].outcome.item)]
  {
    SortOneMore([], ps[0]);
    SortOneMore([ps[0]], ps[1]);
    SortOneMore([ps[0], ps[1]], ps[2]);
    assert [] + [ps[0]] == [ps[0]] && [ps[0]] + [ps[1]] == [ps[0], ps[1]] && [ps[0], ps[1]] + [ps[2]] == ps;
  }
}
