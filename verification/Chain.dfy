/** The parts of a connection put together: publication and the handler (Handoff), the drains (LiveSession), the
    bounded queue (Backpressure) and the client's cursor (Resume). */
module Chain {
  import opened Common
  import opened EventFilter
  import opened Subscription
  import opened Items
  import opened LiveSession
  import opened Resume
  import Backpressure
  import Handoff

  // ---- From received items to processed ones ----

  /** The received items that a drain does not skip. */
  ghost function PastCut(rs: seq<Received>, cut: nat): seq<SequencedItem> {
    if rs == [] then []
    else
      var r := rs[|rs| - 1];
      PastCut(rs[..|rs| - 1], cut) + (if r.si.seqno <= cut then [] else [r.si])
  }

  /** A drain judges exactly the received items past the cut, in order, whatever the subscription. */
  lemma {:induction false} JudgedSeqnos(sub: ClientSubscription, base: Filter, rs: seq<Received>, cut: nat)
    ensures Seqnos(JudgeAll(sub, base, rs, cut)) == ItemSeqnos(PastCut(rs, cut))
  {
    if rs == [] {
    } else {
      var front, r := rs[..|rs| - 1], rs[|rs| - 1];
      JudgedSeqnos(sub, base, front, cut);
      if r.si.seqno > cut {
        var p := Processed(r.si.seqno, Judge(sub, base, r.si.item, r.stage));
        SeqnosConcat(JudgeAll(sub, base, front, cut), [p]);
        ItemSeqnosConcat(PastCut(front, cut), [r.si]);
      } else {
        assert JudgeAll(sub, base, rs, cut) == JudgeAll(sub, base, front, cut) && PastCut(rs, cut) == PastCut(front, cut);
      }
    }
  }

  lemma SeqnosConcat(a: seq<Processed>, b: seq<Processed>)
    ensures Seqnos(a + b) == Seqnos(a) + Seqnos(b)
  {
  }

  lemma ItemSeqnosConcat(a: seq<SequencedItem>, b: seq<SequencedItem>)
    ensures ItemSeqnos(a + b) == ItemSeqnos(a) + ItemSeqnos(b)
  {
  }

  /** How the handler judged the items of its completed drains: same items, any subscription and any stages. */
  ghost predicate Judges(judged: seq<seq<Processed>>, drains: seq<seq<SequencedItem>>) {
    |judged| == |drains| && forall k :: 0 <= k < |drains| ==> Seqnos(judged[k]) == ItemSeqnos(drains[k])
  }

  lemma {:induction false} JoinedSeqnos(judged: seq<seq<Processed>>, drains: seq<seq<SequencedItem>>)
    requires Judges(judged, drains)
    ensures Seqnos(Joined(judged)) == ItemSeqnos(Handoff.Flatten(drains))
  {
    if drains == [] {
    } else {
      var n := |drains| - 1;
      JoinedSeqnos(judged[..n], drains[..n]);
      JoinedConcat(judged[..n], [judged[n]]);
      assert judged == judged[..n] + [judged[n]];
      var a, b := Joined(judged[..n]), judged[n];
      var x, y := Handoff.Flatten(drains[..n]), drains[n];
      SeqnosConcat(a, b);
      ItemSeqnosConcat(x, y);
    }
  }

  /** The drains as LiveClient.Drain judges them: each under the subscription of its moment, on the items it received
      with the stages of their moment. */
  ghost function JudgedDrains(subs: seq<ClientSubscription>, base: Filter, received: seq<seq<Received>>, cut: nat): seq<seq<Processed>>
    requires |subs| == |received|
  {
    seq(|received|, k requires 0 <= k < |received| => JudgeAll(subs[k], base, received[k], cut))
  }

  lemma DrainsAreJudged(subs: seq<ClientSubscription>, base: Filter, received: seq<seq<Received>>, cut: nat,
                        drains: seq<seq<SequencedItem>>)
    requires |subs| == |received| == |drains| && forall k :: 0 <= k < |drains| ==> PastCut(received[k], cut) == drains[k]
    ensures Judges(JudgedDrains(subs, base, received, cut), drains)
  {
    forall k | 0 <= k < |drains|
      ensures Seqnos(JudgedDrains(subs, base, received, cut)[k]) == ItemSeqnos(drains[k])
    {
      JudgedSeqnos(subs[k], base, received[k], cut);
    }
  }

  // ---- From a run of the protocol to a connection ----

  ghost function ReplayFrames(entries: seq<ReplayEntry>): seq<WireFrame> {
    seq(|entries|, i requires 0 <= i < |entries| => Replay(entries[i].seqno, entries[i].json))
  }

  /** Some number of state messages, all under the seqno of the snapshot. */
  ghost function StateFrames(stamp: nat, count: nat): seq<WireFrame> { seq(count, i => State(stamp)) }

  /** The items of the completed drains continue the cut without a gap. */
  lemma LiveSeqnos(s: Handoff.System, max: nat)
    requires Handoff.Inv(s, max) && Handoff.IsLive(s) && s.lost == {}
    ensures var done := Handoff.Flatten(s.drains); ItemSeqnos(done) == Range(s.lastSent, s.lastSent + |done|)
  {
    var upTo := Handoff.Max(s.lastSent, Handoff.Taken(s));
    HandledSeqnos(s, upTo);
    FrontSeqnos(Handoff.Flatten(s.drains), s.batch, s.lastSent, upTo);
  }

  lemma HandledSeqnos(s: Handoff.System, upTo: int)
    requires Handoff.HandledInv(s) && Handoff.IsLive(s) && s.lost == {} && upTo == Handoff.Max(s.lastSent, Handoff.Taken(s))
    ensures ItemSeqnos(Handoff.Handled(s)) == Range(s.lastSent, upTo)
  {
    Handoff.WithoutNothing(Range(s.lastSent, upTo));
  }

  lemma FrontSeqnos(a: seq<SequencedItem>, b: seq<SequencedItem>, lo: nat, hi: nat)
    requires lo <= hi && ItemSeqnos(a + b) == Range(lo, hi)
    ensures ItemSeqnos(a) == Range(lo, lo + |a|)
  {
    forall i | 0 <= i < |a| ensures a[i].seqno == lo + 1 + i {
      assert (a + b)[i] == a[i];
      assert ItemSeqnos(a + b)[i] == Range(lo, hi)[i];
    }
  }

  /** What a live run without lag has drained is what a connection drains past its cut. */
  lemma DrainsGoOn(s: Handoff.System, max: nat, judged: seq<seq<Processed>>)
    requires Handoff.Inv(s, max) && Handoff.IsLive(s) && s.lost == {} && Judges(judged, s.drains)
    ensures NonEmpty(judged) && Seqnos(Joined(judged)) == Range(s.lastSent, s.lastSent + |Joined(judged)|)
  {
    JoinedSeqnos(judged, s.drains);
    LiveSeqnos(s, max);
    forall k | 0 <= k < |judged| ensures judged[k] != [] {
      assert s.drains[k] in s.drains;
      assert |Seqnos(judged[k])| == |ItemSeqnos(s.drains[k])|;
    }
    assert |Seqnos(Joined(judged))| == |ItemSeqnos(Handoff.Flatten(s.drains))|;
  }

  /** Any interleaving of publication and one connection, without lag: what the connection has sent, once it is
      live after a replay, is a session in the sense of the cursor theorem. */
  lemma HandoffIsSession(max: nat, cap: nat, acts: seq<Handoff.Action>, judged: seq<seq<Processed>>) returns (session: Session)
    requires var s := Handoff.Exec(max, cap, acts);
             Handoff.IsLive(s) && s.mode == Handoff.Resume && s.lost == {} && Judges(judged, s.drains)
    ensures var s := Handoff.Exec(max, cap, acts);
            && s.cursor == Some(session.start) && session.cut == s.lastSent
            && IsReplay(session) && IsSession(session)
            && session.opening == ReplayFrames(s.replayed) && session.drains == judged
  {
    Handoff.ExecKeepsInv(max, cap, acts);
    session := ReplayState(Handoff.Exec(max, cap, acts), max, judged);
  }

  lemma ReplayState(s: Handoff.System, max: nat, judged: seq<seq<Processed>>) returns (session: Session)
    requires Handoff.Inv(s, max) && Handoff.IsLive(s) && s.mode == Handoff.Resume && s.lost == {} && Judges(judged, s.drains)
    ensures s.cursor == Some(session.start) && session.cut == s.lastSent && IsReplay(session) && IsSession(session)
    ensures session.opening == ReplayFrames(s.replayed) && session.drains == judged
  {
    LiveIs(s);
    session := Session(s.cursor.value, s.lastSent, ReplayFrames(s.replayed), judged);
    DrainsGoOn(s, max, judged);
    ReplayOpens(s, session);
  }

  lemma LiveIs(s: Handoff.System)
    requires Handoff.HandlerInv(s) && Handoff.IsLive(s)
    ensures Handoff.LiveInv(s)
  {
  }

  lemma ReplayOpens(s: Handoff.System, session: Session)
    requires Handoff.LiveInv(s) && s.mode == Handoff.Resume
    requires session == Session(s.cursor.value, s.lastSent, ReplayFrames(s.replayed), session.drains)
    ensures IsReplay(session)
  {
    forall i | 0 <= i < |s.replayed| ensures s.replayed[i].seqno == s.cursor.value + 1 + i {
      assert EntrySeqnos(s.replayed)[i] == Range(s.cursor.value, s.lastSent)[i];
    }
  }

  /** The same after a snapshot of any number of messages. A client that came with a cursor no later than the snapshot
      starts from it, one that came without from the snapshot itself. The session skips items exactly when it starts
      before the cut. */
  lemma SnapshotIsSession(max: nat, cap: nat, acts: seq<Handoff.Action>, judged: seq<seq<Processed>>, messages: nat)
    returns (session: Session)
    requires var s := Handoff.Exec(max, cap, acts);
             && Handoff.IsLive(s) && s.mode.Snapshot? && s.lost == {} && Judges(judged, s.drains)
             && (s.cursor.Some? ==> s.cursor.value <= s.mode.stamp)
    ensures var s := Handoff.Exec(max, cap, acts);
            && session.start == (if s.cursor.Some? then s.cursor.value else s.mode.stamp) && session.cut == s.lastSent
            && IsSnapshot(session) && IsSession(session)
            && session.opening == StateFrames(s.mode.stamp, messages) && session.drains == judged
            && (SkipsItems(session) <==> session.start < s.lastSent)
  {
    Handoff.ExecKeepsInv(max, cap, acts);
    session := SnapshotState(Handoff.Exec(max, cap, acts), max, judged, messages);
  }

  lemma SnapshotState(s: Handoff.System, max: nat, judged: seq<seq<Processed>>, messages: nat) returns (session: Session)
    requires Handoff.Inv(s, max) && Handoff.IsLive(s) && s.mode.Snapshot? && s.lost == {} && Judges(judged, s.drains)
    requires s.cursor.Some? ==> s.cursor.value <= s.mode.stamp
    ensures session.start == (if s.cursor.Some? then s.cursor.value else s.mode.stamp) && session.cut == s.lastSent
    ensures IsSnapshot(session) && IsSession(session)
    ensures session.opening == StateFrames(s.mode.stamp, messages) && session.drains == judged
  {
    LiveIs(s);
    DrainsGoOn(s, max, judged);
    session := Session(if s.cursor.Some? then s.cursor.value else s.mode.stamp, s.lastSent,
                       StateFrames(s.mode.stamp, messages), judged);
  }

  /** The chain from publication to the drains: any run without lag that was answered with a replay, drained by
      LiveClient.Drain under any subscriptions and stages, is such a session. */
  lemma HandlerRunIsSession(max: nat, cap: nat, acts: seq<Handoff.Action>,
                            subs: seq<ClientSubscription>, base: Filter, received: seq<seq<Received>>) returns (session: Session)
    requires var s := Handoff.Exec(max, cap, acts);
             && Handoff.IsLive(s) && s.mode == Handoff.Resume && s.lost == {}
             && |subs| == |received| == |s.drains|
             && forall k :: 0 <= k < |s.drains| ==> PastCut(received[k], s.lastSent) == s.drains[k]
    ensures var s := Handoff.Exec(max, cap, acts);
            && s.cursor == Some(session.start) && IsReplay(session) && IsSession(session)
            && session.opening == ReplayFrames(s.replayed)
            && session.drains == JudgedDrains(subs, base, received, s.lastSent)
  {
    var s := Handoff.Exec(max, cap, acts);
    DrainsAreJudged(subs, base, received, s.lastSent, s.drains);
    session := HandoffIsSession(max, cap, acts, JudgedDrains(subs, base, received, s.lastSent));
  }

  // ---- From a connection to the client ----

  /** End to end. The handler offers Hello, the resume acknowledgement and the frames of a session to its
      bounded queue; the queue drops and refuses nothing. Whatever the client has received by then, its cursor
      is safe exactly when it has not stopped unsafely. */
  lemma EndToEnd(s: Session, queueCap: nat, ops: seq<Backpressure.Op<WireFrame>>)
    requires IsSession(s)
    requires var t := Backpressure.Run(queueCap, ops);
             t.sender.dropCount == 0 && t.refused == 0 && t.offered <= [Control, Control] + SessionFrames(s)
    ensures var got := Backpressure.Payloads(Backpressure.Run(queueCap, ops).delivered);
            var r := if |got| <= 2 then 0 else |got| - 2;
            r <= |SessionFrames(s)| && (Safe(s, got) <==> !StopsUnsafely(s, r))
  {
    Backpressure.ReceivedIsPrefix(queueCap, ops);
    var got := Backpressure.Payloads(Backpressure.Run(queueCap, ops).delivered);
    var all := [Control, Control] + SessionFrames(s);
    assert got <= all;
    var n := |got|;
    var r := if n <= 2 then 0 else n - 2;
    var controls: seq<WireFrame> := if n <= 2 then [Control, Control][..n] else [Control, Control];
    var read := SessionFrames(s)[..r];
    assert got == controls + read;
    CursorSplits(Some(s.start), controls, read);
    ControlsKeepCursor(Some(s.start), controls);
    CursorIsSafeIff(s, r);
    forall m ensures Delivers(got, m) <==> Delivers(read, m) {
      DeliversSplits(controls, read, m);
    }
  }

  lemma {:induction false} ControlsKeepCursor(c: Option<nat>, frames: seq<WireFrame>)
    requires forall i :: 0 <= i < |frames| ==> frames[i].Control?
    ensures CursorAfter(c, frames) == c && forall n :: !Delivers(frames, n)
  {
    if frames == [] {
    } else {
      ControlsKeepCursor(c, frames[..|frames| - 1]);
    }
  }
}
