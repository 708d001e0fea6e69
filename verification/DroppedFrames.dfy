/** What a dropped frame costs (send_or_drop and the drain in gateway/src/lib/server.rs, against the cursor rule of
    sdk/typescript/src/client.ts): when reconnecting brings it back. */
module DroppedFrames {
  import opened Common
  import opened Items
  import opened LiveSession
  import opened Resume
  import opened Backpressure

  // ---- Selections ----

  lemma {:induction false} SelectedIsMember<T>(a: seq<T>, b: seq<T>, x: T)
    requires Subsequence(a, b) && x in a
    ensures x in b
  {
    if a[|a| - 1] == b[|b| - 1] && Subsequence(a[..|a| - 1], b[..|b| - 1]) {
      if x != b[|b| - 1] {
        SelectedIsMember(a[..|a| - 1], b[..|b| - 1], x);
      }
    } else {
      SelectedIsMember(a, b[..|b| - 1], x);
    }
  }

  /** A selection that contains everything is everything. */
  lemma {:induction false} SelectsAll<T>(a: seq<T>, b: seq<T>)
    requires Subsequence(a, b) && (forall i, j :: 0 <= i < j < |b| ==> b[i] != b[j])
    requires forall i :: 0 <= i < |b| ==> b[i] in a
    ensures a == b
  {
    if b == [] {
    } else {
      var front, x := b[..|b| - 1], b[|b| - 1];
      assert b[|b| - 1] in a;
      NotFromFront(a, front, x);
      forall i | 0 <= i < |front| ensures front[i] in a[..|a| - 1] {
        assert b[i] in a && b[i] != x;
        assert a == a[..|a| - 1] + [x];
      }
      SelectsAll(a[..|a| - 1], front);
      assert b == front + [x] && a == a[..|a| - 1] + [x];
    }
  }

  lemma NotFromFront<T>(a: seq<T>, front: seq<T>, x: T)
    requires Subsequence(a, front + [x]) && x in a && x !in front
    ensures a != [] && a[|a| - 1] == x && Subsequence(a[..|a| - 1], front)
  {
    assert (front + [x])[..|front|] == front;
    if Subsequence(a, front) {
      SelectedIsMember(a, front, x);
    }
  }

  /** A selection whose last element is not in the second part is a selection from the first. */
  lemma {:induction false} SelectionCut<T>(a: seq<T>, x: seq<T>, y: seq<T>)
    requires a != [] && Subsequence(a, x + y) && a[|a| - 1] !in y
    ensures Subsequence(a, x)
  {
    if y == [] {
      assert x + y == x;
    } else {
      assert (x + y)[..|x + y| - 1] == x + y[..|y| - 1];
      assert y[|y| - 1] in y;
      SelectionCut(a, x, y[..|y| - 1]);
    }
  }

  // ---- Frames that carry something no other frame does ----

  /** n is carried by frame d alone, and lies below every later frame's seqno. */
  ghost predicate OnlyIn(frames: seq<WireFrame>, d: nat, n: int)
    requires d < |frames|
  {
    && CarriesOrigin(frames[d], n)
    && (forall i :: 0 <= i < |frames| && i != d ==> !CarriesOrigin(frames[i], n))
    && (forall j :: d < j < |frames| ==> n < WireSeqno(frames[j]))
  }

  /** Every frame of a drain but the batch of a mixed one carries such an item. */
  lemma OnlyInDrain(ps: seq<Processed>, lo: int, hi: int, d: nat) returns (n: int)
    requires Spans(ps, lo, hi) && d < |DrainFrames(ps)| && !StopsOnBatch(ps, d + 1)
    ensures lo < n <= hi && OnlyIn(DrainFrames(ps), d, n) && !Met(ps, n, AsDeclined)
  {
    FrameShapes(ps);
    if EventsOf(ps) == [] {
      MetricsAscend(ps, lo, hi);
      n := MetricOnlyOnce(MetricsOf(ps), lo, hi, d);
      MetricsCarry(ps, n);
      MetIsNotDeclined(ps, lo, hi, n, AsMetric);
    } else if MetricsOf(ps) == [] {
      BatchAlone(DrainFrames(ps), EventsOf(ps));
      n := EventsOf(ps)[0].origin;
      EventsCarry(ps, n);
      MetIsNotDeclined(ps, lo, hi, n, AsEvent);
    } else {
      n := MetricAfterBatch(ps, lo, hi, d);
    }
  }

  lemma BatchAlone(frames: seq<WireFrame>, events: seq<BatchedEvent>)
    requires |frames| == 1 && frames[0].Events? && frames[0].events == events != []
    ensures OnlyIn(frames, 0, events[0].origin) && HasOrigin(events, events[0].origin)
  {
    assert HasOrigin(events, events[0].origin);
  }

  lemma MetricOnlyOnce(ms: seq<WireFrame>, lo: int, hi: int, d: nat) returns (n: int)
    requires MetricList(ms, lo, hi) && d < |ms|
    ensures HasMetric(ms, n) && OnlyIn(ms, d, n)
  {
    n := WireSeqno(ms[d]);
  }

  lemma MetricAfterBatch(ps: seq<Processed>, lo: int, hi: int, d: nat) returns (n: int)
    requires Spans(ps, lo, hi) && Mixed(ps) && 0 < d < |DrainFrames(ps)|
    ensures lo < n <= hi && OnlyIn(DrainFrames(ps), d, n) && !Met(ps, n, AsDeclined)
  {
    MetricsAscend(ps, lo, hi);
    n := MetricOnlyOnce(MetricsOf(ps), lo, hi, d - 1);
    MetricsCarry(ps, n);
    MetIsNotDeclined(ps, lo, hi, n, AsMetric);
    MetricIsNotInBatch(ps, lo, hi, n);
    var batch := DrainFrames(ps)[0];
    BatchCarriesEvents(ps);
    assert DrainFrames(ps) == [batch] + MetricsOf(ps);
    assert !Delivers([batch], n);
    OnlyInBack([batch], MetricsOf(ps), d, n);
  }

  lemma BatchCarriesEvents(ps: seq<Processed>)
    requires ps != [] && EventsOf(ps) != []
    ensures DrainFrames(ps)[0].Events? && DrainFrames(ps)[0].events == EventsOf(ps)
  {
  }

  lemma MetricIsNotInBatch(ps: seq<Processed>, lo: int, hi: int, n: int)
    requires Spans(ps, lo, hi) && Met(ps, n, AsMetric)
    ensures !HasOrigin(EventsOf(ps), n)
  {
    EventsCarry(ps, n);
    if HasOrigin(EventsOf(ps), n) {
      MetOnce(ps, lo, hi, n, AsEvent, AsMetric);
    }
  }

  lemma MetIsNotDeclined(ps: seq<Processed>, lo: int, hi: int, n: int, f: Fate)
    requires Spans(ps, lo, hi) && Met(ps, n, f) && f != AsDeclined
    ensures lo < n <= hi && !Met(ps, n, AsDeclined)
  {
    MetOnce(ps, lo, hi, n, f, f);
    if Met(ps, n, AsDeclined) {
      MetOnce(ps, lo, hi, n, f, AsDeclined);
    }
  }

  lemma {:induction false} OnlyInDrains(drains: seq<seq<Processed>>, lo: int, hi: int, d: nat) returns (n: int)
    requires NonEmpty(drains) && 0 <= lo <= hi && Seqnos(Joined(drains)) == Range(lo, hi)
    requires d < |Frames(drains)| && !StopsMidDrain(drains, d + 1)
    ensures lo < n <= hi && OnlyIn(Frames(drains), d, n) && !Met(Joined(drains), n, AsDeclined)
    decreases |drains|
  {
    var mid := lo + |drains[0]|;
    SpansSplits(drains, lo, hi);
    if d < |DrainFrames(drains[0])| {
      n := OnlyInDrain(drains[0], lo, mid, d);
      OnlyInFirstDrain(drains, lo, mid, hi, d, n);
    } else {
      n := OnlyInDrains(drains[1..], mid, hi, d - |DrainFrames(drains[0])|);
      OnlyInLaterDrain(drains[0], lo, mid, Frames(drains[1..]), d, n);
      DeclinedInEither(drains, n);
    }
  }

  lemma OnlyInFirstDrain(drains: seq<seq<Processed>>, lo: int, mid: int, hi: int, d: nat, n: int)
    requires NonEmpty(drains) && drains != [] && mid <= hi && Seqnos(Joined(drains[1..])) == Range(mid, hi)
    requires 0 <= lo < n <= mid && d < |DrainFrames(drains[0])|
    requires OnlyIn(DrainFrames(drains[0]), d, n) && !Met(drains[0], n, AsDeclined)
    ensures OnlyIn(Frames(drains), d, n) && !Met(Joined(drains), n, AsDeclined)
  {
    NothingOutside(drains[1..], mid, hi, n);
    DrainsWithin(drains[1..], mid, hi);
    OnlyInFront(DrainFrames(drains[0]), Frames(drains[1..]), d, n);
    DeclinedInEither(drains, n);
  }

  lemma OnlyInLaterDrain(ps: seq<Processed>, lo: int, mid: int, rest: seq<WireFrame>, d: nat, n: int)
    requires Spans(ps, lo, mid) && n > mid && |DrainFrames(ps)| <= d < |DrainFrames(ps) + rest|
    requires OnlyIn(rest, d - |DrainFrames(ps)|, n)
    ensures OnlyIn(DrainFrames(ps) + rest, d, n) && !Met(ps, n, AsDeclined)
  {
    NothingInDrain(ps, lo, mid, n);
    OnlyInBack(DrainFrames(ps), rest, d, n);
  }

  lemma DeclinedInEither(drains: seq<seq<Processed>>, n: int)
    requires drains != []
    ensures Met(Joined(drains), n, AsDeclined) <==> Met(drains[0], n, AsDeclined) || Met(Joined(drains[1..]), n, AsDeclined)
  {
    MetSplits(drains[0], Joined(drains[1..]), n, AsDeclined);
  }

  lemma NothingInDrain(ps: seq<Processed>, lo: int, hi: int, n: int)
    requires Spans(ps, lo, hi) && n > hi
    ensures !Delivers(DrainFrames(ps), n) && !Met(ps, n, AsDeclined)
  {
    if Delivers(DrainFrames(ps), n) || Met(ps, n, AsDeclined) {
      DrainDeliversWithin(ps, lo, hi, n);
    }
  }

  lemma OnlyInFront(a: seq<WireFrame>, b: seq<WireFrame>, d: nat, n: int)
    requires d < |a| && OnlyIn(a, d, n) && !Delivers(b, n) && forall j :: 0 <= j < |b| ==> n < WireSeqno(b[j])
    ensures OnlyIn(a + b, d, n)
  {
    forall i | |a| <= i < |a + b| ensures !CarriesOrigin((a + b)[i], n) && n < WireSeqno((a + b)[i]) {
      assert (a + b)[i] == b[i - |a|];
    }
  }

  lemma OnlyInBack(a: seq<WireFrame>, b: seq<WireFrame>, d: nat, n: int)
    requires |a| <= d < |a + b| && OnlyIn(b, d - |a|, n) && !Delivers(a, n)
    ensures OnlyIn(a + b, d, n)
  {
    forall i | 0 <= i < |a| ensures !CarriesOrigin((a + b)[i], n) {
      assert (a + b)[i] == a[i];
    }
    forall i | |a| <= i < |a + b| && i != d
      ensures !CarriesOrigin((a + b)[i], n) && (i > d ==> n < WireSeqno((a + b)[i]))
    {
      assert (a + b)[i] == b[i - |a|];
    }
  }

  /** Each replay frame, and each live frame but the batch of a mixed drain, carries an item that no other frame of
      the connection carries and that lies below every later seqno. */
  lemma OnlyInSession(s: Session, d: nat) returns (n: int)
    requires IsSession(s) && d < |SessionFrames(s)|
    requires if d < |s.opening| then IsReplay(s) else !StopsMidDrain(s.drains, d + 1 - |s.opening|)
    ensures s.start < n && OnlyIn(SessionFrames(s), d, n) && !Met(Joined(s.drains), n, AsDeclined)
  {
    var hi := s.cut + |Joined(s.drains)|;
    if d < |s.opening| {
      n := s.start + 1 + d;
      OnlyInReplayPart(s, d);
    } else {
      n := OnlyInDrains(s.drains, s.cut, hi, d - |s.opening|);
      OnlyInLivePart(s, d, n);
    }
  }

  lemma OnlyInLivePart(s: Session, d: nat, n: int)
    requires IsSession(s) && |s.opening| <= d < |SessionFrames(s)|
    requires n > s.cut && OnlyIn(Frames(s.drains), d - |s.opening|, n)
    ensures OnlyIn(SessionFrames(s), d, n)
  {
    NotInOpening(s, n);
    OnlyInBack(s.opening, Frames(s.drains), d, n);
  }

  lemma OnlyInReplayPart(s: Session, d: nat)
    requires IsSession(s) && IsReplay(s) && d < |s.opening|
    ensures OnlyIn(SessionFrames(s), d, s.start + 1 + d) && !Met(Joined(s.drains), s.start + 1 + d, AsDeclined)
  {
    NothingLiveBelowCut(s, s.start + 1 + d);
    DrainsWithin(s.drains, s.cut, s.cut + |Joined(s.drains)|);
    OnlyInReplay(s, d);
    OnlyInFront(s.opening, Frames(s.drains), d, s.start + 1 + d);
  }

  lemma OnlyInReplay(s: Session, d: nat)
    requires IsReplay(s) && d < |s.opening|
    ensures OnlyIn(s.opening, d, s.start + 1 + d)
  {
  }

  lemma NotInOpening(s: Session, n: int)
    requires IsSession(s) && n > s.cut
    ensures !Delivers(s.opening, n)
  {
  }

  // ---- Dropping such a frame ----

  lemma FromLater(frames: seq<WireFrame>, d: nat, f: WireFrame, n: int)
    requires d < |frames| && f in frames[d + 1..] && OnlyIn(frames, d, n)
    ensures n < WireSeqno(f) && !CarriesOrigin(f, n)
  {
    var j :| 0 <= j < |frames[d + 1..]| && frames[d + 1..][j] == f;
    assert frames[d + 1 + j] == f;
  }

  lemma NotDelivered(frames: seq<WireFrame>, d: nat, later: seq<WireFrame>, n: int)
    requires d < |frames| && OnlyIn(frames, d, n) && Subsequence(later, frames[d + 1..])
    ensures !Delivers(frames[..d] + later, n)
  {
    DeliversSplits(frames[..d], later, n);
    forall i | 0 <= i < d ensures !CarriesOrigin(frames[..d][i], n) {
      assert frames[..d][i] == frames[i];
    }
    forall i | 0 <= i < |later| ensures !CarriesOrigin(later[i], n) {
      SelectedIsMember(later, frames[d + 1..], later[i]);
      FromLater(frames, d, later[i], n);
    }
  }

  /** Once a frame with an item of its own is dropped, any later frame moves the cursor past that item. */
  lemma LaterFrameHidesIt(s: Session, d: nat, later: seq<WireFrame>)
    requires IsSession(s) && d < |SessionFrames(s)|
    requires if d < |s.opening| then IsReplay(s) else !StopsMidDrain(s.drains, d + 1 - |s.opening|)
    requires later != [] && Subsequence(later, SessionFrames(s)[d + 1..])
    ensures !Safe(s, SessionFrames(s)[..d] + later)
  {
    var n := OnlyInSession(s, d);
    HiddenItem(s, SessionFrames(s), d, later, n);
  }

  lemma HiddenItem(s: Session, frames: seq<WireFrame>, d: nat, later: seq<WireFrame>, n: int)
    requires d < |frames| && later != [] && Subsequence(later, frames[d + 1..])
    requires s.start < n && OnlyIn(frames, d, n) && !Met(Joined(s.drains), n, AsDeclined)
    ensures !Safe(s, frames[..d] + later)
  {
    var last := later[|later| - 1];
    SelectedIsMember(later, frames[d + 1..], last);
    FromLater(frames, d, last, n);
    NotDelivered(frames, d, later, n);
    CursorIsLast(Some(s.start), frames[..d] + later);
  }

  // ---- Dropping the batch of a mixed drain ----

  /** What still got through is the first metrics of the drain, up to one below the first event of the batch. */
  predicate EarlierMetricsOnly(ps: seq<Processed>, later: seq<WireFrame>)
    requires EventsOf(ps) != [] && later != []
  {
    later <= MetricsOf(ps) && WireSeqno(later[|later| - 1]) < EventsOf(ps)[0].origin
  }

  /** Frame d is the batch of a mixed drain, and after it only such metrics of that drain got through. */
  ghost predicate BatchCanWait(drains: seq<seq<Processed>>, d: nat, later: seq<WireFrame>)
    requires NonEmpty(drains) && later != []
  {
    drains != [] &&
    (var first := |DrainFrames(drains[0])|;
     if d < first then d == 0 && Mixed(drains[0]) && EarlierMetricsOnly(drains[0], later)
     else BatchCanWait(drains[1..], d - first, later))
  }

  lemma {:induction false} EventsAscend(ps: seq<Processed>, lo: int, hi: int)
    requires 0 <= lo <= hi && Seqnos(ps) == Range(lo, hi)
    ensures forall i :: 0 <= i < |EventsOf(ps)| ==> lo < EventsOf(ps)[i].origin <= hi
    ensures forall i :: 0 <= i < |EventsOf(ps)| ==> EventsOf(ps)[0].origin <= EventsOf(ps)[i].origin
  {
    if ps == [] {
    } else {
      var front := ps[..|ps| - 1];
      assert Seqnos(front) == Range(lo, hi)[..|ps| - 1] == Range(lo, hi - 1);
      EventsAscend(front, lo, hi - 1);
      assert ps[|ps| - 1].seqno == Seqnos(ps)[|ps| - 1] == hi;
    }
  }

  lemma FirstEventIsEarliest(ps: seq<Processed>, lo: int, hi: int, n: int)
    requires Spans(ps, lo, hi) && EventsOf(ps) != [] && Met(ps, n, AsEvent)
    ensures EventsOf(ps)[0].origin <= n
  {
    EventsAscend(ps, lo, hi);
    EventsCarry(ps, n);
  }

  /** Metrics of a drain selected up to one below its first event cover all that lies below it exactly when none
      of the earlier ones is missing. */
  lemma MetricsCoverIff(ps: seq<Processed>, lo: int, hi: int, later: seq<WireFrame>)
    requires Spans(ps, lo, hi) && Mixed(ps) && later != [] && Subsequence(later, MetricsOf(ps))
    requires WireSeqno(later[|later| - 1]) < EventsOf(ps)[0].origin
    ensures Covers(later, ps, lo, WireSeqno(later[|later| - 1])) <==> later <= MetricsOf(ps)
  {
    if later <= MetricsOf(ps) {
      FirstMetricsCover(ps, lo, hi, later);
    } else if Covers(later, ps, lo, WireSeqno(later[|later| - 1])) {
      CoveringIsPrefix(ps, lo, hi, later);
    }
  }

  lemma FirstMetricsCover(ps: seq<Processed>, lo: int, hi: int, later: seq<WireFrame>)
    requires Spans(ps, lo, hi) && Mixed(ps) && later != [] && later <= MetricsOf(ps)
    requires WireSeqno(later[|later| - 1]) < EventsOf(ps)[0].origin
    ensures Covers(later, ps, lo, WireSeqno(later[|later| - 1]))
  {
    var ms, c := MetricsOf(ps), WireSeqno(later[|later| - 1]);
    MetricsAscend(ps, lo, hi);
    assert c == WireSeqno(ms[|later| - 1]);
    forall n | lo < n <= c ensures Delivers(later, n) || Met(ps, n, AsDeclined) {
      EachIsMet(ps, lo, hi, n);
      if Met(ps, n, AsEvent) {
        FirstEventIsEarliest(ps, lo, hi, n);
      } else if Met(ps, n, AsMetric) {
        MetricsCarry(ps, n);
        var i :| 0 <= i < |ms| && WireSeqno(ms[i]) == n;
        assert i < |later|;
        assert CarriesOrigin(later[i], n);
      }
    }
  }

  lemma CoveringIsPrefix(ps: seq<Processed>, lo: int, hi: int, later: seq<WireFrame>)
    requires Spans(ps, lo, hi) && later != [] && Subsequence(later, MetricsOf(ps))
    requires Covers(later, ps, lo, WireSeqno(later[|later| - 1]))
    ensures later <= MetricsOf(ps)
  {
    var ms, last := MetricsOf(ps), later[|later| - 1];
    MetricsAscend(ps, lo, hi);
    SelectedIsMember(later, ms, last);
    var j :| 0 <= j < |ms| && ms[j] == last;
    SelectionEnds(later, ms, j);
    FirstMetrics(ms, lo, hi, j);
    CoveringIsAll(ps, lo, hi, later, ms[..j + 1]);
  }

  lemma CoveringIsAll(ps: seq<Processed>, lo: int, hi: int, later: seq<WireFrame>, upTo: seq<WireFrame>)
    requires Spans(ps, lo, hi) && later != [] && upTo <= MetricsOf(ps) && Subsequence(later, upTo)
    requires MetricList(upTo, lo, hi) && upTo != [] && upTo[|upTo| - 1] == later[|later| - 1]
    requires Subsequence(later, MetricsOf(ps)) && Covers(later, ps, lo, WireSeqno(later[|later| - 1]))
    ensures later == upTo
  {
    forall i | 0 <= i < |upTo| ensures upTo[i] in later {
      assert WireSeqno(upTo[i]) <= WireSeqno(upTo[|upTo| - 1]);
      MetricIsSelected(ps, lo, hi, later, i);
    }
    SelectsAll(later, upTo);
  }

  lemma SelectionEnds<T>(a: seq<T>, b: seq<T>, j: nat)
    requires a != [] && j < |b| && a[|a| - 1] == b[j] && Subsequence(a, b) && forall k :: j < k < |b| ==> b[k] != b[j]
    ensures Subsequence(a, b[..j + 1])
  {
    assert b == b[..j + 1] + b[j + 1..];
    SelectionCut(a, b[..j + 1], b[j + 1..]);
  }

  lemma FirstMetrics(ms: seq<WireFrame>, lo: int, hi: int, j: nat)
    requires MetricList(ms, lo, hi) && j < |ms|
    ensures MetricList(ms[..j + 1], lo, hi)
  {
  }

  lemma MetricIsSelected(ps: seq<Processed>, lo: int, hi: int, later: seq<WireFrame>, i: nat)
    requires Spans(ps, lo, hi) && later != [] && Subsequence(later, MetricsOf(ps)) && i < |MetricsOf(ps)|
    requires WireSeqno(MetricsOf(ps)[i]) <= WireSeqno(later[|later| - 1])
    requires Covers(later, ps, lo, WireSeqno(later[|later| - 1]))
    ensures MetricsOf(ps)[i] in later
  {
    var ms := MetricsOf(ps);
    var n := WireSeqno(ms[i]);
    MetricsAscend(ps, lo, hi);
    MetricsCarry(ps, n);
    assert HasMetric(ms, n);
    MetIsNotDeclined(ps, lo, hi, n, AsMetric);
    var k :| 0 <= k < |later| && CarriesOrigin(later[k], n);
    SelectedIsMember(later, ms, later[k]);
    var m :| 0 <= m < |ms| && ms[m] == later[k];
    assert m == i;
  }

  /** The batch of the first drain is dropped. */
  lemma FirstBatchDroppedIff(drains: seq<seq<Processed>>, lo: int, mid: int, hi: int, later: seq<WireFrame>)
    requires NonEmpty(drains) && drains != [] && mid <= hi && Seqnos(Joined(drains[1..])) == Range(mid, hi)
    requires Spans(drains[0], lo, mid) && Mixed(drains[0])
    requires later != [] && Subsequence(later, MetricsOf(drains[0]) + Frames(drains[1..]))
    ensures Covers(later, Joined(drains), lo, WireSeqno(later[|later| - 1])) <==> EarlierMetricsOnly(drains[0], later)
  {
    var ps, tail, c := drains[0], Frames(drains[1..]), WireSeqno(later[|later| - 1]);
    var e := EventsOf(ps)[0].origin;
    EventsAscend(ps, lo, mid);
    if c < e {
      DrainsWithin(drains[1..], mid, hi);
      SelectionCut(later, MetricsOf(ps), tail);
      CoversOnlyFirst(drains, later, lo, mid, hi, c);
      MetricsCoverIff(ps, lo, mid, later);
    } else {
      FirstEventIsLost(drains, lo, mid, hi, later);
    }
  }

  lemma FirstEventIsLost(drains: seq<seq<Processed>>, lo: int, mid: int, hi: int, later: seq<WireFrame>)
    requires NonEmpty(drains) && drains != [] && mid <= hi && Seqnos(Joined(drains[1..])) == Range(mid, hi)
    requires Spans(drains[0], lo, mid) && Mixed(drains[0])
    requires Subsequence(later, MetricsOf(drains[0]) + Frames(drains[1..]))
    ensures var e := EventsOf(drains[0])[0].origin;
            lo < e && !Delivers(later, e) && !Met(Joined(drains), e, AsDeclined)
  {
    var ps, tail := drains[0], Frames(drains[1..]);
    var e := EventsOf(ps)[0].origin;
    EventsAscend(ps, lo, mid);
    EventsCarry(ps, e);
    assert HasOrigin(EventsOf(ps), e);
    MetIsNotDeclined(ps, lo, mid, e, AsEvent);
    NothingOutside(drains[1..], mid, hi, e);
    DeclinedInEither(drains, e);
    EventIsNoMetric(ps, lo, mid, e);
    forall i | 0 <= i < |later| ensures !CarriesOrigin(later[i], e) {
      SelectedIsMember(later, MetricsOf(ps) + tail, later[i]);
    }
  }

  lemma EventIsNoMetric(ps: seq<Processed>, lo: int, hi: int, e: int)
    requires Spans(ps, lo, hi) && Met(ps, e, AsEvent)
    ensures forall f :: f in MetricsOf(ps) ==> !CarriesOrigin(f, e)
  {
    MetricsAscend(ps, lo, hi);
    MetricsCarry(ps, e);
    if Met(ps, e, AsMetric) {
      MetOnce(ps, lo, hi, e, AsEvent, AsMetric);
    }
  }

  lemma {:induction false} BatchDroppedIff(drains: seq<seq<Processed>>, lo: int, hi: int, d: nat, later: seq<WireFrame>)
    requires NonEmpty(drains) && 0 <= lo <= hi && Seqnos(Joined(drains)) == Range(lo, hi)
    requires d < |Frames(drains)| && StopsMidDrain(drains, d + 1)
    requires later != [] && Subsequence(later, Frames(drains)[d + 1..])
    ensures Covers(Frames(drains)[..d] + later, Joined(drains), lo, WireSeqno(later[|later| - 1]))
            <==> BatchCanWait(drains, d, later)
    decreases |drains|
  {
    var first, mid := DrainFrames(drains[0]), lo + |drains[0]|;
    var tail := Frames(drains[1..]);
    SpansSplits(drains, lo, hi);
    if d < |first| {
      WithoutBatch(drains[0], tail, later);
      FirstBatchDroppedIff(drains, lo, mid, hi, later);
    } else {
      LeaveOut(first, tail, d, later);
      BatchDroppedIff(drains[1..], mid, hi, d - |first|, later);
      CoversBeyondFirst(drains, tail[..d - |first|] + later, lo, mid, hi, WireSeqno(later[|later| - 1]));
    }
  }

  lemma WithoutBatch(ps: seq<Processed>, tail: seq<WireFrame>, later: seq<WireFrame>)
    requires ps != [] && Mixed(ps)
    ensures (DrainFrames(ps) + tail)[1..] == MetricsOf(ps) + tail && (DrainFrames(ps) + tail)[..0] + later == later
  {
  }

  lemma {:induction false} WaitingIsABatch(drains: seq<seq<Processed>>, d: nat, later: seq<WireFrame>)
    requires NonEmpty(drains) && later != [] && BatchCanWait(drains, d, later)
    ensures StopsMidDrain(drains, d + 1)
    decreases |drains|
  {
    if d >= |DrainFrames(drains[0])| {
      WaitingIsABatch(drains[1..], d - |DrainFrames(drains[0])|, later);
    }
  }

  // ---- The theorem ----

  /** Let frame d be the first one dropped that carries items, and later what still got through after it, in order.
      If nothing did, reconnecting with the cursor brings everything back exactly when stopping before frame d is
      not unsafe. Otherwise a later frame has moved the cursor, and everything comes back only if frame d is the
      batch of a mixed drain, of whose metrics the first ones got through, all below the first event of the batch,
      and nothing else did. */
  lemma DroppedFrameIsRecoveredIff(s: Session, d: nat, later: seq<WireFrame>)
    requires IsSession(s) && d < |SessionFrames(s)| && (d < |s.opening| ==> IsReplay(s))
    requires Subsequence(later, SessionFrames(s)[d + 1..])
    ensures Safe(s, SessionFrames(s)[..d] + later) <==>
            if later == [] then !StopsUnsafely(s, d)
            else !SkipsItems(s) && d >= |s.opening| && BatchCanWait(s.drains, d - |s.opening|, later)
  {
    if later == [] {
      CursorIsSafeIff(s, d);
      AppendNothing(SessionFrames(s)[..d], later);
    } else {
      SomethingLaterIff(s, d, later);
    }
  }

  lemma SomethingLaterIff(s: Session, d: nat, later: seq<WireFrame>)
    requires IsSession(s) && d < |SessionFrames(s)| && (d < |s.opening| ==> IsReplay(s))
    requires later != [] && Subsequence(later, SessionFrames(s)[d + 1..])
    ensures Safe(s, SessionFrames(s)[..d] + later) <==>
            !SkipsItems(s) && d >= |s.opening| && BatchCanWait(s.drains, d - |s.opening|, later)
  {
    if d < |s.opening| {
      LaterFrameHidesIt(s, d, later);
    } else if StopsMidDrain(s.drains, d + 1 - |s.opening|) {
      MixedBatchDroppedIff(s, d, later);
    } else {
      LaterFrameHidesIt(s, d, later);
      OnlyBatchesWait(s.drains, d - |s.opening|, later);
    }
  }

  lemma MixedBatchDroppedIff(s: Session, d: nat, later: seq<WireFrame>)
    requires IsSession(s) && |s.opening| <= d < |SessionFrames(s)| && StopsMidDrain(s.drains, d + 1 - |s.opening|)
    requires later != [] && Subsequence(later, SessionFrames(s)[d + 1..])
    ensures Safe(s, SessionFrames(s)[..d] + later) <==> !SkipsItems(s) && BatchCanWait(s.drains, d - |s.opening|, later)
  {
    LeaveOut(s.opening, Frames(s.drains), d, later);
    DroppedBatchIff(s, d - |s.opening|, later);
  }

  lemma AppendNothing<T>(a: seq<T>, b: seq<T>)
    requires b == []
    ensures a + b == a
  {
  }

  lemma OnlyBatchesWait(drains: seq<seq<Processed>>, d: nat, later: seq<WireFrame>)
    requires NonEmpty(drains) && later != [] && !StopsMidDrain(drains, d + 1)
    ensures !BatchCanWait(drains, d, later)
  {
    if BatchCanWait(drains, d, later) {
      WaitingIsABatch(drains, d, later);
    }
  }

  lemma LeaveOut<T>(a: seq<T>, b: seq<T>, d: nat, later: seq<T>)
    requires |a| <= d < |a + b|
    ensures (a + b)[d + 1..] == b[d + 1 - |a|..]
    ensures (a + b)[..d] + later == a + (b[..d - |a|] + later)
  {
  }

  lemma DroppedBatchIff(s: Session, d: nat, later: seq<WireFrame>)
    requires IsSession(s) && d < |Frames(s.drains)| && StopsMidDrain(s.drains, d + 1)
    requires later != [] && Subsequence(later, Frames(s.drains)[d + 1..])
    ensures Safe(s, s.opening + (Frames(s.drains)[..d] + later)) <==> !SkipsItems(s) && BatchCanWait(s.drains, d, later)
  {
    var hi := s.cut + |Joined(s.drains)|;
    var live := Frames(s.drains)[..d] + later;
    DrainsWithin(s.drains, s.cut, hi);
    forall i | 0 <= i < |live| ensures live[i] in Frames(s.drains) && WireSeqno(live[i]) > s.cut {
      if i >= d {
        SelectedIsMember(later, Frames(s.drains)[d + 1..], live[i]);
      }
    }
    if SkipsItems(s) {
      SkippedIsMissing(s, live);
    } else {
      CursorIsLast(Some(s.cut), live);
      CoversBeyondOpening(s, live, WireSeqno(later[|later| - 1]));
      BatchDroppedIff(s.drains, s.cut, hi, d, later);
    }
  }
}
