/** The client half of resuming (handleMessage and buildWsUrl in sdk/typescript/src/client.ts), and what the
    cursor is worth: which events a client may rely on having received when it leaves a connection. */
module Resume {
  import opened Common
  import opened Items
  import opened LiveSession

  // ---- The cursor rule ----

  function Advance(c: Option<nat>, f: WireFrame): Option<nat> {
    if WireSeqno(f) > 0 then Some(WireSeqno(f)) else c
  }

  function CursorAfter(c: Option<nat>, frames: seq<WireFrame>): Option<nat> {
    if frames == [] then c else Advance(CursorAfter(c, frames[..|frames| - 1]), frames[|frames| - 1])
  }

  class GatewayClient {
    var lastServerSeqno: Option<nat>
    ghost var received: seq<WireFrame>

    ghost predicate Valid()
      reads this
    {
      lastServerSeqno == CursorAfter(None, received)
    }

    constructor ()
      ensures Valid() && received == []
    {
      lastServerSeqno, received := None, [];
    }

    method HandleMessage(f: WireFrame)
      requires Valid()
      modifies this
      ensures Valid() && received == old(received) + [f]
    {
      if WireSeqno(f) > 0 {
        lastServerSeqno := Some(WireSeqno(f));
      }
      received := received + [f];
      assert received[..|received| - 1] == old(received);
    }

    /** The resume_from parameter of the next connection. */
    method ResumeFrom() returns (cursor: Option<nat>)
      requires Valid()
      ensures cursor == CursorAfter(None, received)
    {
      cursor := lastServerSeqno;
    }
  }

  lemma {:induction false} CursorSplits(c: Option<nat>, a: seq<WireFrame>, b: seq<WireFrame>)
    ensures CursorAfter(c, a + b) == CursorAfter(CursorAfter(c, a), b)
  {
    if b == [] {
      assert a + b == a;
    } else {
      CursorSplits(c, a, b[..|b| - 1]);
      assert (a + b)[..|a + b| - 1] == a + b[..|b| - 1];
    }
  }

  lemma CursorIsLast(c: Option<nat>, frames: seq<WireFrame>)
    requires frames != [] && WireSeqno(frames[|frames| - 1]) > 0
    ensures CursorAfter(c, frames) == Some(WireSeqno(frames[|frames| - 1]))
  {
  }

  // ---- What frames deliver ----

  ghost predicate CarriesOrigin(f: WireFrame, n: int) {
    match f
    case Control => false
    case State(_) => false
    case Replay(seqno, _) => seqno == n
    case Events(_, events) => HasOrigin(events, n)
    case MetricFrame(seqno, _) => seqno == n
  }

  ghost predicate Delivers(frames: seq<WireFrame>, n: int) {
    exists i :: 0 <= i < |frames| && CarriesOrigin(frames[i], n)
  }

  lemma DeliversSplits(a: seq<WireFrame>, b: seq<WireFrame>, n: int)
    ensures Delivers(a + b, n) <==> Delivers(a, n) || Delivers(b, n)
  {
    if i :| 0 <= i < |a| && CarriesOrigin(a[i], n) {
      assert CarriesOrigin((a + b)[i], n);
    }
    if i :| 0 <= i < |b| && CarriesOrigin(b[i], n) {
      assert CarriesOrigin((a + b)[|a| + i], n);
    }
  }

  // ---- One drain ----

  ghost function Seqnos(ps: seq<Processed>): (r: seq<int>)
    ensures |r| == |ps| && forall i :: 0 <= i < |ps| ==> r[i] == ps[i].seqno
  {
    seq(|ps|, i requires 0 <= i < |ps| => ps[i].seqno)
  }

  /** A non-empty drain over the consecutive seqnos lo + 1 .. hi. */
  ghost predicate Spans(ps: seq<Processed>, lo: int, hi: int) {
    0 <= lo < hi && Seqnos(ps) == Range(lo, hi)
  }

  datatype Fate = AsEvent | AsMetric | AsDeclined

  function FateOf(o: Outcome): Fate {
    match o
    case EventOut(_) => AsEvent
    case MetricOut(_) => AsMetric
    case Declined => AsDeclined
  }

  /** Item n was processed in this list of items, with this fate under the subscription of the moment. */
  ghost predicate Met(ps: seq<Processed>, n: int, fate: Fate) {
    exists i :: 0 <= i < |ps| && ps[i].seqno == n && FateOf(ps[i].outcome) == fate
  }

  lemma MetSplits(a: seq<Processed>, b: seq<Processed>, n: int, fate: Fate)
    ensures Met(a + b, n, fate) <==> Met(a, n, fate) || Met(b, n, fate)
  {
    if i :| 0 <= i < |a| && a[i].seqno == n && FateOf(a[i].outcome) == fate {
      assert (a + b)[i] == a[i];
    }
    if i :| 0 <= i < |b| && b[i].seqno == n && FateOf(b[i].outcome) == fate {
      assert (a + b)[|a| + i] == b[i];
    }
  }

  lemma MetAtEnd(ps: seq<Processed>, n: int, fate: Fate)
    requires ps != []
    ensures var front, p := ps[..|ps| - 1], ps[|ps| - 1];
            Met(ps, n, fate) <==> Met(front, n, fate) || (p.seqno == n && FateOf(p.outcome) == fate)
  {
    var front, p := ps[..|ps| - 1], ps[|ps| - 1];
    assert ps == front + [p];
    MetSplits(front, [p], n, fate);
    assert [p][0] == p;
  }

  ghost predicate HasOrigin(events: seq<BatchedEvent>, n: int) {
    exists i :: 0 <= i < |events| && events[i].origin == n
  }

  lemma HasOriginAtEnd(events: seq<BatchedEvent>, e: BatchedEvent, n: int)
    ensures HasOrigin(events + [e], n) <==> HasOrigin(events, n) || e.origin == n
  {
    if i :| 0 <= i < |events| && events[i].origin == n {
      assert (events + [e])[i].origin == n;
    }
    assert (events + [e])[|events|] == e;
  }

  lemma {:induction false} EventsCarry(ps: seq<Processed>, n: int)
    ensures HasOrigin(EventsOf(ps), n) <==> Met(ps, n, AsEvent)
  {
    if ps == [] {
    } else {
      var front, p := ps[..|ps| - 1], ps[|ps| - 1];
      EventsCarry(front, n);
      MetAtEnd(ps, n, AsEvent);
      if p.outcome.EventOut? {
        HasOriginAtEnd(EventsOf(front), BatchedEvent(p.seqno, p.outcome.event), n);
      } else {
        assert EventsOf(ps) == EventsOf(front);
      }
    }
  }

  ghost predicate HasMetric(ms: seq<WireFrame>, n: int) {
    exists i :: 0 <= i < |ms| && WireSeqno(ms[i]) == n
  }

  lemma HasMetricAtEnd(ms: seq<WireFrame>, m: WireFrame, n: int)
    ensures HasMetric(ms + [m], n) <==> HasMetric(ms, n) || WireSeqno(m) == n
  {
    if i :| 0 <= i < |ms| && WireSeqno(ms[i]) == n {
      assert WireSeqno((ms + [m])[i]) == n;
    }
    assert (ms + [m])[|ms|] == m;
  }

  /** The metric frames of a drain: one per wanted metric... */
  lemma {:induction false} MetricsCarry(ps: seq<Processed>, n: int)
    ensures HasMetric(MetricsOf(ps), n) <==> Met(ps, n, AsMetric)
  {
    if ps == [] {
    } else {
      var front, p := ps[..|ps| - 1], ps[|ps| - 1];
      MetricsCarry(front, n);
      MetAtEnd(ps, n, AsMetric);
      if p.outcome.MetricOut? {
        HasMetricAtEnd(MetricsOf(front), MetricFrame(p.seqno, p.outcome.item), n);
      } else {
        assert MetricsOf(ps) == MetricsOf(front);
      }
    }
  }

  ghost predicate MetricList(ms: seq<WireFrame>, lo: int, hi: int) {
    && (forall i :: 0 <= i < |ms| ==> ms[i].MetricFrame? && lo < WireSeqno(ms[i]) <= hi)
    && (forall i, j :: 0 <= i < j < |ms| ==> WireSeqno(ms[i]) < WireSeqno(ms[j]))
  }

  /** ...in increasing order of seqno. */
  lemma {:induction false} MetricsAscend(ps: seq<Processed>, lo: int, hi: int)
    requires 0 <= lo <= hi && Seqnos(ps) == Range(lo, hi)
    ensures MetricList(MetricsOf(ps), lo, hi)
  {
    if ps == [] {
    } else {
      var front := ps[..|ps| - 1];
      assert Seqnos(front) == Range(lo, hi)[..|ps| - 1] == Range(lo, hi - 1);
      MetricsAscend(front, lo, hi - 1);
      assert ps[|ps| - 1].seqno == Seqnos(ps)[|ps| - 1] == hi;
      if ps[|ps| - 1].outcome.MetricOut? {
        MetricListGrows(MetricsOf(front), lo, hi, ps[|ps| - 1].outcome.item);
      } else {
        assert MetricsOf(ps) == MetricsOf(front);
      }
    }
  }

  lemma MetricListGrows(ms: seq<WireFrame>, lo: int, hi: nat, item: Item)
    requires MetricList(ms, lo, hi - 1) && lo < hi
    ensures MetricList(ms + [MetricFrame(hi, item)], lo, hi)
  {
  }

  /** A drain that sends both a batch and metrics. */
  predicate Mixed(ps: seq<Processed>) { EventsOf(ps) != [] && MetricsOf(ps) != [] }

  /** Every item of a drain is an event, a metric or declined. */
  lemma EachIsMet(ps: seq<Processed>, lo: int, hi: int, n: int)
    requires Spans(ps, lo, hi) && lo < n <= hi
    ensures Met(ps, n, AsEvent) || Met(ps, n, AsMetric) || Met(ps, n, AsDeclined)
  {
    var i := n - lo - 1;
    assert ps[i].seqno == Seqnos(ps)[i] == n;
    assert Met(ps, n, FateOf(ps[i].outcome));
  }

  lemma MetOnce(ps: seq<Processed>, lo: int, hi: int, n: int, f: Fate, g: Fate)
    requires Spans(ps, lo, hi) && Met(ps, n, f) && Met(ps, n, g)
    ensures f == g && lo < n <= hi
  {
    var i :| 0 <= i < |ps| && ps[i].seqno == n && FateOf(ps[i].outcome) == f;
    var j :| 0 <= j < |ps| && ps[j].seqno == n && FateOf(ps[j].outcome) == g;
    assert Seqnos(ps)[i] == lo + 1 + i && Seqnos(ps)[j] == lo + 1 + j;
  }

  /** All items up to the cursor c are delivered by the frames read, or were declined. */
  ghost predicate Covers(read: seq<WireFrame>, ps: seq<Processed>, lo: int, c: int) {
    forall n :: lo < n <= c ==> Delivers(read, n) || Met(ps, n, AsDeclined)
  }

  /** Reading stopped on the event batch of a mixed drain, before its metrics. */
  predicate StopsOnBatch(ps: seq<Processed>, r: nat) { Mixed(ps) && r == 1 }

  lemma FrameIsInDrain(ps: seq<Processed>, lo: int, hi: int, i: nat)
    requires Spans(ps, lo, hi) && i < |DrainFrames(ps)|
    ensures lo < WireSeqno(DrainFrames(ps)[i]) <= hi
  {
    MetricsAscend(ps, lo, hi);
    assert ps[0].seqno == Seqnos(ps)[0] == lo + 1;
    var ms := MetricsOf(ps);
    var k := if EventsOf(ps) != [] then i - 1 else i;
    assert k >= 0 ==> DrainFrames(ps)[i] == ms[k];
    if ms != [] {
      assert lo < WireSeqno(ms[|ms| - 1]) <= hi;
    }
  }

  /** Within one drain, with everything before it covered: the cursor a client holds after reading r of the
      frames is safe unless it stopped on the batch. */
  lemma DrainPrefixIff(ps: seq<Processed>, lo: int, hi: int, r: nat, before: nat)
    requires Spans(ps, lo, hi) && r <= |DrainFrames(ps)| && before <= lo
    ensures var read := DrainFrames(ps)[..r];
            var c := CursorAfter(Some(before), read);
            c.Some? && c.value <= hi && (Covers(read, ps, lo, c.value) <==> !StopsOnBatch(ps, r))
  {
    var frames := DrainFrames(ps);
    var read := frames[..r];
    MetricsAscend(ps, lo, hi);
    if r > 0 {
      FrameIsInDrain(ps, lo, hi, r - 1);
      CursorIsLast(Some(before), read);
      if StopsOnBatch(ps, r) {
        BatchAloneMisses(ps, lo, hi);
      } else {
        PrefixCovers(ps, lo, hi, r);
      }
    }
  }

  /** The batch of a mixed drain carries the seqno of a metric that is still to come. */
  lemma BatchAloneMisses(ps: seq<Processed>, lo: int, hi: int)
    requires Spans(ps, lo, hi) && Mixed(ps)
    ensures var read := DrainFrames(ps)[..1]; !Covers(read, ps, lo, WireSeqno(read[0]))
  {
    var ms, read := MetricsOf(ps), DrainFrames(ps)[..1];
    var n := WireSeqno(ms[|ms| - 1]);
    MetricsAscend(ps, lo, hi);
    MetricsCarry(ps, n);
    EventsCarry(ps, n);
    if Delivers(read, n) {
      assert HasOrigin(EventsOf(ps), n);
      MetOnce(ps, lo, hi, n, AsEvent, AsMetric);
    }
    if Met(ps, n, AsDeclined) {
      MetOnce(ps, lo, hi, n, AsDeclined, AsMetric);
    }
    assert lo < n <= WireSeqno(read[0]);
  }

  lemma PrefixCovers(ps: seq<Processed>, lo: int, hi: int, r: nat)
    requires Spans(ps, lo, hi) && 0 < r <= |DrainFrames(ps)| && !StopsOnBatch(ps, r)
    ensures var read := DrainFrames(ps)[..r]; Covers(read, ps, lo, WireSeqno(read[r - 1]))
  {
    var frames := DrainFrames(ps);
    var read := frames[..r];
    var c := WireSeqno(read[r - 1]);
    MetricsAscend(ps, lo, hi);
    FrameIsInDrain(ps, lo, hi, r - 1);
    forall n | lo < n <= c ensures Delivers(read, n) || Met(ps, n, AsDeclined) {
      EachIsMet(ps, lo, hi, n);
      if Met(ps, n, AsEvent) {
        EventsCarry(ps, n);
        assert CarriesOrigin(read[0], n);
      } else if Met(ps, n, AsMetric) {
        MetricUpToCursorIsRead(ps, lo, hi, r, n);
      }
    }
  }

  lemma MetricUpToCursorIsRead(ps: seq<Processed>, lo: int, hi: int, r: nat, n: int)
    requires Spans(ps, lo, hi) && 0 < r <= |DrainFrames(ps)| && !StopsOnBatch(ps, r)
    requires Met(ps, n, AsMetric) && n <= WireSeqno(DrainFrames(ps)[r - 1])
    ensures Delivers(DrainFrames(ps)[..r], n)
  {
    var frames, ms := DrainFrames(ps), MetricsOf(ps);
    MetricsAscend(ps, lo, hi);
    MetricsCarry(ps, n);
    var i :| 0 <= i < |ms| && WireSeqno(ms[i]) == n;
    var k := if EventsOf(ps) != [] then i + 1 else i;
    assert frames[k] == ms[i];
    assert k < r;
    assert CarriesOrigin(frames[..r][k], n);
  }

  /** Wire seqnos rise strictly within a drain exactly when it is not mixed. */
  lemma DrainAscendsIff(ps: seq<Processed>, lo: int, hi: int)
    requires Spans(ps, lo, hi)
    ensures Ascends(DrainFrames(ps)) <==> !Mixed(ps)
  {
    FrameShapes(ps);
    if Mixed(ps) {
      var frames := DrainFrames(ps);
      assert WireSeqno(frames[0]) == WireSeqno(frames[|frames| - 1]);
    } else if EventsOf(ps) == [] {
      MetricsAscend(ps, lo, hi);
      MetricListAscends(MetricsOf(ps), lo, hi);
    }
  }

  /** A drain sends the metrics alone, the batch alone, or the batch first. */
  lemma FrameShapes(ps: seq<Processed>)
    requires ps != []
    ensures var frames, events, ms := DrainFrames(ps), EventsOf(ps), MetricsOf(ps);
            && (events == [] ==> frames == ms)
            && (events != [] && ms == [] ==> |frames| == 1 && frames[0].Events? && frames[0].events == events)
            && (events != [] && ms != [] ==>
                  |frames| == |ms| + 1 && WireSeqno(frames[0]) == WireSeqno(ms[|ms| - 1]) && frames[|ms|] == ms[|ms| - 1])
  {
    var frames, events, ms := DrainFrames(ps), EventsOf(ps), MetricsOf(ps);
    if events != [] {
      var batch := Events(if ms != [] then WireSeqno(ms[|ms| - 1]) else ps[0].seqno, events);
      assert frames == [batch] + ms;
    }
  }

  lemma MetricListAscends(ms: seq<WireFrame>, lo: int, hi: int)
    requires MetricList(ms, lo, hi)
    ensures Ascends(ms)
  {
  }

  ghost predicate Ascends(frames: seq<WireFrame>) {
    forall i, j :: 0 <= i < j < |frames| ==> WireSeqno(frames[i]) < WireSeqno(frames[j])
  }

  // ---- One connection: a replay, then drains ----

  ghost predicate NonEmpty(drains: seq<seq<Processed>>) { forall i :: 0 <= i < |drains| ==> drains[i] != [] }

  /** The frames of successive drains. */
  ghost function Frames(drains: seq<seq<Processed>>): seq<WireFrame>
    requires NonEmpty(drains)
  {
    if drains == [] then [] else DrainFrames(drains[0]) + Frames(drains[1..])
  }

  ghost function Joined(drains: seq<seq<Processed>>): seq<Processed> {
    if drains == [] then [] else drains[0] + Joined(drains[1..])
  }

  /** The r-th frame was the last one read, and it was the batch of a mixed drain. */
  ghost predicate StopsMidDrain(drains: seq<seq<Processed>>, r: nat)
    requires NonEmpty(drains)
  {
    drains != [] &&
    (var first := |DrainFrames(drains[0])|;
     if r <= first then StopsOnBatch(drains[0], r) else StopsMidDrain(drains[1..], r - first))
  }

  lemma SpansSplits(drains: seq<seq<Processed>>, lo: int, hi: int)
    requires NonEmpty(drains) && drains != [] && 0 <= lo <= hi && Seqnos(Joined(drains)) == Range(lo, hi)
    ensures var mid := lo + |drains[0]|;
            mid <= hi && Spans(drains[0], lo, mid) && Seqnos(Joined(drains[1..])) == Range(mid, hi)
  {
    SeqnosSplit(drains[0], Joined(drains[1..]), lo, hi);
  }

  lemma SeqnosSplit(a: seq<Processed>, b: seq<Processed>, lo: int, hi: int)
    requires 0 <= lo <= hi && Seqnos(a + b) == Range(lo, hi)
    ensures var mid := lo + |a|; mid <= hi && Seqnos(a) == Range(lo, mid) && Seqnos(b) == Range(mid, hi)
  {
    var mid, all := lo + |a|, a + b;
    assert |Range(lo, hi)| == |all| == |a| + |b|;
    forall i | 0 <= i < |a| ensures Seqnos(a)[i] == Range(lo, mid)[i] {
      assert all[i] == a[i] && Seqnos(all)[i] == Range(lo, hi)[i];
    }
    forall i | 0 <= i < |b| ensures Seqnos(b)[i] == Range(mid, hi)[i] {
      assert all[|a| + i] == b[i] && Seqnos(all)[|a| + i] == Range(lo, hi)[|a| + i];
    }
  }

  /** Everything a whole drain spans is delivered or declined. */
  lemma WholeDrainCovers(ps: seq<Processed>, lo: int, hi: int)
    requires Spans(ps, lo, hi)
    ensures Covers(DrainFrames(ps), ps, lo, hi)
  {
    var frames := DrainFrames(ps);
    forall n | lo < n <= hi ensures Delivers(frames, n) || Met(ps, n, AsDeclined) {
      EachIsMet(ps, lo, hi, n);
      if Met(ps, n, AsEvent) {
        EventsCarry(ps, n);
        assert CarriesOrigin(frames[0], n);
      } else if Met(ps, n, AsMetric) {
        MetricIsSent(ps, lo, hi, n);
      }
    }
  }

  lemma MetricIsSent(ps: seq<Processed>, lo: int, hi: int, n: int)
    requires Spans(ps, lo, hi) && Met(ps, n, AsMetric)
    ensures Delivers(DrainFrames(ps), n)
  {
    MetricsAscend(ps, lo, hi);
    MetricsCarry(ps, n);
    var ms := MetricsOf(ps);
    var i :| 0 <= i < |ms| && WireSeqno(ms[i]) == n;
    var k := if EventsOf(ps) != [] then i + 1 else i;
    assert DrainFrames(ps)[k] == ms[i] && CarriesOrigin(ms[i], n);
  }

  /** Frames of a drain deliver nothing outside its span, so frames of a later drain carry larger seqnos
      than those of an earlier one, and deliver later items. */
  lemma DrainDeliversWithin(ps: seq<Processed>, lo: int, hi: int, n: int)
    requires Spans(ps, lo, hi) && (Delivers(DrainFrames(ps), n) || Met(ps, n, AsDeclined))
    ensures lo < n <= hi
  {
    if Met(ps, n, AsDeclined) {
      MetOnce(ps, lo, hi, n, AsDeclined, AsDeclined);
    } else {
      var i :| 0 <= i < |DrainFrames(ps)| && CarriesOrigin(DrainFrames(ps)[i], n);
      FrameIsInDrain(ps, lo, hi, i);
      if DrainFrames(ps)[i].Events? {
        EventsInFirstFrame(ps, lo, hi, i);
        EventsCarry(ps, n);
        MetOnce(ps, lo, hi, n, AsEvent, AsEvent);
      }
    }
  }

  lemma EventsInFirstFrame(ps: seq<Processed>, lo: int, hi: int, i: nat)
    requires Spans(ps, lo, hi) && i < |DrainFrames(ps)| && DrainFrames(ps)[i].Events?
    ensures i == 0 && EventsOf(ps) != [] && DrainFrames(ps)[i].events == EventsOf(ps)
  {
    if i > 0 || EventsOf(ps) == [] {
      OthersAreMetrics(ps, lo, hi, i);
    }
  }

  lemma OthersAreMetrics(ps: seq<Processed>, lo: int, hi: int, i: nat)
    requires Spans(ps, lo, hi) && i < |DrainFrames(ps)| && (i > 0 || EventsOf(ps) == [])
    ensures DrainFrames(ps)[i].MetricFrame?
  {
    MetricsAscend(ps, lo, hi);
    assert DrainFrames(ps)[i] == MetricsOf(ps)[if EventsOf(ps) != [] then i - 1 else i];
  }

  lemma TakeWithin<T>(a: seq<T>, b: seq<T>, r: nat)
    requires r <= |a|
    ensures (a + b)[..r] == a[..r]
  {
  }

  lemma TakeBeyond<T>(a: seq<T>, b: seq<T>, r: nat)
    requires |a| <= r <= |a + b|
    ensures (a + b)[..r] == a + b[..r - |a|]
  {
  }

  /** Over any number of drains: the cursor after any prefix of the frames is safe exactly when the prefix
      does not end on the batch of a mixed drain. */
  lemma {:induction false} DrainsPrefixIff(drains: seq<seq<Processed>>, lo: int, hi: int, r: nat, before: nat)
    requires NonEmpty(drains) && 0 <= lo <= hi && Seqnos(Joined(drains)) == Range(lo, hi)
    requires r <= |Frames(drains)| && before <= lo
    ensures var read := Frames(drains)[..r];
            var c := CursorAfter(Some(before), read);
            c.Some? && c.value <= hi &&
            (Covers(read, Joined(drains), lo, c.value) <==> !StopsMidDrain(drains, r))
    decreases |drains|
  {
    if drains == [] {
    } else {
      var first, mid := DrainFrames(drains[0]), lo + |drains[0]|;
      SpansSplits(drains, lo, hi);
      if r <= |first| {
        PrefixInFirst(drains, lo, mid, hi, r, before);
      } else {
        DrainPrefixIff(drains[0], lo, mid, |first|, before);
        assert first[..|first|] == first;
        var c1 := CursorAfter(Some(before), first).value;
        var rest := Frames(drains[1..])[..r - |first|];
        DrainsPrefixIff(drains[1..], mid, hi, |rest|, c1);
        CursorSplits(Some(before), first, rest);
        CoversBeyondFirst(drains, rest, lo, mid, hi, CursorAfter(Some(c1), rest).value);
        TakeBeyond(first, Frames(drains[1..]), r);
      }
    }
  }

  lemma PrefixInFirst(drains: seq<seq<Processed>>, lo: int, mid: int, hi: int, r: nat, before: nat)
    requires NonEmpty(drains) && drains != [] && mid <= hi && before <= lo && r <= |DrainFrames(drains[0])|
    requires Spans(drains[0], lo, mid) && Seqnos(Joined(drains[1..])) == Range(mid, hi)
    ensures var read := Frames(drains)[..r];
            var c := CursorAfter(Some(before), read);
            c.Some? && c.value <= hi && (Covers(read, Joined(drains), lo, c.value) <==> !StopsMidDrain(drains, r))
  {
    var read := DrainFrames(drains[0])[..r];
    assert Frames(drains)[..r] == read;
    DrainPrefixIff(drains[0], lo, mid, r, before);
    CoversOnlyFirst(drains, read, lo, mid, hi, CursorAfter(Some(before), read).value);
  }

  lemma DeclinedWithin(ps: seq<Processed>, lo: int, hi: int, n: int)
    requires 0 <= lo <= hi && Seqnos(ps) == Range(lo, hi) && Met(ps, n, AsDeclined)
    ensures lo < n <= hi
  {
    var i :| 0 <= i < |ps| && ps[i].seqno == n && FateOf(ps[i].outcome) == AsDeclined;
    assert Seqnos(ps)[i] == lo + 1 + i;
  }

  /** Coverage up to a cursor inside the first drain depends on that drain alone. */
  lemma CoversOnlyFirst(drains: seq<seq<Processed>>, read: seq<WireFrame>, lo: int, mid: int, hi: int, c: int)
    requires NonEmpty(drains) && drains != [] && c <= mid <= hi
    requires Spans(drains[0], lo, mid) && Seqnos(Joined(drains[1..])) == Range(mid, hi)
    ensures Covers(read, Joined(drains), lo, c) <==> Covers(read, drains[0], lo, c)
  {
    forall n | lo < n <= c ensures Met(Joined(drains), n, AsDeclined) <==> Met(drains[0], n, AsDeclined) {
      MetSplits(drains[0], Joined(drains[1..]), n, AsDeclined);
      if Met(Joined(drains[1..]), n, AsDeclined) {
        DeclinedWithin(Joined(drains[1..]), mid, hi, n);
      }
    }
  }

  /** After the whole first drain, coverage depends on the later drains alone. */
  lemma CoversBeyondFirst(drains: seq<seq<Processed>>, rest: seq<WireFrame>, lo: int, mid: int, hi: int, c: int)
    requires NonEmpty(drains) && drains != [] && mid <= hi
    requires Spans(drains[0], lo, mid) && Seqnos(Joined(drains[1..])) == Range(mid, hi)
    ensures Covers(DrainFrames(drains[0]) + rest, Joined(drains), lo, c) <==> Covers(rest, Joined(drains[1..]), mid, c)
  {
    var first := DrainFrames(drains[0]);
    WholeDrainCovers(drains[0], lo, mid);
    forall n | lo < n
      ensures (Delivers(first + rest, n) || Met(Joined(drains), n, AsDeclined)) <==>
              n <= mid || Delivers(rest, n) || Met(Joined(drains[1..]), n, AsDeclined)
    {
      DeliversSplits(first, rest, n);
      MetSplits(drains[0], Joined(drains[1..]), n, AsDeclined);
      if n > mid && (Delivers(first, n) || Met(drains[0], n, AsDeclined)) {
        DrainDeliversWithin(drains[0], lo, mid, n);
      }
    }
  }

  // ---- One connection ----

  /** What the first frames of a connection bring, up to which seqno, and the drains that follow. Answered with a
      replay it opens with every item after start; answered with a snapshot, with state messages that all carry
      one seqno. start is the cursor the client came with. A client that came without one is promised nothing
      before its snapshot: its start is the seqno of the snapshot. */
  datatype Session = Session(start: nat, cut: nat, opening: seq<WireFrame>, drains: seq<seq<Processed>>)

  ghost predicate IsReplay(s: Session) {
    && s.start < s.cut && |s.opening| == s.cut - s.start
    && forall i :: 0 <= i < |s.opening| ==> s.opening[i].Replay? && s.opening[i].seqno == s.start + 1 + i
  }

  ghost predicate IsSnapshot(s: Session) {
    && s.start <= s.cut
    && forall i :: 0 <= i < |s.opening| ==>
         && s.opening[i].State? && s.start <= s.opening[i].seqno <= s.cut
         && WireSeqno(s.opening[i]) == WireSeqno(s.opening[0])
  }

  ghost predicate IsSession(s: Session) {
    && (IsReplay(s) || IsSnapshot(s))
    && NonEmpty(s.drains)
    && Seqnos(Joined(s.drains)) == Range(s.cut, s.cut + |Joined(s.drains)|)
  }

  ghost function SessionFrames(s: Session): seq<WireFrame>
    requires IsSession(s)
  {
    s.opening + Frames(s.drains)
  }

  /** A snapshot whose live part starts past the cursor: what lies between is never sent. */
  ghost predicate SkipsItems(s: Session) { IsSnapshot(s) && s.start < s.cut }

  /** The r-th frame was the last one read, and it was a snapshot frame past the cursor, or any live frame after
      a snapshot that skips items, or the batch of a mixed drain. */
  ghost predicate StopsUnsafely(s: Session, r: nat)
    requires IsSession(s)
  {
    if r <= |s.opening| then r > 0 && s.opening[r - 1].State? && s.opening[r - 1].seqno > s.start
    else SkipsItems(s) || StopsMidDrain(s.drains, r - |s.opening|)
  }

  /** What a client of this connection holds in hand is enough to reconnect with its cursor: everything up to
      the cursor was delivered to it or declined by its subscription. */
  ghost predicate Safe(s: Session, got: seq<WireFrame>) {
    var c := CursorAfter(Some(s.start), got);
    c.Some? && Covers(got, Joined(s.drains), s.start, c.value)
  }

  lemma {:induction false} OpeningCursor(s: Session, r: nat)
    requires IsSession(s) && r <= |s.opening|
    ensures CursorAfter(Some(s.start), s.opening[..r]) == Some(if r == 0 then s.start else WireSeqno(s.opening[r - 1]))
  {
    if r == 0 {
    } else {
      OpeningCursor(s, r - 1);
      assert s.opening[..r][..r - 1] == s.opening[..r - 1];
    }
  }

  lemma OpeningDelivers(s: Session, r: nat, n: int)
    requires IsSession(s) && r <= |s.opening|
    ensures Delivers(s.opening[..r], n) <==> IsReplay(s) && s.start < n <= s.start + r
  {
    if IsReplay(s) && s.start < n <= s.start + r {
      assert CarriesOrigin(s.opening[..r][n - s.start - 1], n);
    }
  }

  /** The live part has nothing to say about items up to the cut. */
  lemma NothingLiveBelowCut(s: Session, n: int)
    requires IsSession(s) && n <= s.cut
    ensures !Delivers(Frames(s.drains), n) && !Met(Joined(s.drains), n, AsDeclined)
  {
    NothingOutside(s.drains, s.cut, s.cut + |Joined(s.drains)|, n);
  }

  /** The cursor theorem. A client that has read any prefix of the frames of any connection may reconnect with
      its cursor exactly when it has not stopped unsafely. */
  lemma CursorIsSafeIff(s: Session, r: nat)
    requires IsSession(s) && r <= |SessionFrames(s)|
    ensures Safe(s, SessionFrames(s)[..r]) <==> !StopsUnsafely(s, r)
  {
    if r <= |s.opening| {
      TakeWithin(s.opening, Frames(s.drains), r);
      OpeningIsSafeIff(s, r);
    } else {
      PastOpeningIff(s, r);
    }
  }

  lemma PastOpeningIff(s: Session, r: nat)
    requires IsSession(s) && |s.opening| < r <= |SessionFrames(s)|
    ensures Safe(s, SessionFrames(s)[..r]) <==> !SkipsItems(s) && !StopsMidDrain(s.drains, r - |s.opening|)
  {
    var live := Frames(s.drains)[..r - |s.opening|];
    BeyondOpeningIff(s, live);
    TakeBeyond(s.opening, Frames(s.drains), r);
  }

  lemma OpeningIsSafeIff(s: Session, r: nat)
    requires IsSession(s) && r <= |s.opening|
    ensures Safe(s, s.opening[..r]) <==> !StopsUnsafely(s, r)
  {
    OpeningCursor(s, r);
    if r > 0 {
      var c := WireSeqno(s.opening[r - 1]);
      forall n | s.start < n <= c ensures Delivers(s.opening[..r], n) <==> IsReplay(s) {
        OpeningDelivers(s, r, n);
      }
      if IsSnapshot(s) && c > s.start {
        NothingLiveBelowCut(s, c);
        assert !Delivers(s.opening[..r], c);
      }
    }
  }

  lemma BeyondOpeningIff(s: Session, live: seq<WireFrame>)
    requires IsSession(s) && 0 < |live| <= |Frames(s.drains)| && live == Frames(s.drains)[..|live|]
    ensures Safe(s, s.opening + live) <==> !SkipsItems(s) && !StopsMidDrain(s.drains, |live|)
  {
    if SkipsItems(s) {
      DrainsWithin(s.drains, s.cut, s.cut + |Joined(s.drains)|);
      SkippedIsMissing(s, live);
    } else {
      DrainsPrefixIff(s.drains, s.cut, s.cut + |Joined(s.drains)|, |live|, s.cut);
      CoversBeyondOpening(s, live, CursorAfter(Some(s.cut), live).value);
    }
  }

  /** After a snapshot that skips items, any live frame moves the cursor past them. */
  lemma SkippedIsMissing(s: Session, live: seq<WireFrame>)
    requires IsSession(s) && SkipsItems(s) && live != []
    requires forall i :: 0 <= i < |live| ==> live[i] in Frames(s.drains) && WireSeqno(live[i]) > s.cut
    ensures !Safe(s, s.opening + live)
  {
    var got := s.opening + live;
    CursorIsLast(Some(s.start), got);
    NothingLiveBelowCut(s, s.cut);
    OpeningDelivers(s, |s.opening|, s.cut);
    assert s.opening[..|s.opening|] == s.opening;
    forall i | 0 <= i < |live| ensures !CarriesOrigin(live[i], s.cut) {
      var j :| 0 <= j < |Frames(s.drains)| && Frames(s.drains)[j] == live[i];
    }
    DeliversSplits(s.opening, live, s.cut);
  }

  /** Unless items are skipped, coverage from the start after the opening is coverage from the cut. */
  lemma CoversBeyondOpening(s: Session, live: seq<WireFrame>, c: int)
    requires IsSession(s) && !SkipsItems(s)
    ensures CursorAfter(Some(s.start), s.opening + live) == CursorAfter(Some(s.cut), live)
    ensures Covers(s.opening + live, Joined(s.drains), s.start, c) <==> Covers(live, Joined(s.drains), s.cut, c)
  {
    CursorSplits(Some(s.start), s.opening, live);
    forall n ensures Delivers(s.opening + live, n) <==> Delivers(s.opening, n) || Delivers(live, n) {
      DeliversSplits(s.opening, live, n);
    }
    OpeningReachesCut(s);
  }

  /** Unless items are skipped, the opening brings the client to the cut, with everything up to it. */
  lemma OpeningReachesCut(s: Session)
    requires IsSession(s) && !SkipsItems(s)
    ensures CursorAfter(Some(s.start), s.opening) == Some(s.cut)
    ensures forall n :: s.start < n ==> (Delivers(s.opening, n) <==> n <= s.cut)
  {
    var all := |s.opening|;
    assert s.opening[..all] == s.opening;
    OpeningCursor(s, all);
    forall n | s.start < n ensures Delivers(s.opening, n) <==> n <= s.cut {
      OpeningDelivers(s, all, n);
    }
  }

  /** The frames of a connection carry strictly rising seqnos exactly when no drain is mixed and it does not open
      with two or more messages of one snapshot. */
  lemma SessionAscendsIff(s: Session)
    requires IsSession(s)
    ensures Ascends(SessionFrames(s)) <==>
            (forall k :: 0 <= k < |s.drains| ==> !Mixed(s.drains[k])) && (IsSnapshot(s) ==> |s.opening| <= 1)
  {
    var hi := s.cut + |Joined(s.drains)|;
    DrainsAscendIff(s.drains, s.cut, hi);
    DrainsWithin(s.drains, s.cut, hi);
    AscendsJoined(s.opening, Frames(s.drains), s.cut);
    if IsSnapshot(s) && |s.opening| > 1 {
      assert WireSeqno(s.opening[0]) == WireSeqno(s.opening[1]);
    }
  }

  lemma {:induction false} DrainsAscendIff(drains: seq<seq<Processed>>, lo: int, hi: int)
    requires NonEmpty(drains) && 0 <= lo <= hi && Seqnos(Joined(drains)) == Range(lo, hi)
    ensures Ascends(Frames(drains)) <==> forall k :: 0 <= k < |drains| ==> !Mixed(drains[k])
    decreases |drains|
  {
    if drains == [] {
    } else {
      var mid := lo + |drains[0]|;
      SpansSplits(drains, lo, hi);
      DrainAscendsIff(drains[0], lo, mid);
      DrainsAscendIff(drains[1..], mid, hi);
      FramesWithin(drains[0], lo, mid);
      DrainsWithin(drains[1..], mid, hi);
      AscendsJoined(DrainFrames(drains[0]), Frames(drains[1..]), mid);
      MixedSplits(drains);
    }
  }

  lemma {:induction false} DrainsWithin(drains: seq<seq<Processed>>, lo: int, hi: int)
    requires NonEmpty(drains) && 0 <= lo <= hi && Seqnos(Joined(drains)) == Range(lo, hi)
    ensures forall i :: 0 <= i < |Frames(drains)| ==> lo < WireSeqno(Frames(drains)[i]) <= hi
    decreases |drains|
  {
    if drains == [] {
    } else {
      var mid := lo + |drains[0]|;
      SpansSplits(drains, lo, hi);
      FramesWithin(drains[0], lo, mid);
      DrainsWithin(drains[1..], mid, hi);
    }
  }

  /** Every frame of the later drains carries a larger seqno than every frame of the earlier ones. */
  lemma LaterDrainsAreHigher(earlier: seq<seq<Processed>>, later: seq<seq<Processed>>, lo: int, hi: int, i: nat, j: nat)
    requires NonEmpty(earlier) && NonEmpty(later)
    requires 0 <= lo <= hi && Seqnos(Joined(earlier) + Joined(later)) == Range(lo, hi)
    requires i < |Frames(earlier)| && j < |Frames(later)|
    ensures WireSeqno(Frames(earlier)[i]) < WireSeqno(Frames(later)[j])
  {
    var mid := lo + |Joined(earlier)|;
    SeqnosSplit(Joined(earlier), Joined(later), lo, hi);
    DrainsWithin(earlier, lo, mid);
    DrainsWithin(later, mid, hi);
  }

  lemma {:induction false} JoinedConcat(a: seq<seq<Processed>>, b: seq<seq<Processed>>)
    ensures Joined(a + b) == Joined(a) + Joined(b)
  {
    if a == [] {
      assert a + b == b;
    } else {
      assert (a + b)[1..] == a[1..] + b;
      JoinedConcat(a[1..], b);
      assert a[0] + (Joined(a[1..]) + Joined(b)) == a[0] + Joined(a[1..]) + Joined(b);
    }
  }

  lemma FramesWithin(ps: seq<Processed>, lo: int, hi: int)
    requires Spans(ps, lo, hi)
    ensures forall i :: 0 <= i < |DrainFrames(ps)| ==> lo < WireSeqno(DrainFrames(ps)[i]) <= hi
  {
    forall i | 0 <= i < |DrainFrames(ps)| ensures lo < WireSeqno(DrainFrames(ps)[i]) <= hi {
      FrameIsInDrain(ps, lo, hi, i);
    }
  }

  lemma MixedSplits(drains: seq<seq<Processed>>)
    requires drains != []
    ensures (forall k :: 0 <= k < |drains| ==> !Mixed(drains[k])) <==>
            !Mixed(drains[0]) && forall k :: 0 <= k < |drains[1..]| ==> !Mixed(drains[1..][k])
  {
    assert forall k :: 0 <= k < |drains[1..]| ==> drains[1..][k] == drains[k + 1];
    assert forall k :: 0 < k < |drains| ==> drains[k] == drains[1..][k - 1];
  }

  lemma AscendsJoined(a: seq<WireFrame>, b: seq<WireFrame>, mid: int)
    requires forall i :: 0 <= i < |a| ==> WireSeqno(a[i]) <= mid
    requires forall i :: 0 <= i < |b| ==> mid < WireSeqno(b[i])
    ensures Ascends(a + b) <==> Ascends(a) && Ascends(b)
  {
    var c := a + b;
    if Ascends(c) {
      assert forall i :: 0 <= i < |a| ==> c[i] == a[i];
      forall i, j | 0 <= i < j < |b| ensures WireSeqno(b[i]) < WireSeqno(b[j]) {
        assert c[|a| + i] == b[i] && c[|a| + j] == b[j];
      }
    }
  }

  lemma {:induction false} NothingOutside(drains: seq<seq<Processed>>, lo: int, hi: int, n: int)
    requires NonEmpty(drains) && 0 <= lo <= hi && Seqnos(Joined(drains)) == Range(lo, hi) && n <= lo
    ensures !Delivers(Frames(drains), n) && !Met(Joined(drains), n, AsDeclined)
    decreases |drains|
  {
    if drains == [] {
    } else {
      var mid := lo + |drains[0]|;
      SpansSplits(drains, lo, hi);
      NothingOutside(drains[1..], mid, hi, n);
      DeliversSplits(DrainFrames(drains[0]), Frames(drains[1..]), n);
      MetSplits(drains[0], Joined(drains[1..]), n, AsDeclined);
      if Delivers(DrainFrames(drains[0]), n) || Met(drains[0], n, AsDeclined) {
        DrainDeliversWithin(drains[0], lo, mid, n);
      }
    }
  }
}
