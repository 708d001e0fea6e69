/** A client that keeps reconnecting with its cursor (buildWsUrl and handleMessage in sdk/typescript/src/client.ts):
    what reaches it over all of its connections, whether they are answered with a replay or with a snapshot. */
module Reconnection {
  import opened Common
  import opened LiveSession
  import opened Resume

  /** Some of a connection's frames are read before it ends. */
  datatype Visit = Visit(session: Session, read: nat)

  ghost predicate IsVisit(v: Visit) { IsSession(v.session) && v.read <= |SessionFrames(v.session)| }

  ghost function FramesRead(v: Visit): seq<WireFrame>
    requires IsVisit(v)
  {
    SessionFrames(v.session)[..v.read]
  }

  ghost function CursorOut(v: Visit): Option<nat>
    requires IsVisit(v)
  {
    CursorAfter(Some(v.session.start), FramesRead(v))
  }

  /** Each connection starts from the cursor the one before it left. */
  ghost predicate IsJourney(visits: seq<Visit>) {
    && (forall k :: 0 <= k < |visits| ==> IsVisit(visits[k]))
    && (forall k :: 0 < k < |visits| ==> Some(visits[k].session.start) == CursorOut(visits[k - 1]))
  }

  /** The visit accounts for item n: it delivered it, or declined it and moved the cursor to it or past it. */
  ghost predicate Accounts(v: Visit, n: int)
    requires IsVisit(v)
  {
    var c := CursorOut(v);
    Delivers(FramesRead(v), n) || (Met(Joined(v.session.drains), n, AsDeclined) && c.Some? && n <= c.value)
  }

  ghost predicate SomeVisitAccounts(visits: seq<Visit>, n: int)
    requires forall k :: 0 <= k < |visits| ==> IsVisit(visits[k])
  {
    exists k :: 0 <= k < |visits| && Accounts(visits[k], n)
  }

  ghost predicate EndsSafely(v: Visit)
    requires IsVisit(v)
  {
    !StopsUnsafely(v.session, v.read)
  }

  // ---- One visit ----

  lemma FramesFromStart(s: Session)
    requires IsSession(s)
    ensures forall i :: 0 <= i < |SessionFrames(s)| ==> WireSeqno(SessionFrames(s)[i]) >= s.start
  {
    DrainsWithin(s.drains, s.cut, s.cut + |Joined(s.drains)|);
    BothFrom(s.opening, Frames(s.drains), s.start);
  }

  lemma BothFrom(a: seq<WireFrame>, b: seq<WireFrame>, start: nat)
    requires forall i :: 0 <= i < |a| ==> WireSeqno(a[i]) >= start
    requires forall i :: 0 <= i < |b| ==> WireSeqno(b[i]) >= start
    ensures forall i :: 0 <= i < |a + b| ==> WireSeqno((a + b)[i]) >= start
  {
  }

  lemma {:induction false} CursorFromStart(start: nat, frames: seq<WireFrame>)
    requires forall i :: 0 <= i < |frames| ==> WireSeqno(frames[i]) >= start
    ensures CursorAfter(Some(start), frames).Some? && CursorAfter(Some(start), frames).value >= start
  {
    if frames == [] {
    } else {
      CursorFromStart(start, frames[..|frames| - 1]);
    }
  }

  /** A visit never moves the cursor below where it started. */
  lemma CursorOnlyRises(v: Visit)
    requires IsVisit(v)
    ensures CursorOut(v).Some? && CursorOut(v).value >= v.session.start
  {
    FramesFromStart(v.session);
    CursorFromStart(v.session.start, FramesRead(v));
  }

  lemma DeliveredPastStart(v: Visit, n: int)
    requires IsVisit(v) && Delivers(FramesRead(v), n)
    ensures n > v.session.start
  {
    var s := v.session;
    var i :| 0 <= i < |FramesRead(v)| && CarriesOrigin(FramesRead(v)[i], n);
    if i < |s.opening| {
      assert CarriesOrigin(s.opening[i], n);
    } else {
      assert CarriesOrigin(Frames(s.drains)[i - |s.opening|], n);
      if n <= s.cut {
        NothingLiveBelowCut(s, n);
      }
    }
  }

  /** A visit accounts for items past its start only. */
  lemma AccountsPastStart(v: Visit, n: int)
    requires IsVisit(v) && Accounts(v, n)
    ensures n > v.session.start
  {
    if Delivers(FramesRead(v), n) {
      DeliveredPastStart(v, n);
    } else if n <= v.session.cut {
      NothingLiveBelowCut(v.session, n);
    }
  }

  /** A visit accounts for everything from its start to its cursor exactly when it ends safely. */
  lemma VisitIsCompleteIff(v: Visit)
    requires IsVisit(v)
    ensures var c := CursorOut(v);
            c.Some? && ((forall n :: v.session.start < n <= c.value ==> Accounts(v, n)) <==> EndsSafely(v))
  {
    CursorOnlyRises(v);
    CursorIsSafeIff(v.session, v.read);
    var c := CursorOut(v).value;
    assert forall n :: v.session.start < n <= c ==>
             (Accounts(v, n) <==> Delivers(FramesRead(v), n) || Met(Joined(v.session.drains), n, AsDeclined));
  }

  // ---- Whole journeys ----

  /** At least once across reconnections: if every visit of a journey ends safely, each item from the first cursor to
      the last is accounted for in some visit. */
  lemma {:induction false} ReconnectingSkipsNothing(visits: seq<Visit>, n: int)
    requires visits != [] && IsJourney(visits)
    requires forall k :: 0 <= k < |visits| ==> EndsSafely(visits[k])
    ensures var last := CursorOut(visits[|visits| - 1]);
            && last.Some?
            && (visits[0].session.start < n <= last.value ==> SomeVisitAccounts(visits, n))
  {
    var v := visits[|visits| - 1];
    VisitIsCompleteIff(v);
    if v.session.start < n <= CursorOut(v).value {
      assert Accounts(v, n);
    }
    if |visits| == 1 {
    } else {
      var front := visits[..|visits| - 1];
      ReconnectingSkipsNothing(front, n);
      assert Some(v.session.start) == CursorOut(front[|front| - 1]);
      if visits[0].session.start < n <= v.session.start {
        var k :| 0 <= k < |front| && Accounts(front[k], n);
        assert Accounts(visits[k], n);
      }
    }
  }

  lemma {:induction false} StartsRise(visits: seq<Visit>, j: nat, k: nat)
    requires IsJourney(visits) && j <= k < |visits|
    ensures visits[j].session.start <= visits[k].session.start
    decreases k
  {
    if j == k {
    } else {
      StartsRise(visits, j, k - 1);
      CursorOnlyRises(visits[k - 1]);
    }
  }

  /** What an earlier connection delivered had been published before a later one went live. */
  ghost predicate InTime(visits: seq<Visit>)
    requires forall k :: 0 <= k < |visits| ==> IsVisit(visits[k])
  {
    forall j, k, n :: 0 <= j < k < |visits| && Delivers(FramesRead(visits[j]), n) ==> n <= visits[k].session.cut
  }

  /** A visit that skips no items and ends unsafely loses an item for good: no other visit accounts for it. */
  lemma UnsafeEndLosesForGood(visits: seq<Visit>, k: nat) returns (n: int)
    requires IsJourney(visits) && InTime(visits) && k < |visits|
    requires !SkipsItems(visits[k].session) && !EndsSafely(visits[k])
    ensures CursorOut(visits[k]).Some? && visits[k].session.start < n <= CursorOut(visits[k]).value
    ensures !SomeVisitAccounts(visits, n)
  {
    var v := visits[k];
    VisitIsCompleteIff(v);
    n :| v.session.start < n <= CursorOut(v).value && !Accounts(v, n);
    LostPastTheCut(v, n);
    forall j | 0 <= j < |visits| ensures !Accounts(visits[j], n) {
      if j < k {
        EarlierVisitDoesNot(visits, j, k, n);
      } else if j > k {
        LaterVisitDoesNot(visits, k, j, n);
      }
    }
  }

  lemma LostPastTheCut(v: Visit, n: int)
    requires IsVisit(v) && !SkipsItems(v.session) && !EndsSafely(v) && n > v.session.start && !Delivers(FramesRead(v), n)
    ensures n > v.session.cut
  {
    if IsReplay(v.session) && n <= v.session.cut {
      ReplayIsDelivered(v, n);
    }
  }

  lemma ReplayIsDelivered(v: Visit, n: int)
    requires IsVisit(v) && IsReplay(v.session) && v.read > |v.session.opening|
    requires v.session.start < n <= v.session.cut
    ensures Delivers(FramesRead(v), n)
  {
    var s := v.session;
    var i := n - s.start - 1;
    assert FramesRead(v)[i] == s.opening[i];
    assert CarriesOrigin(FramesRead(v)[i], n);
  }

  lemma EarlierVisitDoesNot(visits: seq<Visit>, j: nat, k: nat, n: int)
    requires IsJourney(visits) && InTime(visits) && j < k < |visits| && n > visits[k].session.cut
    ensures !Accounts(visits[j], n)
  {
    StartsRise(visits, j + 1, k);
    assert Some(visits[j + 1].session.start) == CursorOut(visits[j + 1 - 1]);
    assert visits[k].session.start <= visits[k].session.cut;
  }

  lemma LaterVisitDoesNot(visits: seq<Visit>, k: nat, j: nat, n: int)
    requires IsJourney(visits) && k < j < |visits| && CursorOut(visits[k]).Some? && n <= CursorOut(visits[k]).value
    ensures !Accounts(visits[j], n)
  {
    StartsRise(visits, k + 1, j);
    assert Some(visits[k + 1].session.start) == CursorOut(visits[k + 1 - 1]);
    if Accounts(visits[j], n) {
      AccountsPastStart(visits[j], n);
    }
  }

  /** A journey whose snapshots skip nothing is complete, from the first cursor to the last, exactly when every visit
      ends safely. */
  lemma JourneyIsCompleteIff(visits: seq<Visit>)
    requires visits != [] && IsJourney(visits) && InTime(visits)
    requires forall k :: 0 <= k < |visits| ==> !SkipsItems(visits[k].session)
    ensures var last := CursorOut(visits[|visits| - 1]);
            && last.Some?
            && ((forall n :: visits[0].session.start < n <= last.value ==> SomeVisitAccounts(visits, n)) <==>
                forall k :: 0 <= k < |visits| ==> EndsSafely(visits[k]))
  {
    CursorOnlyRises(visits[|visits| - 1]);
    if k :| 0 <= k < |visits| && !EndsSafely(visits[k]) {
      var n := UnsafeEndLosesForGood(visits, k);
      StartsRise(visits, 0, k);
      CursorsRise(visits, k);
    } else {
      forall n | visits[0].session.start < n <= CursorOut(visits[|visits| - 1]).value
        ensures SomeVisitAccounts(visits, n)
      {
        ReconnectingSkipsNothing(visits, n);
      }
    }
  }

  lemma CursorsRise(visits: seq<Visit>, k: nat)
    requires IsJourney(visits) && k < |visits|
    ensures var c, last := CursorOut(visits[k]), CursorOut(visits[|visits| - 1]);
            c.Some? && last.Some? && c.value <= last.value
  {
    CursorOnlyRises(visits[k]);
    CursorOnlyRises(visits[|visits| - 1]);
    if k + 1 < |visits| {
      StartsRise(visits, k + 1, |visits| - 1);
      assert Some(visits[k + 1].session.start) == CursorOut(visits[k + 1 - 1]);
    }
  }
}
