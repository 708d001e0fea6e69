/** Publish, resume and live hand-off (broadcast_item and handle_ws in gateway/src/lib/server.rs), as a step
    system: the three sub-steps of the forwarder interleave in any way with the steps of one client handler.
    The broadcast channel keeps at most cap unread items per receiver; one more overwrites the oldest, and the
    receiver's next read reports the lag. */
module Handoff {
  import opened Common
  import opened Items
  import opened Forwarder

  datatype ForwarderPc =
    | Idle
    | Assigned(item: Item, json: Json)  // seqno taken, not yet in the history
    | Pushed(item: Item)                // in the history, not yet on the channel

  datatype HandlerPc =
    | Connecting
    | Subscribed
    | Replaying(entries: seq<ReplayEntry>, next: nat)
    | Snapshotting                      // about to build the state snapshot
    | SnapshotBuilt(at: nat)            // built when the counter stood at this value
    | SnapshotStamped(at: nat, stamp: nat)  // its frames carry this seqno; the cut is not yet loaded
    | Waiting                           // live, between drains
    | Draining                          // live, inside a drain

  datatype Mode = Undecided | Resume | Snapshot(builtAt: nat, stamp: nat)

  datatype System = System(
    seqno: nat,
    forwarder: ForwarderPc,
    history: seq<ReplayEntry>,
    published: seq<Publication>,        // every item with a seqno, in order
    handler: HandlerPc,
    cursor: Option<nat>,                // resume_from of the connection
    subscribedAt: nat,                  // items already sent when the handler subscribed
    mode: Mode,
    queue: seq<SequencedItem>,          // unread broadcast items
    lagged: bool,                       // a lag report is due on the next read
    lost: set<int>,                     // seqnos overwritten before they were read
    lastSent: nat,
    replayed: seq<ReplayEntry>,
    drains: seq<seq<SequencedItem>>,    // completed live drains, as processed
    batch: seq<SequencedItem>)          // the drain under way

  const START := System(0, Idle, [], [], Connecting, None, 0, Undecided, [], false, {}, 0, [], [], [])

  datatype Action =
    | Assign(item: Item, json: Json)
    | Push
    | SendItem
    | Subscribe(cursor: Option<nat>)
    | Decide
    | ReplayNext
    | BuildSnapshot
    | LoadStamp
    | LoadCut
    | Recv
    | TryRecv

  /** The resume decision: the history entries past the cursor, or none if the cursor is absent or older than
      the oldest entry. No entries means snapshot mode. */
  function Selection(history: seq<ReplayEntry>, cursor: Option<nat>): seq<ReplayEntry> {
    if cursor.None? then []
    else
      var oldest := if history == [] then 0 else history[0].seqno;
      if cursor.value < oldest && oldest > 0 then [] else Past(history, cursor.value)
  }

  function Past(history: seq<ReplayEntry>, cursor: nat): seq<ReplayEntry> {
    if history == [] then []
    else (if history[0].seqno > cursor then [history[0]] else []) + Past(history[1..], cursor)
  }

  /** One step; an action that is not possible in a state leaves it as it is. */
  function Step(s: System, max: nat, cap: nat, a: Action): System {
    match a
    case Assign(item, json) =>
      if s.forwarder != Idle then s
      else s.(seqno := s.seqno + 1, forwarder := Assigned(item, json), published := s.published + [Publication(item, json)])
    case Push =>
      if !s.forwarder.Assigned? then s
      else s.(history := Trimmed(s.history + [ReplayEntry(s.seqno, s.forwarder.json)], max),
              forwarder := Pushed(s.forwarder.item))
    case SendItem =>
      if !s.forwarder.Pushed? then s
      else Broadcast(s.(forwarder := Idle), cap, SequencedItem(s.seqno, s.forwarder.item))
    case Subscribe(cursor) =>
      if s.handler != Connecting then s
      else s.(handler := Subscribed, cursor := cursor,
              subscribedAt := if s.forwarder == Idle || s.seqno == 0 then s.seqno else s.seqno - 1)
    case Decide =>
      if s.handler != Subscribed then s
      else
        var entries := Selection(s.history, s.cursor);
        if entries == [] then s.(handler := Snapshotting) else s.(handler := Replaying(entries, 0), mode := Resume)
    case ReplayNext =>
      if !s.handler.Replaying? then s
      else if s.handler.next < |s.handler.entries| then
        var e := s.handler.entries[s.handler.next];
        s.(replayed := s.replayed + [e], lastSent := e.seqno, handler := s.handler.(next := s.handler.next + 1))
      else s.(handler := Waiting)
    case BuildSnapshot =>
      if s.handler != Snapshotting then s else s.(handler := SnapshotBuilt(s.seqno))
    case LoadStamp =>
      if !s.handler.SnapshotBuilt? then s else s.(handler := SnapshotStamped(s.handler.at, s.seqno))
    case LoadCut =>
      if !s.handler.SnapshotStamped? then s
      else s.(lastSent := s.seqno, mode := Snapshot(s.handler.at, s.handler.stamp), handler := Waiting)
    case Recv =>
      if s.handler != Waiting then s
      else if s.lagged then s.(lagged := false)
      else if s.queue == [] then s
      else if s.queue[0].seqno <= s.lastSent then s.(queue := s.queue[1..])
      else s.(queue := s.queue[1..], batch := [s.queue[0]], handler := Draining)
    case TryRecv =>
      if s.handler != Draining then s
      else if s.lagged || s.queue == [] then
        s.(lagged := false, drains := s.drains + [s.batch], batch := [], handler := Waiting)
      else if s.queue[0].seqno <= s.lastSent then s.(queue := s.queue[1..])
      else s.(queue := s.queue[1..], batch := s.batch + [s.queue[0]])
  }

  /** A send reaches the receiver only after it subscribed. */
  function Broadcast(s: System, cap: nat, si: SequencedItem): System {
    if s.handler == Connecting then s
    else if |s.queue| < cap then s.(queue := s.queue + [si])
    else if s.queue == [] then s.(lagged := true, lost := s.lost + {si.seqno})
    else s.(queue := s.queue[1..] + [si], lagged := true, lost := s.lost + {s.queue[0].seqno})
  }

  ghost function Exec(max: nat, cap: nat, acts: seq<Action>): System {
    if acts == [] then START else Step(Exec(max, cap, acts[..|acts| - 1]), max, cap, acts[|acts| - 1])
  }

  // ---- What the parts of a state stand for ----

  /** How many items have reached the history, and the channel. */
  ghost function PushedCount(s: System): int { if s.forwarder.Assigned? then |s.published| - 1 else |s.published| }

  ghost function SentCount(s: System): int { if s.forwarder == Idle then |s.published| else |s.published| - 1 }

  /** The seqno of the last item that left the queue (read or overwritten). */
  ghost function Taken(s: System): int { SentCount(s) - |s.queue| }

  ghost predicate IsLive(s: System) { s.handler == Waiting || s.handler == Draining }

  ghost function Flatten(drains: seq<seq<SequencedItem>>): seq<SequencedItem> {
    if drains == [] then [] else Flatten(drains[..|drains| - 1]) + drains[|drains| - 1]
  }

  /** Everything processed live so far. */
  ghost function Handled(s: System): seq<SequencedItem> { Flatten(s.drains) + s.batch }

  /** The members of a list outside a set, in order. */
  ghost function Without(s: seq<int>, gone: set<int>): seq<int> {
    if s == [] then []
    else Without(s[..|s| - 1], gone) + (if s[|s| - 1] in gone then [] else [s[|s| - 1]])
  }

  ghost function Max(a: int, b: int): int { if a >= b then a else b }

  // ---- The invariant, in parts ----

  ghost predicate ForwarderInv(s: System, max: nat) {
    && s.seqno == |s.published|
    && (s.forwarder != Idle ==> s.published != [] && s.forwarder.item == s.published[|s.published| - 1].item)
    && (s.forwarder.Assigned? ==> s.forwarder.json == s.published[|s.published| - 1].json)
    && s.history == Window(s.published[..PushedCount(s)], max)
  }

  /** The unread items are the newest ones sent. */
  ghost predicate QueueInv(s: System) {
    && Taken(s) >= 0
    && (forall i :: 0 <= i < |s.queue| ==> s.queue[i].seqno == Taken(s) + 1 + i && IsItemOf(s.queue[i], s.published))
    && (forall n :: n in s.lost ==> n <= Taken(s))
    && (s.handler == Connecting ==> s.queue == [] && s.lost == {})
  }

  /** Between subscribing and going live the handler reads nothing from the channel, so what left the queue
      since then was overwritten. */
  ghost predicate UnreadInv(s: System) {
    s.handler != Connecting && !IsLive(s) ==>
      && s.subscribedAt <= Taken(s)
      && (forall n :: s.subscribedAt < n <= Taken(s) ==> n in s.lost)
  }

  ghost predicate HandlerInv(s: System) {
    match s.handler
    case Replaying(entries, next) =>
      && s.mode == Resume && s.cursor.Some? && next <= |entries| && entries != []
      && s.replayed == entries[..next]
      && s.lastSent == (if next == 0 then 0 else s.cursor.value + next)
      && s.subscribedAt <= s.cursor.value + |entries| <= PushedCount(s)
      && EntrySeqnos(entries) == Range(s.cursor.value, s.cursor.value + |entries|)
      && (forall i :: 0 <= i < |entries| ==> IsEntryOf(entries[i], s.published))
    case Waiting => LiveInv(s)
    case Draining => LiveInv(s)
    case SnapshotBuilt(at) => s.replayed == [] && s.mode == Undecided && at <= s.seqno && s.subscribedAt <= s.seqno
    case SnapshotStamped(at, stamp) =>
      s.replayed == [] && s.mode == Undecided && at <= stamp <= s.seqno && s.subscribedAt <= s.seqno
    case _ => s.lastSent == 0 && s.replayed == [] && s.mode == Undecided && s.subscribedAt <= PushedCount(s)
  }

  ghost predicate LiveInv(s: System) {
    && s.lastSent <= |s.published|
    && (s.mode == Resume ==>
          && s.cursor.Some? && s.cursor.value < s.lastSent
          && EntrySeqnos(s.replayed) == Range(s.cursor.value, s.lastSent)
          && (forall i :: 0 <= i < |s.replayed| ==> IsEntryOf(s.replayed[i], s.published)))
    && (s.mode.Snapshot? ==> s.replayed == [] && s.mode.builtAt <= s.mode.stamp <= s.lastSent)
    && s.mode != Undecided
  }

  /** What was processed live is every taken item past the cut, except the lost ones, in order. */
  ghost predicate HandledInv(s: System) {
    && (s.handler != Draining ==> s.batch == [])
    && (s.handler == Draining ==> s.batch != [])
    && (!IsLive(s) ==> s.drains == [])
    && (forall d :: d in s.drains ==> d != [])
    && (IsLive(s) ==>
          && ItemSeqnos(Handled(s)) == Without(Range(s.lastSent, Max(s.lastSent, Taken(s))), s.lost)
          && (forall si :: si in Handled(s) ==> IsItemOf(si, s.published)))
  }

  ghost predicate Inv(s: System, max: nat) {
    ForwarderInv(s, max) && QueueInv(s) && UnreadInv(s) && HandlerInv(s) && HandledInv(s)
  }

  // ---- Lists of seqnos ----

  lemma {:induction false} WithoutUnaffected(s: seq<int>, gone: set<int>, n: int)
    requires forall i :: 0 <= i < |s| ==> s[i] < n
    ensures Without(s, gone + {n}) == Without(s, gone)
  {
    if s == [] {
    } else {
      WithoutUnaffected(s[..|s| - 1], gone, n);
    }
  }

  lemma WithoutGrows(lo: int, hi: int, gone: set<int>)
    requires lo <= hi
    ensures Without(Range(lo, hi + 1), gone) == Without(Range(lo, hi), gone) + (if hi + 1 in gone then [] else [hi + 1])
  {
    assert Range(lo, hi + 1)[..|Range(lo, hi + 1)| - 1] == Range(lo, hi);
  }

  lemma {:induction false} WithoutNothing(s: seq<int>)
    ensures Without(s, {}) == s
  {
    if s == [] {
    } else {
      WithoutNothing(s[..|s| - 1]);
    }
  }

  lemma {:induction false} WithoutAll(s: seq<int>, gone: set<int>)
    requires forall i :: 0 <= i < |s| ==> s[i] in gone
    ensures Without(s, gone) == []
  {
    if s == [] {
    } else {
      WithoutAll(s[..|s| - 1], gone);
    }
  }

  // ---- The resume decision ----

  /** A history as the forwarder keeps it: consecutive seqnos. */
  ghost predicate Consecutive(history: seq<ReplayEntry>) {
    forall i :: 0 <= i < |history| ==> history[i].seqno == history[0].seqno + i
  }

  lemma {:induction false} PastIsSuffix(history: seq<ReplayEntry>, cursor: nat)
    requires Consecutive(history)
    ensures Past(history, cursor) ==
            if history == [] || cursor >= history[0].seqno + |history| then []
            else history[Max(0, cursor + 1 - history[0].seqno)..]
  {
    if history == [] {
    } else {
      var rest := history[1..];
      assert forall i :: 0 <= i < |rest| ==> rest[i] == history[i + 1];
      PastIsSuffix(rest, cursor);
      if history[0].seqno > cursor && rest != [] {
        assert rest[0..] == rest;
        assert [history[0]] + rest == history;
      }
    }
  }

  /** Replay is chosen exactly when the cursor lies in the history and is not its newest entry: a client that
      has seen everything is answered with a snapshot, and so is one whose cursor is just before the oldest
      entry, although nothing it needs is missing. When chosen, replay is everything after the cursor. */
  lemma ResumeIff(history: seq<ReplayEntry>, cursor: Option<nat>)
    requires Consecutive(history) && (history != [] ==> history[0].seqno > 0)
    ensures Selection(history, cursor) != [] <==>
            history != [] && cursor.Some? && history[0].seqno <= cursor.value < history[|history| - 1].seqno
    ensures Selection(history, cursor) != [] ==>
              Selection(history, cursor) == history[cursor.value + 1 - history[0].seqno..]
  {
    if cursor.Some? {
      PastIsSuffix(history, cursor.value);
    }
  }

  // ---- Every step keeps the invariant ----

  lemma AssignKeepsInv(s: System, max: nat, cap: nat, a: Action)
    requires Inv(s, max) && a.Assign?
    ensures Inv(Step(s, max, cap, a), max)
  {
    var s' := Step(s, max, cap, a);
    if s.forwarder == Idle {
      assert s'.published[..PushedCount(s')] == s.published[..PushedCount(s)];
    }
  }

  lemma PushKeepsInv(s: System, max: nat, cap: nat)
    requires Inv(s, max)
    ensures Inv(Step(s, max, cap, Push), max)
  {
    if s.forwarder.Assigned? {
      var s' := Step(s, max, cap, Push);
      PushKeepsForwarder(s, s', max);
      assert Taken(s') == Taken(s) && PushedCount(s') == PushedCount(s) + 1;
      assert Handled(s') == Handled(s);
    }
  }

  lemma PushKeepsForwarder(s: System, s': System, max: nat)
    requires ForwarderInv(s, max) && s.forwarder.Assigned?
    requires s'.history == Trimmed(s.history + [ReplayEntry(s.seqno, s.forwarder.json)], max)
    requires s'.forwarder == Pushed(s.forwarder.item) && s'.published == s.published && s'.seqno == s.seqno
    ensures ForwarderInv(s', max)
  {
    var n := |s.published| - 1;
    assert s.published[..n] + [s.published[n]] == s.published[..n + 1] == s.published;
    WindowGrows(s.published[..n], s.published[n], max);
  }

  lemma SendKeepsInv(s: System, max: nat, cap: nat)
    requires Inv(s, max)
    ensures Inv(Step(s, max, cap, SendItem), max)
  {
    if s.forwarder.Pushed? {
      var si := SequencedItem(s.seqno, s.forwarder.item);
      if s.handler == Connecting {
        UnseenSendKeepsInv(s, max, cap);
      } else if |s.queue| < cap {
        RoomySendKeepsInv(s, max, cap);
      } else {
        OverflowKeepsInv(s, max, cap);
      }
    }
  }

  lemma UnseenSendKeepsInv(s: System, max: nat, cap: nat)
    requires Inv(s, max) && s.forwarder.Pushed? && s.handler == Connecting
    ensures Inv(Step(s, max, cap, SendItem), max)
  {
    assert Step(s, max, cap, SendItem) == s.(forwarder := Idle);
  }

  lemma RoomySendKeepsInv(s: System, max: nat, cap: nat)
    requires Inv(s, max) && s.forwarder.Pushed? && s.handler != Connecting && |s.queue| < cap
    ensures Inv(Step(s, max, cap, SendItem), max)
  {
    var si := SequencedItem(s.seqno, s.forwarder.item);
    var s' := s.(forwarder := Idle, queue := s.queue + [si]);
    assert Step(s, max, cap, SendItem) == s';
    assert Taken(s') == Taken(s) && Handled(s') == Handled(s);
    SendingKeepsRest(s, s', max);
    RoomyKeepsQueue(s, s', si);
  }

  lemma RoomyKeepsQueue(s: System, s': System, si: SequencedItem)
    requires QueueInv(s) && UnreadInv(s) && s.forwarder.Pushed? && s.handler != Connecting && s.published != []
    requires si.seqno == |s.published| && IsItemOf(si, s.published)
    requires s' == s.(forwarder := Idle, queue := s.queue + [si])
    ensures QueueInv(s') && UnreadInv(s')
  {
  }

  lemma OverflowKeepsInv(s: System, max: nat, cap: nat)
    requires Inv(s, max) && s.forwarder.Pushed? && s.handler != Connecting && |s.queue| >= cap
    ensures Inv(Step(s, max, cap, SendItem), max)
  {
    var s' := Step(s, max, cap, SendItem);
    var n := Taken(s) + 1;
    var si := SequencedItem(s.seqno, s.forwarder.item);
    OverflowState(s, cap, si);
    OverflowKeepsQueue(s, s', si);
    SendingKeepsRest(s, s', max);
    if IsLive(s) {
      OverwriteKeepsHandled(s, s', n);
    }
  }

  /** A send touches nothing but the channel. */
  lemma SendingKeepsRest(s: System, s': System, max: nat)
    requires Inv(s, max) && s.forwarder.Pushed?
    requires s' == s.(forwarder := Idle, lagged := s'.lagged, lost := s'.lost, queue := s'.queue)
    ensures ForwarderInv(s', max) && HandlerInv(s')
    ensures !IsLive(s) ==> HandledInv(s')
  {
    assert IsLive(s) ==> LiveInv(s') == LiveInv(s);
  }

  /** The oldest unread item, or else the one being sent, is overwritten. */
  lemma OverflowState(s: System, cap: nat, si: SequencedItem)
    requires QueueInv(s) && s.forwarder.Pushed? && s.handler != Connecting && |s.queue| >= cap && si.seqno == |s.published|
    ensures Broadcast(s.(forwarder := Idle), cap, si) ==
            s.(forwarder := Idle, lagged := true, lost := s.lost + {Taken(s) + 1}, queue := (s.queue + [si])[1..])
  {
    if s.queue != [] {
      assert (s.queue + [si])[1..] == s.queue[1..] + [si];
    } else {
      assert (s.queue + [si])[1..] == [];
    }
  }

  lemma OverflowKeepsQueue(s: System, s': System, si: SequencedItem)
    requires QueueInv(s) && UnreadInv(s) && s.forwarder.Pushed? && s.handler != Connecting && s.published != []
    requires si.seqno == |s.published| && IsItemOf(si, s.published)
    requires s' == s.(forwarder := Idle, lagged := true, lost := s.lost + {Taken(s) + 1}, queue := (s.queue + [si])[1..])
    ensures Taken(s') == Taken(s) + 1 && QueueInv(s') && UnreadInv(s')
  {
    var q := s.queue + [si];
    assert forall i :: 0 <= i < |s'.queue| ==> s'.queue[i] == q[i + 1];
  }

  lemma OverwriteKeepsHandled(s: System, s': System, n: int)
    requires IsLive(s) && HandledInv(s) && n == Taken(s) + 1 == Taken(s') && s'.lost == s.lost + {n}
    requires s'.published == s.published && s'.handler == s.handler && s'.lastSent == s.lastSent
    requires s'.drains == s.drains && s'.batch == s.batch
    ensures HandledInv(s')
  {
    var lo, hi := s.lastSent, Max(s.lastSent, Taken(s));
    if n > lo {
      WithoutUnaffected(Range(lo, hi), s.lost, n);
      WithoutGrows(lo, hi, s'.lost);
    } else {
      WithoutUnaffected(Range(lo, hi), s.lost, n);
    }
  }

  lemma SubscribeKeepsInv(s: System, max: nat, cap: nat, a: Action)
    requires Inv(s, max) && a.Subscribe?
    ensures Inv(Step(s, max, cap, a), max)
  {
  }

  lemma DecideKeepsInv(s: System, max: nat, cap: nat)
    requires Inv(s, max)
    ensures Inv(Step(s, max, cap, Decide), max)
  {
    if s.handler == Subscribed && Selection(s.history, s.cursor) != [] {
      SelectionReachesNewest(s, max);
      DecideReplayKeepsInv(s, max, Selection(s.history, s.cursor));
    }
  }

  lemma DecideReplayKeepsInv(s: System, max: nat, entries: seq<ReplayEntry>)
    requires Inv(s, max) && s.handler == Subscribed && entries != []
    requires s.cursor.Some? && IsRest(entries, s.published, s.cursor.value, PushedCount(s))
    ensures Inv(s.(handler := Replaying(entries, 0), mode := Resume), max)
  {
    assert entries[..0] == [];
  }

  lemma EntryIsOfPrefix(e: ReplayEntry, published: seq<Publication>, n: nat)
    requires n <= |published| && IsEntryOf(e, published[..n])
    ensures IsEntryOf(e, published)
  {
  }

  /** The entries are the publications after c, up to the n-th. */
  ghost predicate IsRest(entries: seq<ReplayEntry>, published: seq<Publication>, c: nat, n: int) {
    && c + |entries| == n && EntrySeqnos(entries) == Range(c, n)
    && (forall i :: 0 <= i < |entries| ==> IsEntryOf(entries[i], published))
  }

  lemma SelectionReachesNewest(s: System, max: nat)
    requires ForwarderInv(s, max) && Selection(s.history, s.cursor) != []
    ensures s.cursor.Some? && IsRest(Selection(s.history, s.cursor), s.published, s.cursor.value, PushedCount(s))
  {
    WindowEnds(s.history, s.published, PushedCount(s), max);
    SelectionIsTail(s.history, s.cursor);
    TailIsRest(s.history, s.published, PushedCount(s), s.cursor, Selection(s.history, s.cursor));
  }

  /** A history of consecutive seqnos that ends with the n-th publication. */
  ghost predicate EndsAt(history: seq<ReplayEntry>, published: seq<Publication>, n: nat)
    requires n <= |published|
  {
    && |history| <= n
    && (forall i :: 0 <= i < |history| ==>
          history[i].seqno == n - |history| + 1 + i && IsEntryOf(history[i], published[..n]))
  }

  lemma WindowEnds(history: seq<ReplayEntry>, published: seq<Publication>, n: nat, max: nat)
    requires n <= |published| && history == Window(published[..n], max)
    ensures EndsAt(history, published, n) && Consecutive(history) && (history != [] ==> history[0].seqno > 0)
  {
  }

  /** The entries past the cursor of a history the cursor lies in. */
  ghost predicate IsTail(entries: seq<ReplayEntry>, history: seq<ReplayEntry>, cursor: Option<nat>) {
    && history != [] && cursor.Some? && history[0].seqno <= cursor.value < history[|history| - 1].seqno
    && cursor.value + 1 - history[0].seqno <= |history| && entries == history[cursor.value + 1 - history[0].seqno..]
  }

  lemma SelectionIsTail(history: seq<ReplayEntry>, cursor: Option<nat>)
    requires Consecutive(history) && (history != [] ==> history[0].seqno > 0) && Selection(history, cursor) != []
    ensures IsTail(Selection(history, cursor), history, cursor)
  {
    ResumeIff(history, cursor);
  }

  lemma TailIsRest(history: seq<ReplayEntry>, published: seq<Publication>, n: nat, cursor: Option<nat>, entries: seq<ReplayEntry>)
    requires n <= |published| && EndsAt(history, published, n) && IsTail(entries, history, cursor)
    ensures IsRest(entries, published, cursor.value, n)
  {
    WindowFromCursor(history, published, n, cursor.value);
  }

  lemma WindowFromCursor(history: seq<ReplayEntry>, published: seq<Publication>, n: nat, cursor: nat)
    requires n <= |published| && history != [] && EndsAt(history, published, n) && history[0].seqno <= cursor < n
    ensures IsRest(history[cursor + 1 - history[0].seqno..], published, cursor, n)
  {
    var skip := cursor + 1 - history[0].seqno;
    var entries := history[skip..];
    forall i | 0 <= i < |entries|
      ensures entries[i].seqno == cursor + 1 + i && IsEntryOf(entries[i], published)
    {
      assert entries[i] == history[skip + i];
      EntryIsOfPrefix(history[skip + i], published, n);
    }
  }

  lemma ReplayKeepsInv(s: System, max: nat, cap: nat)
    requires Inv(s, max)
    ensures Inv(Step(s, max, cap, ReplayNext), max)
  {
    if s.handler.Replaying? {
      if s.handler.next < |s.handler.entries| {
        ReplayOneKeepsInv(s, max, cap);
      } else {
        ReplayDoneKeepsInv(s, max, cap);
      }
    }
  }

  lemma ReplayOneKeepsInv(s: System, max: nat, cap: nat)
    requires Inv(s, max) && s.handler.Replaying? && s.handler.next < |s.handler.entries|
    ensures Inv(Step(s, max, cap, ReplayNext), max)
  {
    var entries, next := s.handler.entries, s.handler.next;
    assert entries[..next + 1] == entries[..next] + [entries[next]];
    assert EntrySeqnos(entries)[next] == s.cursor.value + 1 + next;
  }

  lemma ReplayDoneKeepsInv(s: System, max: nat, cap: nat)
    requires Inv(s, max) && s.handler.Replaying? && s.handler.next == |s.handler.entries|
    ensures Inv(Step(s, max, cap, ReplayNext), max)
  {
    assert s.handler.entries[..s.handler.next] == s.handler.entries;
    GoLive(s, Step(s, max, cap, ReplayNext));
  }

  /** Going live, everything past the cut that already left the queue is lost. */
  lemma GoLive(s: System, s': System)
    requires s.handler != Connecting && !IsLive(s) && UnreadInv(s) && QueueInv(s) && HandledInv(s)
    requires s'.handler == Waiting && s'.drains == s.drains && s'.batch == s.batch && s'.queue == s.queue
    requires s'.published == s.published && s'.lost == s.lost && s'.forwarder == s.forwarder
    requires s.subscribedAt <= s'.lastSent
    ensures HandledInv(s')
  {
    WithoutAll(Range(s'.lastSent, Max(s'.lastSent, Taken(s'))), s'.lost);
    assert Handled(s') == [];
  }

  lemma BuildKeepsInv(s: System, max: nat, cap: nat)
    requires Inv(s, max)
    ensures Inv(Step(s, max, cap, BuildSnapshot), max)
  {
  }

  lemma LoadStampKeepsInv(s: System, max: nat, cap: nat)
    requires Inv(s, max)
    ensures Inv(Step(s, max, cap, LoadStamp), max)
  {
  }

  lemma LoadCutKeepsInv(s: System, max: nat, cap: nat)
    requires Inv(s, max)
    ensures Inv(Step(s, max, cap, LoadCut), max)
  {
    if s.handler.SnapshotStamped? {
      var s' := Step(s, max, cap, LoadCut);
      GoLive(s, s');
      assert LiveInv(s');
    }
  }

  lemma {:induction false} FlattenAppend(drains: seq<seq<SequencedItem>>, d: seq<SequencedItem>)
    ensures Flatten(drains + [d]) == Flatten(drains) + d
  {
    assert (drains + [d])[..|drains|] == drains;
  }

  /** Taking the head of the queue: skipped at or below the cut, processed above it. */
  lemma TakeKeepsHandled(s: System, s': System)
    requires IsLive(s) && IsLive(s') && QueueInv(s) && HandledInv(s) && s.queue != []
    requires s'.queue == s.queue[1..] && s'.forwarder == s.forwarder && s'.published == s.published
    requires s'.lost == s.lost && s'.lastSent == s.lastSent && s'.drains == s.drains
    requires s'.handler == Draining <==> s'.batch != []
    requires s'.batch == s.batch + (if s.queue[0].seqno <= s.lastSent then [] else [s.queue[0]])
    ensures HandledInv(s')
  {
    var n := s.queue[0].seqno;
    assert Taken(s') == n == Taken(s) + 1;
    if n > s.lastSent {
      HandleOneMore(Handled(s), s.queue[0], s.lastSent, s.lost);
      assert Handled(s') == Handled(s) + [s.queue[0]];
    } else {
      assert Handled(s') == Handled(s);
    }
  }

  lemma HandleOneMore(items: seq<SequencedItem>, si: SequencedItem, lo: nat, lost: set<int>)
    requires lo < si.seqno && si.seqno !in lost && ItemSeqnos(items) == Without(Range(lo, si.seqno - 1), lost)
    ensures ItemSeqnos(items + [si]) == Without(Range(lo, si.seqno), lost)
  {
    WithoutGrows(lo, si.seqno - 1, lost);
    assert ItemSeqnos(items + [si]) == ItemSeqnos(items) + [si.seqno];
  }

  lemma TakeKeepsQueue(s: System, s': System)
    requires QueueInv(s) && s.queue != [] && s.handler != Connecting
    requires s'.queue == s.queue[1..] && s'.forwarder == s.forwarder && s'.published == s.published
    requires s'.lost == s.lost && s'.handler != Connecting
    ensures QueueInv(s') && Taken(s') == Taken(s) + 1
  {
  }

  /** Reading the channel touches nothing but the queue, the lag report and the drains. */
  lemma ReadingKeepsRest(s: System, s': System, max: nat)
    requires Inv(s, max) && IsLive(s) && IsLive(s')
    requires s' == s.(handler := s'.handler, queue := s'.queue, lagged := s'.lagged, drains := s'.drains, batch := s'.batch)
    ensures ForwarderInv(s', max) && UnreadInv(s') && HandlerInv(s')
  {
    assert LiveInv(s);
  }

  lemma TakeKeepsInv(s: System, s': System, max: nat)
    requires Inv(s, max) && IsLive(s) && IsLive(s') && s.queue != []
    requires s' == s.(handler := s'.handler, queue := s.queue[1..], batch := s'.batch)
    requires s'.handler == Draining <==> s'.batch != []
    requires s'.batch == s.batch + (if s.queue[0].seqno <= s.lastSent then [] else [s.queue[0]])
    ensures Inv(s', max)
  {
    ReadingKeepsRest(s, s', max);
    TakeKeepsQueue(s, s');
    TakeKeepsHandled(s, s');
  }

  lemma RecvKeepsInv(s: System, max: nat, cap: nat)
    requires Inv(s, max)
    ensures Inv(Step(s, max, cap, Recv), max)
  {
    if s.handler == Waiting {
      if s.lagged {
        LagReportKeepsInv(s, max);
      } else if s.queue != [] {
        assert s.batch == [];
        TakeKeepsInv(s, Step(s, max, cap, Recv), max);
      }
    }
  }

  lemma LagReportKeepsInv(s: System, max: nat)
    requires Inv(s, max) && IsLive(s)
    ensures Inv(s.(lagged := false), max)
  {
    ReadingKeepsRest(s, s.(lagged := false), max);
  }

  lemma DrainEndKeepsInv(s: System, max: nat)
    requires Inv(s, max) && s.handler == Draining
    ensures Inv(s.(lagged := false, drains := s.drains + [s.batch], batch := [], handler := Waiting), max)
  {
    var s' := s.(lagged := false, drains := s.drains + [s.batch], batch := [], handler := Waiting);
    ReadingKeepsRest(s, s', max);
    FlattenAppend(s.drains, s.batch);
    assert Handled(s') == Handled(s);
  }

  lemma TryRecvKeepsInv(s: System, max: nat, cap: nat)
    requires Inv(s, max)
    ensures Inv(Step(s, max, cap, TryRecv), max)
  {
    if s.handler == Draining {
      if s.lagged || s.queue == [] {
        DrainEndKeepsInv(s, max);
      } else {
        TakeKeepsInv(s, Step(s, max, cap, TryRecv), max);
      }
    }
  }

  lemma StepKeepsInv(s: System, max: nat, cap: nat, a: Action)
    requires Inv(s, max)
    ensures Inv(Step(s, max, cap, a), max)
  {
    match a {
      case Assign(_, _) => AssignKeepsInv(s, max, cap, a);
      case Push => PushKeepsInv(s, max, cap);
      case SendItem => SendKeepsInv(s, max, cap);
      case Subscribe(_) => SubscribeKeepsInv(s, max, cap, a);
      case Decide => DecideKeepsInv(s, max, cap);
      case ReplayNext => ReplayKeepsInv(s, max, cap);
      case BuildSnapshot => BuildKeepsInv(s, max, cap);
      case LoadStamp => LoadStampKeepsInv(s, max, cap);
      case LoadCut => LoadCutKeepsInv(s, max, cap);
      case Recv => RecvKeepsInv(s, max, cap);
      case TryRecv => TryRecvKeepsInv(s, max, cap);
    }
  }

  lemma {:induction false} ExecKeepsInv(max: nat, cap: nat, acts: seq<Action>)
    ensures Inv(Exec(max, cap, acts), max)
  {
    if acts == [] {
    } else {
      ExecKeepsInv(max, cap, acts[..|acts| - 1]);
      StepKeepsInv(Exec(max, cap, acts[..|acts| - 1]), max, cap, acts[|acts| - 1]);
    }
  }

  // ---- The theorems, over every interleaving ----

  /** The history ring: always the newest pushed items, at most max, under consecutive seqnos that end with the
      newest, each with the serialization made when it was published. */
  lemma HistoryIsNewestSuffix(max: nat, cap: nat, acts: seq<Action>)
    ensures var s := Exec(max, cap, acts);
            && |s.history| == Min(PushedCount(s), max)
            && forall i :: 0 <= i < |s.history| ==>
                 && s.history[i].seqno == PushedCount(s) - |s.history| + 1 + i
                 && s.history[i].json == s.published[s.history[i].seqno - 1].json
  {
    ExecKeepsInv(max, cap, acts);
    var s := Exec(max, cap, acts);
    forall i | 0 <= i < |s.history|
      ensures s.history[i].json == s.published[s.history[i].seqno - 1].json
    {
      assert IsEntryOf(s.history[i], s.published[..PushedCount(s)]);
    }
  }

  /** What a live connection that was answered with a replay has seen, in order. */
  ghost function Seen(s: System): seq<int> { EntrySeqnos(s.replayed) + ItemSeqnos(Handled(s)) }

  /** Lossless hand-off. In any interleaving, once a connection that was answered with a replay is live: what it
      replayed and then processed are the published seqnos cursor + 1, cursor + 2, ..., in order, each once,
      except those the channel overwrote; and the items sent but not yet processed are all waiting in the
      channel. Without lag nothing is missing. */
  lemma LosslessHandoff(max: nat, cap: nat, acts: seq<Action>)
    requires var s := Exec(max, cap, acts); IsLive(s) && s.mode == Resume
    ensures var s := Exec(max, cap, acts);
            var upTo := Max(s.lastSent, Taken(s));
            && s.cursor.Some? && s.cursor.value < s.lastSent
            && Seen(s) == Range(s.cursor.value, s.lastSent) + Without(Range(s.lastSent, upTo), s.lost)
            && (s.lost == {} ==> Seen(s) == Range(s.cursor.value, upTo))
            && ItemSeqnos(s.queue) == Range(Taken(s), SentCount(s))
  {
    ExecKeepsInv(max, cap, acts);
    LiveResume(Exec(max, cap, acts), max);
  }

  lemma LiveResume(s: System, max: nat)
    requires Inv(s, max) && IsLive(s) && s.mode == Resume
    ensures var upTo := Max(s.lastSent, Taken(s));
            && s.cursor.Some? && s.cursor.value < s.lastSent
            && Seen(s) == Range(s.cursor.value, s.lastSent) + Without(Range(s.lastSent, upTo), s.lost)
            && (s.lost == {} ==> Seen(s) == Range(s.cursor.value, upTo))
            && ItemSeqnos(s.queue) == Range(Taken(s), SentCount(s))
  {
    assert LiveInv(s);
    var upTo := Max(s.lastSent, Taken(s));
    RangeSplit(s.cursor.value, s.lastSent, upTo);
    WithoutNothing(Range(s.lastSent, upTo));
  }

  /** And under each seqno the handler sees what was published under it: the stored serialization when it
      replays, the item itself when it processes or has it waiting. */
  lemma SeenIsPublished(max: nat, cap: nat, acts: seq<Action>)
    ensures var s := Exec(max, cap, acts);
            && (forall e :: e in s.replayed ==> IsEntryOf(e, s.published))
            && (forall si :: si in Handled(s) + s.queue ==> IsItemOf(si, s.published))
  {
    ExecKeepsInv(max, cap, acts);
    InvSeenIsPublished(Exec(max, cap, acts), max);
  }

  lemma InvSeenIsPublished(s: System, max: nat)
    requires Inv(s, max)
    ensures forall e :: e in s.replayed ==> IsEntryOf(e, s.published)
    ensures forall si :: si in Handled(s) + s.queue ==> IsItemOf(si, s.published)
  {
    if IsLive(s) {
      assert LiveInv(s);
    } else {
      assert Handled(s) == [];
    }
  }

  // ---- How a drain ends ----

  /** A drain is over exactly when the handler, reading on, finds the channel empty or a lag due. It then holds what
      was taken since it began. */
  lemma DrainEndsIff(s: System, max: nat, cap: nat, a: Action)
    ensures var s' := Step(s, max, cap, a);
            && (s'.drains != s.drains <==> a == TryRecv && s.handler == Draining && (s.queue == [] || s.lagged))
            && (s'.drains != s.drains ==> s'.drains == s.drains + [s.batch] && s'.handler == Waiting)
            && (s.handler == Draining && s'.handler != Draining ==> s'.drains != s.drains)
  {
    assert |s.drains + [s.batch]| == |s.drains| + 1;
  }

  /** The same, of every run. */
  lemma DrainsEndOnEmptyChannel(max: nat, cap: nat, acts: seq<Action>, a: Action)
    ensures var s, s' := Exec(max, cap, acts), Exec(max, cap, acts + [a]);
            && (s'.drains != s.drains <==> a == TryRecv && s.handler == Draining && (s.queue == [] || s.lagged))
            && (s'.drains != s.drains ==> s'.drains == s.drains + [s.batch] && s'.handler == Waiting)
            && (s.handler == Draining && s'.handler != Draining ==> s'.drains != s.drains)
  {
    ExecStep(max, cap, acts, a);
    DrainEndsIff(Exec(max, cap, acts), max, cap, a);
  }

  function TryRecvs(n: nat): seq<Action> { if n == 0 then [] else TryRecvs(n - 1) + [TryRecv] }

  ghost predicate AllPastCut(s: System) { forall i :: 0 <= i < |s.queue| ==> s.queue[i].seqno > s.lastSent }

  /** The state after reading n of the waiting items. */
  ghost function ReadOn(s: System, n: nat): System
    requires n <= |s.queue|
  {
    s.(queue := s.queue[n..], batch := s.batch + s.queue[..n])
  }

  /** Reading n more times. */
  ghost function Reading(s: System, max: nat, cap: nat, n: nat): System {
    if n == 0 then s else Step(Reading(s, max, cap, n - 1), max, cap, TryRecv)
  }

  /** It takes the waiting items one by one, in order. */
  lemma {:induction false} ReadingTakes(s: System, max: nat, cap: nat, n: nat)
    requires s.handler == Draining && !s.lagged && AllPastCut(s) && n <= |s.queue|
    ensures Reading(s, max, cap, n) == ReadOn(s, n)
  {
    if n == 0 {
      ReadNone(s);
    } else {
      ReadingTakes(s, max, cap, n - 1);
      ReadOne(s, max, cap, n);
    }
  }

  lemma {:induction false} ExecReading(max: nat, cap: nat, acts: seq<Action>, s: System, n: nat)
    requires Exec(max, cap, acts) == s
    ensures Exec(max, cap, acts + TryRecvs(n)) == Reading(s, max, cap, n)
  {
    if n == 0 {
      MoreTryRecvs(acts, 0);
    } else {
      ExecReading(max, cap, acts, s, n - 1);
      ExecReadsOne(max, cap, acts, s, n);
    }
  }

  lemma ExecReadsOne(max: nat, cap: nat, acts: seq<Action>, s: System, n: nat)
    requires n > 0 && Exec(max, cap, acts + TryRecvs(n - 1)) == Reading(s, max, cap, n - 1)
    ensures Exec(max, cap, acts + TryRecvs(n)) == Reading(s, max, cap, n)
  {
    MoreTryRecvs(acts, n);
    ExecStep(max, cap, acts + TryRecvs(n - 1), TryRecv);
  }

  lemma MoreTryRecvs(acts: seq<Action>, n: nat)
    ensures acts + TryRecvs(n) == if n == 0 then acts else acts + TryRecvs(n - 1) + [TryRecv]
  {
    if n > 0 {
      assert TryRecvs(n) == TryRecvs(n - 1) + [TryRecv];
    }
  }

  lemma ReadNone(s: System)
    ensures ReadOn(s, 0) == s
  {
    assert s.queue[0..] == s.queue && s.batch + s.queue[..0] == s.batch;
  }

  lemma ReadOne(s: System, max: nat, cap: nat, n: nat)
    requires s.handler == Draining && !s.lagged && AllPastCut(s) && 0 < n <= |s.queue|
    ensures Step(ReadOn(s, n - 1), max, cap, TryRecv) == ReadOn(s, n)
  {
    TakenOne(s.batch, s.queue, n);
  }

  lemma TakenOne(batch: seq<SequencedItem>, queue: seq<SequencedItem>, n: nat)
    requires 0 < n <= |queue|
    ensures queue[n - 1..] != [] && queue[n - 1..][0] == queue[n - 1] && queue[n - 1..][1..] == queue[n..]
    ensures batch + queue[..n - 1] + [queue[n - 1]] == batch + queue[..n]
  {
  }

  /** With nothing published meanwhile, a drain takes everything that is waiting, in order, and nothing less. */
  lemma DrainTakesAll(max: nat, cap: nat, acts: seq<Action>)
    requires var s := Exec(max, cap, acts); s.handler == Waiting && !s.lagged && s.queue != [] && AllPastCut(s)
    ensures var s := Exec(max, cap, acts);
            Exec(max, cap, acts + [Recv] + TryRecvs(|s.queue|)) == s.(queue := [], drains := s.drains + [s.queue])
  {
    var s := Exec(max, cap, acts);
    WaitingHoldsNothing(max, cap, acts);
    ExecStep(max, cap, acts, Recv);
    ExecReading(max, cap, acts + [Recv], Step(s, max, cap, Recv), |s.queue|);
    DrainReads(s, max, cap);
  }

  lemma WaitingHoldsNothing(max: nat, cap: nat, acts: seq<Action>)
    requires Exec(max, cap, acts).handler == Waiting
    ensures Exec(max, cap, acts).batch == []
  {
    ExecKeepsInv(max, cap, acts);
  }

  lemma DrainReads(s: System, max: nat, cap: nat)
    requires s.handler == Waiting && s.batch == [] && !s.lagged && s.queue != [] && AllPastCut(s)
    ensures Reading(Step(s, max, cap, Recv), max, cap, |s.queue|) == s.(queue := [], drains := s.drains + [s.queue])
  {
    RecvBegins(s, max, cap);
    ReadingTakes(Begun(s), max, cap, |s.queue| - 1);
    EmptyEnds(s, max, cap);
  }

  /** The state after the first item of a drain. */
  ghost function Begun(s: System): System
    requires s.queue != []
  {
    s.(queue := s.queue[1..], batch := [s.queue[0]], handler := Draining)
  }

  lemma RecvBegins(s: System, max: nat, cap: nat)
    requires s.handler == Waiting && !s.lagged && s.queue != [] && AllPastCut(s)
    ensures Step(s, max, cap, Recv) == Begun(s) && AllPastCut(Begun(s))
  {
  }

  /** Once the channel is empty, the drain ends with all that waited. */
  lemma EmptyEnds(s: System, max: nat, cap: nat)
    requires s.handler == Waiting && s.batch == [] && !s.lagged && s.queue != []
    ensures Step(ReadOn(Begun(s), |s.queue| - 1), max, cap, TryRecv) == s.(queue := [], drains := s.drains + [s.queue])
  {
    AllTaken(s.queue);
  }

  lemma AllTaken(queue: seq<SequencedItem>)
    requires queue != []
    ensures queue[1..][|queue| - 1..] == [] && [queue[0]] + queue[1..][..|queue| - 1] == queue
  {
  }

  // ---- What the channel loses ----

  /** In every run the channel holds at most cap unread items, and a step loses one exactly when it sends into a
      full channel that has a receiver. */
  lemma {:induction false} QueueIsBounded(max: nat, cap: nat, acts: seq<Action>)
    ensures |Exec(max, cap, acts).queue| <= cap
  {
    if acts == [] {
    } else {
      QueueIsBounded(max, cap, acts[..|acts| - 1]);
      StepKeepsBound(Exec(max, cap, acts[..|acts| - 1]), max, cap, acts[|acts| - 1]);
    }
  }

  lemma StepKeepsBound(s: System, max: nat, cap: nat, a: Action)
    requires |s.queue| <= cap
    ensures |Step(s, max, cap, a).queue| <= cap
  {
  }

  lemma LosesIff(max: nat, cap: nat, acts: seq<Action>, a: Action)
    ensures var s, s' := Exec(max, cap, acts), Exec(max, cap, acts + [a]);
            && (s'.lost != s.lost <==>
                  a == SendItem && s.forwarder.Pushed? && s.handler != Connecting && |s.queue| == cap)
            && (s'.lost != s.lost ==>
                  s'.lagged && s'.lost == s.lost + {if s.queue == [] then s.seqno else s.queue[0].seqno})
  {
    ExecStep(max, cap, acts, a);
    ExecKeepsInv(max, cap, acts);
    QueueIsBounded(max, cap, acts);
    LostIsNew(Exec(max, cap, acts), max, cap, a);
  }

  lemma LostIsNew(s: System, max: nat, cap: nat, a: Action)
    requires Inv(s, max) && |s.queue| <= cap
    ensures var s' := Step(s, max, cap, a);
            && (s'.lost != s.lost <==>
                  a == SendItem && s.forwarder.Pushed? && s.handler != Connecting && |s.queue| == cap)
            && (s'.lost != s.lost ==>
                  s'.lagged && s'.lost == s.lost + {if s.queue == [] then s.seqno else s.queue[0].seqno})
  {
    if a == SendItem && s.forwarder.Pushed? && s.handler != Connecting && |s.queue| == cap {
      var n := if s.queue == [] then s.seqno else s.queue[0].seqno;
      assert n == Taken(s) + 1 && n !in s.lost;
    }
  }

  // ---- How a connection is answered ----

  /** The cursor lies in the history and is not its newest entry. */
  ghost predicate Resumable(s: System) {
    s.history != [] && s.cursor.Some? && s.history[0].seqno <= s.cursor.value < s.history[|s.history| - 1].seqno
  }

  /** In every run, deciding answers with a replay exactly when the cursor is resumable, and then with every
      published item after the cursor, up to the newest in the history. */
  lemma DecideIff(max: nat, cap: nat, acts: seq<Action>)
    requires Exec(max, cap, acts).handler == Subscribed
    ensures var s, s' := Exec(max, cap, acts), Exec(max, cap, acts + [Decide]);
            && (s'.handler.Replaying? <==> Resumable(s)) && (s'.handler == Snapshotting <==> !Resumable(s))
            && (Resumable(s) ==> RepliesRest(s, s'.handler))
  {
    ExecKeepsInv(max, cap, acts);
    ExecStep(max, cap, acts, Decide);
    DecidesRest(Exec(max, cap, acts), max, cap);
  }

  ghost predicate RepliesRest(s: System, h: HandlerPc) {
    && h.Replaying? && h.next == 0
    && s.cursor.Some? && IsRest(h.entries, s.published, s.cursor.value, PushedCount(s))
  }

  lemma DecidesRest(s: System, max: nat, cap: nat)
    requires Inv(s, max) && s.handler == Subscribed
    ensures var s' := Step(s, max, cap, Decide);
            && (s'.handler.Replaying? <==> Resumable(s)) && (s'.handler == Snapshotting <==> !Resumable(s))
            && (Resumable(s) ==> RepliesRest(s, s'.handler))
  {
    ResumeIff(s.history, s.cursor);
    if Selection(s.history, s.cursor) != [] {
      SelectionReachesNewest(s, max);
    }
  }

  // ---- What a snapshot misses ----

  /** A connection answered with a snapshot processes, live, exactly the items past the cut it loaded, except
      those the channel overwrote; the snapshot itself was built no later than that. */
  lemma SnapshotThenPastTheCut(max: nat, cap: nat, acts: seq<Action>)
    requires var s := Exec(max, cap, acts); IsLive(s) && s.mode.Snapshot?
    ensures var s := Exec(max, cap, acts);
            && s.replayed == [] && s.mode.builtAt <= s.mode.stamp <= s.lastSent
            && ItemSeqnos(Handled(s)) == Without(Range(s.lastSent, Max(s.lastSent, Taken(s))), s.lost)
  {
    ExecKeepsInv(max, cap, acts);
  }

  lemma {:induction false} WithoutIff(s: seq<int>, gone: set<int>, n: int)
    ensures n in Without(s, gone) <==> n in s && n !in gone
  {
    if s == [] {
    } else {
      WithoutIff(s[..|s| - 1], gone, n);
      assert s == s[..|s| - 1] + [s[|s| - 1]];
    }
  }

  /** The items such a connection has processed are those past the cut, read and not overwritten. */
  lemma ProcessedIff(max: nat, cap: nat, acts: seq<Action>, n: int)
    requires var s := Exec(max, cap, acts); IsLive(s) && s.mode.Snapshot?
    ensures var s := Exec(max, cap, acts);
            n in ItemSeqnos(Handled(s)) <==> s.lastSent < n <= Taken(s) && n !in s.lost
  {
    var s := Exec(max, cap, acts);
    SnapshotThenPastTheCut(max, cap, acts);
    var upTo := Max(s.lastSent, Taken(s));
    WithoutIff(Range(s.lastSent, upTo), s.lost, n);
    InRangeIff(s.lastSent, upTo, n);
  }

  lemma InRangeIff(lo: int, hi: int, n: int)
    requires lo <= hi
    ensures n in Range(lo, hi) <==> lo < n <= hi
  {
    if lo < n <= hi {
      assert Range(lo, hi)[n - lo - 1] == n;
    }
  }

  /** Every item numbered after a given one is processed, up to where the connection has come. */
  ghost predicate AllProcessedAfter(s: System, from: nat) {
    forall n :: from < n <= Max(s.lastSent, Taken(s)) ==> n in ItemSeqnos(Handled(s))
  }

  /** Without lag, processing covers everything after a given item exactly when the cut is no later than it. */
  lemma AllProcessedIff(max: nat, cap: nat, acts: seq<Action>, from: nat)
    requires var s := Exec(max, cap, acts); IsLive(s) && s.mode.Snapshot? && s.lost == {}
    ensures var s := Exec(max, cap, acts); AllProcessedAfter(s, from) <==> s.lastSent <= from
  {
    var s := Exec(max, cap, acts);
    forall n ensures n in ItemSeqnos(Handled(s)) <==> s.lastSent < n <= Taken(s) {
      ProcessedIff(max, cap, acts, n);
    }
    if s.lastSent > from {
      assert s.lastSent !in ItemSeqnos(Handled(s));
    }
  }

  /** How many items get a seqno between building the snapshot and loading the cut. */
  ghost function LateAssigns(max: nat, cap: nat, acts: seq<Action>): nat {
    if acts == [] then 0
    else
      var front := acts[..|acts| - 1];
      LateAssigns(max, cap, front) + (if IsLateAssign(Exec(max, cap, front), acts[|acts| - 1]) then 1 else 0)
  }

  /** An assignment that takes effect while the handler is between the two. */
  ghost predicate IsLateAssign(s: System, a: Action) {
    a.Assign? && s.forwarder == Idle && (s.handler.SnapshotBuilt? || s.handler.SnapshotStamped?)
  }

  /** How many of them get it before its seqno is loaded. */
  ghost function StampAssigns(max: nat, cap: nat, acts: seq<Action>): nat {
    if acts == [] then 0
    else
      var front, a := acts[..|acts| - 1], acts[|acts| - 1];
      var s := Exec(max, cap, front);
      StampAssigns(max, cap, front) + (if a.Assign? && s.forwarder == Idle && s.handler.SnapshotBuilt? then 1 else 0)
  }

  /** The seqno on the frames of a snapshot is the counter at the moment it is loaded. */
  lemma {:induction false} StampIsExact(max: nat, cap: nat, acts: seq<Action>)
    ensures var s, early := Exec(max, cap, acts), StampAssigns(max, cap, acts);
            && (s.handler.SnapshotBuilt? ==> s.seqno == s.handler.at + early)
            && (s.handler.SnapshotStamped? ==> s.handler.stamp == s.handler.at + early)
            && (s.mode.Snapshot? ==> s.mode.stamp == s.mode.builtAt + early)
            && (!s.handler.SnapshotBuilt? && !s.handler.SnapshotStamped? && !s.mode.Snapshot? ==> early == 0)
            && (s.handler.SnapshotBuilt? || s.handler.SnapshotStamped? ==> s.mode == Undecided)
            && (s.mode.Snapshot? ==> IsLive(s))
  {
    if acts == [] {
    } else {
      var front := acts[..|acts| - 1];
      StampIsExact(max, cap, front);
      ExecKeepsInv(max, cap, front);
      StampStep(Exec(max, cap, front), max, cap, acts[|acts| - 1], StampAssigns(max, cap, front));
    }
  }

  ghost predicate StampCounted(s: System, early: nat) {
    && (s.handler.SnapshotBuilt? ==> s.seqno == s.handler.at + early)
    && (s.handler.SnapshotStamped? ==> s.handler.stamp == s.handler.at + early)
    && (s.mode.Snapshot? ==> s.mode.stamp == s.mode.builtAt + early)
    && (!s.handler.SnapshotBuilt? && !s.handler.SnapshotStamped? && !s.mode.Snapshot? ==> early == 0)
    && (s.handler.SnapshotBuilt? || s.handler.SnapshotStamped? ==> s.mode == Undecided)
    && (s.mode.Snapshot? ==> IsLive(s))
  }

  lemma StampStep(s: System, max: nat, cap: nat, a: Action, early: nat)
    requires StampCounted(s, early) && HandlerInv(s)
    ensures StampCounted(Step(s, max, cap, a),
              early + if a.Assign? && s.forwarder == Idle && s.handler.SnapshotBuilt? then 1 else 0)
  {
  }

  ghost predicate LateCounted(s: System, late: nat) {
    match s.handler
    case SnapshotBuilt(at) => s.seqno == at + late
    case SnapshotStamped(at, _) => s.seqno == at + late
    case Waiting => s.mode.Snapshot? ==> s.lastSent == s.mode.builtAt + late
    case Draining => s.mode.Snapshot? ==> s.lastSent == s.mode.builtAt + late
    case _ => late == 0 && !s.mode.Snapshot?
  }

  lemma {:induction false} LateAssignsCount(max: nat, cap: nat, acts: seq<Action>)
    ensures LateCounted(Exec(max, cap, acts), LateAssigns(max, cap, acts))
  {
    if acts == [] {
    } else {
      var front := acts[..|acts| - 1];
      LateAssignsCount(max, cap, front);
      LateStep(Exec(max, cap, front), max, cap, acts[|acts| - 1], LateAssigns(max, cap, front));
    }
  }

  lemma LateStep(s: System, max: nat, cap: nat, a: Action, late: nat)
    requires LateCounted(s, late)
    ensures LateCounted(Step(s, max, cap, a), late + if IsLateAssign(s, a) then 1 else 0)
  {
  }

  /** A snapshot and the live stream after it leave nothing out, without lag, exactly when nothing was published
      between building the snapshot and loading the cut. */
  lemma SnapshotIsLosslessIff(max: nat, cap: nat, acts: seq<Action>)
    requires var s := Exec(max, cap, acts); IsLive(s) && s.mode.Snapshot? && s.lost == {}
    ensures var s := Exec(max, cap, acts);
            && (AllProcessedAfter(s, s.mode.builtAt) <==> s.mode.builtAt == s.lastSent)
            && (AllProcessedAfter(s, s.mode.builtAt) <==> LateAssigns(max, cap, acts) == 0)
  {
    var s := Exec(max, cap, acts);
    SnapshotThenPastTheCut(max, cap, acts);
    LateAssignsCount(max, cap, acts);
    AllProcessedIff(max, cap, acts, s.mode.builtAt);
  }

  /** A client that resumed and was answered with a snapshot gets, live, everything after its cursor exactly
      when the cut is no later than its cursor. */
  lemma SnapshotResumesIff(max: nat, cap: nat, acts: seq<Action>)
    requires var s := Exec(max, cap, acts); IsLive(s) && s.mode.Snapshot? && s.lost == {} && s.cursor.Some?
    ensures var s := Exec(max, cap, acts); AllProcessedAfter(s, s.cursor.value) <==> s.lastSent <= s.cursor.value
  {
    AllProcessedIff(max, cap, acts, Exec(max, cap, acts).cursor.value);
  }

  /** An item that is assigned before the cut is loaded, and sent after it. */
  function Late(q: Publication): seq<Action> { [Assign(q.item, q.json), LoadCut] + [Push, SendItem] + [Recv] }

  /** Nothing is published, a client connects, and item 1 gets its seqno before the cut is loaded. Everything has
      settled, nothing was overwritten, and item 1 is in neither the snapshot nor the stream. */
  lemma SnapshotCanMissAnItem(max: nat, q: Publication)
    ensures var s := Exec(max, 1, [Subscribe(None), Decide, BuildSnapshot, LoadStamp] + Late(q));
            && IsLive(s) && s.mode == Snapshot(0, 0) && s.lastSent == 1 && s.published == [q] && s.forwarder == Idle
            && Handled(s) == [] && s.queue == [] && s.lost == {}
  {
    var acts: seq<Action> := [Subscribe(None), Decide, BuildSnapshot, LoadStamp];
    ExecFour(max, 1, [], Subscribe(None), Decide, BuildSnapshot, LoadStamp);
    assert [] + acts == acts;
    assert Exec(max, 1, acts) == START.(handler := SnapshotStamped(0, 0));
    LateItemIsMissed(max, acts, q);
    assert [] + [q] == [q];
  }

  /** It can happen to an up-to-date client: item 1 is published, the client resumes from 1, is answered with a
      snapshot, and item 2 gets its seqno before the cut is loaded. */
  lemma UpToDateClientCanMissAnItem(max: nat, p: Publication, q: Publication)
    ensures var s := Exec(max, 1, Publishing(p) + [Subscribe(Some(1)), Decide, BuildSnapshot, LoadStamp] + Late(q));
            && IsLive(s) && s.mode == Snapshot(1, 1) && s.cursor == Some(1) && s.lastSent == 2
            && s.published == [p, q] && s.forwarder == Idle
            && Handled(s) == [] && s.queue == [] && s.lost == {}
  {
    UpToDateClientIsStamped(max, p);
    LateItemIsMissed(max, Publishing(p) + [Subscribe(Some(1)), Decide, BuildSnapshot, LoadStamp], q);
    assert [p] + [q] == [p, q];
  }

  lemma LateItemIsMissed(max: nat, acts: seq<Action>, q: Publication)
    requires var s := Exec(max, 1, acts);
             && s.handler.SnapshotStamped? && s.forwarder == Idle && s.queue == [] && !s.lagged
    ensures var s, s' := Exec(max, 1, acts), Exec(max, 1, acts + Late(q));
            s' == s.(seqno := s.seqno + 1, published := s.published + [q], history := s'.history,
                     handler := Waiting, mode := Snapshot(s.handler.at, s.handler.stamp), lastSent := s.seqno + 1)
  {
    var cut := acts + [Assign(q.item, q.json), LoadCut];
    LateCut(Exec(max, 1, acts), max, q);
    ExecTwo(max, 1, acts, Assign(q.item, q.json), LoadCut);
    ExecTwo(max, 1, cut, Push, SendItem);
    ExecStep(max, 1, cut + [Push, SendItem], Recv);
    assert cut + [Push, SendItem] + [Recv] == acts + Late(q);
  }

  lemma LateCut(s: System, max: nat, q: Publication)
    requires s.handler.SnapshotStamped? && s.forwarder == Idle && s.queue == [] && !s.lagged
    ensures var s1 := Step(Step(s, max, 1, Assign(q.item, q.json)), max, 1, LoadCut);
            var s' := Step(Step(Step(s1, max, 1, Push), max, 1, SendItem), max, 1, Recv);
            s' == s.(seqno := s.seqno + 1, published := s.published + [q], history := s'.history,
                     handler := Waiting, mode := Snapshot(s.handler.at, s.handler.stamp), lastSent := s.seqno + 1)
  {
    CutItemIsSkipped(Step(Step(s, max, 1, Assign(q.item, q.json)), max, 1, LoadCut), max);
  }

  /** An item at the cut is taken from the channel and not processed. */
  lemma CutItemIsSkipped(s: System, max: nat)
    requires s.forwarder.Assigned? && s.handler == Waiting && s.queue == [] && !s.lagged && s.seqno == s.lastSent
    ensures var s' := Step(Step(Step(s, max, 1, Push), max, 1, SendItem), max, 1, Recv);
            s' == s.(history := s'.history, forwarder := Idle)
  {
    var s1 := Step(s, max, 1, Push);
    var s2 := Step(s1, max, 1, SendItem);
    assert s2 == s1.(forwarder := Idle, queue := [SequencedItem(s.seqno, s.forwarder.item)]);
  }

  ghost function OnePublished(p: Publication, max: nat): System {
    START.(seqno := 1, history := Window([p], max), published := [p])
  }

  lemma UpToDateClientIsStamped(max: nat, p: Publication)
    ensures Exec(max, 1, Publishing(p) + [Subscribe(Some(1)), Decide, BuildSnapshot, LoadStamp]) ==
            OnePublished(p, max).(handler := SnapshotStamped(1, 1), cursor := Some(1), subscribedAt := 1)
  {
    var s := OnePublished(p, max);
    FirstIsPublished(max, 1, p);
    ExecFour(max, 1, Publishing(p), Subscribe(Some(1)), Decide, BuildSnapshot, LoadStamp);
    NewestIsNotPast(p, max);
    var s1 := s.(handler := Subscribed, cursor := Some(1), subscribedAt := 1);
    assert Step(s, max, 1, Subscribe(Some(1))) == s1;
    assert Step(s1, max, 1, Decide) == s1.(handler := Snapshotting);
  }

  lemma FirstIsPublished(max: nat, cap: nat, p: Publication)
    ensures Exec(max, cap, Publishing(p)) == OnePublished(p, max)
  {
    PublishedOnce(max, cap, [], p);
    assert [] + Publishing(p) == Publishing(p);
    WindowGrows([], p, max);
    assert Window([], max) + [ReplayEntry(1, p.json)] == [] + [ReplayEntry(1, p.json)];
    assert [] + [p] == [p];
  }

  /** The newest entry is not past itself. */
  lemma NewestIsNotPast(p: Publication, max: nat)
    ensures Selection(Window([p], max), Some(1)) == []
  {
    ResumeIff(Window([p], max), Some(1));
  }

  // ---- Runs, action by action ----

  lemma ExecStep(max: nat, cap: nat, acts: seq<Action>, a: Action)
    ensures Exec(max, cap, acts + [a]) == Step(Exec(max, cap, acts), max, cap, a)
  {
    assert (acts + [a])[..|acts|] == acts;
  }

  lemma ExecTwo(max: nat, cap: nat, acts: seq<Action>, a: Action, b: Action)
    ensures Exec(max, cap, acts + [a, b]) == Step(Step(Exec(max, cap, acts), max, cap, a), max, cap, b)
  {
    ExecStep(max, cap, acts, a);
    ExecStep(max, cap, acts + [a], b);
    assert acts + [a] + [b] == acts + [a, b];
  }

  lemma ExecFour(max: nat, cap: nat, acts: seq<Action>, a: Action, b: Action, c: Action, d: Action)
    ensures Exec(max, cap, acts + [a, b, c, d]) ==
            Step(Step(Step(Step(Exec(max, cap, acts), max, cap, a), max, cap, b), max, cap, c), max, cap, d)
  {
    ExecTwo(max, cap, acts, a, b);
    ExecTwo(max, cap, acts + [a, b], c, d);
    assert acts + [a, b] + [c, d] == acts + [a, b, c, d];
  }

  /** The three sub-steps of publishing one item, with nothing in between. */
  function Publishing(p: Publication): seq<Action> { [Assign(p.item, p.json), Push, SendItem] }

  lemma PublishedOnce(max: nat, cap: nat, acts: seq<Action>, p: Publication)
    requires Exec(max, cap, acts).forwarder == Idle
    ensures var s := Exec(max, cap, acts);
            var n := s.seqno + 1;
            Exec(max, cap, acts + Publishing(p)) ==
            Broadcast(s.(seqno := n, published := s.published + [p],
                         history := Trimmed(s.history + [ReplayEntry(n, p.json)], max)),
                      cap, SequencedItem(n, p.item))
  {
    ExecTwo(max, cap, acts, Assign(p.item, p.json), Push);
    ExecStep(max, cap, acts + [Assign(p.item, p.json), Push], SendItem);
    assert acts + [Assign(p.item, p.json), Push] + [SendItem] == acts + Publishing(p);
  }
}
