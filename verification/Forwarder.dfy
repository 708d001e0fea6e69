/** Publication (broadcast_item and run_event_forwarder in gateway/src/lib/server.rs): number the item, keep its
    serialized form in a bounded history, hand it to the broadcast channel. */
module Forwarder {
  import opened Common
  import opened EventFilter
  import opened Items

  const MAX_EVENT_HISTORY := 100_000

  /** The newest publications, at most max of them, as history entries: a gap-free run of seqnos that ends
      with the newest. */
  ghost function Window(published: seq<Publication>, max: nat): (w: seq<ReplayEntry>)
    ensures |w| == Min(|published|, max)
    ensures forall i :: 0 <= i < |w| ==>
              w[i].seqno == |published| - |w| + 1 + i && IsEntryOf(w[i], published)
  {
    var n := Min(|published|, max);
    seq(n, i requires 0 <= i < n =>
      ReplayEntry(|published| - n + 1 + i, published[|published| - n + i].json))
  }

  /** Push to the back, then pop from the front while over the limit. */
  function Trimmed(history: seq<ReplayEntry>, max: nat): seq<ReplayEntry> {
    if |history| > max then Trimmed(history[1..], max) else history
  }

  lemma TrimmedIsSuffix(history: seq<ReplayEntry>, max: nat)
    ensures Trimmed(history, max) == history[|history| - Min(|history|, max)..]
  {
  }

  lemma WindowGrows(published: seq<Publication>, p: Publication, max: nat)
    ensures Trimmed(Window(published, max) + [ReplayEntry(|published| + 1, p.json)], max) == Window(published + [p], max)
  {
    TrimmedIsSuffix(Window(published, max) + [ReplayEntry(|published| + 1, p.json)], max);
  }

  /** The items handed to the broadcast channel so far. */
  ghost function Sent(published: seq<Publication>): (s: seq<SequencedItem>)
    ensures |s| == |published|
    ensures forall i :: 0 <= i < |s| ==> s[i].seqno == i + 1 && IsItemOf(s[i], published)
  {
    seq(|published|, i requires 0 <= i < |published| => SequencedItem(i + 1, published[i].item))
  }

  /** The publications one ingested event causes, numbered from first: the event itself, then what was
      derived from it, in this order. */
  ghost function Derived(event: ExecutedEvent, topAccesses: Item, tps: Option<Item>, contention: Option<Item>,
                         lifecycle: Option<Item>): seq<Item> {
    Listed(Accesses(event, topAccesses)) + Listed(tps) + Listed(contention) + Listed(lifecycle)
  }

  function Accesses(event: ExecutedEvent, topAccesses: Item): Option<Item> {
    if event.name == BlockEnd then Some(topAccesses) else None
  }

  lemma BatchInOrder(event: ExecutedEvent, topAccesses: Item, tps: Option<Item>, contention: Option<Item>, lifecycle: Option<Item>)
    ensures [] + Listed(Some(EventItem(event))) + Listed(Accesses(event, topAccesses))
            + Listed(tps) + Listed(contention) + Listed(lifecycle)
            == [EventItem(event)] + Derived(event, topAccesses, tps, contention, lifecycle)
  {
  }

  /** The event leads; the top accesses follow it exactly when a block ends; the lifecycle update comes last, after
      the contention report, after the TPS. */
  lemma ForwardingOrder(event: ExecutedEvent, topAccesses: Item, tps: Option<Item>, contention: Option<Item>, lifecycle: Option<Item>)
    ensures var items := [EventItem(event)] + Derived(event, topAccesses, tps, contention, lifecycle);
            var t := 1 + One(event.name == BlockEnd);
            var c := t + One(tps.Some?);
            var l := c + One(contention.Some?);
            && |items| == l + One(lifecycle.Some?) && items[0] == EventItem(event)
            && (event.name == BlockEnd ==> items[1] == topAccesses)
            && (tps.Some? ==> items[t] == tps.value)
            && (contention.Some? ==> items[c] == contention.value)
            && (lifecycle.Some? ==> items[l] == lifecycle.value)
  {
  }

  function One(b: bool): nat { if b then 1 else 0 }

  function Listed(i: Option<Item>): seq<Item> { if i.Some? then [i.value] else [] }

  ghost function Published(published: seq<Publication>, items: seq<Item>, serialize: (nat, Item) -> Json): seq<Publication> {
    if items == [] then published
    else
      var before := Published(published, items[..|items| - 1], serialize);
      var item := items[|items| - 1];
      before + [Publication(item, serialize(|before| + 1, item))]
  }

  /** Publishing a list appends it, in order, under consecutive seqnos. */
  lemma {:induction false} PublishedAppends(published: seq<Publication>, items: seq<Item>, serialize: (nat, Item) -> Json)
    ensures var after := Published(published, items, serialize);
            && |after| == |published| + |items| && after[..|published|] == published
            && forall i :: 0 <= i < |items| ==>
                 after[|published| + i] == Publication(items[i], serialize(|published| + i + 1, items[i]))
  {
    if items == [] {
    } else {
      PublishedAppends(published, items[..|items| - 1], serialize);
    }
  }

  /** What one ingested event adds to the publications, by position. */
  ghost predicate Follows(before: seq<Publication>, after: seq<Publication>, event: ExecutedEvent, topAccesses: Item,
                          tps: Option<Item>, contention: Option<Item>, lifecycle: Option<Item>) {
    var n := |before|;
    var t := n + 1 + One(event.name == BlockEnd);
    var c := t + One(tps.Some?);
    && |after| == c + One(contention.Some?) + One(lifecycle.Some?) && before <= after
    && after[n].item == EventItem(event)
    && (event.name == BlockEnd ==> after[n + 1].item == topAccesses)
    && (tps.Some? ==> after[t].item == tps.value)
    && (contention.Some? ==> after[c].item == contention.value)
    && (lifecycle.Some? ==> after[|after| - 1].item == lifecycle.value)
  }

  lemma PublishedFollows(before: seq<Publication>, event: ExecutedEvent, topAccesses: Item, tps: Option<Item>,
                         contention: Option<Item>, lifecycle: Option<Item>, serialize: (nat, Item) -> Json)
    ensures Follows(before,
              Published(before, [EventItem(event)] + Derived(event, topAccesses, tps, contention, lifecycle), serialize),
              event, topAccesses, tps, contention, lifecycle)
  {
    PublishedAppends(before, [EventItem(event)] + Derived(event, topAccesses, tps, contention, lifecycle), serialize);
    ForwardingOrder(event, topAccesses, tps, contention, lifecycle);
  }

  class EventForwarder {
    const maxHistory: nat
    var serverSeqno: nat
    var history: seq<ReplayEntry>
    var broadcast: seq<SequencedItem>
    ghost var published: seq<Publication>

    ghost predicate Valid()
      reads this
    {
      serverSeqno == |published| && history == Window(published, maxHistory) && broadcast == Sent(published)
    }

    constructor (maxHistory: nat := 100_000)
      ensures Valid() && published == [] && this.maxHistory == maxHistory
    {
      this.maxHistory := maxHistory;
      serverSeqno, history, broadcast, published := 0, [], [], [];
    }

    method BroadcastItem(item: Item, serialize: (nat, Item) -> Json)
      requires Valid()
      modifies this
      ensures Valid() && published == old(published) + [Publication(item, serialize(|old(published)| + 1, item))]
    {
      serverSeqno := serverSeqno + 1;
      var seqno := serverSeqno;
      var json := serialize(seqno, item);
      ghost var p := Publication(item, json);
      WindowGrows(published, p, maxHistory);
      history := history + [ReplayEntry(seqno, json)];
      ghost var pushed := history;
      while |history| > maxHistory
        invariant Trimmed(history, maxHistory) == Trimmed(pushed, maxHistory)
        invariant serverSeqno == seqno && published == old(published) && broadcast == old(broadcast)
        decreases |history|
      {
        history := history[1..];
      }
      broadcast := broadcast + [SequencedItem(seqno, item)];
      published := published + [p];
      assert broadcast == Sent(published);
    }

    /** One ingested event: the raw event first, then everything derived from it, under consecutive seqnos. */
    method ForwardEvent(event: ExecutedEvent, topAccesses: Item, tps: Option<Item>, contention: Option<Item>,
                        lifecycle: Option<Item>, serialize: (nat, Item) -> Json)
      requires Valid()
      modifies this
      ensures Valid()
      ensures published == Published(old(published),
                [EventItem(event)] + Derived(event, topAccesses, tps, contention, lifecycle), serialize)
      ensures Follows(old(published), published, event, topAccesses, tps, contention, lifecycle)
    {
      ghost var start := published;
      var accesses := Accesses(event, topAccesses);
      BroadcastIfAny(Some(EventItem(event)), serialize, start, []);
      BroadcastIfAny(accesses, serialize, start, [] + Listed(Some(EventItem(event))));
      ghost var done := [] + Listed(Some(EventItem(event))) + Listed(accesses);
      BroadcastMetrics(tps, contention, lifecycle, serialize, start, done);
      BatchInOrder(event, topAccesses, tps, contention, lifecycle);
      PublishedFollows(start, event, topAccesses, tps, contention, lifecycle, serialize);
    }

    method BroadcastMetrics(tps: Option<Item>, contention: Option<Item>, lifecycle: Option<Item>,
                            serialize: (nat, Item) -> Json, ghost start: seq<Publication>, ghost done: seq<Item>)
      requires Valid() && published == Published(start, done, serialize)
      modifies this
      ensures Valid()
      ensures published == Published(start, done + Listed(tps) + Listed(contention) + Listed(lifecycle), serialize)
    {
      BroadcastIfAny(tps, serialize, start, done);
      BroadcastIfAny(contention, serialize, start, done + Listed(tps));
      BroadcastIfAny(lifecycle, serialize, start, done + Listed(tps) + Listed(contention));
    }

    method BroadcastIfAny(item: Option<Item>, serialize: (nat, Item) -> Json,
                          ghost start: seq<Publication>, ghost done: seq<Item>)
      requires Valid() && published == Published(start, done, serialize)
      modifies this
      ensures Valid() && published == Published(start, done + Listed(item), serialize)
    {
      if item.Some? {
        PublishedStep(start, done, item.value, serialize);
        BroadcastItem(item.value, serialize);
      } else {
        assert done + Listed(item) == done;
      }
    }
  }

  lemma PublishedStep(published: seq<Publication>, items: seq<Item>, item: Item, serialize: (nat, Item) -> Json)
    ensures var before := Published(published, items, serialize);
            Published(published, items + [item], serialize) == before + [Publication(item, serialize(|before| + 1, item))]
  {
    var all := items + [item];
    assert all != [] && all[..|all| - 1] == items && all[|all| - 1] == item;
  }
}
