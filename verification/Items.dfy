/** The items the gateway numbers and fans out (EventDataOrMetrics and its wrappers in
    gateway/src/lib/server.rs). Event payloads beyond what filters look at, and metric contents, are opaque;
    a serialized message is an opaque string computed once, when the item is published. */
module Items {
  import opened Common
  import opened EventFilter

  type Json = string

  /** Executed events carry whole topic words. */
  type ExecutedEvent = e: Event | WellFormed(e) witness Event(RecordError, None, OtherPayload)

  datatype MetricKind = Tps | ContentionReport | TopAccesses | LifecycleUpdate

  datatype Item = EventItem(event: ExecutedEvent) | Metric(kind: MetricKind, content: int)

  datatype SequencedItem = SequencedItem(seqno: nat, item: Item)

  datatype ReplayEntry = ReplayEntry(seqno: nat, json: Json)

  /** What one publication fixed for good; the item published n-th has seqno n. */
  datatype Publication = Publication(item: Item, json: Json)

  ghost predicate IsEntryOf(e: ReplayEntry, published: seq<Publication>) {
    1 <= e.seqno <= |published| && e.json == published[e.seqno - 1].json
  }

  ghost predicate IsItemOf(si: SequencedItem, published: seq<Publication>) {
    1 <= si.seqno <= |published| && si.item == published[si.seqno - 1].item
  }

  ghost function EntrySeqnos(s: seq<ReplayEntry>): (r: seq<int>)
    ensures |r| == |s| && forall i :: 0 <= i < |s| ==> r[i] == s[i].seqno
  {
    seq(|s|, i requires 0 <= i < |s| => s[i].seqno)
  }

  ghost function ItemSeqnos(s: seq<SequencedItem>): (r: seq<int>)
    ensures |r| == |s| && forall i :: 0 <= i < |s| ==> r[i] == s[i].seqno
  {
    seq(|s|, i requires 0 <= i < |s| => s[i].seqno)
  }
}
