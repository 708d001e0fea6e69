/** The transaction-hash cache of the event forwarder (current_txn_hashes in gateway/src/lib/server.rs):
    a slot per transaction index, set by a header start, read by every event, cleared by a transaction end.
    Indexing a slot outside the table panics and ends the forwarder. */
module HashCache {
  import opened Common

  const SLOTS := 10_000

  type TxHash = int

  datatype Kind =
    | TxnHeaderStart(slot: nat, hash: TxHash)
    | TxnEnd
    | OtherKind

  datatype RawEvent = RawEvent(kind: Kind, txnIdx: Option<nat>, hash: Option<TxHash>)

  // ---- The reference: what was last done to a slot ----

  datatype SlotOp = Start(slot: nat, hash: TxHash) | Clear(slot: nat)

  /** An event's own header start happens before the event is tagged, its own end after. */
  function OpsBeforeTag(e: RawEvent): seq<SlotOp> {
    if e.kind.TxnHeaderStart? then [Start(e.kind.slot, e.kind.hash)] else []
  }

  function OpsAfterTag(e: RawEvent): seq<SlotOp> {
    if e.kind.TxnEnd? && e.txnIdx.Some? then [Clear(e.txnIdx.value)] else []
  }

  /** The hash of slot i if the latest operation on it was a start. */
  ghost function Latest(ops: seq<SlotOp>, i: nat): Option<TxHash> {
    if ops == [] then None
    else
      var last := ops[|ops| - 1];
      if last.slot != i then Latest(ops[..|ops| - 1], i)
      else if last.Start? then Some(last.hash) else None
  }

  lemma {:induction false} LatestIff(ops: seq<SlotOp>, i: nat, h: TxHash)
    ensures Latest(ops, i) == Some(h) <==>
            exists k :: 0 <= k < |ops| && ops[k] == Start(i, h) && forall j :: k < j < |ops| ==> ops[j].slot != i
  {
    if ops == [] {
    } else {
      var front := ops[..|ops| - 1];
      LatestIff(front, i, h);
      if ops[|ops| - 1].slot != i {
        if Latest(ops, i) == Some(h) {
          var k :| 0 <= k < |front| && front[k] == Start(i, h) && forall j :: k < j < |front| ==> front[j].slot != i;
          assert ops[k] == Start(i, h) && forall j :: k < j < |ops| ==> ops[j].slot != i;
        }
        if k :| 0 <= k < |ops| && ops[k] == Start(i, h) && forall j :: k < j < |ops| ==> ops[j].slot != i {
          assert front[k] == Start(i, h) && forall j :: k < j < |front| ==> front[j].slot == ops[j].slot;
        }
      }
    }
  }

  /** The tag is decided by the operations since some point if any of them is on slot i, and by those before
      that point otherwise. Nothing resets the cache between blocks, so taking that point to be a block start:
      an event is tagged with a hash from an earlier block exactly when its own block has not touched the slot
      and the earlier transaction never ended. */
  lemma {:induction false} LatestAcross(earlier: seq<SlotOp>, since: seq<SlotOp>, i: nat)
    ensures Latest(earlier + since, i) ==
            if exists k :: 0 <= k < |since| && since[k].slot == i then Latest(since, i) else Latest(earlier, i)
  {
    if since == [] {
      assert earlier + since == earlier;
    } else {
      var front, last := since[..|since| - 1], since[|since| - 1];
      LatestAcross(earlier, front, i);
      assert (earlier + since)[..|earlier + since| - 1] == earlier + front;
      if last.slot != i {
        if k :| 0 <= k < |since| && since[k].slot == i {
          assert front[k].slot == i;
        }
        if k :| 0 <= k < |front| && front[k].slot == i {
          assert since[k].slot == i;
        }
      }
    }
  }

  // ---- What the tag means, over the events handled ----

  ghost function OpsOf(log: seq<RawEvent>): seq<SlotOp> {
    if log == [] then []
    else
      var e := log[|log| - 1];
      OpsOf(log[..|log| - 1]) + OpsBeforeTag(e) + OpsAfterTag(e)
  }

  /** Event e starts transaction slot i, or ends transaction i. */
  predicate Touches(e: RawEvent, i: nat) {
    (e.kind.TxnHeaderStart? && e.kind.slot == i) || (e.kind.TxnEnd? && e.txnIdx == Some(i))
  }

  /** The latest event of the log that touches i is a header start with hash h. */
  ghost predicate StartedLast(log: seq<RawEvent>, i: nat, h: TxHash) {
    exists k :: 0 <= k < |log| && log[k].kind == TxnHeaderStart(i, h) && forall j :: k < j < |log| ==> !Touches(log[j], i)
  }

  /** The same for the event in hand: its own start counts, its own end does not. */
  ghost predicate TagDue(log: seq<RawEvent>, e: RawEvent, i: nat, h: TxHash) {
    if e.kind.TxnHeaderStart? && e.kind.slot == i then e.kind.hash == h else StartedLast(log, i, h)
  }

  /** The hash event e must leave with: a tag that is due replaces its own. */
  ghost predicate HashDue(log: seq<RawEvent>, e: RawEvent, hash: Option<TxHash>) {
    if e.txnIdx.None? then hash == e.hash
    else
      && (forall h :: TagDue(log, e, e.txnIdx.value, h) ==> hash == Some(h))
      && ((forall h :: !TagDue(log, e, e.txnIdx.value, h)) ==> hash == e.hash)
  }

  ghost function HashFrom(ops: seq<SlotOp>, e: RawEvent): Option<TxHash> {
    if e.txnIdx.Some? && Latest(ops, e.txnIdx.value).Some? then Latest(ops, e.txnIdx.value) else e.hash
  }

  lemma StartedLastGrows(log: seq<RawEvent>, e: RawEvent, i: nat, h: TxHash)
    ensures StartedLast(log + [e], i, h) <==> e.kind == TxnHeaderStart(i, h) || (StartedLast(log, i, h) && !Touches(e, i))
  {
    var all := log + [e];
    if e.kind == TxnHeaderStart(i, h) {
      assert all[|log|].kind == TxnHeaderStart(i, h);
    }
    if StartedLast(all, i, h) && e.kind != TxnHeaderStart(i, h) {
      var k :| 0 <= k < |all| && all[k].kind == TxnHeaderStart(i, h) && forall j :: k < j < |all| ==> !Touches(all[j], i);
      assert !Touches(all[|log|], i);
      assert log[k].kind == TxnHeaderStart(i, h) && forall j :: k < j < |log| ==> log[j] == all[j];
    }
    if StartedLast(log, i, h) && !Touches(e, i) {
      var k :| 0 <= k < |log| && log[k].kind == TxnHeaderStart(i, h) && forall j :: k < j < |log| ==> !Touches(log[j], i);
      assert all[k].kind == TxnHeaderStart(i, h);
    }
  }

  /** Which event does what to a slot: the slot holds h exactly when the latest event that touched it started it
      with h. */
  lemma {:induction false} SlotHoldsIff(log: seq<RawEvent>, i: nat, h: TxHash)
    ensures Latest(OpsOf(log), i) == Some(h) <==> StartedLast(log, i, h)
  {
    if log == [] {
    } else {
      var front, e := log[..|log| - 1], log[|log| - 1];
      assert log == front + [e];
      SlotHoldsIff(front, i, h);
      StartedLastGrows(front, e, i, h);
      LatestAfterEvent(OpsOf(front), e, i);
    }
  }

  lemma LatestAfterEvent(ops: seq<SlotOp>, e: RawEvent, i: nat)
    ensures Latest(ops + OpsBeforeTag(e) + OpsAfterTag(e), i) ==
            if e.kind.TxnHeaderStart? && e.kind.slot == i then Some(e.kind.hash)
            else if Touches(e, i) then None
            else Latest(ops, i)
  {
    var before, after := OpsBeforeTag(e), OpsAfterTag(e);
    if before != [] {
      assert ops + before + after == ops + before;
      assert (ops + before)[..|ops + before| - 1] == ops;
    } else {
      assert ops + before + after == ops + after;
      if after != [] {
        assert (ops + after)[..|ops + after| - 1] == ops;
      } else {
        assert ops + after == ops;
      }
    }
  }

  predicate IndexPanics(e: RawEvent) {
    (e.kind.TxnHeaderStart? && e.kind.slot >= SLOTS) ||
    (e.kind.TxnEnd? && e.txnIdx.Some? && e.txnIdx.value >= SLOTS)
  }

  /** What the slot of event e holds when e is tagged. */
  lemma TagIff(log: seq<RawEvent>, e: RawEvent, i: nat, h: TxHash)
    ensures Latest(OpsOf(log) + OpsBeforeTag(e), i) == Some(h) <==> TagDue(log, e, i, h)
  {
    var ops, before := OpsOf(log), OpsBeforeTag(e);
    SlotHoldsIff(log, i, h);
    if before == [] {
      assert ops + before == ops;
    } else {
      assert (ops + before)[..|ops + before| - 1] == ops;
    }
  }

  class TxnHashCache {
    const slots: array<Option<TxHash>>
    /** Every event that has passed. */
    ghost var handled: seq<RawEvent>

    /** The table is what a list of slot operations makes of an empty one. */
    ghost predicate Holds(ops: seq<SlotOp>)
      reads this, slots
    {
      slots.Length == SLOTS && forall i :: 0 <= i < SLOTS ==> slots[i] == Latest(ops, i)
    }

    ghost predicate Valid()
      reads this, slots
    {
      && Holds(OpsOf(handled))
      && (forall k :: 0 <= k < |handled| ==> !IndexPanics(handled[k]))
    }

    constructor ()
      ensures Valid() && handled == [] && fresh(slots)
    {
      slots := new Option<TxHash>[SLOTS](i => None);
      handled := [];
    }

    /** One pass of an event through the cache; None is the panic of an index outside the table. */
    method Handle(e: RawEvent) returns (out: Option<RawEvent>)
      requires Valid()
      modifies this`handled, slots
      ensures Valid()
      ensures out.None? <==> IndexPanics(e)
      ensures handled == if out.Some? then old(handled) + [e] else old(handled)
      ensures out.Some? ==> out.value == e.(hash := out.value.hash) && HashDue(old(handled), e, out.value.hash)
    {
      ghost var ops, before := OpsOf(handled), OpsOf(handled) + OpsBeforeTag(e);
      if e.kind.TxnHeaderStart? {
        if e.kind.slot >= SLOTS {
          return None;
        }
        Put(Start(e.kind.slot, e.kind.hash), ops);
      } else {
        assert before == ops;
      }
      OutsideIsEmpty(handled, e);
      var event := Tagged(e, before);
      CachedIsDue(handled, e, event.hash);
      if e.kind.TxnEnd? && e.txnIdx.Some? {
        if e.txnIdx.value >= SLOTS {
          return None;
        }
        Put(Clear(e.txnIdx.value), before);
      } else {
        assert before + OpsAfterTag(e) == before;
      }
      OpsGrow(handled, e);
      handled := handled + [e];
      return Some(event);
    }

    /** A cached hash wins over the one the event came with. */
    method Tagged(e: RawEvent, ghost ops: seq<SlotOp>) returns (event: RawEvent)
      requires Holds(ops) && (e.txnIdx.Some? && e.txnIdx.value >= SLOTS ==> Latest(ops, e.txnIdx.value) == None)
      ensures event == e.(hash := HashFrom(ops, e))
    {
      event := e;
      if e.txnIdx.Some? && e.txnIdx.value < SLOTS {
        if slots[e.txnIdx.value].Some? {
          event := event.(hash := slots[e.txnIdx.value]);
        }
      }
    }

    method Put(op: SlotOp, ghost ops: seq<SlotOp>)
      requires Holds(ops) && op.slot < SLOTS
      modifies slots
      ensures Holds(ops + [op])
    {
      slots[op.slot] := if op.Start? then Some(op.hash) else None;
      assert (ops + [op])[..|ops + [op]| - 1] == ops;
    }
  }

  lemma OpsGrow(log: seq<RawEvent>, e: RawEvent)
    ensures OpsOf(log + [e]) == OpsOf(log) + OpsBeforeTag(e) + OpsAfterTag(e)
  {
    assert (log + [e])[..|log|] == log;
  }

  /** An event that comes with the hash it holds in the cache, or keeps its own, has the hash that is due. */
  lemma CachedIsDue(log: seq<RawEvent>, e: RawEvent, hash: Option<TxHash>)
    requires hash == HashFrom(OpsOf(log) + OpsBeforeTag(e), e)
    ensures HashDue(log, e, hash)
  {
    if e.txnIdx.Some? {
      var cached := Latest(OpsOf(log) + OpsBeforeTag(e), e.txnIdx.value);
      TagsDue(log, e, e.txnIdx.value);
      if cached.Some? {
        assert TagDue(log, e, e.txnIdx.value, cached.value);
      }
    }
  }

  lemma TagsDue(log: seq<RawEvent>, e: RawEvent, i: nat)
    ensures forall h :: Latest(OpsOf(log) + OpsBeforeTag(e), i) == Some(h) <==> TagDue(log, e, i, h)
  {
    forall h ensures Latest(OpsOf(log) + OpsBeforeTag(e), i) == Some(h) <==> TagDue(log, e, i, h) {
      TagIff(log, e, i, h);
    }
  }

  /** No event that passed has touched anything outside the table. */
  lemma OutsideIsEmpty(log: seq<RawEvent>, e: RawEvent)
    requires forall k :: 0 <= k < |log| ==> !IndexPanics(log[k])
    requires !(e.kind.TxnHeaderStart? && e.kind.slot >= SLOTS)
    ensures e.txnIdx.Some? && e.txnIdx.value >= SLOTS ==> Latest(OpsOf(log) + OpsBeforeTag(e), e.txnIdx.value) == None
  {
    if e.txnIdx.Some? && e.txnIdx.value >= SLOTS {
      match Latest(OpsOf(log) + OpsBeforeTag(e), e.txnIdx.value) {
        case None =>
        case Some(h) => TagIff(log, e, e.txnIdx.value, h);
      }
    }
  }

  /** The tag of an event that came without a hash: it is h exactly when the latest event that touched its
      transaction started it with h. */
  lemma TaggedIff(log: seq<RawEvent>, e: RawEvent, hash: Option<TxHash>, h: TxHash)
    requires e.txnIdx.Some? && e.hash == None && HashDue(log, e, hash)
    ensures hash == Some(h) <==> TagDue(log, e, e.txnIdx.value, h)
  {
    TagsDue(log, e, e.txnIdx.value);
  }
}
