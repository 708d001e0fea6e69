/** The report of the contention tracker (gateway/src/lib/contention_tracker.rs): its rows, the orders its lists
    are sorted by, and what a list says in plain figures about the accesses of the block.
    Ratios stay as numerator and denominator; the code divides them as f64. */
module ContentionReport {
  import opened Common
  import opened Sums
  import opened Sorting
  import opened ContentionLog

  datatype SlotEntry = SlotEntry(slot: Slot, txnCount: nat, accessCount: nat)

  datatype ContractEntry = ContractEntry(addr: Address, totalSlots: nat, contendedSlots: nat, totalAccesses: nat)

  datatype EdgeEntry = EdgeEntry(edge: Edge, sharedTxns: nat)

  datatype ContentionData = ContentionData(
    blockNumber: nat,
    wallTimeNs: nat,
    txTimeNs: nat,
    savedNs: nat,
    uniqueSlots: nat,
    contendedSlots: nat,
    txnCount: nat,
    topSlots: seq<SlotEntry>,
    topContracts: seq<ContractEntry>,
    edges: seq<EdgeEntry>)

  const MAX_SLOTS := 20
  const MAX_CONTRACTS := 15
  const MAX_EDGES := 15

  predicate MoreTxns(a: SlotEntry, b: SlotEntry) { a.txnCount >= b.txnCount }

  /** More contended slots first, then the higher share contended/total, compared by cross-multiplication. */
  predicate MoreContended(a: ContractEntry, b: ContractEntry) {
    a.contendedSlots > b.contendedSlots ||
    (a.contendedSlots == b.contendedSlots && a.contendedSlots * b.totalSlots >= b.contendedSlots * a.totalSlots)
  }

  predicate MoreShared(a: EdgeEntry, b: EdgeEntry) { a.sharedTxns >= b.sharedTxns }

  // ---- What the rows of the report are, as sets over the tracker's maps ----

  ghost function SlotRow(slots: map<Slot, set<TxnIdx>>, counts: map<Slot, nat>, s: Slot): SlotEntry
    requires s in slots
  {
    SlotEntry(s, |slots[s]|, Get(counts, s, 0))
  }

  ghost function SlotRows(slots: map<Slot, set<TxnIdx>>, counts: map<Slot, nat>): set<SlotEntry> {
    set s | s in slots && IsContended(slots, s) :: SlotRow(slots, counts, s)
  }

  ghost function ContractRow(slots: map<Slot, set<TxnIdx>>, counts: map<Slot, nat>, c: Address): ContractEntry {
    ContractEntry(c, |SlotsAt(slots, c)|, |ContendedAt(slots, c)|, AccessesAt(slots, counts, c))
  }

  ghost function ContractRows(slots: map<Slot, set<TxnIdx>>, counts: map<Slot, nat>): set<ContractEntry> {
    set c | c in Contracts(slots) && ContendedAt(slots, c) != {} :: ContractRow(slots, counts, c)
  }

  ghost function EdgeRows(counts: map<Edge, nat>): set<EdgeEntry> {
    set e | e in counts :: EdgeEntry(e, counts[e])
  }

  /** The run times of the transactions that both started and ended. */
  ghost function TxTimes(starts: map<TxnIdx, nat>, ends: map<TxnIdx, nat>): map<TxnIdx, nat> {
    map t | t in starts && t in ends :: SaturatingSub(ends[t], starts[t])
  }

  lemma OrdersAreTotal()
    ensures TotalPreorder(MoreTxns) && TotalPreorder(MoreContended) && TotalPreorder(MoreShared)
  {
    forall a, b, c | MoreContended(a, b) && MoreContended(b, c) ensures MoreContended(a, c) {
      if a.contendedSlots == c.contendedSlots {
        assert a.contendedSlots * c.totalSlots >= a.contendedSlots * b.totalSlots >= a.contendedSlots * a.totalSlots;
      }
    }
  }

  /** A transaction that started and ended counts for the time between, or for nothing if the clock went back. */
  lemma TxTimesAre(starts: map<TxnIdx, nat>, ends: map<TxnIdx, nat>, t: TxnIdx)
    ensures t in TxTimes(starts, ends) <==> t in starts && t in ends
    ensures t in starts && t in ends && starts[t] <= ends[t] ==> starts[t] + TxTimes(starts, ends)[t] == ends[t]
    ensures t in starts && t in ends && ends[t] < starts[t] ==> TxTimes(starts, ends)[t] == 0
  {
    var times := TxTimes(starts, ends);
    assert t in times ==> times[t] == SaturatingSub(ends[t], starts[t]);
  }

  // ---- The lists in plain figures ----

  /** The slots some transaction touched, of one contract, and those that two or more touched. */
  ghost function SlotsOf(log: seq<Access>, c: Address): set<Slot> {
    set s | s in AttributedSlots(log) && s.addr == c
  }

  ghost function HotSlotsOf(log: seq<Access>, c: Address): set<Slot> {
    set s | s in AttributedSlots(log) && s.addr == c && |TxnsOn(log, s)| >= 2
  }

  /** The accesses, with or without a transaction, of those slots. */
  ghost function AccessesTo(log: seq<Access>, c: Address): set<int> {
    set i | 0 <= i < |log| && log[i].slot in SlotsOf(log, c)
  }

  /** The transactions that touched both contracts of a pair. */
  ghost function Sharing(log: seq<Access>, e: Edge): set<TxnIdx> {
    set t | t in Txns(log) && e.a in ContractsOf(log, t) && e.b in ContractsOf(log, t)
  }

  /** Contract c has p of its q touched slots contended, d has r of s, and c comes no later: it has more contended
      slots, or as many and no smaller a share. */
  predicate NoLater(p: nat, q: nat, r: nat, s: nat) { p > r || (p == r && p * s >= r * q) }

  /** At most 20 slots, each one contended and listed once with its figures, in falling order of transactions;
      a contended slot that is not listed has no more transactions than any that is, and there is none such
      while the list has room. */
  ghost predicate RanksSlots(log: seq<Access>, top: seq<SlotEntry>) {
    && |top| <= 20
    && (forall i :: 0 <= i < |top| ==>
          && |TxnsOn(log, top[i].slot)| >= 2 && top[i].txnCount == |TxnsOn(log, top[i].slot)|
          && top[i].accessCount == |Hits(log, top[i].slot)|)
    && (forall i, j :: 0 <= i < j < |top| ==> top[i].slot != top[j].slot && top[i].txnCount >= top[j].txnCount)
    && (forall s :: |TxnsOn(log, s)| >= 2 && SlotLeftOut(top, s) ==>
          |top| == 20 && forall i :: 0 <= i < |top| ==> |TxnsOn(log, s)| <= top[i].txnCount)
  }

  ghost predicate SlotLeftOut(top: seq<SlotEntry>, s: Slot) { forall i :: 0 <= i < |top| ==> top[i].slot != s }

  /** At most 15 contracts, each with a contended slot and listed once with its figures: more contended slots first,
      then the larger share; the same holds against every contract left out. */
  ghost predicate RanksContracts(log: seq<Access>, top: seq<ContractEntry>) {
    && |top| <= 15
    && (forall i :: 0 <= i < |top| ==>
          && top[i].contendedSlots == |HotSlotsOf(log, top[i].addr)| >= 1
          && top[i].totalSlots == |SlotsOf(log, top[i].addr)|
          && top[i].totalAccesses == |AccessesTo(log, top[i].addr)|)
    && (forall i, j :: 0 <= i < j < |top| ==>
          && top[i].addr != top[j].addr
          && NoLater(top[i].contendedSlots, top[i].totalSlots, top[j].contendedSlots, top[j].totalSlots))
    && (forall c :: |HotSlotsOf(log, c)| >= 1 && ContractLeftOut(top, c) ==>
          && |top| == 15
          && forall i :: 0 <= i < |top| ==>
               NoLater(top[i].contendedSlots, top[i].totalSlots, |HotSlotsOf(log, c)|, |SlotsOf(log, c)|))
  }

  ghost predicate ContractLeftOut(top: seq<ContractEntry>, c: Address) { forall i :: 0 <= i < |top| ==> top[i].addr != c }

  /** At most 15 pairs of contracts, smaller address first, each listed once with the number of transactions that
      touched both, in falling order; no pair left out has more. */
  ghost predicate RanksEdges(log: seq<Access>, top: seq<EdgeEntry>) {
    && |top| <= 15
    && (forall i :: 0 <= i < |top| ==>
          top[i].edge.a < top[i].edge.b && top[i].sharedTxns == |Sharing(log, top[i].edge)| >= 1)
    && (forall i, j :: 0 <= i < j < |top| ==> top[i].edge != top[j].edge && top[i].sharedTxns >= top[j].sharedTxns)
    && (forall e :: |Sharing(log, e)| >= 1 && e.a < e.b && EdgeLeftOut(top, e) ==>
          |top| == 15 && forall i :: 0 <= i < |top| ==> |Sharing(log, e)| <= top[i].sharedTxns)
  }

  ghost predicate EdgeLeftOut(top: seq<EdgeEntry>, e: Edge) { forall i :: 0 <= i < |top| ==> top[i].edge != e }

  /** What a selection leaves out comes no earlier than anything kept, and a selection with room leaves nothing out. */
  lemma LeftOutRanksLast<A>(before: (A, A) -> bool, all: set<A>, n: nat, kept: seq<A>, x: A)
    requires TopOf(before, all, n, kept) && x in all && x !in kept
    ensures |kept| == n && forall i :: 0 <= i < |kept| ==> before(kept[i], x)
  {
    if |all| <= n {
      DistinctFillsSet(kept);
      ProperIsSmaller(ElementsOf(kept), all, x);
    }
  }

  lemma ProperIsSmaller<A>(s: set<A>, t: set<A>, x: A)
    requires s <= t && x in t && x !in s
    ensures |s| < |t|
  {
    SubsetIsSmaller(s, t - {x});
  }

  lemma {:induction false} SubsetIsSmaller<A>(s: set<A>, t: set<A>)
    requires s <= t
    ensures |s| <= |t|
    decreases |s|
  {
    if s != {} {
      var y := Pick(s);
      SubsetIsSmaller(s - {y}, t - {y});
    }
  }

  // ---- Slots ----

  lemma TouchedIsAttributed(log: seq<Access>, s: Slot)
    ensures s in AttributedSlots(log) <==> |TxnsOn(log, s)| >= 1
    ensures s in AttributedSlots(log) ==> s in TouchedSlots(log)
  {
    if s in AttributedSlots(log) {
      var i :| 0 <= i < |log| && log[i].txn.Some? && log[i].slot == s;
      assert log[i].txn.value in TxnsOn(log, s);
    } else {
      assert forall i :: 0 <= i < |log| && log[i].txn.Some? ==> log[i].slot in AttributedSlots(log);
      assert TxnsOn(log, s) == {};
    }
  }

  lemma SlotRowIn(log: seq<Access>, r: SlotEntry)
    ensures r in SlotRows(SlotTxns(log), AccessCounts(log)) <==>
            |TxnsOn(log, r.slot)| >= 2 && r.txnCount == |TxnsOn(log, r.slot)| && r.accessCount == |Hits(log, r.slot)|
  {
    TouchedIsAttributed(log, r.slot);
    var slots, counts := SlotTxns(log), AccessCounts(log);
    if r.slot in slots {
      assert SlotRow(slots, counts, r.slot) == SlotEntry(r.slot, |TxnsOn(log, r.slot)|, |Hits(log, r.slot)|);
    }
  }

  lemma SlotsAreRanked(log: seq<Access>, top: seq<SlotEntry>)
    requires TopOf(MoreTxns, SlotRows(SlotTxns(log), AccessCounts(log)), MAX_SLOTS, top)
    ensures RanksSlots(log, top)
  {
    var all := SlotRows(SlotTxns(log), AccessCounts(log));
    forall i | 0 <= i < |top|
      ensures |TxnsOn(log, top[i].slot)| >= 2 && top[i].txnCount == |TxnsOn(log, top[i].slot)|
              && top[i].accessCount == |Hits(log, top[i].slot)|
    {
      SlotRowIn(log, top[i]);
    }
    forall i, j | 0 <= i < j < |top| ensures top[i].slot != top[j].slot && top[i].txnCount >= top[j].txnCount {
      assert MoreTxns(top[i], top[j]);
    }
    forall s | |TxnsOn(log, s)| >= 2 && SlotLeftOut(top, s)
      ensures |top| == 20 && forall i :: 0 <= i < |top| ==> |TxnsOn(log, s)| <= top[i].txnCount
    {
      SlotIsCut(log, top, s);
    }
  }

  lemma SlotIsCut(log: seq<Access>, top: seq<SlotEntry>, s: Slot)
    requires TopOf(MoreTxns, SlotRows(SlotTxns(log), AccessCounts(log)), MAX_SLOTS, top)
    requires |TxnsOn(log, s)| >= 2 && SlotLeftOut(top, s)
    ensures |top| == 20 && forall i :: 0 <= i < |top| ==> |TxnsOn(log, s)| <= top[i].txnCount
  {
    var all, r := SlotRows(SlotTxns(log), AccessCounts(log)), SlotEntry(s, |TxnsOn(log, s)|, |Hits(log, s)|);
    SlotRowIn(log, r);
    assert r !in top;
    LeftOutRanksLast(MoreTxns, all, MAX_SLOTS, top, r);
    assert forall i :: 0 <= i < |top| ==> MoreTxns(top[i], r);
  }

  // ---- Contracts ----

  lemma FiguresOf(log: seq<Access>, c: Address)
    ensures SlotsAt(SlotTxns(log), c) == SlotsOf(log, c) && ContendedAt(SlotTxns(log), c) == HotSlotsOf(log, c)
    ensures c in Contracts(SlotTxns(log)) <==> SlotsOf(log, c) != {}
  {
    var slots := SlotTxns(log);
    assert forall s :: s in slots <==> s in AttributedSlots(log);
    assert forall s :: s in slots ==> slots[s] == TxnsOn(log, s);
    if c in Contracts(slots) {
      var s :| s in slots && s.addr == c;
      assert s in SlotsOf(log, c);
    }
  }

  lemma {:induction false} HitsAddUp(log: seq<Access>, some: set<Slot>)
    ensures MapSum(map s | s in some :: |Hits(log, s)|) == |set i | 0 <= i < |log| && log[i].slot in some|
    decreases |some|
  {
    var m, hit := map s | s in some :: |Hits(log, s)|, set i | 0 <= i < |log| && log[i].slot in some;
    if some == {} {
      assert hit == {};
    } else {
      var x := Pick(some);
      var fewer := set i | 0 <= i < |log| && log[i].slot in some - {x};
      HitsAddUp(log, some - {x});
      SumRemove(m, x);
      assert m - {x} == map s | s in some - {x} :: |Hits(log, s)|;
      assert hit == fewer + Hits(log, x) && fewer !! Hits(log, x);
    }
  }

  lemma AccessesAddUp(log: seq<Access>, c: Address)
    ensures AccessesAt(SlotTxns(log), AccessCounts(log), c) == |AccessesTo(log, c)|
  {
    HitsAddUp(log, SlotsOf(log, c));
    FiberOfHits(log, c);
  }

  lemma FiberOfHits(log: seq<Access>, c: Address)
    ensures Fiber(AccessWeights(SlotTxns(log), AccessCounts(log)), AddrOf, c) == map s | s in SlotsOf(log, c) :: |Hits(log, s)|
  {
    forall s | s in SlotsOf(log, c) ensures Get(AccessCounts(log), s, 0) == |Hits(log, s)| {
      TouchedIsAttributed(log, s);
    }
  }

  lemma ContractRowIn(log: seq<Access>, r: ContractEntry)
    ensures r in ContractRows(SlotTxns(log), AccessCounts(log)) <==>
            && r.contendedSlots == |HotSlotsOf(log, r.addr)| >= 1 && r.totalSlots == |SlotsOf(log, r.addr)|
            && r.totalAccesses == |AccessesTo(log, r.addr)|
  {
    FiguresOf(log, r.addr);
    AccessesAddUp(log, r.addr);
    HotAreSlots(log, r.addr);
    assert ContractRow(SlotTxns(log), AccessCounts(log), r.addr) ==
           ContractEntry(r.addr, |SlotsOf(log, r.addr)|, |HotSlotsOf(log, r.addr)|, |AccessesTo(log, r.addr)|);
  }

  lemma HotAreSlots(log: seq<Access>, c: Address)
    ensures HotSlotsOf(log, c) <= SlotsOf(log, c)
  {
  }

  lemma ContractsAreRanked(log: seq<Access>, top: seq<ContractEntry>)
    requires TopOf(MoreContended, ContractRows(SlotTxns(log), AccessCounts(log)), MAX_CONTRACTS, top)
    ensures RanksContracts(log, top)
  {
    forall i | 0 <= i < |top|
      ensures top[i].contendedSlots == |HotSlotsOf(log, top[i].addr)| >= 1
              && top[i].totalSlots == |SlotsOf(log, top[i].addr)|
              && top[i].totalAccesses == |AccessesTo(log, top[i].addr)|
    {
      ContractRowIn(log, top[i]);
    }
    forall i, j | 0 <= i < j < |top|
      ensures top[i].addr != top[j].addr
              && NoLater(top[i].contendedSlots, top[i].totalSlots, top[j].contendedSlots, top[j].totalSlots)
    {
      assert MoreContended(top[i], top[j]);
    }
    forall c | |HotSlotsOf(log, c)| >= 1 && ContractLeftOut(top, c)
      ensures |top| == 15
              && forall i :: 0 <= i < |top| ==>
                   NoLater(top[i].contendedSlots, top[i].totalSlots, |HotSlotsOf(log, c)|, |SlotsOf(log, c)|)
    {
      ContractIsCut(log, top, c);
    }
  }

  lemma ContractIsCut(log: seq<Access>, top: seq<ContractEntry>, c: Address)
    requires TopOf(MoreContended, ContractRows(SlotTxns(log), AccessCounts(log)), MAX_CONTRACTS, top)
    requires |HotSlotsOf(log, c)| >= 1 && ContractLeftOut(top, c)
    ensures |top| == 15
            && forall i :: 0 <= i < |top| ==>
                 NoLater(top[i].contendedSlots, top[i].totalSlots, |HotSlotsOf(log, c)|, |SlotsOf(log, c)|)
  {
    var r := ContractEntry(c, |SlotsOf(log, c)|, |HotSlotsOf(log, c)|, |AccessesTo(log, c)|);
    ContractRowIn(log, r);
    assert r !in top;
    LeftOutRanksLast(MoreContended, ContractRows(SlotTxns(log), AccessCounts(log)), MAX_CONTRACTS, top, r);
    assert forall i :: 0 <= i < |top| ==> MoreContended(top[i], r);
  }

  // ---- Pairs of contracts ----

  lemma EdgeRowIn(log: seq<Access>, r: EdgeEntry)
    ensures r in EdgeRows(EdgeCounts(TxnContracts(log))) <==>
            r.edge.a < r.edge.b && r.sharedTxns == |Sharing(log, r.edge)| >= 1
  {
    var contracts := TxnContracts(log);
    EdgeCountAt(contracts, r.edge);
    SharingIsShared(log, r.edge);
    if r.edge in EdgeCounts(contracts) {
      assert EdgeCounts(contracts)[r.edge] == |SharedTxns(contracts, r.edge)|;
    }
  }

  lemma SharingIsShared(log: seq<Access>, e: Edge)
    ensures SharedTxns(TxnContracts(log), e) == Sharing(log, e)
  {
    var contracts := TxnContracts(log);
    assert forall t :: t in contracts <==> t in Txns(log);
    assert forall t :: t in contracts ==> contracts[t] == ContractsOf(log, t);
  }

  lemma EdgesAreRanked(log: seq<Access>, top: seq<EdgeEntry>)
    requires TopOf(MoreShared, EdgeRows(EdgeCounts(TxnContracts(log))), MAX_EDGES, top)
    ensures RanksEdges(log, top)
  {
    forall i | 0 <= i < |top|
      ensures top[i].edge.a < top[i].edge.b && top[i].sharedTxns == |Sharing(log, top[i].edge)| >= 1
    {
      EdgeRowIn(log, top[i]);
    }
    forall i, j | 0 <= i < j < |top| ensures top[i].edge != top[j].edge && top[i].sharedTxns >= top[j].sharedTxns {
      assert MoreShared(top[i], top[j]);
    }
    forall e | |Sharing(log, e)| >= 1 && e.a < e.b && EdgeLeftOut(top, e)
      ensures |top| == 15 && forall i :: 0 <= i < |top| ==> |Sharing(log, e)| <= top[i].sharedTxns
    {
      EdgeIsCut(log, top, e);
    }
  }

  lemma EdgeIsCut(log: seq<Access>, top: seq<EdgeEntry>, e: Edge)
    requires TopOf(MoreShared, EdgeRows(EdgeCounts(TxnContracts(log))), MAX_EDGES, top)
    requires |Sharing(log, e)| >= 1 && e.a < e.b && EdgeLeftOut(top, e)
    ensures |top| == 15 && forall i :: 0 <= i < |top| ==> |Sharing(log, e)| <= top[i].sharedTxns
  {
    var r := EdgeEntry(e, |Sharing(log, e)|);
    EdgeRowIn(log, r);
    assert r !in top;
    LeftOutRanksLast(MoreShared, EdgeRows(EdgeCounts(TxnContracts(log))), MAX_EDGES, top, r);
    assert forall i :: 0 <= i < |top| ==> MoreShared(top[i], r);
  }

  /** How many slots were touched, and how many of them by two or more transactions. */
  lemma BlockTotals(log: seq<Access>)
    ensures |SlotTxns(log)| == |AttributedSlots(log)|
    ensures Contended(SlotTxns(log)) == set s | s in AttributedSlots(log) && |TxnsOn(log, s)| >= 2
  {
    var slots := SlotTxns(log);
    assert slots.Keys == AttributedSlots(log);
    assert forall s :: s in slots ==> slots[s] == TxnsOn(log, s);
  }
}
