/** The contention tracker object (gateway/src/lib/contention_tracker.rs): incremental maps over the
    accesses of the current block, and the report computed from them when the block ends. */
module Contention {
  import opened Common
  import opened Sums
  import opened Sorting
  import opened ContentionLog
  import opened ContentionReport

  class ContentionTracker {
    var currentBlock: Option<nat>
    var blockStartNs: nat
    var txStartNs: map<TxnIdx, nat>
    var txEndNs: map<TxnIdx, nat>
    var slotTxns: map<Slot, set<TxnIdx>>
    var slotAccessCounts: map<Slot, nat>
    var txnContracts: map<TxnIdx, set<Address>>
    var txnCount: nat
    /** The accesses recorded since the current block started. */
    ghost var log: seq<Access>

    ghost predicate Valid()
      reads this
    {
      && slotTxns == SlotTxns(log)
      && slotAccessCounts == AccessCounts(log)
      && txnContracts == TxnContracts(log)
    }

    constructor ()
      ensures Valid() && log == [] && currentBlock == None && txnCount == 0
    {
      currentBlock, blockStartNs, txnCount, log := None, 0, 0, [];
      txStartNs, txEndNs, slotTxns, slotAccessCounts, txnContracts := map[], map[], map[], map[], map[];
    }

    method OnBlockStart(number: nat, ts: nat)
      modifies this
      ensures Valid() && log == []
      ensures currentBlock == Some(number) && blockStartNs == ts
      ensures txStartNs == map[] && txEndNs == map[] && txnCount == 0
    {
      currentBlock, blockStartNs, txnCount, log := Some(number), ts, 0, [];
      txStartNs, txEndNs, slotTxns, slotAccessCounts, txnContracts := map[], map[], map[], map[], map[];
    }

    method OnTxnStart(txn: TxnIdx, ts: nat)
      requires Valid()
      modifies this`txStartNs, this`txnCount
      ensures Valid() && txStartNs == old(txStartNs)[txn := ts] && txnCount == old(txnCount) + 1
    {
      txStartNs := txStartNs[txn := ts];
      txnCount := txnCount + 1;
    }

    method OnTxnEnd(txn: TxnIdx, ts: nat)
      requires Valid()
      modifies this`txEndNs
      ensures Valid() && txEndNs == old(txEndNs)[txn := ts]
    {
      txEndNs := txEndNs[txn := ts];
    }

    /** The maps keep equal to their definitions over the grown log. */
    method OnStorageAccess(addr: Address, key: int, txn: Option<TxnIdx>)
      requires Valid()
      modifies this`slotTxns, this`slotAccessCounts, this`txnContracts, this`log
      ensures Valid() && log == old(log) + [Access(Slot(addr, key), txn)]
    {
      var slot := Slot(addr, key);
      ghost var access := Access(slot, txn);
      AppendCounts(log, access);
      AppendSlotTxns(log, access);
      AppendTxnContracts(log, access);
      slotAccessCounts := slotAccessCounts[slot := Get(slotAccessCounts, slot, 0) + 1];
      if txn.Some? {
        slotTxns := slotTxns[slot := Get(slotTxns, slot, {}) + {txn.value}];
        txnContracts := txnContracts[txn.value := Get(txnContracts, txn.value, {}) + {addr}];
      }
      log := log + [access];
    }

    method TotalTxTime() returns (total: nat)
      ensures total == MapSum(TxTimes(txStartNs, txEndNs))
    {
      total := 0;
      var pending := txStartNs.Keys;
      ghost var times := TxTimes(txStartNs, txEndNs);
      assert times - (times.Keys - pending) == times;
      while pending != {}
        invariant pending <= txStartNs.Keys
        invariant total + MapSum(times - (times.Keys - pending)) == MapSum(times)
        decreases |pending|
      {
        ghost var someone := Pick(pending);
        var txn :| txn in pending;
        TimesLeft(times, pending, txn);
        pending := pending - {txn};
        if txn in txEndNs {
          total := total + SaturatingSub(txEndNs[txn], txStartNs[txn]);
        }
      }
      assert times - (times.Keys - pending) == map[];
    }

    method ContendedSlotRows() returns (rows: seq<SlotEntry>)
      ensures Distinct(rows) && ElementsOf(rows) == SlotRows(slotTxns, slotAccessCounts)
    {
      rows := [];
      var pending := slotTxns.Keys;
      while pending != {}
        invariant pending <= slotTxns.Keys
        invariant Distinct(rows)
        invariant forall r :: r in rows <==>
                    r.slot in slotTxns && r.slot !in pending && IsContended(slotTxns, r.slot) &&
                    r == SlotEntry(r.slot, |slotTxns[r.slot]|, Get(slotAccessCounts, r.slot, 0))
        decreases |pending|
      {
        var slot :| slot in pending;
        pending := pending - {slot};
        if |slotTxns[slot]| >= 2 {
          rows := rows + [SlotEntry(slot, |slotTxns[slot]|, Get(slotAccessCounts, slot, 0))];
        }
      }
      ghost var all := SlotRows(slotTxns, slotAccessCounts);
      assert forall r :: r in all ==> r in rows;
      assert forall r :: r in rows ==> r == SlotRow(slotTxns, slotAccessCounts, r.slot);
    }

    method CountEdges() returns (edges: map<Edge, nat>)
      ensures edges == EdgeCounts(txnContracts)
    {
      edges := map[];
      var pending := txnContracts.Keys;
      ghost var done: map<TxnIdx, set<Address>> := map[];
      assert EdgeCounts(done) == map[];
      while pending != {}
        invariant pending <= txnContracts.Keys
        invariant done == txnContracts - pending
        invariant edges == EdgeCounts(done)
        decreases |pending|
      {
        ghost var someone := Pick(pending);
        var txn :| txn in pending;
        pending := pending - {txn};
        var addrs := Listing(txnContracts[txn]);
        edges := AddPairs(edges, addrs);
        EdgeCountsGrow(done[txn := txnContracts[txn]], txn);
        assert done[txn := txnContracts[txn]] - {txn} == done;
        done := done[txn := txnContracts[txn]];
      }
      assert done == txnContracts;
    }

    /** The report, by its rows and orders, and in plain figures about the accesses of the block. */
    method OnBlockEnd(ts: nat) returns (data: Option<ContentionData>)
      requires Valid()
      ensures data.None? <==> currentBlock.None?
      ensures data.Some? ==>
                var d, txTime := data.value, MapSum(TxTimes(txStartNs, txEndNs));
                && d.blockNumber == currentBlock.value && d.txnCount == txnCount
                && d.wallTimeNs == SaturatingSub(ts, blockStartNs)
                && d.txTimeNs == txTime && d.savedNs == SaturatingSub(txTime, d.wallTimeNs)
                && d.uniqueSlots == |slotTxns|
                && d.contendedSlots == |Contended(slotTxns)|
                && TopOf(MoreTxns, SlotRows(slotTxns, slotAccessCounts), MAX_SLOTS, d.topSlots)
                && TopOf(MoreContended, ContractRows(slotTxns, slotAccessCounts), MAX_CONTRACTS, d.topContracts)
                && TopOf(MoreShared, EdgeRows(EdgeCounts(txnContracts)), MAX_EDGES, d.edges)
      ensures data.Some? ==>
                var d := data.value;
                && d.uniqueSlots == |AttributedSlots(log)|
                && d.contendedSlots == |set s | s in AttributedSlots(log) && |TxnsOn(log, s)| >= 2|
                && RanksSlots(log, d.topSlots) && RanksContracts(log, d.topContracts) && RanksEdges(log, d.edges)
    {
      if currentBlock.None? {
        return None;
      }
      var wall := SaturatingSub(ts, blockStartNs);
      var txTime := TotalTxTime();
      OrdersAreTotal();
      var slotRows := ContendedSlotRows();
      SlotRowsCount(slotTxns, slotAccessCounts);
      DistinctFillsSet(slotRows);
      SelectTop(MoreTxns, slotRows, MAX_SLOTS);
      var contractRows := ContractStats(slotTxns, slotAccessCounts);
      SelectTop(MoreContended, contractRows, MAX_CONTRACTS);
      var edgeCounts := CountEdges();
      var edgeRows := EdgeListing(edgeCounts);
      SelectTop(MoreShared, edgeRows, MAX_EDGES);
      data := Some(ContentionData(
        currentBlock.value, wall, txTime, SaturatingSub(txTime, wall), |slotTxns|, |slotRows|, txnCount,
        Truncate(SortBy(MoreTxns, slotRows), MAX_SLOTS),
        Truncate(SortBy(MoreContended, contractRows), MAX_CONTRACTS),
        Truncate(SortBy(MoreShared, edgeRows), MAX_EDGES)));
      BlockTotals(log);
      SlotsAreRanked(log, data.value.topSlots);
      ContractsAreRanked(log, data.value.topContracts);
      EdgesAreRanked(log, data.value.edges);
    }
  }

  /** One pass over the slots, accumulating per contract the slots, the contended slots and the accesses. */
  method GroupByContract(slots: map<Slot, set<TxnIdx>>, counts: map<Slot, nat>)
    returns (totals: map<Address, set<Slot>>, contended: map<Address, nat>, accesses: map<Address, nat>)
    ensures Grouped(slots, counts, totals, contended, accesses)
  {
    totals, contended, accesses := map[], map[], map[];
    var pending := slots.Keys;
    ghost var done: map<Slot, set<TxnIdx>> := map[];
    NothingGrouped(counts);
    while pending != {}
      invariant pending <= slots.Keys && done == slots - pending
      invariant Grouped(done, counts, totals, contended, accesses)
      decreases |pending|
    {
      var slot :| slot in pending;
      GroupOne(done, counts, totals, contended, accesses, slot, slots[slot]);
      MoveOne(slots, pending, slot);
      pending := pending - {slot};
      done := done[slot := slots[slot]];
      totals := totals[slot.addr := Get(totals, slot.addr, {}) + {slot}];
      accesses := accesses[slot.addr := Get(accesses, slot.addr, 0) + Get(counts, slot, 0)];
      if |slots[slot]| >= 2 {
        contended := contended[slot.addr := Get(contended, slot.addr, 0) + 1];
      }
    }
    assert done == slots;
  }

  lemma MoveOne(slots: map<Slot, set<TxnIdx>>, pending: set<Slot>, slot: Slot)
    requires slot in pending && pending <= slots.Keys
    ensures (slots - pending)[slot := slots[slot]] == slots - (pending - {slot})
  {
  }

  /** The rows of the contracts that have a contended slot. */
  method ContractStats(slots: map<Slot, set<TxnIdx>>, counts: map<Slot, nat>) returns (rows: seq<ContractEntry>)
    ensures Distinct(rows) && ElementsOf(rows) == ContractRows(slots, counts)
  {
    var totals, contended, accesses := GroupByContract(slots, counts);
    rows := HotRows(totals, contended, accesses);
    RowsAreContractRows(slots, counts, rows);
  }

  /** One row per contract with a nonzero contended count. */
  method HotRows(totals: map<Address, set<Slot>>, contended: map<Address, nat>, accesses: map<Address, nat>)
    returns (rows: seq<ContractEntry>)
    ensures Distinct(rows)
    ensures forall r :: r in rows <==>
              r.addr in totals && Get(contended, r.addr, 0) != 0 &&
              r == ContractEntry(r.addr, |totals[r.addr]|, Get(contended, r.addr, 0), Get(accesses, r.addr, 0))
  {
    rows := [];
    var pending := totals.Keys;
    while pending != {}
      invariant pending <= totals.Keys && Distinct(rows)
      invariant forall r :: r in rows <==>
                  r.addr in totals && r.addr !in pending && Get(contended, r.addr, 0) != 0 &&
                  r == ContractEntry(r.addr, |totals[r.addr]|, Get(contended, r.addr, 0), Get(accesses, r.addr, 0))
      decreases |pending|
    {
      ghost var someone := Pick(pending);
      var addr :| addr in pending;
      pending := pending - {addr};
      var hot := Get(contended, addr, 0);
      if hot != 0 {
        rows := rows + [ContractEntry(addr, |totals[addr]|, hot, Get(accesses, addr, 0))];
      }
    }
  }

  lemma RowsAreContractRows(slots: map<Slot, set<TxnIdx>>, counts: map<Slot, nat>, rows: seq<ContractEntry>)
    requires var totals, contended, accesses := TotalsOf(slots), HotOf(slots), AccessesOf(slots, counts);
             forall r :: r in rows <==>
               r.addr in totals && Get(contended, r.addr, 0) != 0 &&
               r == ContractEntry(r.addr, |totals[r.addr]|, Get(contended, r.addr, 0), Get(accesses, r.addr, 0))
    ensures ElementsOf(rows) == ContractRows(slots, counts)
  {
    forall r ensures r in rows <==> r in ContractRows(slots, counts) {
      RowIn(slots, counts, r);
      FiguresAt(slots, counts, r.addr);
    }
  }

  lemma FiguresAt(slots: map<Slot, set<TxnIdx>>, counts: map<Slot, nat>, c: Address)
    ensures c in TotalsOf(slots) <==> c in Contracts(slots)
    ensures Get(HotOf(slots), c, 0) == |ContendedAt(slots, c)|
    ensures c in Contracts(slots) ==>
              TotalsOf(slots)[c] == SlotsAt(slots, c) && Get(AccessesOf(slots, counts), c, 0) == AccessesAt(slots, counts, c)
  {
    if c !in Contracts(slots) {
      assert ContendedAt(slots, c) == {};
    }
  }

  lemma RowIn(slots: map<Slot, set<TxnIdx>>, counts: map<Slot, nat>, r: ContractEntry)
    ensures r in ContractRows(slots, counts) <==>
            r.addr in Contracts(slots) && |ContendedAt(slots, r.addr)| != 0 && r == ContractRow(slots, counts, r.addr)
  {
  }

  /** Nested index loops over the contracts of one transaction, in whatever order its set yields them. */
  method AddPairs(edges: map<Edge, nat>, addrs: seq<Address>) returns (edges': map<Edge, nat>)
    requires Distinct(addrs)
    ensures edges' == Bumped(edges, PairsOf(ElementsOf(addrs)))
  {
    edges' := edges;
    for i := 0 to |addrs|
      invariant edges' == RowsCounted(edges, addrs, i)
    {
      for j := i + 1 to |addrs|
        invariant edges' == RowCounted(RowsCounted(edges, addrs, i), addrs, i, j)
      {
        var e := if addrs[i] < addrs[j] then Edge(addrs[i], addrs[j]) else Edge(addrs[j], addrs[i]);
        edges' := edges'[e := Get(edges', e, 0) + 1];
      }
    }
    RowsAreDone(edges, addrs, |addrs|);
    PairsOfNothing(ElementsOf(addrs[|addrs|..]));
    assert PairsOf(ElementsOf(addrs)) - PairsOf(ElementsOf(addrs[|addrs|..])) == PairsOf(ElementsOf(addrs));
  }

  /** The elements of a set in some order. */
  method Listing(s: set<Address>) returns (elements: seq<Address>)
    ensures Distinct(elements) && ElementsOf(elements) == s
  {
    elements := [];
    var pending := s;
    while pending != {}
      invariant pending <= s && Distinct(elements)
      invariant forall x :: x in elements <==> x in s && x !in pending
      decreases |pending|
    {
      ghost var someone := Pick(pending);
      var x :| x in pending;
      pending := pending - {x};
      elements := elements + [x];
    }
    assert forall x :: x in elements <==> x in s;
  }

  method EdgeListing(counts: map<Edge, nat>) returns (rows: seq<EdgeEntry>)
    ensures Distinct(rows) && ElementsOf(rows) == EdgeRows(counts)
  {
    rows := [];
    var pending := counts.Keys;
    while pending != {}
      invariant pending <= counts.Keys && Distinct(rows)
      invariant forall r :: r in rows <==> r.edge in counts && r.edge !in pending && r == EdgeEntry(r.edge, counts[r.edge])
      decreases |pending|
    {
      var e :| e in pending;
      pending := pending - {e};
      rows := rows + [EdgeEntry(e, counts[e])];
    }
    assert forall r :: r in EdgeRows(counts) ==> r in rows;
  }

  // ---- Steps of the loops ----

  lemma TimesLeft(times: map<TxnIdx, nat>, pending: set<TxnIdx>, txn: TxnIdx)
    requires txn in pending
    ensures MapSum(times - (times.Keys - pending)) ==
            Get(times, txn, 0) + MapSum(times - (times.Keys - (pending - {txn})))
  {
    var left := times - (times.Keys - pending);
    assert times - (times.Keys - (pending - {txn})) == left - {txn};
    if txn in times {
      SumRemove(left, txn);
    } else {
      assert left - {txn} == left;
    }
  }

  // What the three accumulators hold, per contract, once the slots of a map have been passed.

  ghost function TotalsOf(slots: map<Slot, set<TxnIdx>>): map<Address, set<Slot>> {
    map c | c in Contracts(slots) :: SlotsAt(slots, c)
  }

  ghost function HotOf(slots: map<Slot, set<TxnIdx>>): map<Address, nat> {
    map c | c in Contracts(slots) && ContendedAt(slots, c) != {} :: |ContendedAt(slots, c)|
  }

  ghost function AccessesOf(slots: map<Slot, set<TxnIdx>>, counts: map<Slot, nat>): map<Address, nat> {
    map c | c in Contracts(slots) :: AccessesAt(slots, counts, c)
  }

  ghost predicate Grouped(slots: map<Slot, set<TxnIdx>>, counts: map<Slot, nat>, totals: map<Address, set<Slot>>,
                          contended: map<Address, nat>, accesses: map<Address, nat>) {
    totals == TotalsOf(slots) && contended == HotOf(slots) && accesses == AccessesOf(slots, counts)
  }

  lemma GroupOne(done: map<Slot, set<TxnIdx>>, counts: map<Slot, nat>, totals: map<Address, set<Slot>>,
                 contended: map<Address, nat>, accesses: map<Address, nat>, slot: Slot, txns: set<TxnIdx>)
    requires slot !in done && Grouped(done, counts, totals, contended, accesses)
    ensures Grouped(done[slot := txns], counts, totals[slot.addr := Get(totals, slot.addr, {}) + {slot}],
              if |txns| >= 2 then contended[slot.addr := Get(contended, slot.addr, 0) + 1] else contended,
              accesses[slot.addr := Get(accesses, slot.addr, 0) + Get(counts, slot, 0)])
  {
    GroupTotal(done, totals, slot, txns);
    GroupContended(done, contended, slot, txns);
    GroupAccesses(done, counts, accesses, slot, txns);
  }

  lemma NothingGrouped(counts: map<Slot, nat>)
    ensures TotalsOf(map[]) == map[] && HotOf(map[]) == map[] && AccessesOf(map[], counts) == map[]
  {
  }

  lemma ContractsGrow(done: map<Slot, set<TxnIdx>>, slot: Slot, txns: set<TxnIdx>)
    ensures Contracts(done[slot := txns]) == Contracts(done) + {slot.addr}
  {
    assert slot in done[slot := txns];
    forall c | c in Contracts(done) ensures c in Contracts(done[slot := txns]) {
      var s :| s in done && s.addr == c;
      assert s in done[slot := txns];
    }
  }

  lemma GroupTotal(done: map<Slot, set<TxnIdx>>, totals: map<Address, set<Slot>>, slot: Slot, txns: set<TxnIdx>)
    requires totals == TotalsOf(done)
    ensures totals[slot.addr := Get(totals, slot.addr, {}) + {slot}] == TotalsOf(done[slot := txns])
  {
    ContractsGrow(done, slot, txns);
    forall c ensures SlotsAt(done[slot := txns], c) == if c == slot.addr then SlotsAt(done, c) + {slot} else SlotsAt(done, c)
             ensures c !in Contracts(done) ==> SlotsAt(done, c) == {} {
    }
  }

  lemma GroupContended(done: map<Slot, set<TxnIdx>>, contended: map<Address, nat>, slot: Slot, txns: set<TxnIdx>)
    requires slot !in done && contended == HotOf(done)
    ensures (if |txns| >= 2 then contended[slot.addr := Get(contended, slot.addr, 0) + 1] else contended)
         == HotOf(done[slot := txns])
  {
    var grown := if |txns| >= 2 then contended[slot.addr := Get(contended, slot.addr, 0) + 1] else contended;
    forall c ensures c in HotOf(done[slot := txns]) <==> c in grown
             ensures c in grown ==> HotOf(done[slot := txns])[c] == grown[c] {
      HotAt(done, c);
      HotAt(done[slot := txns], c);
      AddContended(done, slot, txns, c);
    }
  }

  lemma HotAt(slots: map<Slot, set<TxnIdx>>, c: Address)
    ensures c in HotOf(slots) <==> |ContendedAt(slots, c)| > 0
    ensures Get(HotOf(slots), c, 0) == |ContendedAt(slots, c)|
  {
    if c !in Contracts(slots) {
      assert ContendedAt(slots, c) == {};
    }
  }

  lemma GroupAccesses(done: map<Slot, set<TxnIdx>>, counts: map<Slot, nat>, accesses: map<Address, nat>, slot: Slot, txns: set<TxnIdx>)
    requires slot !in done && accesses == AccessesOf(done, counts)
    ensures accesses[slot.addr := Get(accesses, slot.addr, 0) + Get(counts, slot, 0)] == AccessesOf(done[slot := txns], counts)
  {
    var grown := accesses[slot.addr := Get(accesses, slot.addr, 0) + Get(counts, slot, 0)];
    ContractsGrow(done, slot, txns);
    forall c | c in grown ensures AccessesOf(done[slot := txns], counts)[c] == grown[c] {
      AddAccesses(done, counts, slot, txns, c);
      NoAccesses(done, counts, c);
    }
  }

  lemma NoAccesses(slots: map<Slot, set<TxnIdx>>, counts: map<Slot, nat>, c: Address)
    ensures c !in Contracts(slots) ==> AccessesAt(slots, counts, c) == 0
  {
    if c !in Contracts(slots) {
      assert Fiber(AccessWeights(slots, counts), AddrOf, c) == map[];
    }
  }

  lemma AddContended(done: map<Slot, set<TxnIdx>>, slot: Slot, txns: set<TxnIdx>, c: Address)
    requires slot !in done
    ensures |ContendedAt(done[slot := txns], c)| == |ContendedAt(done, c)| + (if c == slot.addr && |txns| >= 2 then 1 else 0)
  {
    if c == slot.addr && |txns| >= 2 {
      assert ContendedAt(done[slot := txns], c) == ContendedAt(done, c) + {slot};
    } else {
      assert ContendedAt(done[slot := txns], c) == ContendedAt(done, c);
    }
  }

  lemma AddAccesses(done: map<Slot, set<TxnIdx>>, counts: map<Slot, nat>, slot: Slot, txns: set<TxnIdx>, c: Address)
    requires slot !in done
    ensures AccessesAt(done[slot := txns], counts, c) ==
            AccessesAt(done, counts, c) + (if c == slot.addr then Get(counts, slot, 0) else 0)
  {
    var fiber := Fiber(AccessWeights(done, counts), AddrOf, c);
    if c == slot.addr {
      assert Fiber(AccessWeights(done[slot := txns], counts), AddrOf, c) == fiber[slot := Get(counts, slot, 0)];
      SumChange(fiber, slot, Get(counts, slot, 0));
    } else {
      assert Fiber(AccessWeights(done[slot := txns], counts), AddrOf, c) == fiber;
    }
  }

  lemma BumpOne(m: map<Edge, nat>, pairs: set<Edge>, e: Edge)
    requires e !in pairs
    ensures Bumped(m, pairs)[e := Get(Bumped(m, pairs), e, 0) + 1] == Bumped(m, pairs + {e})
  {
  }

  lemma SlotRowsCount(slots: map<Slot, set<TxnIdx>>, counts: map<Slot, nat>)
    ensures |SlotRows(slots, counts)| == |Contended(slots)|
  {
    RowsPerSlot(slots, counts, Contended(slots));
    assert SlotRows(slots, counts) == set s | s in Contended(slots) :: SlotRow(slots, counts, s);
  }

  lemma {:induction false} RowsPerSlot(slots: map<Slot, set<TxnIdx>>, counts: map<Slot, nat>, some: set<Slot>)
    requires some <= slots.Keys
    ensures |set s | s in some :: SlotRow(slots, counts, s)| == |some|
    decreases |some|
  {
    if some == {} {
    } else {
      var s := Pick(some);
      RowsPerSlot(slots, counts, some - {s});
      assert (set x | x in some :: SlotRow(slots, counts, x)) ==
             (set x | x in some - {s} :: SlotRow(slots, counts, x)) + {SlotRow(slots, counts, s)};
    }
  }

  /** The map after the inner loop of row i has reached j. */
  ghost function RowCounted(m: map<Edge, nat>, addrs: seq<Address>, i: nat, j: nat): map<Edge, nat>
    requires i < |addrs| && j <= |addrs|
  {
    if j <= i + 1 then m
    else
      var before := RowCounted(m, addrs, i, j - 1);
      var e := Ordered(addrs[i], addrs[j - 1]);
      before[e := Get(before, e, 0) + 1]
  }

  /** The map after i rows of the outer loop. */
  ghost function RowsCounted(m: map<Edge, nat>, addrs: seq<Address>, i: nat): map<Edge, nat>
    requires i <= |addrs|
  {
    if i == 0 then m else RowCounted(RowsCounted(m, addrs, i - 1), addrs, i - 1, |addrs|)
  }

  lemma PairsOfNothing(s: set<Address>)
    requires s == {}
    ensures PairsOf(s) == {}
  {
  }

  lemma BumpTwice(m: map<Edge, nat>, p: set<Edge>, q: set<Edge>)
    requires p !! q
    ensures Bumped(Bumped(m, p), q) == Bumped(m, p + q)
  {
  }

  lemma StarGrows(some: set<Address>, c: Address, d: Address)
    requires d !in some && c !in some && c != d
    ensures Star(some + {d}, c) == Star(some, c) + {Ordered(c, d)} && Ordered(c, d) !in Star(some, c)
  {
  }

  lemma SliceGrows(addrs: seq<Address>, i: nat, j: nat)
    requires Distinct(addrs) && i + 1 < j <= |addrs|
    ensures ElementsOf(addrs[i + 1..j]) == ElementsOf(addrs[i + 1..j - 1]) + {addrs[j - 1]}
    ensures addrs[j - 1] !in ElementsOf(addrs[i + 1..j - 1]) && addrs[i] !in ElementsOf(addrs[i + 1..j - 1])
  {
    assert addrs[i + 1..j] == addrs[i + 1..j - 1] + [addrs[j - 1]];
    ElementsGrow(addrs[i + 1..j - 1], addrs[j - 1]);
  }

  lemma StarBump(m: map<Edge, nat>, some: set<Address>, c: Address, d: Address)
    requires d !in some && c !in some && c != d
    ensures var before := Bumped(m, Star(some, c));
            before[Ordered(c, d) := Get(before, Ordered(c, d), 0) + 1] == Bumped(m, Star(some + {d}, c))
  {
    StarGrows(some, c, d);
    BumpOne(m, Star(some, c), Ordered(c, d));
  }

  /** A row counts the pairs of addrs[i] with the later addresses it has reached. */
  lemma {:induction false} RowIsDone(m: map<Edge, nat>, addrs: seq<Address>, i: nat, j: nat)
    requires Distinct(addrs) && i < j <= |addrs|
    ensures RowCounted(m, addrs, i, j) == Bumped(m, Star(ElementsOf(addrs[i + 1..j]), addrs[i]))
  {
    if j > i + 1 {
      RowIsDone(m, addrs, i, j - 1);
      RowStep(m, addrs, i, j);
    } else {
      StarOfNothing(addrs[i + 1..j], addrs[i]);
      BumpNothing(m);
    }
  }

  lemma RowStep(m: map<Edge, nat>, addrs: seq<Address>, i: nat, j: nat)
    requires Distinct(addrs) && i + 1 < j <= |addrs|
    ensures var before := Bumped(m, Star(ElementsOf(addrs[i + 1..j - 1]), addrs[i]));
            var e := Ordered(addrs[i], addrs[j - 1]);
            before[e := Get(before, e, 0) + 1] == Bumped(m, Star(ElementsOf(addrs[i + 1..j]), addrs[i]))
  {
    SliceGrows(addrs, i, j);
    StarBump(m, ElementsOf(addrs[i + 1..j - 1]), addrs[i], addrs[j - 1]);
  }

  lemma StarOfNothing(s: seq<Address>, c: Address)
    requires |s| == 0
    ensures Star(ElementsOf(s), c) == {}
  {
  }

  lemma BumpNothing(m: map<Edge, nat>)
    ensures Bumped(m, {}) == m
  {
  }

  /** After i rows, the pairs not yet counted are those among the addresses from i on. */
  lemma {:induction false} RowsAreDone(m: map<Edge, nat>, addrs: seq<Address>, i: nat)
    requires Distinct(addrs) && i <= |addrs|
    ensures RowsCounted(m, addrs, i) == Bumped(m, PairsOf(ElementsOf(addrs)) - PairsOf(ElementsOf(addrs[i..])))
  {
    var all := PairsOf(ElementsOf(addrs));
    if i == 0 {
      assert addrs[0..] == addrs;
      assert all - all == {};
      BumpNothing(m);
    } else {
      var k := i - 1;
      var later := ElementsOf(addrs[i..]);
      RowsAreDone(m, addrs, k);
      RowIsDone(RowsCounted(m, addrs, k), addrs, k, |addrs|);
      assert addrs[k + 1..|addrs|] == addrs[i..] && addrs[k..] == [addrs[k]] + addrs[i..];
      ElementsGrow(addrs[i..], addrs[k]);
      assert ElementsOf(addrs[k..]) - {addrs[k]} == later;
      PairsSplit(ElementsOf(addrs[k..]), addrs[k]);
      PairsMonotone(ElementsOf(addrs[k..]), ElementsOf(addrs));
      RowAlgebra(all, PairsOf(ElementsOf(addrs[k..])), PairsOf(later), Star(later, addrs[k]));
      BumpTwice(m, all - PairsOf(ElementsOf(addrs[k..])), Star(later, addrs[k]));
    }
  }

  lemma PairsMonotone(s: set<Address>, t: set<Address>)
    requires s <= t
    ensures PairsOf(s) <= PairsOf(t)
  {
  }

  lemma RowAlgebra(all: set<Edge>, from: set<Edge>, later: set<Edge>, row: set<Edge>)
    requires from <= all && from == later + row && later !! row
    ensures (all - from) !! row && all - later == all - from + row
  {
  }
}
