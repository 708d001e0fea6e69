/** What the contention tracker (gateway/src/lib/contention_tracker.rs) is about: the storage accesses of one
    block, as a log, and the quantities its report names, defined on that log and on the maps it induces. */
module ContentionLog {
  import opened Common
  import opened Sums

  /** Addresses, slot keys and transaction indices are only compared. */
  type Address = int
  type TxnIdx = int

  datatype Slot = Slot(addr: Address, key: int)

  function AddrOf(s: Slot): Address { s.addr }

  datatype Access = Access(slot: Slot, txn: Option<TxnIdx>)

  // ---- The three maps the tracker keeps, as functions of the log ----

  ghost function Hits(log: seq<Access>, s: Slot): set<int> { set i | 0 <= i < |log| && log[i].slot == s }

  ghost function TouchedSlots(log: seq<Access>): set<Slot> { set i | 0 <= i < |log| :: log[i].slot }

  ghost function AccessCounts(log: seq<Access>): map<Slot, nat> {
    map s | s in TouchedSlots(log) :: |Hits(log, s)|
  }

  ghost function AttributedSlots(log: seq<Access>): set<Slot> {
    set i | 0 <= i < |log| && log[i].txn.Some? :: log[i].slot
  }

  ghost function TxnsOn(log: seq<Access>, s: Slot): set<TxnIdx> {
    set i | 0 <= i < |log| && log[i].slot == s && log[i].txn.Some? :: log[i].txn.value
  }

  ghost function SlotTxns(log: seq<Access>): map<Slot, set<TxnIdx>> {
    map s | s in AttributedSlots(log) :: TxnsOn(log, s)
  }

  ghost function Txns(log: seq<Access>): set<TxnIdx> {
    set i | 0 <= i < |log| && log[i].txn.Some? :: log[i].txn.value
  }

  ghost function ContractsOf(log: seq<Access>, t: TxnIdx): set<Address> {
    set i | 0 <= i < |log| && log[i].txn == Some(t) :: log[i].slot.addr
  }

  ghost function TxnContracts(log: seq<Access>): map<TxnIdx, set<Address>> {
    map t | t in Txns(log) :: ContractsOf(log, t)
  }

  function Get<K, V>(m: map<K, V>, k: K, default: V): V { if k in m then m[k] else default }

  // ---- How each map changes when one access is appended to the log ----

  lemma AppendHits(log: seq<Access>, a: Access, s: Slot)
    ensures Hits(log + [a], s) == if s == a.slot then Hits(log, s) + {|log|} else Hits(log, s)
    ensures |Hits(log + [a], s)| == |Hits(log, s)| + (if s == a.slot then 1 else 0)
  {
    var log' := log + [a];
    forall i ensures i in Hits(log', s) <==> i in Hits(log, s) || (i == |log| && s == a.slot) {
    }
  }

  lemma AppendCounts(log: seq<Access>, a: Access)
    ensures AccessCounts(log + [a]) == AccessCounts(log)[a.slot := Get(AccessCounts(log), a.slot, 0) + 1]
  {
    var log' := log + [a];
    forall s ensures s in TouchedSlots(log') <==> s in TouchedSlots(log) || s == a.slot {
      AppendTouched(log, a, s);
    }
    forall s ensures |Hits(log', s)| == |Hits(log, s)| + (if s == a.slot then 1 else 0) {
      AppendHits(log, a, s);
    }
    if a.slot !in TouchedSlots(log) {
      assert forall i :: 0 <= i < |log| ==> log[i].slot in TouchedSlots(log);
      assert Hits(log, a.slot) == {};
    }
  }

  lemma AppendTouched(log: seq<Access>, a: Access, s: Slot)
    ensures s in TouchedSlots(log + [a]) <==> s in TouchedSlots(log) || s == a.slot
  {
    var log' := log + [a];
    assert log'[|log|] == a;
    if s in TouchedSlots(log) {
      var i :| 0 <= i < |log| && log[i].slot == s;
      assert log'[i].slot == s;
    }
  }

  lemma AppendAttributed(log: seq<Access>, a: Access, s: Slot)
    ensures s in AttributedSlots(log + [a]) <==> s in AttributedSlots(log) || (a.txn.Some? && s == a.slot)
    ensures TxnsOn(log + [a], s) == if a.txn.Some? && s == a.slot then TxnsOn(log, s) + {a.txn.value} else TxnsOn(log, s)
    ensures s !in AttributedSlots(log) ==> TxnsOn(log, s) == {}
  {
    var log' := log + [a];
    assert log'[|log|] == a;
    if s in AttributedSlots(log) {
      var i :| 0 <= i < |log| && log[i].txn.Some? && log[i].slot == s;
      assert log'[i].slot == s;
    }
    forall t | t in TxnsOn(log, s) ensures t in TxnsOn(log', s) {
      var i :| 0 <= i < |log| && log[i].slot == s && log[i].txn.Some? && log[i].txn.value == t;
      assert log'[i].slot == s;
    }
  }

  lemma AppendSlotTxns(log: seq<Access>, a: Access)
    ensures SlotTxns(log + [a]) == (if a.txn.None? then SlotTxns(log)
              else SlotTxns(log)[a.slot := Get(SlotTxns(log), a.slot, {}) + {a.txn.value}])
  {
    var before, after := SlotTxns(log), SlotTxns(log + [a]);
    forall s ensures s in after <==> s in before || (a.txn.Some? && s == a.slot)
             ensures s in after ==> after[s] == if a.txn.Some? && s == a.slot then Get(before, s, {}) + {a.txn.value} else before[s] {
      AppendAttributed(log, a, s);
    }
    if a.txn.None? {
      assert after == before;
    } else {
      assert after == before[a.slot := Get(before, a.slot, {}) + {a.txn.value}];
    }
  }

  lemma AppendContracts(log: seq<Access>, a: Access, t: TxnIdx)
    ensures t in Txns(log + [a]) <==> t in Txns(log) || a.txn == Some(t)
    ensures ContractsOf(log + [a], t) == if a.txn == Some(t) then ContractsOf(log, t) + {a.slot.addr} else ContractsOf(log, t)
    ensures t !in Txns(log) ==> ContractsOf(log, t) == {}
  {
    var log' := log + [a];
    assert log'[|log|] == a;
    if t in Txns(log) {
      var i :| 0 <= i < |log| && log[i].txn.Some? && log[i].txn.value == t;
      assert log'[i].txn == Some(t);
    }
    forall c | c in ContractsOf(log, t) ensures c in ContractsOf(log', t) {
      var i :| 0 <= i < |log| && log[i].txn == Some(t) && log[i].slot.addr == c;
      assert log'[i].txn == Some(t);
    }
    forall c | c in ContractsOf(log, t) ensures t in Txns(log) {
      var i :| 0 <= i < |log| && log[i].txn == Some(t) && log[i].slot.addr == c;
      assert log[i].txn.Some? && log[i].txn.value == t;
    }
  }

  lemma AppendTxnContracts(log: seq<Access>, a: Access)
    ensures TxnContracts(log + [a]) == (if a.txn.None? then TxnContracts(log)
              else TxnContracts(log)[a.txn.value := Get(TxnContracts(log), a.txn.value, {}) + {a.slot.addr}])
  {
    var before, after := TxnContracts(log), TxnContracts(log + [a]);
    forall t ensures t in after <==> t in before || a.txn == Some(t)
             ensures t in after ==> after[t] == if a.txn == Some(t) then Get(before, t, {}) + {a.slot.addr} else before[t] {
      AppendContracts(log, a, t);
    }
    if a.txn.None? {
      assert after == before;
    } else {
      assert after == before[a.txn.value := Get(before, a.txn.value, {}) + {a.slot.addr}];
    }
  }

  /** A slot is touched by at most as many transactions as it has accesses. */
  lemma {:induction false} TxnsAtMostAccesses(log: seq<Access>, s: Slot)
    ensures |TxnsOn(log, s)| <= |Hits(log, s)|
  {
    if log == [] {
      assert TxnsOn(log, s) == {};
    } else {
      var front, a := log[..|log| - 1], log[|log| - 1];
      assert log == front + [a];
      TxnsAtMostAccesses(front, s);
      AppendHits(front, a, s);
      AppendAttributed(front, a, s);
    }
  }

  /** The same, of the two maps the tracker keeps. */
  lemma SlotTxnsWithinCounts(log: seq<Access>, s: Slot)
    requires s in SlotTxns(log)
    ensures s in AccessCounts(log) && 1 <= |SlotTxns(log)[s]| <= AccessCounts(log)[s]
  {
    TxnsAtMostAccesses(log, s);
    var i :| 0 <= i < |log| && log[i].txn.Some? && log[i].slot == s;
    assert log[i].txn.value in TxnsOn(log, s);
  }

  /** The two views of an attributed access agree: a transaction touches a contract exactly when it
      appears on some slot of that contract. */
  lemma ContractsAgreeWithSlots(log: seq<Access>, txn: TxnIdx, c: Address)
    ensures (txn in TxnContracts(log) && c in TxnContracts(log)[txn]) <==>
            exists s :: s in SlotTxns(log) && s.addr == c && txn in SlotTxns(log)[s]
  {
    if txn in TxnContracts(log) && c in TxnContracts(log)[txn] {
      var i :| 0 <= i < |log| && log[i].txn == Some(txn) && log[i].slot.addr == c;
      assert log[i].slot in SlotTxns(log);
    }
    if s :| s in SlotTxns(log) && s.addr == c && txn in SlotTxns(log)[s] {
      var i :| 0 <= i < |log| && log[i].slot == s && log[i].txn.Some? && log[i].txn.value == txn;
      assert log[i].txn == Some(txn);
    }
  }

  // ---- Per-contract statistics ----

  /** The slots of one contract, among those some transaction touched. */
  ghost function SlotsAt(slots: map<Slot, set<TxnIdx>>, c: Address): set<Slot> {
    set s | s in slots && s.addr == c
  }

  predicate IsContended(slots: map<Slot, set<TxnIdx>>, s: Slot) { s in slots && |slots[s]| >= 2 }

  ghost function ContendedAt(slots: map<Slot, set<TxnIdx>>, c: Address): set<Slot> {
    set s | s in slots && s.addr == c && IsContended(slots, s)
  }

  ghost function Contended(slots: map<Slot, set<TxnIdx>>): set<Slot> {
    set s | s in slots && IsContended(slots, s)
  }

  /** The accesses of the slots that some transaction touched. */
  ghost function AccessWeights(slots: map<Slot, set<TxnIdx>>, counts: map<Slot, nat>): map<Slot, nat> {
    map s | s in slots :: Get(counts, s, 0)
  }

  ghost function AccessesAt(slots: map<Slot, set<TxnIdx>>, counts: map<Slot, nat>, c: Address): nat {
    MapSum(Fiber(AccessWeights(slots, counts), AddrOf, c))
  }

  ghost function Contracts(slots: map<Slot, set<TxnIdx>>): set<Address> { set s | s in slots :: s.addr }

  /** Per-contract figures, before any filtering or truncation, split the block totals: summed over all
      contracts they give the slot count, the contended slot count and the total of accesses. */
  lemma ContractsPartitionSlots(slots: map<Slot, set<TxnIdx>>, counts: map<Slot, nat>)
    ensures MapSum(map c | c in Contracts(slots) :: |SlotsAt(slots, c)|) == |slots|
    ensures MapSum(map c | c in Contracts(slots) :: |ContendedAt(slots, c)|) == |Contended(slots)|
    ensures MapSum(map c | c in Contracts(slots) :: AccessesAt(slots, counts, c)) == MapSum(AccessWeights(slots, counts))
  {
    SlotPartition(slots);
    ContendedPartition(slots);
    AccessPartition(slots, counts);
  }

  lemma AccessPartition(slots: map<Slot, set<TxnIdx>>, counts: map<Slot, nat>)
    ensures MapSum(map c | c in Contracts(slots) :: AccessesAt(slots, counts, c)) == MapSum(AccessWeights(slots, counts))
  {
    var weights := AccessWeights(slots, counts);
    FibersPartition(weights, AddrOf);
    FiberKeys(slots, weights);
    assert FiberSums(weights, AddrOf) == map c | c in Contracts(slots) :: AccessesAt(slots, counts, c);
  }

  lemma FiberKeys(slots: map<Slot, set<TxnIdx>>, m: map<Slot, nat>)
    requires m.Keys == slots.Keys
    ensures FiberSums(m, AddrOf).Keys == Contracts(slots)
  {
    forall c ensures c in FiberSums(m, AddrOf) <==> c in Contracts(slots) {
      if s :| s in slots && s.addr == c {
        assert s in m && AddrOf(s) == c;
      }
      if c in FiberSums(m, AddrOf) {
        var s :| s in m && AddrOf(s) == c;
        assert s in slots && s.addr == c;
      }
    }
  }

  ghost function Ones(slots: map<Slot, set<TxnIdx>>): map<Slot, nat> { map s | s in slots :: 1 }

  /** Per contract, adding up ones counts the slots. */
  lemma OnesCountSlots(slots: map<Slot, set<TxnIdx>>, c: Address)
    ensures MapSum(Fiber(Ones(slots), AddrOf, c)) == |SlotsAt(slots, c)|
  {
    SumOfOnes(Fiber(Ones(slots), AddrOf, c));
    assert Fiber(Ones(slots), AddrOf, c).Keys == SlotsAt(slots, c);
  }

  lemma SlotPartition(slots: map<Slot, set<TxnIdx>>)
    ensures MapSum(map c | c in Contracts(slots) :: |SlotsAt(slots, c)|) == |slots|
  {
    FibersPartition(Ones(slots), AddrOf);
    OnesCountAll(slots);
    FiberKeys(slots, Ones(slots));
    forall c ensures MapSum(Fiber(Ones(slots), AddrOf, c)) == |SlotsAt(slots, c)| {
      OnesCountSlots(slots, c);
    }
    assert FiberSums(Ones(slots), AddrOf) == map c | c in Contracts(slots) :: |SlotsAt(slots, c)|;
  }

  lemma OnesCountAll(slots: map<Slot, set<TxnIdx>>)
    ensures MapSum(Ones(slots)) == |slots|
  {
    SumOfOnes(Ones(slots));
    assert Ones(slots).Keys == slots.Keys;
  }

  ghost function Marks(slots: map<Slot, set<TxnIdx>>): map<Slot, nat> {
    map s | s in slots :: if IsContended(slots, s) then 1 else 0
  }

  /** Per contract, adding up the marks counts the contended slots. */
  lemma MarksCountContended(slots: map<Slot, set<TxnIdx>>, c: Address)
    ensures MapSum(Fiber(Marks(slots), AddrOf, c)) == |ContendedAt(slots, c)|
  {
    SumOfIndicators(Fiber(Marks(slots), AddrOf, c), ContendedAt(slots, c));
  }

  lemma ContendedPartition(slots: map<Slot, set<TxnIdx>>)
    ensures MapSum(map c | c in Contracts(slots) :: |ContendedAt(slots, c)|) == |Contended(slots)|
  {
    var marks := Marks(slots);
    FibersPartition(marks, AddrOf);
    SumOfIndicators(marks, Contended(slots));
    FiberKeys(slots, marks);
    forall c ensures MapSum(Fiber(marks, AddrOf, c)) == |ContendedAt(slots, c)| {
      MarksCountContended(slots, c);
    }
    assert FiberSums(marks, AddrOf) == map c | c in Contracts(slots) :: |ContendedAt(slots, c)|;
  }

  // ---- Co-access edges ----

  datatype Edge = Edge(a: Address, b: Address)

  /** The transactions that touch both contracts. */
  ghost function SharedTxns(contracts: map<TxnIdx, set<Address>>, e: Edge): set<TxnIdx> {
    set t | t in contracts && e.a in contracts[t] && e.b in contracts[t]
  }

  /** The unordered pairs of a contract set, each written smaller address first. */
  ghost function PairsOf(s: set<Address>): set<Edge> {
    set a, b | a in s && b in s && a < b :: Edge(a, b)
  }

  ghost function AllPairs(contracts: map<TxnIdx, set<Address>>): set<Edge> {
    set t, e | t in contracts && e in PairsOf(contracts[t]) :: e
  }

  /** For each pair, the number of transactions that touch both contracts. */
  ghost function EdgeCounts(contracts: map<TxnIdx, set<Address>>): map<Edge, nat> {
    map e | e in AllPairs(contracts) :: |SharedTxns(contracts, e)|
  }

  /** One more for each pair of a set. */
  ghost function Bumped(m: map<Edge, nat>, pairs: set<Edge>): map<Edge, nat> {
    map e | e in m.Keys + pairs :: Get(m, e, 0) + (if e in pairs then 1 else 0)
  }

  lemma EdgeCountAt(contracts: map<TxnIdx, set<Address>>, e: Edge)
    ensures e in EdgeCounts(contracts) <==> e.a < e.b && SharedTxns(contracts, e) != {}
  {
    if e.a < e.b && SharedTxns(contracts, e) != {} {
      var t := Pick(SharedTxns(contracts, e));
      PairIn(contracts[t], e);
    }
    if e in AllPairs(contracts) {
      var t :| t in contracts && e in PairsOf(contracts[t]);
      PairIn(contracts[t], e);
      assert t in SharedTxns(contracts, e);
    }
  }

  lemma PairIn(s: set<Address>, e: Edge)
    ensures e in PairsOf(s) <==> e.a in s && e.b in s && e.a < e.b
  {
    assert e == Edge(e.a, e.b);
  }

  /** Counting one more transaction adds one to each pair of its contracts. */
  lemma EdgeCountsGrow(contracts: map<TxnIdx, set<Address>>, t: TxnIdx)
    requires t in contracts
    ensures EdgeCounts(contracts) == Bumped(EdgeCounts(contracts - {t}), PairsOf(contracts[t]))
  {
    var rest := contracts - {t};
    var bumped := Bumped(EdgeCounts(rest), PairsOf(contracts[t]));
    forall e ensures e in EdgeCounts(contracts) <==> e in bumped
             ensures e in bumped ==> EdgeCounts(contracts)[e] == bumped[e] {
      EdgeGrowsAt(contracts, t, e);
    }
  }

  lemma EdgeGrowsAt(contracts: map<TxnIdx, set<Address>>, t: TxnIdx, e: Edge)
    requires t in contracts
    ensures var rest, pairs := EdgeCounts(contracts - {t}), PairsOf(contracts[t]);
            && (e in EdgeCounts(contracts) <==> e in rest || e in pairs)
            && (e in EdgeCounts(contracts) ==> EdgeCounts(contracts)[e] == Get(rest, e, 0) + (if e in pairs then 1 else 0))
  {
    var rest := contracts - {t};
    EdgeCountAt(contracts, e);
    EdgeCountAt(rest, e);
    var shared, before := SharedTxns(contracts, e), SharedTxns(rest, e);
    if e.a in contracts[t] && e.b in contracts[t] {
      assert shared == before + {t};
    } else {
      assert shared == before;
    }
  }

  lemma {:induction false} BumpedSum(m: map<Edge, nat>, pairs: set<Edge>)
    ensures MapSum(Bumped(m, pairs)) == MapSum(m) + |pairs|
    decreases |pairs|
  {
    if pairs == {} {
      assert Bumped(m, pairs) == m;
    } else {
      var e := Pick(pairs);
      BumpedSum(m, pairs - {e});
      assert pairs - {e} + {e} == pairs;
      BumpedStep(m, pairs - {e}, e);
    }
  }

  lemma BumpedStep(m: map<Edge, nat>, pairs: set<Edge>, e: Edge)
    requires e !in pairs
    ensures MapSum(Bumped(m, pairs + {e})) == MapSum(Bumped(m, pairs)) + 1
  {
    assert Bumped(m, pairs + {e}) == Bumped(m, pairs)[e := Get(m, e, 0) + 1];
    SumChange(Bumped(m, pairs), e, Get(m, e, 0) + 1);
  }

  lemma {:induction false} PairCount(s: set<Address>)
    ensures 2 * |PairsOf(s)| == |s| * (|s| - 1)
    decreases |s|
  {
    if s == {} {
      assert PairsOf(s) == {};
    } else {
      var c := Pick(s);
      PairCount(s - {c});
      PairsGrow(s, c);
      Triangle(|PairsOf(s - {c})|, |s - {c}|);
    }
  }

  lemma PairsSplit(s: set<Address>, c: Address)
    requires c in s
    ensures PairsOf(s) == PairsOf(s - {c}) + Star(s - {c}, c) && PairsOf(s - {c}) !! Star(s - {c}, c)
  {
    forall e ensures e in PairsOf(s) <==> e in PairsOf(s - {c}) || e in Star(s - {c}, c) {
      PairIn(s, e);
      PairIn(s - {c}, e);
      if e in PairsOf(s) && e !in PairsOf(s - {c}) {
        assert e == if e.a == c then Ordered(c, e.b) else Ordered(c, e.a);
      }
    }
    assert forall e :: e in Star(s - {c}, c) ==> e.a == c || e.b == c;
  }

  lemma PairsGrow(s: set<Address>, c: Address)
    requires c in s
    ensures |s| == |s - {c}| + 1 && |PairsOf(s)| == |PairsOf(s - {c})| + |s - {c}|
  {
    StarSize(s - {c}, c);
    PairsSplit(s, c);
  }

  lemma Triangle(p: nat, n: nat)
    requires 2 * p == n * (n - 1)
    ensures 2 * (p + n) == (n + 1) * n
  {
  }

  function Ordered(c: Address, d: Address): Edge { if c < d then Edge(c, d) else Edge(d, c) }

  /** The pairs of c with each of the others. */
  ghost function Star(rest: set<Address>, c: Address): set<Edge> { set d | d in rest :: Ordered(c, d) }

  lemma {:induction false} StarSize(rest: set<Address>, c: Address)
    requires c !in rest
    ensures |Star(rest, c)| == |rest|
    decreases |rest|
  {
    if rest == {} {
    } else {
      var d := Pick(rest);
      StarSize(rest - {d}, c);
      assert Star(rest, c) == Star(rest - {d}, c) + {Ordered(c, d)};
    }
  }

  ghost function PairTotals(contracts: map<TxnIdx, set<Address>>): map<TxnIdx, nat> {
    map t | t in contracts :: |PairsOf(contracts[t])|
  }

  /** Handshake: the edge counts add up to the number of pairs of every transaction, m(m-1)/2 for m contracts. */
  lemma EdgesCountPairs(contracts: map<TxnIdx, set<Address>>)
    ensures MapSum(EdgeCounts(contracts)) == MapSum(PairTotals(contracts))
    ensures forall t :: t in contracts ==> 2 * PairTotals(contracts)[t] == |contracts[t]| * (|contracts[t]| - 1)
  {
    EdgeSum(contracts);
    forall t | t in contracts ensures 2 * PairTotals(contracts)[t] == |contracts[t]| * (|contracts[t]| - 1) {
      PairCount(contracts[t]);
    }
  }

  lemma {:induction false} EdgeSum(contracts: map<TxnIdx, set<Address>>)
    ensures MapSum(EdgeCounts(contracts)) == MapSum(PairTotals(contracts))
    decreases |contracts|
  {
    if contracts == map[] {
      assert EdgeCounts(contracts) == map[];
    } else {
      var t := Pick(contracts.Keys);
      EdgeSum(contracts - {t});
      EdgeSumStep(contracts, t);
    }
  }

  lemma EdgeSumStep(contracts: map<TxnIdx, set<Address>>, t: TxnIdx)
    requires t in contracts
    ensures var rest := contracts - {t};
            MapSum(EdgeCounts(contracts)) - MapSum(EdgeCounts(rest)) == MapSum(PairTotals(contracts)) - MapSum(PairTotals(rest))
  {
    var rest := contracts - {t};
    EdgeCountsGrow(contracts, t);
    BumpedSum(EdgeCounts(rest), PairsOf(contracts[t]));
    SumRemove(PairTotals(contracts), t);
    assert PairTotals(contracts) - {t} == PairTotals(rest);
  }
}
