/** The block lifecycle tracker (gateway/src/lib/block_lifecycle.rs).
    Durations are kept in integer nanoseconds; the code divides the same differences by 1e6 for display. */
module Lifecycle {
  import opened Common
  import opened Sorting

  type Hash = nat

  datatype Stage = Proposed | Voted | Finalized | Verified | Rejected {
    function Rank(): nat {
      match this
      case Proposed => 0
      case Voted => 1
      case Finalized => 2
      case Verified => 3
      case Rejected => 4
    }

    predicate IsTerminal() { this == Verified || this == Rejected }

    predicate CanTransitionTo(next: Stage) {
      next == Rejected || next.Rank() > Rank()
    }
  }

  datatype BlockLifecycle = BlockLifecycle(
    hash: Hash,
    number: nat,
    stage: Stage,
    timestamps: map<Stage, nat>,
    txnCount: nat,
    gasUsed: Option<nat>,
    ethBlockHash: Option<Hash>,
    executionEndNs: Option<nat>)
  {
    function TimestampIf(s: Stage, after: Stage): Option<nat> {
      if s in timestamps && s.Rank() > after.Rank() then Some(timestamps[s]) else None
    }

    /** Time from entering a stage to the earliest later stage other than Rejected. */
    function DurationInStage(s: Stage): Option<int> {
      if s !in timestamps then None
      else
        var next := MinOption(TimestampIf(Voted, s), MinOption(TimestampIf(Finalized, s), TimestampIf(Verified, s)));
        match next
        case None => None
        case Some(ts) => Some(ts - timestamps[s])
    }

    function TotalAge(): Option<int> {
      if Proposed in timestamps && stage in timestamps then
        Some((timestamps[stage] as int) - (timestamps[Proposed] as int))
      else None
    }
  }

  function MinOption(a: Option<nat>, b: Option<nat>): Option<nat> {
    if a.None? then b else if b.None? then a else Some(Min(a.value, b.value))
  }

  function OrZero(a: Option<int>): int { if a.Some? then a.value else 0 }

  function NewBlock(hash: Hash, number: nat, ts: nat): BlockLifecycle {
    BlockLifecycle(hash, number, Proposed, map[Proposed := ts], 0, None, None, None)
  }

  /** What is emitted to clients on every public transition. */
  datatype Update = Update(
    hash: Hash,
    number: nat,
    from: Option<Stage>,
    to: Stage,
    timeInPrevious: Option<int>,
    age: int,
    txnCount: nat,
    gasUsed: Option<nat>)

  datatype Tracker = Tracker(
    active: map<Hash, BlockLifecycle>,
    index: map<nat, Hash>,
    completed: seq<BlockLifecycle>)

  const EMPTY := Tracker(map[], map[], [])

  // ---- One event, as a function of the tracker's value ----

  datatype Op =
    | Propose(hash: Hash, number: nat, ts: nat)
    | Advance(hash: Hash, number: nat, stage: Stage, ts: nat)
    | ExecutionEnd(number: nat, ts: nat, gas: nat, ethHash: Hash)
    | RecordTxn(number: nat)

  /** The active block an event with this hash and number is about: by hash first, then by number. */
  function Target(t: Tracker, hash: Hash, number: nat): Option<Hash> {
    if hash in t.active then Some(hash)
    else if number in t.index && t.index[number] in t.active then Some(t.index[number])
    else None
  }

  function ByNumber(t: Tracker, number: nat): Option<Hash> {
    if number in t.index && t.index[number] in t.active then Some(t.index[number]) else None
  }

  function Advanced(b: BlockLifecycle, stage: Stage, ts: nat): BlockLifecycle {
    b.(timestamps := b.timestamps[stage := ts], stage := stage)
  }

  function AdvanceUpdate(b: BlockLifecycle, stage: Stage, ts: nat): Update {
    var b' := Advanced(b, stage, ts);
    Update(b.hash, b.number, Some(b.stage), stage, b'.DurationInStage(b.stage), OrZero(b'.TotalAge()),
           b.txnCount, b.gasUsed)
  }

  /** Completed blocks beyond the limit leave oldest first, each taking the index entry of its number along. */
  function Evict(index: map<nat, Hash>, completed: seq<BlockLifecycle>, max: nat): (map<nat, Hash>, seq<BlockLifecycle>) {
    if |completed| <= max then (index, completed)
    else Evict(index - {completed[0].number}, completed[1..], max)
  }

  function Stored(t: Tracker, hash: Hash, b: BlockLifecycle, max: nat): Tracker {
    if b.stage.IsTerminal() then
      var (index, completed) := Evict(t.index, t.completed + [b], max);
      Tracker(t.active - {hash}, index, completed)
    else t.(active := t.active[hash := b])
  }

  function Apply(t: Tracker, max: nat, op: Op): (Tracker, seq<Update>) {
    match op
    case Propose(hash, number, ts) =>
      (t.(active := t.active[hash := NewBlock(hash, number, ts)], index := t.index[number := hash]),
       [Update(hash, number, None, Proposed, None, 0, 0, None)])
    case Advance(hash, number, stage, ts) =>
      var target := Target(t, hash, number);
      if target.None? || !t.active[target.value].stage.CanTransitionTo(stage) then (t, [])
      else
        var b := t.active[target.value];
        (Stored(t, target.value, Advanced(b, stage, ts), max), [AdvanceUpdate(b, stage, ts)])
    case ExecutionEnd(number, ts, gas, ethHash) =>
      var target := ByNumber(t, number);
      if target.None? then (t, [])
      else
        var b := t.active[target.value];
        (t.(active := t.active[target.value :=
              b.(executionEndNs := Some(ts), gasUsed := Some(gas), ethBlockHash := Some(ethHash))]), [])
    case RecordTxn(number) =>
      var target := ByNumber(t, number);
      if target.None? then (t, [])
      else
        var b := t.active[target.value];
        (t.(active := t.active[target.value := b.(txnCount := b.txnCount + 1)]), [])
  }

  /** The tracker and the whole stream of emitted updates after a run of events. */
  datatype History = History(tracker: Tracker, updates: seq<Update>)

  ghost function Run(max: nat, ops: seq<Op>): History {
    if ops == [] then History(EMPTY, [])
    else
      var prior := Run(max, ops[..|ops| - 1]);
      var (t, emitted) := Apply(prior.tracker, max, ops[|ops| - 1]);
      History(t, prior.updates + emitted)
  }

  lemma RunStep(max: nat, ops: seq<Op>, op: Op)
    ensures var prior := Run(max, ops);
            var (t, emitted) := Apply(prior.tracker, max, op);
            Run(max, ops + [op]) == History(t, prior.updates + emitted)
  {
    assert (ops + [op])[..|ops|] == ops;
  }

  /** The listing sent to a client that connects: one entry per active block, in order of block number. */
  function Snapshot(b: BlockLifecycle): Update {
    Update(b.hash, b.number, None, b.stage, None, OrZero(b.TotalAge()), b.txnCount, b.gasUsed)
  }

  ghost predicate IsListed(active: map<Hash, BlockLifecycle>, u: Update) {
    exists h :: h in active && u == Snapshot(active[h])
  }

  ghost predicate IsActiveListing(active: map<Hash, BlockLifecycle>, listing: seq<Update>) {
    && |listing| == |active|
    && (forall h :: h in active ==> Snapshot(active[h]) in listing)
    && (forall u :: u in listing ==> IsListed(active, u))
    && (forall i, j :: 0 <= i < j < |listing| ==> listing[i].number <= listing[j].number)
  }

  /** current_stage: active blocks first, then the retained completed ones in order. */
  function CurrentStage(t: Tracker, hash: Hash): Option<Stage> {
    if hash in t.active then Some(t.active[hash].stage) else FindStage(t.completed, hash)
  }

  function FindStage(completed: seq<BlockLifecycle>, hash: Hash): Option<Stage> {
    if completed == [] then None
    else if completed[0].hash == hash then Some(completed[0].stage)
    else FindStage(completed[1..], hash)
  }

  /** The stage events of a block are tagged with: events name their block by number. */
  function CurrentStageByNumber(t: Tracker, number: nat): Option<Stage> {
    if number in t.index then CurrentStage(t, t.index[number]) else None
  }

  // ---- The tracker object ----

  class BlockLifecycleTracker {
    var active: map<Hash, BlockLifecycle>
    var numberToHash: map<nat, Hash>
    var completed: seq<BlockLifecycle>
    const maxCompleted: nat
    /** Every event handled so far. */
    ghost var ops: seq<Op>

    ghost function Abs(): Tracker
      reads this
    {
      Tracker(active, numberToHash, completed)
    }

    ghost predicate Valid()
      reads this
    {
      Abs() == Run(maxCompleted, ops).tracker
    }

    constructor (maxCompleted: nat := 128)
      ensures Valid() && ops == [] && this.maxCompleted == maxCompleted
    {
      this.maxCompleted := maxCompleted;
      active, numberToHash, completed, ops := map[], map[], [], [];
    }

    method OnBlockProposed(hash: Hash, number: nat, ts: nat) returns (update: Update)
      requires Valid()
      modifies this
      ensures Valid() && ops == old(ops) + [Propose(hash, number, ts)]
      ensures Run(maxCompleted, ops).updates == old(Run(maxCompleted, ops)).updates + [update]
    {
      ghost var op, before := Propose(hash, number, ts), Run(maxCompleted, ops);
      RunStep(maxCompleted, ops, op);
      update := Update(hash, number, None, Proposed, None, 0, 0, None);
      active := active[hash := NewBlock(hash, number, ts)];
      numberToHash := numberToHash[number := hash];
      assert Apply(before.tracker, maxCompleted, op) == (Abs(), [update]);
      ops := ops + [op];
    }

    method AdvanceStage(hash: Hash, number: nat, stage: Stage, ts: nat) returns (update: Option<Update>)
      requires Valid()
      modifies this
      ensures Valid() && ops == old(ops) + [Advance(hash, number, stage, ts)]
      ensures Run(maxCompleted, ops).updates ==
              old(Run(maxCompleted, ops)).updates + (if update.Some? then [update.value] else [])
    {
      ghost var before := Abs();
      RunStep(maxCompleted, ops, Advance(hash, number, stage, ts));
      ops := ops + [Advance(hash, number, stage, ts)];
      var found: Hash;
      if hash in active {
        found := hash;
      } else if number in numberToHash {
        found := numberToHash[number];
      } else {
        return None;
      }
      if found !in active {
        return None;
      }
      var block := active[found];
      if !block.stage.CanTransitionTo(stage) {
        return None;
      }
      var from := block.stage;
      block := block.(timestamps := block.timestamps[stage := ts]);
      block := block.(stage := stage);
      active := active[found := block];
      update := Some(Update(block.hash, block.number, Some(from), stage, block.DurationInStage(from),
                            OrZero(block.TotalAge()), block.txnCount, block.gasUsed));
      if stage.IsTerminal() {
        active := active - {found};
        assert active == before.active - {found};
        CompleteBlock(block);
      }
    }

    /** Push a completed block and pop the oldest ones while there are too many. */
    method CompleteBlock(block: BlockLifecycle)
      modifies this`completed, this`numberToHash
      ensures (numberToHash, completed) == Evict(old(numberToHash), old(completed) + [block], maxCompleted)
    {
      completed := completed + [block];
      while |completed| > maxCompleted
        invariant Evict(numberToHash, completed, maxCompleted) ==
                  Evict(old(numberToHash), old(completed) + [block], maxCompleted)
        decreases |completed|
      {
        var oldest := completed[0];
        completed := completed[1..];
        numberToHash := numberToHash - {oldest.number};
      }
    }

    method OnExecutionEnd(number: nat, ts: nat, gas: nat, ethHash: Hash)
      requires Valid()
      modifies this
      ensures Valid() && ops == old(ops) + [ExecutionEnd(number, ts, gas, ethHash)]
    {
      RunStep(maxCompleted, ops, ExecutionEnd(number, ts, gas, ethHash));
      ops := ops + [ExecutionEnd(number, ts, gas, ethHash)];
      if number !in numberToHash {
        return;
      }
      var hash := numberToHash[number];
      if hash in active {
        active := active[hash := active[hash].(executionEndNs := Some(ts), gasUsed := Some(gas),
                                               ethBlockHash := Some(ethHash))];
      }
    }

    method RecordTransaction(number: nat)
      requires Valid()
      modifies this
      ensures Valid() && ops == old(ops) + [RecordTxn(number)]
    {
      RunStep(maxCompleted, ops, RecordTxn(number));
      ops := ops + [RecordTxn(number)];
      if number !in numberToHash {
        return;
      }
      var hash := numberToHash[number];
      if hash in active {
        active := active[hash := active[hash].(txnCount := active[hash].txnCount + 1)];
      }
    }

    method GetActiveUpdates() returns (listing: seq<Update>)
      ensures IsActiveListing(active, listing)
    {
      var updates: seq<Update> := [];
      var pending := active.Keys;
      while pending != {}
        invariant pending <= active.Keys
        invariant |updates| + |pending| == |active|
        invariant forall h :: h in active && h !in pending ==> Snapshot(active[h]) in updates
        invariant forall u :: u in updates ==> IsListed(active, u)
        decreases |pending|
      {
        var hash :| hash in pending;
        pending := pending - {hash};
        updates := updates + [Snapshot(active[hash])];
      }
      listing := SortBy(LowerNumberFirst, updates);
      SortedListing(active, updates);
    }
  }

  lemma SortedListing(active: map<Hash, BlockLifecycle>, updates: seq<Update>)
    requires |updates| == |active|
    requires forall h :: h in active ==> Snapshot(active[h]) in updates
    requires forall u :: u in updates ==> IsListed(active, u)
    ensures IsActiveListing(active, SortBy(LowerNumberFirst, updates))
  {
    var listing := SortBy(LowerNumberFirst, updates);
    SortIsOrderedPermutation(LowerNumberFirst, updates);
    forall h | h in active ensures Snapshot(active[h]) in listing {
      assert Snapshot(active[h]) in multiset(updates);
    }
    forall u | u in listing ensures IsListed(active, u) {
      assert u in multiset(listing);
    }
    forall i, j | 0 <= i < j < |listing| ensures listing[i].number <= listing[j].number {
      assert LowerNumberFirst(listing[i], listing[j]);
    }
  }

  predicate LowerNumberFirst(a: Update, b: Update) { a.number <= b.number }
}
