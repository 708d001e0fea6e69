/** What holds over whole runs of the lifecycle tracker: the trace of each block, the number index,
    and the update stream read as a log of the active set. */
module LifecycleTraces {
  import opened Common
  import opened Lifecycle

  /** The updates about one block, in order of emission. */
  ghost function Of(us: seq<Update>, h: Hash): seq<Update> {
    if us == [] then []
    else Of(us[..|us| - 1], h) + (if us[|us| - 1].hash == h then [us[|us| - 1]] else [])
  }

  lemma OfAppend(us: seq<Update>, emitted: seq<Update>, h: Hash)
    requires |emitted| <= 1
    ensures Of(us + emitted, h) == Of(us, h) + About(emitted, h)
  {
    if emitted == [] {
      assert us + emitted == us;
    } else {
      assert (us + emitted)[..|us|] == us;
      assert emitted == [emitted[0]];
    }
  }

  ghost function Proposals(ops: seq<Op>, h: Hash): nat {
    if ops == [] then 0
    else Proposals(ops[..|ops| - 1], h) + (if IsProposalOf(ops[|ops| - 1], h) then 1 else 0)
  }

  predicate IsProposalOf(op: Op, h: Hash) { op.Propose? && op.hash == h }

  /** u may come next in the life of a block whose updates so far are us: the first one is a proposal,
      a later one starts where the last ended, rises strictly, and never leaves a terminal stage. */
  ghost predicate Links(us: seq<Update>, u: Update) {
    if us == [] then u.from == None && u.to == Proposed
    else
      var last := us[|us| - 1];
      u.from == Some(last.to) && last.to.Rank() < u.to.Rank() && !last.to.IsTerminal()
  }

  ghost predicate Chain(us: seq<Update>) {
    us == [] || (Chain(us[..|us| - 1]) && Links(us[..|us| - 1], us[|us| - 1]))
  }

  ghost function SumTimes(us: seq<Update>): int {
    if us == [] then 0 else SumTimes(us[..|us| - 1]) + OrZero(us[|us| - 1].timeInPrevious)
  }

  /** Up to every update that is not a rejection, the reported times add up to the reported age;
      a rejection reports no time. */
  ghost predicate Telescopes(us: seq<Update>) {
    us == [] ||
    (var last := us[|us| - 1];
     && Telescopes(us[..|us| - 1])
     && (if last.to == Rejected then last.timeInPrevious == None
         else SumTimes(us) == last.age && (|us| > 1 ==> last.timeInPrevious.Some?)))
  }

  // ---- Invariants of the active set in every run ----

  ghost predicate WellFormedBlock(b: BlockLifecycle) {
    && !b.stage.IsTerminal()
    && Proposed in b.timestamps && b.stage in b.timestamps
    && (forall s :: s in b.timestamps ==> s.Rank() <= b.stage.Rank())
  }

  ghost predicate WellFormed(t: Tracker) {
    forall h :: h in t.active ==> t.active[h].hash == h && WellFormedBlock(t.active[h])
  }

  lemma ApplyKeepsWellFormed(t: Tracker, max: nat, op: Op)
    requires WellFormed(t)
    ensures WellFormed(Apply(t, max, op).0)
  {
  }

  lemma {:induction false} RunIsWellFormed(max: nat, ops: seq<Op>)
    ensures WellFormed(Run(max, ops).tracker)
  {
    if ops == [] {
    } else {
      RunIsWellFormed(max, ops[..|ops| - 1]);
      ApplyKeepsWellFormed(Run(max, ops[..|ops| - 1]).tracker, max, ops[|ops| - 1]);
    }
  }

  // ---- The trace of one block ----

  /** What the tracker knows about block h, tied to the updates emitted for it. */
  ghost predicate Tracks(t: Tracker, us: seq<Update>, h: Hash) {
    && Chain(us) && Telescopes(us)
    && (h in t.active <==> us != [] && !us[|us| - 1].to.IsTerminal())
    && (h in t.active ==>
          var b, last := t.active[h], us[|us| - 1];
          && b.stage == last.to && b.number == last.number && WellFormedBlock(b)
          && b.timestamps[b.stage] as int - b.timestamps[Proposed] as int == last.age)
    && (forall b :: b in t.completed && b.hash == h ==>
          us != [] && b.stage.IsTerminal() && b.stage == us[|us| - 1].to && b.number == us[|us| - 1].number)
  }

  lemma ChainExtends(us: seq<Update>, u: Update)
    requires Chain(us) && Telescopes(us) && Links(us, u)
    requires if us == [] then u.age == 0 && u.timeInPrevious == None
             else u.timeInPrevious == (if u.to == Rejected then None else Some(u.age - us[|us| - 1].age))
    ensures Chain(us + [u]) && Telescopes(us + [u])
  {
    assert (us + [u])[..|us|] == us;
  }

  lemma UpdateExtends(b: BlockLifecycle, stage: Stage, ts: nat)
    requires WellFormedBlock(b) && b.stage.CanTransitionTo(stage)
    ensures var u := AdvanceUpdate(b, stage, ts);
            var age := b.timestamps[b.stage] as int - b.timestamps[Proposed] as int;
            && b.stage.Rank() < stage.Rank()
            && u.age == ts as int - b.timestamps[Proposed] as int
            && u.timeInPrevious == (if stage == Rejected then None else Some(u.age - age))
  {
    assert Verified.Rank() == 3 && Rejected.Rank() == 4;
    assert b.stage != stage && stage != Proposed;
    var ts' := b.timestamps[stage := ts];
    assert forall s :: s in ts' && s.Rank() > b.stage.Rank() ==> s == stage;
  }

  lemma {:induction false} EvictTakesFromFront(index: map<nat, Hash>, completed: seq<BlockLifecycle>, max: nat)
    ensures var (index', kept) := Evict(index, completed, max);
            && |kept| == Min(|completed|, max)
            && kept == completed[|completed| - |kept|..]
            && (forall n :: n in index' ==> n in index && index'[n] == index[n])
            && (forall n :: n in index ==>
                  (n !in index' <==> exists i :: 0 <= i < |completed| - |kept| && completed[i].number == n))
    decreases |completed|
  {
    if |completed| > max {
      EvictTakesFromFront(index - {completed[0].number}, completed[1..], max);
      var (index', kept) := Evict(index, completed, max);
      forall n | n in index
        ensures n !in index' <==> exists i :: 0 <= i < |completed| - |kept| && completed[i].number == n
      {
        NumbersInFront(completed, |completed| - max, n);
      }
    }
  }

  lemma NumbersInFront(completed: seq<BlockLifecycle>, cut: nat, n: nat)
    requires 0 < cut <= |completed|
    ensures (exists i :: 0 <= i < cut && completed[i].number == n) <==>
            completed[0].number == n || exists i :: 0 <= i < cut - 1 && completed[1..][i].number == n
  {
    if i :| 0 <= i < cut && completed[i].number == n {
      if i > 0 {
        assert completed[1..][i - 1].number == n;
      }
    }
    if i :| 0 <= i < cut - 1 && completed[1..][i].number == n {
      assert completed[i + 1].number == n;
    }
  }

  /** A step that does not propose h again keeps the tie; one that proposes it for the first time makes it. */
  lemma ApplyTracks(t: Tracker, max: nat, op: Op, us: seq<Update>, h: Hash)
    requires WellFormed(t) && Tracks(t, us, h)
    requires IsProposalOf(op, h) ==> us == []
    ensures var (t', emitted) := Apply(t, max, op);
            Tracks(t', us + About(emitted, h), h)
  {
    match op {
      case Propose(hash, number, ts) => ProposeTracks(t, max, op, us, h);
      case Advance(hash, number, stage, ts) =>
        var target := Target(t, hash, number);
        if target.Some? && t.active[target.value].stage.CanTransitionTo(stage) {
          AdvanceTracks(t, max, target.value, stage, ts, us, h);
        } else {
          assert us + About([], h) == us;
        }
      case ExecutionEnd(number, _, _, _) => MetadataTracks(t, max, op, us, h);
      case RecordTxn(number) => MetadataTracks(t, max, op, us, h);
    }
  }

  lemma ProposeTracks(t: Tracker, max: nat, op: Op, us: seq<Update>, h: Hash)
    requires WellFormed(t) && Tracks(t, us, h) && op.Propose?
    requires op.hash == h ==> us == []
    ensures var (t', emitted) := Apply(t, max, op);
            Tracks(t', us + About(emitted, h), h)
  {
    var (t', emitted) := Apply(t, max, op);
    if op.hash == h {
      ChainExtends(us, emitted[0]);
      assert t'.active[h] == NewBlock(h, op.number, op.ts);
    } else {
      assert us + About(emitted, h) == us;
    }
  }

  lemma MetadataTracks(t: Tracker, max: nat, op: Op, us: seq<Update>, h: Hash)
    requires WellFormed(t) && Tracks(t, us, h) && (op.ExecutionEnd? || op.RecordTxn?)
    ensures var (t', emitted) := Apply(t, max, op);
            Tracks(t', us + About(emitted, h), h)
  {
    var (t', emitted) := Apply(t, max, op);
    assert us + About(emitted, h) == us;
    MetadataKeepsStages(t, max, op, h);
  }

  /** Internal events change no public stage. */
  lemma MetadataKeepsStages(t: Tracker, max: nat, op: Op, h: Hash)
    requires op.ExecutionEnd? || op.RecordTxn?
    ensures var (t', emitted) := Apply(t, max, op);
            && emitted == [] && t'.completed == t.completed && t'.index == t.index
            && (h in t'.active <==> h in t.active)
            && (h in t.active ==>
                  var b, b' := t.active[h], t'.active[h];
                  (b'.hash, b'.number, b'.stage, b'.timestamps) == (b.hash, b.number, b.stage, b.timestamps))
  {
  }

  ghost function About(emitted: seq<Update>, h: Hash): seq<Update> {
    if emitted != [] && emitted[0].hash == h then emitted else []
  }

  lemma AdvanceTracks(t: Tracker, max: nat, target: Hash, stage: Stage, ts: nat, us: seq<Update>, h: Hash)
    requires WellFormed(t) && Tracks(t, us, h)
    requires target in t.active && t.active[target].stage.CanTransitionTo(stage)
    ensures Tracks(Stored(t, target, Advanced(t.active[target], stage, ts), max),
                   us + About([AdvanceUpdate(t.active[target], stage, ts)], h), h)
  {
    StoredKeepsOrRetires(t, target, Advanced(t.active[target], stage, ts), max);
    if target == h {
      AdvanceTracksOwn(t, Stored(t, h, Advanced(t.active[h], stage, ts), max), stage, ts, us, h);
    } else {
      assert us + About([AdvanceUpdate(t.active[target], stage, ts)], h) == us;
      OthersTrackOn(t, Stored(t, target, Advanced(t.active[target], stage, ts), max), target, us, h);
    }
  }

  lemma OthersTrackOn(t: Tracker, t': Tracker, target: Hash, us: seq<Update>, h: Hash)
    requires Tracks(t, us, h) && target != h
    requires (h in t'.active <==> h in t.active) && (h in t.active ==> t'.active[h] == t.active[h])
    requires forall c :: c in t'.completed && c.hash == h ==> c in t.completed
    ensures Tracks(t', us, h)
  {
  }

  lemma AdvanceTracksOwn(t: Tracker, t': Tracker, stage: Stage, ts: nat, us: seq<Update>, h: Hash)
    requires WellFormed(t) && Tracks(t, us, h) && h in t.active && t.active[h].stage.CanTransitionTo(stage)
    requires t'.active == if stage.IsTerminal() then t.active - {h} else t.active[h := Advanced(t.active[h], stage, ts)]
    requires forall c :: c in t'.completed ==>
               c in t.completed || (stage.IsTerminal() && c == Advanced(t.active[h], stage, ts))
    ensures Tracks(t', us + [AdvanceUpdate(t.active[h], stage, ts)], h)
  {
    var b, u := t.active[h], AdvanceUpdate(t.active[h], stage, ts);
    assert Chain(us + [u]) && Telescopes(us + [u]) by {
      UpdateFollows(b, stage, ts, us);
      ChainExtends(us, u);
    }
    LastOfAppend(us, u);
    ActiveIsNotRetired(t, us, h);
    if stage.IsTerminal() {
      TracksRetired(t', us + [u], u, h, Advanced(b, stage, ts));
    } else {
      AdvancedIsWellFormed(b, stage, ts);
      TracksActive(t', us + [u], u, h);
    }
  }

  lemma TracksRetired(t: Tracker, us: seq<Update>, u: Update, h: Hash, b: BlockLifecycle)
    requires Chain(us) && Telescopes(us) && us != [] && us[|us| - 1] == u && u.to.IsTerminal()
    requires b.stage == u.to && b.number == u.number && h !in t.active
    requires forall c :: c in t.completed && c.hash == h ==> c == b
    ensures Tracks(t, us, h)
  {
  }

  lemma TracksActive(t: Tracker, us: seq<Update>, u: Update, h: Hash)
    requires Chain(us) && Telescopes(us) && us != [] && us[|us| - 1] == u && !u.to.IsTerminal()
    requires h in t.active && t.active[h].stage == u.to && t.active[h].number == u.number && WellFormedBlock(t.active[h])
    requires t.active[h].timestamps[u.to] as int - t.active[h].timestamps[Proposed] as int == u.age
    requires forall c :: c in t.completed ==> c.hash != h
    ensures Tracks(t, us, h)
  {
  }

  lemma ActiveIsNotRetired(t: Tracker, us: seq<Update>, h: Hash)
    requires Tracks(t, us, h) && h in t.active
    ensures forall c :: c in t.completed ==> c.hash != h
  {
  }

  lemma LastOfAppend<T>(s: seq<T>, x: T)
    ensures s + [x] != [] && (s + [x])[|s + [x]| - 1] == x
  {
  }

  lemma UpdateFollows(b: BlockLifecycle, stage: Stage, ts: nat, us: seq<Update>)
    requires WellFormedBlock(b) && b.stage.CanTransitionTo(stage) && us != []
    requires b.stage == us[|us| - 1].to && b.timestamps[b.stage] as int - b.timestamps[Proposed] as int == us[|us| - 1].age
    ensures var u := AdvanceUpdate(b, stage, ts);
            && Links(us, u)
            && u.timeInPrevious == (if u.to == Rejected then None else Some(u.age - us[|us| - 1].age))
  {
    UpdateExtends(b, stage, ts);
  }

  lemma AdvancedIsWellFormed(b: BlockLifecycle, stage: Stage, ts: nat)
    requires WellFormedBlock(b) && b.stage.CanTransitionTo(stage) && !stage.IsTerminal()
    ensures var b' := Advanced(b, stage, ts);
            && WellFormedBlock(b')
            && b'.timestamps[stage] as int - b'.timestamps[Proposed] as int == AdvanceUpdate(b, stage, ts).age
  {
    UpdateExtends(b, stage, ts);
  }

  /** Storing a block retires it when it is terminal, and drops the oldest retired ones. */
  lemma StoredKeepsOrRetires(t: Tracker, target: Hash, b: BlockLifecycle, max: nat)
    ensures var t' := Stored(t, target, b, max);
            && t'.active == (if b.stage.IsTerminal() then t.active - {target} else t.active[target := b])
            && (forall c :: c in t'.completed ==> c in t.completed || (b.stage.IsTerminal() && c == b))
  {
    if b.stage.IsTerminal() {
      EvictTakesFromFront(t.index, t.completed + [b], max);
    }
  }

  lemma {:induction false} RunTracks(max: nat, ops: seq<Op>, h: Hash)
    requires Proposals(ops, h) <= 1
    ensures var r := Run(max, ops);
            Tracks(r.tracker, Of(r.updates, h), h) && (Proposals(ops, h) == 0 ==> Of(r.updates, h) == [])
  {
    if ops == [] {
    } else {
      var front, op := ops[..|ops| - 1], ops[|ops| - 1];
      var prior := Run(max, front);
      RunTracks(max, front, h);
      RunIsWellFormed(max, front);
      ApplyTracks(prior.tracker, max, op, Of(prior.updates, h), h);
      OfAppend(prior.updates, Apply(prior.tracker, max, op).1, h);
      if Proposals(ops, h) == 0 {
        NoTargetWithoutProposal(prior.tracker, max, op, h);
      }
    }
  }

  lemma NoTargetWithoutProposal(t: Tracker, max: nat, op: Op, h: Hash)
    requires WellFormed(t) && h !in t.active && !IsProposalOf(op, h)
    ensures About(Apply(t, max, op).1, h) == []
  {
  }

  /** The number of updates about h that have no previous stage. */
  ghost function Births(us: seq<Update>): nat {
    if us == [] then 0 else Births(us[..|us| - 1]) + (if us[|us| - 1].from == None then 1 else 0)
  }

  lemma {:induction false} ChainHasOneBirth(us: seq<Update>)
    requires Chain(us)
    ensures Births(us) <= 1 && (us == [] ==> Births(us) == 0)
  {
    if us == [] {
    } else {
      ChainHasOneBirth(us[..|us| - 1]);
    }
  }

  lemma EmissionIsBirthIffProposal(t: Tracker, max: nat, op: Op, h: Hash)
    ensures var about := About(Apply(t, max, op).1, h);
            && |about| <= 1
            && (IsProposalOf(op, h) <==> about != [] && about[0].from == None)
  {
  }

  lemma {:induction false} EveryProposalIsABirth(max: nat, ops: seq<Op>, h: Hash)
    ensures Births(Of(Run(max, ops).updates, h)) == Proposals(ops, h)
  {
    if ops == [] {
    } else {
      var prior := Run(max, ops[..|ops| - 1]);
      EveryProposalIsABirth(max, ops[..|ops| - 1], h);
      BirthStep(prior.tracker, max, ops[|ops| - 1], prior.updates, h);
    }
  }

  lemma BirthStep(t: Tracker, max: nat, op: Op, us: seq<Update>, h: Hash)
    ensures Births(Of(us + Apply(t, max, op).1, h)) == Births(Of(us, h)) + (if IsProposalOf(op, h) then 1 else 0)
  {
    EmissionIsBirthIffProposal(t, max, op, h);
    BirthsAppend(us, Apply(t, max, op).1, h);
  }

  lemma BirthsAppend(us: seq<Update>, emitted: seq<Update>, h: Hash)
    requires |emitted| <= 1
    ensures Births(Of(us + emitted, h)) ==
            Births(Of(us, h)) + (if About(emitted, h) != [] && emitted[0].from == None then 1 else 0)
  {
    OfAppend(us, emitted, h);
    var mine := Of(us, h);
    if About(emitted, h) == [] {
      assert mine + [] == mine;
    } else {
      assert (mine + emitted)[..|mine|] == mine;
    }
  }

  /** In any run, the updates about a block form a proper lifecycle exactly when its hash was proposed
      at most once: proposing a hash again restarts it. */
  lemma LifecycleTraceIff(max: nat, ops: seq<Op>, h: Hash)
    ensures Chain(Of(Run(max, ops).updates, h)) <==> Proposals(ops, h) <= 1
  {
    if Proposals(ops, h) <= 1 {
      RunTracks(max, ops, h);
    } else {
      EveryProposalIsABirth(max, ops, h);
      if Chain(Of(Run(max, ops).updates, h)) {
        ChainHasOneBirth(Of(Run(max, ops).updates, h));
      }
    }
  }

  /** The chain read pairwise: stages rise strictly from Proposed and only the last may be terminal. */
  lemma {:induction false} ChainRises(us: seq<Update>, i: nat, j: nat)
    requires Chain(us) && i < j < |us|
    ensures us[i].to.Rank() < us[j].to.Rank() && !us[i].to.IsTerminal() && us[0].to == Proposed
  {
    var front := us[..|us| - 1];
    if j < |us| - 1 {
      ChainRises(front, i, j);
    } else if i < j - 1 {
      ChainRises(front, i, j - 1);
    } else if i > 0 {
      ChainRises(front, 0, i);
    }
  }

  /** The times a block reports for its stages add up to the age it reports. */
  lemma TimesTelescope(max: nat, ops: seq<Op>, h: Hash)
    requires Proposals(ops, h) <= 1
    ensures var us := Of(Run(max, ops).updates, h);
            && Telescopes(us)
            && (us != [] && us[|us| - 1].to != Rejected ==> SumTimes(us) == us[|us| - 1].age)
            && (|us| > 1 && us[|us| - 1].to == Rejected ==> SumTimes(us) == us[|us| - 2].age)
  {
    RunTracks(max, ops, h);
    var us := Of(Run(max, ops).updates, h);
    if |us| > 1 {
      FrontTelescopes(us);
    }
  }

  lemma FrontTelescopes(us: seq<Update>)
    requires Chain(us) && Telescopes(us) && |us| > 1
    ensures us[|us| - 1].to == Rejected ==> SumTimes(us) == us[|us| - 2].age
  {
    var front := us[..|us| - 1];
    assert front[|front| - 1] == us[|us| - 2];
  }

  // ---- Commit stages agree with the update stream ----

  lemma {:induction false} FindStageFinds(completed: seq<BlockLifecycle>, h: Hash)
    ensures match FindStage(completed, h)
            case None => forall i :: 0 <= i < |completed| ==> completed[i].hash != h
            case Some(s) => exists i :: 0 <= i < |completed| && completed[i].hash == h && completed[i].stage == s
  {
    if completed != [] && completed[0].hash != h {
      FindStageFinds(completed[1..], h);
      if FindStage(completed[1..], h).Some? {
        var s := FindStage(completed[1..], h).value;
        var i :| 0 <= i < |completed[1..]| && completed[1..][i].hash == h && completed[1..][i].stage == s;
        assert completed[i + 1].hash == h && completed[i + 1].stage == s;
      }
    }
  }

  /** The stage an event is tagged with is the last stage announced for its block. */
  lemma StageIsLastAnnounced(max: nat, ops: seq<Op>, h: Hash)
    requires Proposals(ops, h) <= 1
    ensures var r := Run(max, ops);
            var us := Of(r.updates, h);
            match CurrentStage(r.tracker, h)
            case Some(s) => us != [] && us[|us| - 1].to == s
            case None => us == [] || us[|us| - 1].to.IsTerminal()
  {
    RunTracks(max, ops, h);
    FindStageFinds(Run(max, ops).tracker.completed, h);
  }

  // ---- The number index ----

  ghost predicate FreshHashes(ops: seq<Op>) { forall h :: Proposals(ops, h) <= 1 }

  /** Block h with number n is active, or completed and still retained. */
  ghost predicate Live(t: Tracker, h: Hash, n: nat) {
    (h in t.active && t.active[h].number == n) || Retained(t.completed, h, n)
  }

  ghost predicate Retained(completed: seq<BlockLifecycle>, h: Hash, n: nat) {
    exists i :: 0 <= i < |completed| && completed[i].hash == h && completed[i].number == n
  }

  ghost predicate OneBlockPerHash(t: Tracker) {
    && (forall i :: 0 <= i < |t.completed| ==> t.completed[i].hash !in t.active)
    && (forall i, j :: 0 <= i < j < |t.completed| ==> t.completed[i].hash != t.completed[j].hash)
  }

  /** Every index entry leads to a live block with that number. */
  ghost predicate IndexSound(t: Tracker) {
    forall n :: n in t.index ==> Live(t, t.index[n], n)
  }

  /** Every live block is found under its number. */
  ghost predicate IndexComplete(t: Tracker) {
    forall h, n :: Live(t, h, n) ==> n in t.index && t.index[n] == h
  }

  lemma EvictKeepsIndex(t: Tracker, max: nat)
    requires OneBlockPerHash(t) && IndexSound(t)
    ensures var (index, completed) := Evict(t.index, t.completed, max);
            var t' := Tracker(t.active, index, completed);
            OneBlockPerHash(t') && IndexSound(t') && (IndexComplete(t) ==> IndexComplete(t'))
    decreases |t.completed|
  {
    if |t.completed| > max {
      var oldest := t.completed[0];
      var next := Tracker(t.active, t.index - {oldest.number}, t.completed[1..]);
      forall h, n | Live(t, h, n) && h != oldest.hash ensures Live(next, h, n) {
        if Retained(t.completed, h, n) {
          var i :| 0 <= i < |t.completed| && t.completed[i].hash == h && t.completed[i].number == n;
          assert next.completed[i - 1].hash == h;
        }
      }
      forall h, n | Live(next, h, n) ensures Live(t, h, n) && h != oldest.hash {
        if Retained(next.completed, h, n) {
          var i :| 0 <= i < |next.completed| && next.completed[i].hash == h && next.completed[i].number == n;
          assert t.completed[i + 1].hash == h;
        }
      }
      assert Live(t, oldest.hash, oldest.number);
      EvictKeepsIndex(next, max);
    }
  }

  /** Moving a finished block from the active set to the retained ones leaves the live blocks as they were. */
  lemma RetireKeepsIndex(t: Tracker, target: Hash, b: BlockLifecycle)
    requires WellFormed(t) && OneBlockPerHash(t) && IndexSound(t)
    requires target in t.active && b.hash == target && b.number == t.active[target].number
    ensures var t' := Tracker(t.active - {target}, t.index, t.completed + [b]);
            OneBlockPerHash(t') && IndexSound(t') && (IndexComplete(t) ==> IndexComplete(t'))
  {
    var t' := Tracker(t.active - {target}, t.index, t.completed + [b]);
    forall h, n ensures Live(t, h, n) <==> Live(t', h, n) {
      if Live(t, h, n) {
        if Retained(t.completed, h, n) {
          var i :| 0 <= i < |t.completed| && t.completed[i].hash == h && t.completed[i].number == n;
          assert t'.completed[i].hash == h;
        } else if h == target {
          assert t'.completed[|t.completed|] == b;
        }
      }
    }
  }

  lemma SameBlocksKeepIndex(t: Tracker, t': Tracker)
    requires OneBlockPerHash(t) && IndexSound(t)
    requires t'.completed == t.completed && t'.index == t.index && t'.active.Keys == t.active.Keys
    requires forall h :: h in t.active ==> t'.active[h].number == t.active[h].number
    ensures OneBlockPerHash(t') && IndexSound(t') && (IndexComplete(t) ==> IndexComplete(t'))
  {
    assert forall h, n :: Live(t', h, n) <==> Live(t, h, n);
  }

  lemma StoreKeepsIndex(t: Tracker, max: nat, target: Hash, b: BlockLifecycle)
    requires WellFormed(t) && OneBlockPerHash(t) && IndexSound(t)
    requires target in t.active && b.hash == target && b.number == t.active[target].number
    ensures var t' := Stored(t, target, b, max);
            OneBlockPerHash(t') && IndexSound(t') && (IndexComplete(t) ==> IndexComplete(t'))
  {
    if b.stage.IsTerminal() {
      RetireKeepsIndex(t, target, b);
      EvictKeepsIndex(Tracker(t.active - {target}, t.index, t.completed + [b]), max);
    } else {
      SameBlocksKeepIndex(t, t.(active := t.active[target := b]));
    }
  }

  lemma AdvanceKeepsIndex(t: Tracker, max: nat, op: Op)
    requires WellFormed(t) && OneBlockPerHash(t) && IndexSound(t) && !op.Propose?
    ensures var t' := Apply(t, max, op).0;
            OneBlockPerHash(t') && IndexSound(t') && (IndexComplete(t) ==> IndexComplete(t'))
  {
    match op {
      case Advance(hash, number, stage, ts) =>
        var target := Target(t, hash, number);
        if target.Some? && t.active[target.value].stage.CanTransitionTo(stage) {
          StoreKeepsIndex(t, max, target.value, Advanced(t.active[target.value], stage, ts));
        }
      case ExecutionEnd(_, _, _, _) => SameBlocksKeepIndex(t, Apply(t, max, op).0);
      case RecordTxn(_) => SameBlocksKeepIndex(t, Apply(t, max, op).0);
    }
  }

  /** Proposing a hash that is not live keeps the index sound, and keeps it complete exactly when
      the number is not in the index: a check the caller could make first. */
  lemma ProposeIndexIff(t: Tracker, max: nat, op: Op)
    requires OneBlockPerHash(t) && IndexSound(t)
    requires op.Propose? && forall n :: !Live(t, op.hash, n)
    ensures var t' := Apply(t, max, op).0;
            && OneBlockPerHash(t') && IndexSound(t')
            && (IndexComplete(t) ==> (IndexComplete(t') <==> op.number !in t.index))
  {
    var t' := Apply(t, max, op).0;
    forall i | 0 <= i < |t.completed| ensures t.completed[i].hash != op.hash {
      if t.completed[i].hash == op.hash {
        assert Live(t, op.hash, t.completed[i].number);
      }
    }
    if op.hash in t.active {
      assert Live(t, op.hash, t.active[op.hash].number);
    }
    forall h, n ensures Live(t', h, n) <==> Live(t, h, n) || (h == op.hash && n == op.number) {
    }
    if op.number in t.index {
      assert Live(t', t.index[op.number], op.number);
    }
  }

  lemma {:induction false} LiveBlocksWereProposed(max: nat, ops: seq<Op>, h: Hash, n: nat)
    requires Proposals(ops, h) == 0
    ensures !Live(Run(max, ops).tracker, h, n)
  {
    RunTracks(max, ops, h);
  }

  /** With hashes proposed once each, every index entry of every run leads to a live block. */
  lemma {:induction false} IndexIsSound(max: nat, ops: seq<Op>)
    requires FreshHashes(ops)
    ensures OneBlockPerHash(Run(max, ops).tracker) && IndexSound(Run(max, ops).tracker)
  {
    if ops == [] {
    } else {
      var front, op := ops[..|ops| - 1], ops[|ops| - 1];
      FreshFront(ops);
      IndexIsSound(max, front);
      RunIsWellFormed(max, front);
      if op.Propose? {
        assert Proposals(ops, op.hash) <= 1;
        FreshProposal(max, front, op, Run(max, front).tracker);
        ProposeIndexIff(Run(max, front).tracker, max, op);
      } else {
        AdvanceKeepsIndex(Run(max, front).tracker, max, op);
      }
    }
  }

  lemma FreshFront(ops: seq<Op>)
    requires FreshHashes(ops) && ops != []
    ensures FreshHashes(ops[..|ops| - 1])
  {
    var front := ops[..|ops| - 1];
    forall h ensures Proposals(front, h) <= 1 {
      assert Proposals(ops, h) <= 1;
    }
  }

  lemma FreshProposal(max: nat, front: seq<Op>, op: Op, t: Tracker)
    requires op.Propose? && Proposals(front, op.hash) == 0 && t == Run(max, front).tracker
    ensures forall n :: !Live(t, op.hash, n)
  {
    forall n ensures !Live(t, op.hash, n) {
      LiveBlocksWereProposed(max, front, op.hash, n);
    }
  }

  /** No proposal of the run uses a number that the index holds at that moment. */
  ghost predicate NumbersFree(max: nat, ops: seq<Op>) {
    ops == [] ||
    (var front, op := ops[..|ops| - 1], ops[|ops| - 1];
     NumbersFree(max, front) && (op.Propose? ==> op.number !in Run(max, front).tracker.index))
  }

  ghost predicate IndexAlwaysComplete(max: nat, ops: seq<Op>) {
    IndexComplete(Run(max, ops).tracker) && (ops != [] ==> IndexAlwaysComplete(max, ops[..|ops| - 1]))
  }

  /** Throughout a run with fresh hashes the index holds exactly the live blocks, across completion and
      eviction, if and only if no proposal reuses a number still in the index. */
  lemma {:induction false} IndexIsExactIff(max: nat, ops: seq<Op>)
    requires FreshHashes(ops)
    ensures IndexAlwaysComplete(max, ops) <==> NumbersFree(max, ops)
  {
    if ops == [] {
    } else {
      var front, op := ops[..|ops| - 1], ops[|ops| - 1];
      FreshFront(ops);
      IndexIsExactIff(max, front);
      IndexIsSound(max, front);
      RunIsWellFormed(max, front);
      if op.Propose? {
        assert Proposals(ops, op.hash) <= 1;
        FreshProposal(max, front, op, Run(max, front).tracker);
        ProposeIndexIff(Run(max, front).tracker, max, op);
      } else {
        AdvanceKeepsIndex(Run(max, front).tracker, max, op);
      }
      if NumbersFree(max, front) {
        assert IndexComplete(Run(max, front).tracker);
      }
    }
  }

  // ---- Execution metadata ----

  datatype Metadata = Metadata(txnCount: nat, gasUsed: Option<nat>, ethBlockHash: Option<Hash>, executionEndNs: Option<nat>)

  function MetadataOf(b: BlockLifecycle): Metadata {
    Metadata(b.txnCount, b.gasUsed, b.ethBlockHash, b.executionEndNs)
  }

  /** What the events naming number n have reported since hash h was last proposed: how many transactions, and
      the results of the latest execution end. */
  ghost function Reported(ops: seq<Op>, h: Hash, n: nat): Metadata {
    if ops == [] then Metadata(0, None, None, None)
    else
      var before := Reported(ops[..|ops| - 1], h, n);
      match ops[|ops| - 1]
      case Propose(hash, _, _) => if hash == h then Metadata(0, None, None, None) else before
      case Advance(_, _, _, _) => before
      case RecordTxn(number) => if number == n then before.(txnCount := before.txnCount + 1) else before
      case ExecutionEnd(number, ts, gas, ethHash) =>
        if number == n then Metadata(before.txnCount, Some(gas), Some(ethHash), Some(ts)) else before
  }

  lemma {:induction false} PrefixesAreComplete(max: nat, ops: seq<Op>)
    requires FreshHashes(ops) && NumbersFree(max, ops)
    ensures OneBlockPerHash(Run(max, ops).tracker) && IndexSound(Run(max, ops).tracker) && IndexComplete(Run(max, ops).tracker)
  {
    IndexIsSound(max, ops);
    IndexIsExactIff(max, ops);
  }

  /** An event that names a number changes the block found under it and no other. */
  lemma OneStepReports(t: Tracker, max: nat, op: Op, h: Hash)
    requires WellFormed(t) && OneBlockPerHash(t) && IndexSound(t) && IndexComplete(t)
    requires h in t.active && h in Apply(t, max, op).0.active && !IsProposalOf(op, h)
    ensures var b, b' := t.active[h], Apply(t, max, op).0.active[h];
            && b'.number == b.number
            && MetadataOf(b') ==
                 if op.RecordTxn? && op.number == b.number then MetadataOf(b).(txnCount := b.txnCount + 1)
                 else if op.ExecutionEnd? && op.number == b.number
                   then Metadata(b.txnCount, Some(op.gas), Some(op.ethHash), Some(op.ts))
                 else MetadataOf(b)
  {
    assert Live(t, h, t.active[h].number);
    if (op.RecordTxn? || op.ExecutionEnd?) && op.number in t.index && t.index[op.number] == h {
      assert Live(t, h, op.number);
    }
  }

  /** With fresh hashes and no number reused while indexed, an active block holds exactly what was reported
      for its number since its proposal; its updates copy these fields. */
  lemma {:induction false} MetadataIsReported(max: nat, ops: seq<Op>, h: Hash)
    requires FreshHashes(ops) && NumbersFree(max, ops) && h in Run(max, ops).tracker.active
    ensures var b := Run(max, ops).tracker.active[h]; MetadataOf(b) == Reported(ops, h, b.number)
  {
    var front, op := ops[..|ops| - 1], ops[|ops| - 1];
    var t := Run(max, front).tracker;
    FreshFront(ops);
    if !IsProposalOf(op, h) {
      RunIsWellFormed(max, front);
      PrefixesAreComplete(max, front);
      ActiveBefore(t, max, op, h);
      MetadataIsReported(max, front, h);
      OneStepReports(t, max, op, h);
    }
  }

  lemma ActiveBefore(t: Tracker, max: nat, op: Op, h: Hash)
    requires h in Apply(t, max, op).0.active && !IsProposalOf(op, h)
    ensures h in t.active
  {
  }

  /** Which index entries a transition drops, in any state: those whose number belongs to a block that
      leaves the retained ones - whichever block the entry leads to. */
  lemma EntryDroppedIff(t: Tracker, max: nat, op: Op, n: nat)
    requires op.Advance? && Apply(t, max, op).1 != [] && op.stage.IsTerminal()
    requires n in t.index && |t.completed| <= max
    ensures var retired := t.completed + [Advanced(t.active[Target(t, op.hash, op.number).value], op.stage, op.ts)];
            n !in Apply(t, max, op).0.index <==> |t.completed| == max && retired[0].number == n
  {
    var b := Advanced(t.active[Target(t, op.hash, op.number).value], op.stage, op.ts);
    EvictTakesFromFront(t.index, t.completed + [b], max);
  }

  /** Events name their block by number. With fresh hashes, an event whose number is in the index is tagged with
      the last stage announced for the live block found there, and no other event is tagged at all. */
  lemma TagIsAnnouncedStage(max: nat, ops: seq<Op>, n: nat)
    requires FreshHashes(ops)
    ensures var r := Run(max, ops);
            match CurrentStageByNumber(r.tracker, n)
            case None => n !in r.tracker.index
            case Some(s) =>
              && n in r.tracker.index && Live(r.tracker, r.tracker.index[n], n)
              && var us := Of(r.updates, r.tracker.index[n]); us != [] && us[|us| - 1].to == s
  {
    var t := Run(max, ops).tracker;
    if n in t.index {
      IndexIsSound(max, ops);
      assert Proposals(ops, t.index[n]) <= 1;
      StageIsLastAnnounced(max, ops, t.index[n]);
      FindStageFinds(t.completed, t.index[n]);
    }
  }

  /** Two forks of block 7, of which the first completes, and then k more blocks that complete. */
  ghost function ForkRun(k: nat): seq<Op> {
    if k == 0 then [Propose(1, 7, 0)] + [Propose(2, 7, 0)] + [Advance(1, 7, Verified, 1)]
    else ForkRun(k - 1) + [Propose(k + 2, k + 7, 0)] + [Advance(k + 2, k + 7, Verified, 1)]
  }

  /** Why a reused number matters, at any retention limit: once max more blocks have completed, the first fork is
      evicted, and the index entry of the second goes with it. A verification that carries only the number is then
      ignored although the second fork is still active. */
  lemma EvictionForgetsTheOtherFork(max: nat)
    requires max >= 1
    ensures var t := Run(max, ForkRun(max)).tracker;
            && FreshHashes(ForkRun(max)) && 2 in t.active && t.active[2].number == 7
            && Apply(t, max, Advance(0, 7, Verified, 2)).1 == []
  {
    forall h ensures Proposals(ForkRun(max), h) <= 1 {
      ForkRunProposals(max, h);
    }
    FirstForkIsEvicted(max);
    UnknownIsIgnored(Run(max, ForkRun(max)).tracker, max, 0, 7, 2);
  }

  lemma FirstForkIsEvicted(max: nat)
    requires max >= 1
    ensures var t := Run(max, ForkRun(max)).tracker; t.active == map[2 := NewBlock(2, 7, 0)] && 7 !in t.index
  {
    var t, p, a := Run(max, ForkRun(max - 1)).tracker, Propose(max + 2, max + 7, 0), Advance(max + 2, max + 7, Verified, 1);
    ForksRetained(max, max - 1);
    OneMoreEvicts(t, max, p, a);
    RunTwo(max, ForkRun(max - 1), p, a);
  }

  lemma UnknownIsIgnored(t: Tracker, max: nat, h: Hash, n: nat, ts: nat)
    requires h !in t.active && n !in t.index
    ensures Apply(t, max, Advance(h, n, Verified, ts)).1 == []
  {
  }

  /** A block is proposed, and then verified. */
  ghost predicate IsRound(p: Op, a: Op) {
    && p.Propose? && p.hash != 2 && p.number != 7
    && a == Advance(p.hash, p.number, Verified, 1)
  }

  lemma OneMoreEvicts(t: Tracker, max: nat, p: Op, a: Op)
    requires max >= 1 && ForksAreKept(t, max - 1) && IsRound(p, a)
    ensures var t' := Apply(Apply(t, max, p).0, max, a).0; t'.active == t.active && 7 !in t'.index
  {
    BlockCompletes(t, max, p, a);
    EntryDroppedIff(Apply(t, max, p).0, max, a, 7);
  }

  lemma OneMoreIsKept(t: Tracker, max: nat, k: nat, p: Op, a: Op)
    requires ForksAreKept(t, k) && k + 1 < max && IsRound(p, a)
    ensures ForksAreKept(Apply(Apply(t, max, p).0, max, a).0, k + 1)
  {
    BlockCompletes(t, max, p, a);
  }

  lemma {:induction false} ForkRunProposals(k: nat, h: Hash)
    ensures Proposals(ForkRun(k), h) == if 1 <= h <= k + 2 then 1 else 0
  {
    if k == 0 {
      ProposalsOfOneMore([], Propose(1, 7, 0), h);
      ProposalsOfOneMore([Propose(1, 7, 0)], Propose(2, 7, 0), h);
      ProposalsOfOneMore([Propose(1, 7, 0)] + [Propose(2, 7, 0)], Advance(1, 7, Verified, 1), h);
      assert [] + [Propose(1, 7, 0)] == [Propose(1, 7, 0)];
    } else {
      var p := Propose(k + 2, k + 7, 0);
      ForkRunProposals(k - 1, h);
      ProposalsOfOneMore(ForkRun(k - 1), p, h);
      ProposalsOfOneMore(ForkRun(k - 1) + [p], Advance(k + 2, k + 7, Verified, 1), h);
    }
  }

  lemma ProposalsOfOneMore(ops: seq<Op>, op: Op, h: Hash)
    ensures Proposals(ops + [op], h) == Proposals(ops, h) + (if IsProposalOf(op, h) then 1 else 0)
  {
    assert (ops + [op])[..|ops|] == ops;
  }

  lemma RunTwo(max: nat, ops: seq<Op>, p: Op, a: Op)
    ensures Run(max, ops + [p] + [a]).tracker == Apply(Apply(Run(max, ops).tracker, max, p).0, max, a).0
  {
    RunStep(max, ops, p);
    RunStep(max, ops + [p], a);
  }

  /** The second fork is the only active block and found under 7; the first is the oldest of k + 1 retained ones. */
  ghost predicate ForksAreKept(t: Tracker, k: nat) {
    && t.active == map[2 := NewBlock(2, 7, 0)] && 7 in t.index && t.index[7] == 2
    && |t.completed| == k + 1 && t.completed[0].number == 7
  }

  lemma {:induction false} ForksRetained(max: nat, k: nat)
    requires k < max
    ensures ForksAreKept(Run(max, ForkRun(k)).tracker, k)
  {
    if k == 0 {
      FirstForkCompletes(max);
    } else {
      var p, a := Propose(k + 2, k + 7, 0), Advance(k + 2, k + 7, Verified, 1);
      ForksRetained(max, k - 1);
      OneMoreIsKept(Run(max, ForkRun(k - 1)).tracker, max, k - 1, p, a);
      RunTwo(max, ForkRun(k - 1), p, a);
    }
  }

  /** A round while only the second fork is active. */
  lemma BlockCompletes(t: Tracker, max: nat, p: Op, a: Op)
    requires t.active == map[2 := NewBlock(2, 7, 0)] && IsRound(p, a)
    ensures var t1 := Apply(t, max, p).0;
            var (t2, emitted) := Apply(t1, max, a);
            var b := NewBlock(p.hash, p.number, p.ts);
            && t1.completed == t.completed && t1.index == t.index[p.number := p.hash]
            && Target(t1, a.hash, a.number) == Some(p.hash) && t1.active[p.hash] == b
            && emitted != [] && t2.active == t.active
            && (|t.completed| < max ==>
                  t2.index == t1.index && t2.completed == t.completed + [Advanced(b, Verified, 1)])
  {
    assert Apply(t, max, p).0.active - {p.hash} == t.active;
  }

  lemma FirstForkCompletes(max: nat)
    requires max >= 1
    ensures ForksAreKept(Run(max, ForkRun(0)).tracker, 0)
  {
    var p, q := Propose(1, 7, 0), Propose(2, 7, 0);
    RunStep(max, [], p);
    RunTwo(max, [p], q, Advance(1, 7, Verified, 1));
    assert [] + [p] == [p];
    var two := Tracker(map[1 := NewBlock(1, 7, 0), 2 := NewBlock(2, 7, 0)], map[7 := 2], []);
    assert Apply(Run(max, [p]).tracker, max, q).0 == two;
    assert two.active - {1} == map[2 := NewBlock(2, 7, 0)];
  }

  // ---- The update stream as a log of the active set ----

  type View = map<Hash, (Stage, nat)>

  ghost function ViewOf(t: Tracker): View {
    map h | h in t.active :: (t.active[h].stage, t.active[h].number)
  }

  /** A client that keeps a table of blocks: a terminal update removes the block, any other one sets it. */
  ghost function FoldFrom(v: View, us: seq<Update>): View {
    if us == [] then v
    else
      var before := FoldFrom(v, us[..|us| - 1]);
      var u := us[|us| - 1];
      if u.to.IsTerminal() then before - {u.hash} else before[u.hash := (u.to, u.number)]
  }

  lemma {:induction false} FoldAppend(v: View, us: seq<Update>, vs: seq<Update>)
    ensures FoldFrom(v, us + vs) == FoldFrom(FoldFrom(v, us), vs)
  {
    if vs == [] {
      assert us + vs == us;
    } else {
      FoldAppend(v, us, vs[..|vs| - 1]);
      assert (us + vs)[..|us + vs| - 1] == us + vs[..|vs| - 1];
    }
  }

  lemma FoldOne(v: View, u: Update)
    ensures FoldFrom(v, [u]) == if u.to.IsTerminal() then v - {u.hash} else v[u.hash := (u.to, u.number)]
  {
    assert [u][..0] == [];
  }

  lemma ApplyIsFolded(t: Tracker, max: nat, op: Op)
    requires WellFormed(t)
    ensures ViewOf(Apply(t, max, op).0) == FoldFrom(ViewOf(t), Apply(t, max, op).1)
  {
    match op {
      case Propose(hash, number, ts) => FoldOne(ViewOf(t), Apply(t, max, op).1[0]);
      case Advance(hash, number, stage, ts) =>
        var target := Target(t, hash, number);
        if target.Some? && t.active[target.value].stage.CanTransitionTo(stage) {
          var b := t.active[target.value];
          FoldOne(ViewOf(t), AdvanceUpdate(b, stage, ts));
          StoreChangesView(t, target.value, Advanced(b, stage, ts), max);
        }
      case ExecutionEnd(_, _, _, _) => MetadataKeepsView(t, max, op);
      case RecordTxn(_) => MetadataKeepsView(t, max, op);
    }
  }

  lemma StoreChangesView(t: Tracker, target: Hash, b: BlockLifecycle, max: nat)
    ensures ViewOf(Stored(t, target, b, max)) ==
            if b.stage.IsTerminal() then ViewOf(t) - {target} else ViewOf(t)[target := (b.stage, b.number)]
  {
  }

  lemma MetadataKeepsView(t: Tracker, max: nat, op: Op)
    requires op.ExecutionEnd? || op.RecordTxn?
    ensures Apply(t, max, op).1 == [] && ViewOf(Apply(t, max, op).0) == ViewOf(t)
  {
    var t' := Apply(t, max, op).0;
    forall h ensures h in ViewOf(t) <==> h in ViewOf(t')
             ensures h in ViewOf(t) ==> ViewOf(t)[h] == ViewOf(t')[h] {
      MetadataKeepsStages(t, max, op, h);
    }
  }

  /** In every run, a client that folds the updates from the start holds exactly the active set. */
  lemma {:induction false} UpdatesReproduceActiveSet(max: nat, ops: seq<Op>)
    ensures FoldFrom(map[], Run(max, ops).updates) == ViewOf(Run(max, ops).tracker)
  {
    if ops == [] {
    } else {
      var front, op := ops[..|ops| - 1], ops[|ops| - 1];
      var prior := Run(max, front);
      UpdatesReproduceActiveSet(max, front);
      RunIsWellFormed(max, front);
      ApplyIsFolded(prior.tracker, max, op);
      FoldAppend(map[], prior.updates, Apply(prior.tracker, max, op).1);
    }
  }

  lemma {:induction false} ListingCoversView(t: Tracker, listing: seq<Update>, n: nat)
    requires WellFormed(t) && n <= |listing| && forall u :: u in listing ==> IsListed(t.active, u)
    ensures forall h :: h in FoldFrom(map[], listing[..n]) <==>
                    exists i :: 0 <= i < n && listing[i].hash == h
    ensures forall h :: h in FoldFrom(map[], listing[..n]) ==>
                    h in ViewOf(t) && FoldFrom(map[], listing[..n])[h] == ViewOf(t)[h]
  {
    if n == 0 {
    } else {
      ListingCoversView(t, listing, n - 1);
      assert listing[..n][..n - 1] == listing[..n - 1];
      assert listing[n - 1] in listing && IsListed(t.active, listing[n - 1]);
    }
  }

  lemma TakeAll<T>(s: seq<T>)
    ensures s[..|s|] == s
  {
  }

  lemma ListedOnce(t: Tracker, listing: seq<Update>, h: Hash)
    requires WellFormed(t) && IsActiveListing(t.active, listing) && h in t.active
    ensures exists i :: 0 <= i < |listing| && listing[i].hash == h
  {
    assert Snapshot(t.active[h]) in listing;
  }

  /** The listing for a client that connects folds to the active set as well... */
  lemma ListingIsTheView(t: Tracker, listing: seq<Update>)
    requires WellFormed(t) && IsActiveListing(t.active, listing)
    ensures FoldFrom(map[], listing) == ViewOf(t)
  {
    ListingCoversView(t, listing, |listing|);
    TakeAll(listing);
    forall h | h in t.active ensures h in FoldFrom(map[], listing) {
      ListedOnce(t, listing, h);
    }
  }

  /** ...so a client that starts from the listing and follows the later updates ends, at any point of any
      run, with the same table as one that followed the whole stream. */
  lemma LateJoinerCatchesUp(max: nat, before: seq<Op>, after: seq<Op>, listing: seq<Update>)
    requires IsActiveListing(Run(max, before).tracker.active, listing)
    ensures var joined, whole := Run(max, before), Run(max, before + after);
            && joined.updates <= whole.updates
            && FoldFrom(map[], listing + whole.updates[|joined.updates|..]) == FoldFrom(map[], whole.updates)
  {
    var joined, whole := Run(max, before), Run(max, before + after);
    UpdatesGrow(max, before, after);
    RunIsWellFormed(max, before);
    ListingIsTheView(joined.tracker, listing);
    UpdatesReproduceActiveSet(max, before);
    SameFoldAfter(listing, joined.updates, whole.updates);
  }

  lemma SameFoldAfter(listing: seq<Update>, joined: seq<Update>, whole: seq<Update>)
    requires joined <= whole && FoldFrom(map[], listing) == FoldFrom(map[], joined)
    ensures FoldFrom(map[], listing + whole[|joined|..]) == FoldFrom(map[], whole)
  {
    var later := whole[|joined|..];
    assert whole == joined + later;
    FoldAppend(map[], listing, later);
    FoldAppend(map[], joined, later);
  }

  lemma {:induction false} UpdatesGrow(max: nat, before: seq<Op>, after: seq<Op>)
    ensures Run(max, before).updates <= Run(max, before + after).updates
  {
    if after == [] {
      assert before + after == before;
    } else {
      UpdatesGrow(max, before, after[..|after| - 1]);
      assert (before + after)[..|before + after| - 1] == before + after[..|after| - 1];
    }
  }
}
