/** The update stream read on its own: which update an event causes, told by the events and updates before it,
    and what words of stages a block can go through. */
module LifecycleStream {
  import opened Common
  import opened Lifecycle
  import opened LifecycleTraces

  // ---- One advance, in any tracker ----

  /** An advance emits an update exactly when it carries the hash of an active block, or else the number of an
      index entry that leads to one, and that block stands below the new stage. */
  lemma AdvanceEmitsIff(t: Tracker, max: nat, hash: Hash, number: nat, stage: Stage, ts: nat)
    requires WellFormed(t)
    ensures Apply(t, max, Advance(hash, number, stage, ts)).1 != [] <==>
            || (hash in t.active && t.active[hash].stage.Rank() < stage.Rank())
            || (&& hash !in t.active && number in t.index && t.index[number] in t.active
                && t.active[t.index[number]].stage.Rank() < stage.Rank())
  {
    assert forall s: Stage :: !s.IsTerminal() ==> s.Rank() < Rejected.Rank();
  }

  /** u tells that block b goes to a stage at time ts: the time since it was proposed, the time spent in the stage
      it leaves (none for a rejection), and its metadata. */
  ghost predicate Announces(u: Update, b: BlockLifecycle, stage: Stage, ts: nat) {
    && u.hash == b.hash && u.number == b.number && u.from == Some(b.stage) && u.to == stage
    && u.txnCount == b.txnCount && u.gasUsed == b.gasUsed
    && Proposed in b.timestamps && b.stage in b.timestamps
    && u.age == ts - b.timestamps[Proposed]
    && u.timeInPrevious == (if stage == Rejected then None else Some(ts - b.timestamps[b.stage]))
  }

  lemma UpdateAnnounces(b: BlockLifecycle, stage: Stage, ts: nat)
    requires WellFormedBlock(b) && b.stage.CanTransitionTo(stage)
    ensures Announces(AdvanceUpdate(b, stage, ts), b, stage, ts)
  {
    UpdateExtends(b, stage, ts);
  }

  /** What an advance does when the block it finds stands below the new stage: one update, about that block; the
      block keeps everything but its stage and its time, or leaves when the stage is terminal; no other moves. */
  ghost predicate Advances(t: Tracker, t': Tracker, emitted: seq<Update>, h: Hash, stage: Stage, ts: nat) {
    && |emitted| == 1 && h in t.active && Announces(emitted[0], t.active[h], stage, ts)
    && (stage.IsTerminal() ==> t'.active == t.active - {h})
    && (!stage.IsTerminal() ==> t'.active.Keys == t.active.Keys && IsAdvanced(t'.active[h], t.active[h], stage, ts))
    && (forall g :: g in t.active && g != h ==> g in t'.active && t'.active[g] == t.active[g])
  }

  ghost predicate IsAdvanced(b': BlockLifecycle, b: BlockLifecycle, stage: Stage, ts: nat) {
    && b'.hash == b.hash && b'.number == b.number && b'.stage == stage && MetadataOf(b') == MetadataOf(b)
    && b'.timestamps.Keys == b.timestamps.Keys + {stage} && b'.timestamps[stage] == ts
    && (forall s :: s in b.timestamps && s != stage ==> b'.timestamps[s] == b.timestamps[s])
  }

  /** h is the block an event with this hash and number is about. */
  ghost predicate Finds(t: Tracker, hash: Hash, number: nat, h: Hash) {
    && h in t.active
    && (if hash in t.active then h == hash else number in t.index && t.index[number] == h)
  }

  lemma AdvanceDoes(t: Tracker, max: nat, hash: Hash, number: nat, h: Hash, stage: Stage, ts: nat)
    requires WellFormed(t) && Finds(t, hash, number, h)
    ensures var (t', emitted) := Apply(t, max, Advance(hash, number, stage, ts));
            if t.active[h].stage.Rank() < stage.Rank() then Advances(t, t', emitted, h, stage, ts)
            else t' == t && emitted == []
  {
    var b := t.active[h];
    if b.stage.Rank() < stage.Rank() {
      UpdateAnnounces(b, stage, ts);
      StoredKeepsOrRetires(t, h, Advanced(b, stage, ts), max);
      assert IsAdvanced(Advanced(b, stage, ts), b, stage, ts);
    } else {
      assert stage != Rejected;
    }
  }

  // ---- Events that carry only a number, over whole runs ----

  /** Block h was announced, under this number, and its last announced stage is not a final one. */
  ghost predicate Announced(us: seq<Update>, h: Hash, n: nat) {
    var mine := Of(us, h);
    mine != [] && mine[|mine| - 1].number == n && !mine[|mine| - 1].to.IsTerminal()
  }

  /** The stage it was last announced in. */
  ghost function LastStage(us: seq<Update>, h: Hash): Stage
    requires Of(us, h) != []
  {
    var mine := Of(us, h);
    mine[|mine| - 1].to
  }

  /** With fresh hashes the active blocks are those announced and not finished. */
  lemma ActiveIffAnnounced(max: nat, ops: seq<Op>, h: Hash, n: nat)
    requires FreshHashes(ops)
    ensures var r := Run(max, ops);
            && (h in r.tracker.active && r.tracker.active[h].number == n <==> Announced(r.updates, h, n))
            && (Announced(r.updates, h, n) ==> r.tracker.active[h].stage == LastStage(r.updates, h))
  {
    assert Proposals(ops, h) <= 1;
    RunTracks(max, ops, h);
  }

  /** u is about block h under number n, takes it from one stage to another, and carries what was reported for it. */
  ghost predicate Reports(u: Update, h: Hash, n: nat, from: Stage, to: Stage, m: Metadata) {
    && u.hash == h && u.number == n && u.from == Some(from) && u.to == to
    && u.txnCount == m.txnCount && u.gasUsed == m.gasUsed
  }

  /** Take any run with fresh hashes and no number reused while indexed. An event with an unknown hash and number n
      advances the block that was announced under n and is not finished, if its last stage lies below the new one. */
  lemma NumberAdvancesItsBlock(max: nat, ops: seq<Op>, z: Hash, h: Hash, n: nat, stage: Stage, ts: nat)
    requires FreshHashes(ops) && NumbersFree(max, ops) && Proposals(ops, z) == 0
    requires Announced(Run(max, ops).updates, h, n)
    ensures var us, us' := Run(max, ops).updates, Run(max, ops + [Advance(z, n, stage, ts)]).updates;
            if LastStage(us, h).Rank() < stage.Rank()
            then |us'| == |us| + 1 && us <= us' && Reports(us'[|us|], h, n, LastStage(us, h), stage, Reported(ops, h, n))
            else us' == us
  {
    var t, a := Run(max, ops).tracker, Advance(z, n, stage, ts);
    RunStep(max, ops, a);
    NumberFinds(max, ops, z, h, n);
    AdvanceDoes(t, max, z, n, h, stage, ts);
    MetadataIsReported(max, ops, h);
  }

  lemma NumberFinds(max: nat, ops: seq<Op>, z: Hash, h: Hash, n: nat)
    requires FreshHashes(ops) && NumbersFree(max, ops) && Proposals(ops, z) == 0
    requires Announced(Run(max, ops).updates, h, n)
    ensures var r := Run(max, ops);
            && WellFormed(r.tracker) && Finds(r.tracker, z, n, h)
            && r.tracker.active[h].number == n && r.tracker.active[h].stage == LastStage(r.updates, h)
  {
    var t := Run(max, ops).tracker;
    RunIsWellFormed(max, ops);
    PrefixesAreComplete(max, ops);
    ActiveIffAnnounced(max, ops, h, n);
    NeverProposed(max, ops, z);
    assert Live(t, h, n);
  }

  lemma NeverProposed(max: nat, ops: seq<Op>, z: Hash)
    requires Proposals(ops, z) == 0
    ensures z !in Run(max, ops).tracker.active
  {
    RunTracks(max, ops, z);
  }

  /** And it is about that block only: it emits nothing when no unfinished block was announced under n. */
  lemma NumberIsIgnored(max: nat, ops: seq<Op>, z: Hash, n: nat, stage: Stage, ts: nat)
    requires FreshHashes(ops) && Proposals(ops, z) == 0
    requires forall h :: !Announced(Run(max, ops).updates, h, n)
    ensures Run(max, ops + [Advance(z, n, stage, ts)]).updates == Run(max, ops).updates
  {
    var t := Run(max, ops).tracker;
    RunStep(max, ops, Advance(z, n, stage, ts));
    NeverProposed(max, ops, z);
    IndexIsSound(max, ops);
    if n in t.index && t.index[n] in t.active {
      var h := t.index[n];
      assert Live(t, h, n);
      SoundIsActive(t, h, n);
      ActiveIffAnnounced(max, ops, h, n);
    }
  }

  lemma SoundIsActive(t: Tracker, h: Hash, n: nat)
    requires OneBlockPerHash(t) && Live(t, h, n) && h in t.active
    ensures t.active[h].number == n
  {
  }

  /** Such a run: block 1 is proposed under number 7, and a verification that carries only the number verifies it. */
  lemma NumberIsEnough(max: nat, ts: nat)
    ensures var ops := [Propose(1, 7, 0)];
            && FreshHashes(ops) && NumbersFree(max, ops) && Proposals(ops, 0) == 0
            && Announced(Run(max, ops).updates, 1, 7)
            && Run(max, ops + [Advance(0, 7, Verified, ts)]).updates ==
                 [Update(1, 7, None, Proposed, None, 0, 0, None)] +
                 [Update(1, 7, Some(Proposed), Verified, Some(ts), ts, 0, None)]
  {
    OneProposed(max, Propose(1, 7, 0));
    RunStep(max, [Propose(1, 7, 0)], Advance(0, 7, Verified, ts));
    OneVerified(Run(max, [Propose(1, 7, 0)]).tracker, max, ts);
  }

  lemma OneVerified(t: Tracker, max: nat, ts: nat)
    requires t.active == map[1 := NewBlock(1, 7, 0)] && t.index == map[7 := 1] && WellFormed(t)
    ensures Apply(t, max, Advance(0, 7, Verified, ts)).1 == [Update(1, 7, Some(Proposed), Verified, Some(ts), ts, 0, None)]
  {
    AdvanceDoes(t, max, 0, 7, 1, Verified, ts);
  }

  lemma OneProposed(max: nat, p: Op)
    requires p == Propose(1, 7, 0)
    ensures Run(max, [p]) == History(Tracker(map[1 := NewBlock(1, 7, 0)], map[7 := 1], []), [Update(1, 7, None, Proposed, None, 0, 0, None)])
    ensures FreshHashes([p]) && NumbersFree(max, [p]) && Proposals([p], 0) == 0
    ensures Announced(Run(max, [p]).updates, 1, 7) && WellFormed(Run(max, [p]).tracker)
  {
    RunStep(max, [], p);
    assert [] + [p] == [p] && [p][..0] == [];
    var u := Update(1, 7, None, Proposed, None, 0, 0, None);
    assert [u][..0] == [];
    assert Of([u], 1) == [u];
  }

  // ---- The listing for a client that connects ----

  /** An entry tells, of a block announced and not finished, the stage and age last announced and what was reported
      since the proposal. */
  ghost predicate Lists(u: Update, us: seq<Update>, m: Metadata) {
    && u.from == None && u.timeInPrevious == None
    && us != [] && u.to == us[|us| - 1].to && u.age == us[|us| - 1].age
    && u.txnCount == m.txnCount && u.gasUsed == m.gasUsed
  }

  lemma SnapshotLists(max: nat, ops: seq<Op>, h: Hash)
    requires FreshHashes(ops) && NumbersFree(max, ops) && h in Run(max, ops).tracker.active
    ensures var r := Run(max, ops);
            var u := Snapshot(r.tracker.active[h]);
            u.number == r.tracker.active[h].number && Lists(u, Of(r.updates, h), Reported(ops, h, u.number))
  {
    assert Proposals(ops, h) <= 1;
    RunTracks(max, ops, h);
    MetadataIsReported(max, ops, h);
  }

  /** In every run with fresh hashes and no number reused while indexed, the listing has one entry for each block
      announced and not finished, in order of number. */
  lemma ListingReports(max: nat, ops: seq<Op>, listing: seq<Update>, u: Update)
    requires FreshHashes(ops) && NumbersFree(max, ops)
    requires IsActiveListing(Run(max, ops).tracker.active, listing) && u in listing
    ensures var us := Run(max, ops).updates;
            Announced(us, u.hash, u.number) && Lists(u, Of(us, u.hash), Reported(ops, u.hash, u.number))
  {
    var t := Run(max, ops).tracker;
    var h := ListedHash(t.active, u);
    RunIsWellFormed(max, ops);
    SnapshotLists(max, ops, h);
    ActiveIffAnnounced(max, ops, h, u.number);
  }

  lemma ListedHash(active: map<Hash, BlockLifecycle>, u: Update) returns (h: Hash)
    requires IsListed(active, u)
    ensures h in active && u == Snapshot(active[h])
  {
    h :| h in active && u == Snapshot(active[h]);
  }

  lemma AnnouncedIsListed(max: nat, ops: seq<Op>, listing: seq<Update>, h: Hash, n: nat)
    requires FreshHashes(ops) && Announced(Run(max, ops).updates, h, n)
    requires IsActiveListing(Run(max, ops).tracker.active, listing)
    ensures exists u :: u in listing && u.hash == h && u.number == n
  {
    ActiveIffAnnounced(max, ops, h, n);
    RunIsWellFormed(max, ops);
    assert Snapshot(Run(max, ops).tracker.active[h]) in listing;
  }

  // ---- Times ----

  /** The time of the latest event that stamps a block. */
  ghost function Now(ops: seq<Op>): nat {
    if ops == [] then 0
    else
      match ops[|ops| - 1]
      case Propose(_, _, ts) => ts
      case Advance(_, _, _, ts) => ts
      case _ => Now(ops[..|ops| - 1])
  }

  /** The clock never goes back. */
  ghost predicate ClockRises(ops: seq<Op>) {
    ops == [] || (ClockRises(ops[..|ops| - 1]) && Now(ops[..|ops| - 1]) <= Now(ops))
  }

  ghost predicate StampedBy(t: Tracker, now: nat) {
    forall h, s :: h in t.active && s in t.active[h].timestamps ==> t.active[h].timestamps[s] <= now
  }

  ghost predicate NoNegativeTimes(us: seq<Update>) {
    forall i :: 0 <= i < |us| ==> us[i].age >= 0 && OrZero(us[i].timeInPrevious) >= 0
  }

  /** As long as the clock never goes back, no update of any run reports a negative age or time in a stage. */
  lemma {:induction false} TimesAreNotNegative(max: nat, ops: seq<Op>)
    requires ClockRises(ops)
    ensures NoNegativeTimes(Run(max, ops).updates) && StampedBy(Run(max, ops).tracker, Now(ops))
  {
    if ops == [] {
    } else {
      var front, op := ops[..|ops| - 1], ops[|ops| - 1];
      assert ops == front + [op];
      TimesAreNotNegative(max, front);
      RunIsWellFormed(max, front);
      StepStamps(Run(max, front).tracker, max, op, Now(front), Now(ops));
    }
  }

  lemma StepStamps(t: Tracker, max: nat, op: Op, before: nat, now: nat)
    requires WellFormed(t) && StampedBy(t, before) && before <= now
    requires op.Propose? || op.Advance? ==> op.ts == now
    ensures StampedBy(Apply(t, max, op).0, now) && NoNegativeTimes(Apply(t, max, op).1)
  {
    match op {
      case Advance(hash, number, stage, ts) => AdvanceStamps(t, max, hash, number, stage, ts);
      case Propose(_, _, _) =>
      case ExecutionEnd(_, _, _, _) =>
      case RecordTxn(_) =>
    }
  }

  lemma AdvanceStamps(t: Tracker, max: nat, hash: Hash, number: nat, stage: Stage, ts: nat)
    requires WellFormed(t) && StampedBy(t, ts)
    ensures var (t', emitted) := Apply(t, max, Advance(hash, number, stage, ts));
            StampedBy(t', ts) && NoNegativeTimes(emitted)
  {
    if h :| Finds(t, hash, number, h) {
      AdvanceDoes(t, max, hash, number, h, stage, ts);
      var (t', emitted) := Apply(t, max, Advance(hash, number, stage, ts));
      if t.active[h].stage.Rank() < stage.Rank() {
        AdvancesStamps(t, t', emitted, h, stage, ts);
      }
    } else {
      NothingFound(t, max, hash, number, stage, ts);
    }
  }

  lemma NothingFound(t: Tracker, max: nat, hash: Hash, number: nat, stage: Stage, ts: nat)
    requires forall h :: !Finds(t, hash, number, h)
    ensures Apply(t, max, Advance(hash, number, stage, ts)) == (t, [])
  {
    assert !Finds(t, hash, number, hash);
    if number in t.index {
      assert !Finds(t, hash, number, t.index[number]);
    }
  }

  lemma AdvancesStamps(t: Tracker, t': Tracker, emitted: seq<Update>, h: Hash, stage: Stage, ts: nat)
    requires StampedBy(t, ts) && Advances(t, t', emitted, h, stage, ts)
    ensures StampedBy(t', ts) && NoNegativeTimes(emitted)
  {
    forall g | g in t'.active ensures forall s :: s in t'.active[g].timestamps ==> t'.active[g].timestamps[s] <= ts {
      assert g in t.active;
    }
  }

  // ---- The words of stages ----

  /** The stages a list of updates goes to. */
  function Stages(us: seq<Update>): (w: seq<Stage>)
    ensures |w| == |us| && forall i :: 0 <= i < |us| ==> w[i] == us[i].to
  {
    if us == [] then [] else Stages(us[..|us| - 1]) + [us[|us| - 1].to]
  }

  function If(s: Stage, w: seq<Stage>): seq<Stage> { if s in w then [s] else [] }

  /** A block is proposed, then perhaps voted, then perhaps finalized, then perhaps verified or rejected. */
  ghost predicate IsLife(w: seq<Stage>) {
    && w == [Proposed] + If(Voted, w) + If(Finalized, w) + If(Verified, w) + If(Rejected, w)
    && !(Verified in w && Rejected in w)
  }

  /** In every run the updates about a block that is proposed at most once spell such a word. */
  lemma BlocksLiveInOrder(max: nat, ops: seq<Op>, h: Hash)
    requires Proposals(ops, h) <= 1 && Of(Run(max, ops).updates, h) != []
    ensures IsLife(Stages(Of(Run(max, ops).updates, h)))
  {
    RunTracks(max, ops, h);
    ChainIsLife(Of(Run(max, ops).updates, h));
  }

  lemma {:induction false} ChainIsLife(us: seq<Update>)
    requires Chain(us) && us != []
    ensures IsLife(Stages(us))
  {
    if |us| == 1 {
      assert Stages(us) == [Proposed];
    } else {
      var front, w := us[..|us| - 1], Stages(us);
      ChainIsLife(front);
      assert w == Stages(front) + [us[|us| - 1].to];
      LifeGoesOn(Stages(front), us[|us| - 1].to);
    }
  }

  lemma LifeGoesOn(w: seq<Stage>, s: Stage)
    requires IsLife(w) && w[|w| - 1].Rank() < s.Rank() && !w[|w| - 1].IsTerminal()
    ensures IsLife(w + [s])
  {
    assert !(Verified in w) && !(Rejected in w);
    assert s in w + [s];
    assert forall x :: x in w + [s] <==> x in w || x == s;
  }
}
