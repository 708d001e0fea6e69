/** Client subscriptions (ClientSubscription in gateway/src/lib/server.rs). */
module Subscription {
  import opened Common
  import opened Lifecycle
  import opened EventFilter

  datatype Channel = All | Blocks | Transactions | Contention | LifecycleOnly

  datatype ClientSubscription = ClientSubscription(
    eventNames: set<EventName>,
    includeTps: bool,
    includeContention: bool,
    includeTopAccesses: bool,
    includeLifecycle: bool,
    minStage: Option<Stage>,
    fieldFilter: Option<Filter>)

  function FromChannel(c: Channel): ClientSubscription {
    match c
    case All => ClientSubscription({}, true, true, true, true, None, None)
    case Blocks =>
      ClientSubscription({BlockStart, BlockEnd, BlockQC, BlockFinalized, BlockVerified, BlockReject},
                         true, false, false, true, None, None)
    case Transactions =>
      ClientSubscription({TxnHeaderStart, TxnEvmOutput, TxnLog, TxnCallFrame, TxnEnd, TxnReject, NativeTransfer},
                         false, false, false, false, None, None)
    case Contention => ClientSubscription({}, false, true, false, false, None, None)
    case LifecycleOnly => ClientSubscription({}, false, false, false, true, None, None)
  }

  predicate StageOpen(sub: ClientSubscription, e: Event) {
    sub.minStage.Some? && e.commitStage.Some? ==> e.commitStage.value.Rank() >= sub.minStage.value.Rank()
  }

  function WantsEvent(sub: ClientSubscription, e: Event, base: Filter): Verdict {
    var baseVerdict := Decide(base, e);
    if baseVerdict != Accept then baseVerdict
    else if !StageOpen(sub, e) then Decline
    else if sub.eventNames == {} then Accept
    else if e.name !in sub.eventNames then Decline
    else if sub.fieldFilter.Some? then Decide(sub.fieldFilter.value, e)
    else Accept
  }

  /** The decision said flat: the base filter passes the event, its block stands high enough (or is not tracked),
      and, when names are given, its name is one of them and the field filter, if any, passes it too. */
  ghost predicate Wanted(sub: ClientSubscription, e: Event, base: Filter) {
    && Passes(base, e)
    && (sub.minStage.Some? && e.commitStage.Some? ==> sub.minStage.value.Rank() <= e.commitStage.value.Rank())
    && (sub.eventNames != {} ==> e.name in sub.eventNames && (sub.fieldFilter.Some? ==> Passes(sub.fieldFilter.value, e)))
  }

  lemma WantedIff(sub: ClientSubscription, e: Event, base: Filter)
    requires WellFormed(e)
    ensures WantsEvent(sub, e, base) == Answer(Wanted(sub, e, base))
  {
    DecideIff(base, e);
    if sub.fieldFilter.Some? {
      DecideIff(sub.fieldFilter.value, e);
    }
  }

  /** Adding a field filter to a subscription with names takes away exactly the events the filter declines. */
  lemma FieldFilterRemovesIff(sub: ClientSubscription, f: Filter, e: Event, base: Filter)
    requires WellFormed(e) && sub.eventNames != {}
    ensures WantsEvent(sub.(fieldFilter := Some(f)), e, base) == Accept <==>
            WantsEvent(sub.(fieldFilter := None), e, base) == Accept && Passes(f, e)
  {
    WantedIff(sub.(fieldFilter := Some(f)), e, base);
    WantedIff(sub.(fieldFilter := None), e, base);
  }

  /** Without names a field filter is never looked at: it can change something exactly when there are names. */
  lemma FieldFilterCountsIff(sub: ClientSubscription)
    ensures (exists f, e, base ::
               WantsEvent(sub.(fieldFilter := Some(f)), e, base) != WantsEvent(sub.(fieldFilter := None), e, base))
            <==> sub.eventNames != {}
  {
    if sub.eventNames != {} {
      var name :| name in sub.eventNames;
      var e := Event(name, None, OtherPayload);
      var f := [Spec(if name == TxnLog then BlockStart else TxnLog, [])];
      DecideIff(f, e);
      assert WantsEvent(sub.(fieldFilter := None), e, []) == Accept;
      assert WantsEvent(sub.(fieldFilter := Some(f)), e, []) == Decline;
    }
  }

  /** Raising min_stage only ever removes events. */
  lemma HigherMinStageWantsLess(sub: ClientSubscription, lower: Stage, higher: Stage, e: Event, base: Filter)
    requires lower.Rank() <= higher.Rank()
    ensures WantsEvent(sub.(minStage := Some(higher)), e, base) == Accept ==>
            WantsEvent(sub.(minStage := Some(lower)), e, base) == Accept
            && WantsEvent(sub.(minStage := None), e, base) == Accept
  {
  }

  /** The events no min_stage ever holds back are those of untracked blocks and those of rejected ones:
      Rejected ranks above every other stage. */
  lemma UngatedIff(e: Event)
    ensures (forall sub: ClientSubscription, stage, base ::
               WantsEvent(sub.(minStage := Some(stage)), e, base) == WantsEvent(sub.(minStage := None), e, base))
            <==> e.commitStage == None || e.commitStage == Some(Rejected)
  {
    if !(e.commitStage == None || e.commitStage == Some(Rejected)) {
      var sub := FromChannel(All);
      assert WantsEvent(sub.(minStage := Some(Rejected)), e, []) == Decline;
      assert WantsEvent(sub.(minStage := None), e, []) == Accept;
    }
  }

  /** Which channels start out delivering the full event stream: those whose name set is empty, which
      includes the two metric channels. */
  lemma FullStreamChannels(c: Channel)
    ensures (forall e, base :: WantsEvent(FromChannel(c), e, base) == WantsEvent(FromChannel(All), e, base))
            <==> c == All || c == Contention || c == LifecycleOnly
  {
    if c == Blocks || c == Transactions {
      var e := Event(EvmError, None, OtherPayload);
      assert WantsEvent(FromChannel(c), e, []) == Decline;
      assert WantsEvent(FromChannel(All), e, []) == Accept;
    }
  }
}
