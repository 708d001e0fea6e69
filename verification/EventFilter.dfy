/** Event filters (gateway/src/lib/event_filter.rs).
    Topic filters cut the topic bytes into 32-byte words first, and that conversion panics on a word of any
    other length, so deciding an event has three outcomes. */
module EventFilter {
  import opened Common
  import opened Lifecycle

  type Byte = bv8
  type Word = w: seq<Byte> | |w| == 32 witness seq(32, i => 0)

  datatype EventName =
    | RecordError | BlockStart | BlockReject | BlockPerfEvmEnter | BlockPerfEvmExit | BlockEnd | BlockQC
    | BlockFinalized | BlockVerified | TxnHeaderStart | TxnAccessListEntry | TxnAuthListEntry | TxnHeaderEnd
    | TxnReject | TxnPerfEvmEnter | TxnPerfEvmExit | TxnEvmOutput | TxnLog | TxnCallFrame | TxnEnd
    | AccountAccessListHeader | AccountAccess | StorageAccess | EvmError | NativeTransfer

  datatype Payload =
    | LogPayload(txnIndex: nat, logIndex: nat, address: nat, topics: seq<Byte>)
    | CallPayload(value: nat)
    | OtherPayload

  datatype Event = Event(name: EventName, commitStage: Option<Stage>, payload: Payload)

  datatype Verdict = Accept | Decline | Panic

  function Answer(b: bool): Verdict { if b then Accept else Decline }

  // ---- The three kinds of field constraints ----

  datatype RangeFilter = RangeFilter(min: Option<nat>, max: Option<nat>) {
    predicate Matches(value: nat) {
      (min.Some? ==> min.value <= value) && (max.Some? ==> value <= max.value)
    }
  }

  predicate ExactMatches(values: seq<nat>, value: nat) { values == [] || value in values }

  predicate PrefixMatches(values: seq<Word>, value: seq<Word>) { values == [] || values <= value }

  /** The byte string in pieces of 32, the last one possibly shorter. */
  function Chunks(bytes: seq<Byte>): seq<seq<Byte>> {
    if bytes == [] then []
    else
      var n := Min(32, |bytes|);
      [bytes[..n]] + Chunks(bytes[n..])
  }

  predicate AllWords(chunks: seq<seq<Byte>>) { forall i :: 0 <= i < |chunks| ==> |chunks[i]| == 32 }

  function AsWords(chunks: seq<seq<Byte>>): (words: seq<Word>)
    requires AllWords(chunks)
    ensures |words| == |chunks| && forall i :: 0 <= i < |words| ==> words[i] == chunks[i]
  {
    if chunks == [] then [] else [chunks[0]] + AsWords(chunks[1..])
  }

  datatype FieldFilter =
    | TxnIndex(range: RangeFilter)
    | LogIndex(range: RangeFilter)
    | Address(values: seq<nat>)
    | Topics(words: seq<Word>)
  {
    function Matches(e: Event): Verdict {
      if e.name != TxnLog || !e.payload.LogPayload? then Decline
      else
        match this
        case TxnIndex(range) => Answer(range.Matches(e.payload.txnIndex))
        case LogIndex(range) => Answer(range.Matches(e.payload.logIndex))
        case Address(values) => Answer(ExactMatches(values, e.payload.address))
        case Topics(words) =>
          var chunks := Chunks(e.payload.topics);
          if AllWords(chunks) then Answer(PrefixMatches(words, AsWords(chunks))) else Panic
    }
  }

  /** All of the field filters, in order, stopping at the first that does not accept. */
  function AllMatch(filters: seq<FieldFilter>, e: Event): Verdict {
    if filters == [] then Accept
    else
      var first := filters[0].Matches(e);
      if first == Accept then AllMatch(filters[1..], e) else first
  }

  datatype Spec = Spec(name: EventName, filters: seq<FieldFilter>) {
    function Matches(e: Event): Verdict {
      if e.name != name then Decline else AllMatch(filters, e)
    }
  }

  /** A filter is its list of specs, any of which may accept. */
  type Filter = seq<Spec>

  /** Equality of filters: each spec of one occurs in the other. */
  predicate Eq(f: Filter, g: Filter) {
    (forall spec :: spec in f ==> spec in g) && (forall spec :: spec in g ==> spec in f)
  }

  predicate IncludesNativeTransfers(f: Filter) { exists spec :: spec in f && spec.name == NativeTransfer }

  predicate IsNativeTransfer(e: Event) { e.payload.CallPayload? && e.payload.value != 0 }

  /** The specs in order, stopping at the first that accepts. */
  function AnyMatches(f: Filter, e: Event): Verdict {
    if f == [] then Decline
    else
      var first := f[0].Matches(e);
      if first == Decline then AnyMatches(f[1..], e) else first
  }

  function Decide(f: Filter, e: Event): Verdict {
    if f == [] then Accept
    else if IncludesNativeTransfers(f) && IsNativeTransfer(e) then Accept
    else AnyMatches(f, e)
  }

  /** Events whose topics are whole words, as every log of the EVM has them. */
  predicate WellFormed(e: Event) {
    e.name == TxnLog && e.payload.LogPayload? ==> |e.payload.topics| % 32 == 0
  }

  // ---- Topic prefixes ----

  lemma {:induction false} ChunksAreWordsIff(bytes: seq<Byte>)
    ensures AllWords(Chunks(bytes)) <==> |bytes| % 32 == 0
  {
    if bytes == [] {
    } else {
      var n := Min(32, |bytes|);
      ChunksAreWordsIff(bytes[n..]);
      FirstIsWord(bytes[..n], Chunks(bytes[n..]));
      DropWhole(|bytes|);
    }
  }

  lemma FirstIsWord(first: seq<Byte>, rest: seq<seq<Byte>>)
    ensures AllWords([first] + rest) <==> |first| == 32 && AllWords(rest)
  {
    if AllWords([first] + rest) {
      assert ([first] + rest)[0] == first;
      forall i | 0 <= i < |rest| ensures |rest[i]| == 32 {
        assert ([first] + rest)[i + 1] == rest[i];
      }
    }
  }

  lemma DropWhole(n: nat)
    requires n > 0
    ensures n % 32 == 0 <==> n >= 32 && (n - 32) % 32 == 0
  {
  }

  function Flatten(words: seq<Word>): seq<Byte> {
    if words == [] then [] else words[0] + Flatten(words[1..])
  }

  lemma {:induction false} PrefixOfChunksIff(words: seq<Word>, bytes: seq<Byte>)
    requires |bytes| % 32 == 0 && AllWords(Chunks(bytes))
    ensures words <= AsWords(Chunks(bytes)) <==> Flatten(words) <= bytes
  {
    var chunks := Chunks(bytes);
    if words != [] {
      if bytes == [] {
        assert !(Flatten(words) <= bytes);
      } else {
        var rest := bytes[32..];
        assert bytes == bytes[..32] + rest;
        ChunksAreWordsIff(rest);
        assert chunks == [bytes[..32]] + Chunks(rest);
        PrefixOfChunksIff(words[1..], rest);
        PrefixStep(words, AsWords(chunks), AsWords(Chunks(rest)));
        PrefixSplits(words[0], Flatten(words[1..]), bytes);
      }
    }
  }

  lemma PrefixStep(words: seq<Word>, all: seq<Word>, rest: seq<Word>)
    requires words != [] && all != [] && |all| == |rest| + 1
    requires forall i :: 0 <= i < |rest| ==> all[i + 1] == rest[i]
    ensures words <= all <==> words[0] == all[0] && words[1..] <= rest
  {
    assert all[1..] == rest;
    assert all == [all[0]] + rest && words == [words[0]] + words[1..];
  }

  lemma PrefixSplits(p: seq<Byte>, a: seq<Byte>, b: seq<Byte>)
    requires |p| <= |b|
    ensures p + a <= b <==> p == b[..|p|] && a <= b[|p|..]
  {
    if p + a <= b {
      assert b[..|p|] == (p + a)[..|p|];
      assert b[|p|..][..|a|] == (p + a)[|p|..];
    }
  }

  /** The chunked comparison accepts exactly the logs whose topic bytes start with the words of the filter,
      and panics exactly when the topics are not whole words. */
  lemma TopicsMatchIsBytePrefix(words: seq<Word>, e: Event)
    requires e.name == TxnLog && e.payload.LogPayload?
    ensures Topics(words).Matches(e) ==
            if |e.payload.topics| % 32 != 0 then Panic else Answer(Flatten(words) <= e.payload.topics)
  {
    ChunksAreWordsIff(e.payload.topics);
    if |e.payload.topics| % 32 == 0 {
      PrefixOfChunksIff(words, e.payload.topics);
    }
  }

  // ---- Filters as sets of specs ----

  lemma {:induction false} AllMatchIff(filters: seq<FieldFilter>, e: Event)
    requires WellFormed(e)
    ensures AllMatch(filters, e) == Answer(forall f :: f in filters ==> f.Matches(e) == Accept)
  {
    if filters == [] {
    } else {
      NoPanic(filters[0], e);
      AllMatchIff(filters[1..], e);
      assert filters == [filters[0]] + filters[1..];
    }
  }

  lemma NoPanic(f: FieldFilter, e: Event)
    requires WellFormed(e)
    ensures f.Matches(e) != Panic
  {
    if e.payload.LogPayload? {
      ChunksAreWordsIff(e.payload.topics);
    }
  }

  lemma {:induction false} AnyMatchesIff(f: Filter, e: Event)
    requires WellFormed(e)
    ensures AnyMatches(f, e) == Answer(exists spec :: spec in f && spec.Matches(e) == Accept)
  {
    if f == [] {
    } else {
      AllMatchIff(f[0].filters, e);
      AnyMatchesIff(f[1..], e);
      assert f == [f[0]] + f[1..];
    }
  }

  // ---- What a filter asks of an event, said flat ----

  /** A log whose index lies within both bounds, whose address is listed, or whose topic bytes start with the
      given words; a bound or list that is missing asks nothing. */
  ghost predicate Asks(f: FieldFilter, e: Event) {
    && e.name == TxnLog && e.payload.LogPayload?
    && (f.TxnIndex? && f.range.min.Some? ==> f.range.min.value <= e.payload.txnIndex)
    && (f.TxnIndex? && f.range.max.Some? ==> e.payload.txnIndex <= f.range.max.value)
    && (f.LogIndex? && f.range.min.Some? ==> f.range.min.value <= e.payload.logIndex)
    && (f.LogIndex? && f.range.max.Some? ==> e.payload.logIndex <= f.range.max.value)
    && (f.Address? && f.values != [] ==> exists i :: 0 <= i < |f.values| && f.values[i] == e.payload.address)
    && (f.Topics? ==> Flatten(f.words) <= e.payload.topics)
  }

  /** It names nothing, or it names native transfers and the event is a call that moves value, or it has a spec
      for the name of the event all of whose field filters ask no more than the event gives. */
  ghost predicate Passes(f: Filter, e: Event) {
    || f == []
    || (e.payload.CallPayload? && e.payload.value != 0 && exists i :: 0 <= i < |f| && f[i].name == NativeTransfer)
    || (exists i :: 0 <= i < |f| && f[i].name == e.name && AsksAll(f[i].filters, e))
  }

  ghost predicate AsksAll(filters: seq<FieldFilter>, e: Event) { forall i :: 0 <= i < |filters| ==> Asks(filters[i], e) }

  lemma FieldFilterIff(f: FieldFilter, e: Event)
    requires WellFormed(e)
    ensures f.Matches(e) == Answer(Asks(f, e))
  {
    if e.name == TxnLog && e.payload.LogPayload? {
      match f {
        case TxnIndex(_) =>
        case LogIndex(_) =>
        case Address(_) =>
        case Topics(words) => TopicsMatchIsBytePrefix(words, e);
      }
    }
  }

  lemma SpecIff(spec: Spec, e: Event)
    requires WellFormed(e)
    ensures spec.Matches(e) == Answer(spec.name == e.name && AsksAll(spec.filters, e))
  {
    AllMatchIff(spec.filters, e);
    forall f: FieldFilter ensures f.Matches(e) == Answer(Asks(f, e)) {
      FieldFilterIff(f, e);
    }
    assert forall i :: 0 <= i < |spec.filters| ==> spec.filters[i] in spec.filters;
  }

  /** The code's decision is this flat reading, for every filter and every event with whole topic words. */
  lemma DecideIff(f: Filter, e: Event)
    requires WellFormed(e)
    ensures Decide(f, e) == Answer(Passes(f, e))
  {
    AnyMatchesIff(f, e);
    forall spec: Spec ensures spec.Matches(e) == Answer(spec.name == e.name && AsksAll(spec.filters, e)) {
      SpecIff(spec, e);
    }
    assert forall i :: 0 <= i < |f| ==> f[i] in f;
  }

  lemma EqIsEquivalence(f: Filter, g: Filter, h: Filter)
    ensures Eq(f, f) && (Eq(f, g) <==> Eq(g, f)) && (Eq(f, g) && Eq(g, h) ==> Eq(f, h))
  {
  }

  lemma EqualFiltersAgree(f: Filter, g: Filter, e: Event)
    requires WellFormed(e) && Eq(f, g)
    ensures Decide(f, e) == Decide(g, e)
  {
    AnyMatchesIff(f, e);
    AnyMatchesIff(g, e);
    if spec :| spec in f && spec.Matches(e) == Accept {
      assert spec in g;
    }
    if spec :| spec in g && spec.Matches(e) == Accept {
      assert spec in f;
    }
    SameNativeTransfers(f, g);
  }

  lemma SameNativeTransfers(f: Filter, g: Filter)
    requires Eq(f, g)
    ensures IncludesNativeTransfers(f) <==> IncludesNativeTransfers(g)
    ensures f == [] <==> g == []
  {
    if spec :| spec in f && spec.name == NativeTransfer {
      assert spec in g;
    }
    if spec :| spec in g && spec.name == NativeTransfer {
      assert spec in f;
    }
    if f != [] {
      assert f[0] in g;
    }
    if g != [] {
      assert g[0] in f;
    }
  }

  /** For one event, equal filters always give the same verdict if and only if the event is well formed:
      with broken topics the order of the specs decides between accepting and panicking. */
  lemma EqualFiltersAgreeIff(e: Event)
    ensures (forall f, g :: Eq(f, g) ==> Decide(f, e) == Decide(g, e)) <==> WellFormed(e)
  {
    if WellFormed(e) {
      forall f, g | Eq(f, g) ensures Decide(f, e) == Decide(g, e) {
        EqualFiltersAgree(f, g, e);
      }
    } else {
      var plain, topics := Spec(TxnLog, []), Spec(TxnLog, [Topics([])]);
      ChunksAreWordsIff(e.payload.topics);
      assert Eq([plain, topics], [topics, plain]);
      assert plain.Matches(e) == Accept && topics.Matches(e) == Panic;
      assert Decide([plain, topics], e) == Accept && Decide([topics, plain], e) == Panic;
    }
  }

  /** Two filters side by side accept what either accepts, provided neither is the empty accept-all filter. */
  lemma ConcatenationIsOr(f: Filter, g: Filter, e: Event)
    requires WellFormed(e) && f != [] && g != []
    ensures Decide(f + g, e) == Answer(Decide(f, e) == Accept || Decide(g, e) == Accept)
  {
    AnyMatchesIff(f, e);
    AnyMatchesIff(g, e);
    AnyMatchesIff(f + g, e);
    assert forall spec :: spec in f + g <==> spec in f || spec in g;
  }
}
