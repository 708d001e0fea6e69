/** The top-K access tracker (gateway/src/lib/top_k_tracker.rs).
    Its comments name Space-Saving, but what it runs is a Misra-Gries variant: with every slot
    taken, all counts drop by one, emptied slots are freed, and the newcomer enters only if one was. */
module TopK {
  import opened Common
  import opened Sums
  import opened Sorting

  datatype AccessEntry<T> = AccessEntry(key: T, count: nat)

  /** Every count lowered by one, zeros gone. */
  function Decremented<T>(counts: map<T, nat>): map<T, nat> {
    map k | k in counts && counts[k] > 1 :: counts[k] - 1
  }

  function Recorded<T>(counts: map<T, nat>, capacity: nat, item: T): map<T, nat> {
    if item in counts then counts[item := counts[item] + 1]
    else if |counts| < capacity then counts[item := 1]
    else
      var left := Decremented(counts);
      if |left| < capacity then left[item := 1] else left
  }

  /** The counts after a log of records, with the two quantities the code forgets:
      how many decrement rounds ran and how many newcomers were turned away. */
  datatype Summary<T> = Summary(counts: map<T, nat>, rounds: nat, refused: nat)

  ghost function Summarize<T>(capacity: nat, log: seq<T>): Summary<T> {
    if log == [] then Summary(map[], 0, 0)
    else
      var prior := Summarize(capacity, log[..|log| - 1]);
      var item := log[|log| - 1];
      var full := item !in prior.counts && |prior.counts| >= capacity;
      Summary(
        Recorded(prior.counts, capacity, item),
        prior.rounds + (if full then 1 else 0),
        prior.refused + (if full && |Decremented(prior.counts)| >= capacity then 1 else 0))
  }

  /** True frequency. */
  ghost function Freq<T>(log: seq<T>, x: T): nat { multiset(log)[x] }

  ghost function Count<T>(counts: map<T, nat>, x: T): nat { if x in counts then counts[x] else 0 }

  lemma {:induction false} DecrementCost<T>(counts: map<T, nat>)
    requires AllPositive(counts)
    ensures MapSum(Decremented(counts)) == MapSum(counts) - |counts|
    decreases |counts|
  {
    var left := Decremented(counts);
    if counts != map[] {
      var k :| k in counts;
      DecrementCost(counts - {k});
      SumRemove(counts, k);
      assert left - {k} == Decremented(counts - {k});
      assert (counts - {k}).Keys == counts.Keys - {k};
      if k in left {
        SumRemove(left, k);
      } else {
        assert left - {k} == left;
      }
    }
  }

  ghost predicate AllPositive<T>(counts: map<T, nat>) { forall k :: k in counts ==> counts[k] >= 1 }

  /** What one record does to the sum of the counts, to their number and to their positivity. */
  lemma RecordCost<T>(counts: map<T, nat>, capacity: nat, item: T)
    requires |counts| <= capacity && AllPositive(counts)
    ensures var full := item !in counts && |counts| >= capacity;
            var refused := full && |Decremented(counts)| >= capacity;
            var after := Recorded(counts, capacity, item);
            && MapSum(after) == MapSum(counts) + (if refused then 0 else 1) - (if full then capacity else 0)
            && |after| <= capacity
            && AllPositive(after)
  {
    if item !in counts && |counts| >= capacity {
      RecordFull(counts, capacity, item);
    } else {
      RecordRoom(counts, capacity, item);
    }
  }

  lemma RecordRoom<T>(counts: map<T, nat>, capacity: nat, item: T)
    requires |counts| <= capacity && AllPositive(counts) && (item in counts || |counts| < capacity)
    ensures var after := Recorded(counts, capacity, item);
            MapSum(after) == MapSum(counts) + 1 && |after| <= capacity && AllPositive(after)
  {
    RoomCost(counts, item);
    assert Recorded(counts, capacity, item) == counts[item := Count(counts, item) + 1];
  }

  lemma RecordFull<T>(counts: map<T, nat>, capacity: nat, item: T)
    requires |counts| == capacity && AllPositive(counts) && item !in counts
    ensures var after, left := Recorded(counts, capacity, item), Decremented(counts);
            MapSum(after) == MapSum(counts) - capacity + (if |left| < capacity then 1 else 0)
            && |after| <= capacity && AllPositive(after)
  {
    FullCost(counts, item);
  }

  /** The cases with a slot for the item. */
  lemma RoomCost<T>(counts: map<T, nat>, item: T)
    requires AllPositive(counts)
    ensures var after := counts[item := Count(counts, item) + 1];
            && MapSum(after) == MapSum(counts) + 1 && AllPositive(after)
            && |after| == |counts| + (if item in counts then 0 else 1)
  {
    EntryCost(counts, item, Count(counts, item) + 1);
  }

  /** The case with every slot taken. */
  lemma FullCost<T>(counts: map<T, nat>, item: T)
    requires item !in counts && AllPositive(counts)
    ensures var left := Decremented(counts);
            && MapSum(left) == MapSum(counts) - |counts| && |left| <= |counts| && AllPositive(left)
            && MapSum(left[item := 1]) == MapSum(left) + 1 && |left[item := 1]| == |left| + 1 && AllPositive(left[item := 1])
  {
    DecrementCost(counts);
    DecrementShrinks(counts);
    EntryCost(Decremented(counts), item, 1);
  }

  lemma DecrementShrinks<T>(counts: map<T, nat>)
    ensures |Decremented(counts)| <= |counts|
  {
    CardinalitySubset(Decremented(counts).Keys, counts.Keys);
  }

  lemma EntryCost<T>(counts: map<T, nat>, item: T, v: nat)
    ensures MapSum(counts[item := v]) == MapSum(counts) - Count(counts, item) + v
    ensures |counts[item := v]| == |counts| + (if item in counts then 0 else 1)
    ensures AllPositive(counts) && v >= 1 ==> AllPositive(counts[item := v])
  {
    SumChange(counts, item, v);
    assert counts[item := v].Keys == counts.Keys + {item};
  }

  /** Conservation: every record is in a count, paid for one unit of a decrement round, or was refused. */
  lemma {:induction false} RecordsAreConserved<T>(capacity: nat, log: seq<T>)
    ensures var s := Summarize(capacity, log);
            && MapSum(s.counts) + capacity * s.rounds + s.refused == |log|
            && |s.counts| <= capacity
            && AllPositive(s.counts)
  {
    if log == [] {
    } else {
      var prior := Summarize(capacity, log[..|log| - 1]);
      RecordsAreConserved(capacity, log[..|log| - 1]);
      RecordCost(prior.counts, capacity, log[|log| - 1]);
      MulStep(capacity, prior.rounds);
    }
  }

  lemma MulStep(c: nat, a: nat)
    ensures c * (a + 1) == c * a + c
  {
  }

  lemma {:induction false} CardinalitySubset<T>(a: set<T>, b: set<T>)
    requires a <= b
    ensures |a| <= |b|
  {
    assert b == a + (b - a);
  }

  /** A tracked count never overstates, and understates by at most one per decrement round. */
  lemma {:induction false} CountBrackets<T>(capacity: nat, log: seq<T>, x: T)
    ensures var s := Summarize(capacity, log);
            Count(s.counts, x) <= Freq(log, x) <= Count(s.counts, x) + s.rounds
  {
    if log == [] {
    } else {
      CountBrackets(capacity, log[..|log| - 1], x);
      assert log == log[..|log| - 1] + [log[|log| - 1]];
    }
  }

  /** The heavy-hitter bound: the error of every count is at most |log| / capacity,
      so an item seen more often than that is tracked. */
  lemma HeavyHittersAreTracked<T>(capacity: nat, log: seq<T>, x: T)
    ensures var s := Summarize(capacity, log);
            && Count(s.counts, x) <= Freq(log, x)
            && capacity * (Freq(log, x) - Count(s.counts, x)) <= |log|
            && (capacity * Freq(log, x) > |log| ==> x in s.counts)
  {
    RecordsAreConserved(capacity, log);
    CountBrackets(capacity, log, x);
    var s := Summarize(capacity, log);
    MulMonotone(capacity, Freq(log, x) - Count(s.counts, x), s.rounds);
  }

  lemma MulMonotone(c: nat, a: int, b: int)
    requires a <= b
    ensures c * a <= c * b
  {
  }

  lemma MulSpread(c: nat, a: int, b: int, d: int)
    requires a <= b + d
    ensures c * a <= c * b + c * d
  {
    MulMonotone(c, a, b + d);
    assert c * (b + d) == c * b + c * d;
  }

  /** What top_k answers, said about the counts: distinct tracked keys with their counts, as many as
      asked for if there are that many, in descending order, with no better key left out. */
  ghost predicate IsTopK<T>(counts: map<T, nat>, k: nat, items: seq<AccessEntry<T>>) {
    && |items| == Min(k, |counts|)
    && (forall i :: 0 <= i < |items| ==> items[i].key in counts && items[i].count == counts[items[i].key])
    && (forall i, j :: 0 <= i < j < |items| ==> items[i].key != items[j].key && items[i].count >= items[j].count)
    && (forall x, i :: x in counts && !Returned(items, x) && 0 <= i < |items| ==> counts[x] <= items[i].count)
  }

  ghost predicate Returned<T>(items: seq<AccessEntry<T>>, x: T) {
    exists i :: 0 <= i < |items| && items[i].key == x
  }

  ghost function KeysOf<T>(items: seq<AccessEntry<T>>): set<T> {
    set i | 0 <= i < |items| :: items[i].key
  }

  lemma {:induction false} DistinctKeysCount<T>(items: seq<AccessEntry<T>>)
    requires forall i, j :: 0 <= i < j < |items| ==> items[i].key != items[j].key
    ensures |KeysOf(items)| == |items|
  {
    if items == [] {
    } else {
      var front := items[..|items| - 1];
      DistinctKeysCount(front);
      assert KeysOf(items) == KeysOf(front) + {items[|items| - 1].key};
    }
  }

  /** Approximate top-k: an item left out is at most |log| / capacity more frequent than any item
      returned; and if fewer than k came back, everything left out is no heavy hitter at all. */
  lemma TopKIsApproximatelyRight<T>(capacity: nat, log: seq<T>, k: nat, items: seq<AccessEntry<T>>, x: T)
    requires IsTopK(Summarize(capacity, log).counts, k, items)
    requires !Returned(items, x)
    ensures forall i :: 0 <= i < |items| ==>
              capacity * Freq(log, x) <= capacity * Freq(log, items[i].key) + |log|
    ensures |items| < k ==> capacity * Freq(log, x) <= |log|
  {
    var s := Summarize(capacity, log);
    RecordsAreConserved(capacity, log);
    CountBrackets(capacity, log, x);
    forall i | 0 <= i < |items|
      ensures capacity * Freq(log, x) <= capacity * Freq(log, items[i].key) + |log|
    {
      CountBrackets(capacity, log, items[i].key);
      MulSpread(capacity, Freq(log, x), Freq(log, items[i].key), s.rounds);
    }
    if |items| < k {
      ShortListIsComplete(s.counts, k, items, x);
      MulMonotone(capacity, Freq(log, x), s.rounds);
    }
  }

  lemma ShortListIsComplete<T>(counts: map<T, nat>, k: nat, items: seq<AccessEntry<T>>, x: T)
    requires IsTopK(counts, k, items) && |items| < k && !Returned(items, x)
    ensures x !in counts
  {
    DistinctKeysCount(items);
    assert KeysOf(items) <= counts.Keys;
    if x in counts {
      CardinalitySubset(KeysOf(items) + {x}, counts.Keys);
    }
  }

  lemma SummarizeStep<T>(capacity: nat, log: seq<T>, item: T)
    ensures Summarize(capacity, log + [item]).counts == Recorded(Summarize(capacity, log).counts, capacity, item)
  {
    assert (log + [item])[..|log|] == log;
  }

  class TopKTracker<T(==, !new)> {
    const capacity: nat
    var counts: map<T, nat>
    /** Everything recorded since the last reset. */
    ghost var log: seq<T>

    ghost predicate Valid()
      reads this
    {
      counts == Summarize(capacity, log).counts
    }

    constructor (capacity: nat)
      ensures Valid() && log == [] && this.capacity == capacity
    {
      this.capacity := capacity;
      counts := map[];
      log := [];
    }

    method Record(item: T)
      requires Valid()
      modifies this
      ensures Valid() && log == old(log) + [item]
    {
      SummarizeStep(capacity, log, item);
      if item in counts {
        counts := counts[item := counts[item] + 1];
      } else if |counts| < capacity {
        counts := counts[item := 1];
      } else {
        MakeRoom();
        if |counts| < capacity {
          counts := counts[item := 1];
        }
      }
      log := log + [item];
    }

    /** At capacity: decrement everything, then remove the keys that reached zero. */
    method MakeRoom()
      modifies this`counts
      ensures counts == Decremented(old(counts))
    {
      var toRemove := DecrementAll();
      for i := 0 to |toRemove|
        invariant forall k :: k in counts <==> k in old(counts) && k !in toRemove[..i]
        invariant forall k :: k in counts ==> counts[k] == SaturatingSub(old(counts)[k], 1)
      {
        counts := counts - {toRemove[i]};
      }
      assert toRemove[..|toRemove|] == toRemove;
    }

    /** The decrement pass, over the map in whatever order it yields; returns the emptied keys. */
    method DecrementAll() returns (toRemove: seq<T>)
      modifies this`counts
      ensures counts.Keys == old(counts).Keys
      ensures forall k :: k in counts ==> counts[k] == SaturatingSub(old(counts)[k], 1)
      ensures forall k :: k in toRemove <==> k in counts && counts[k] == 0
    {
      toRemove := [];
      var pending := counts.Keys;
      while pending != {}
        invariant pending <= counts.Keys == old(counts).Keys
        invariant forall k :: k in counts ==>
                    counts[k] == if k in pending then old(counts)[k] else SaturatingSub(old(counts)[k], 1)
        invariant forall k :: k in toRemove <==> k in counts && k !in pending && counts[k] == 0
        decreases |pending|
      {
        var key :| key in pending;
        pending := pending - {key};
        counts := counts[key := SaturatingSub(counts[key], 1)];
        if counts[key] == 0 {
          toRemove := toRemove + [key];
        }
      }
    }

    method TopK(k: nat) returns (items: seq<AccessEntry<T>>)
      requires Valid()
      ensures IsTopK(counts, k, items)
    {
      var all: seq<AccessEntry<T>> := [];
      var pending := counts.Keys;
      while pending != {}
        invariant pending <= counts.Keys
        invariant forall i :: 0 <= i < |all| ==>
                    all[i].key in counts && all[i].key !in pending && all[i].count == counts[all[i].key]
        invariant forall x :: x in counts ==> x in pending || AccessEntry(x, counts[x]) in all
        invariant Distinct(all)
        invariant |all| + |pending| == |counts|
        decreases |pending|
      {
        var key :| key in pending;
        pending := pending - {key};
        all := all + [AccessEntry(key, counts[key])];
      }
      items := Truncate(SortBy(HigherCountFirst, all), k);
      SelectTop(HigherCountFirst, all, k);
      DistinctFillsSet(all);
      TopOfIsTopK(counts, k, ElementsOf(all), items);
    }

    method Reset()
      modifies this
      ensures Valid() && log == []
    {
      counts := map[];
      log := [];
    }
  }

  predicate HigherCountFirst<T>(a: AccessEntry<T>, b: AccessEntry<T>) { a.count >= b.count }

  lemma TopOfIsTopK<T>(counts: map<T, nat>, k: nat, all: set<AccessEntry<T>>, items: seq<AccessEntry<T>>)
    requires |all| == |counts|
    requires forall e :: e in all ==> e.key in counts && e.count == counts[e.key]
    requires forall x :: x in counts ==> AccessEntry(x, counts[x]) in all
    requires TopOf(HigherCountFirst, all, k, items)
    ensures IsTopK(counts, k, items)
  {
    forall i, j | 0 <= i < j < |items|
      ensures items[i].key != items[j].key && items[i].count >= items[j].count
    {
      assert items[i] in items && items[j] in items && HigherCountFirst(items[i], items[j]);
    }
    forall x, i | x in counts && !Returned(items, x) && 0 <= i < |items|
      ensures counts[x] <= items[i].count
    {
      assert items[i] in items && HigherCountFirst(items[i], AccessEntry(x, counts[x]));
    }
  }
}
