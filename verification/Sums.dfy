/** Sums over finite maps, independent of the order in which a hash map would be walked. */
module Sums {
  ghost function MapSum<K>(m: map<K, nat>): nat
    decreases |m|
  {
    if m == map[] then 0
    else
      var k :| k in m;
      m[k] + MapSum(m - {k})
  }

  /** Any key may be taken out first: the sum does not depend on the chosen order. */
  lemma {:induction false} SumRemove<K>(m: map<K, nat>, k: K)
    requires k in m
    ensures MapSum(m) == m[k] + MapSum(m - {k})
    decreases |m|
  {
    var first :| first in m && MapSum(m) == m[first] + MapSum(m - {first});
    if first != k {
      SumRemove(m - {first}, k);
      SumRemove(m - {k}, first);
      assert m - {first} - {k} == m - {k} - {first};
    }
  }

  lemma SumUpdate<K>(m: map<K, nat>, k: K, v: nat)
    ensures MapSum(m[k := v]) == v + MapSum(m - {k})
  {
    SumRemove(m[k := v], k);
    assert m[k := v] - {k} == m - {k};
  }

  /** Changing one entry changes the sum by exactly the change of that entry. */
  lemma SumChange<K>(m: map<K, nat>, k: K, v: nat)
    ensures MapSum(m[k := v]) == MapSum(m) - (if k in m then m[k] else 0) + v
  {
    SumUpdate(m, k, v);
    if k in m {
      SumRemove(m, k);
    } else {
      assert m - {k} == m;
    }
  }

  /** The part of m whose keys g sends to a. */
  ghost function Fiber<K, A>(m: map<K, nat>, g: K -> A, a: A): map<K, nat> {
    map k | k in m && g(k) == a :: m[k]
  }

  ghost function FiberSums<K, A>(m: map<K, nat>, g: K -> A): map<A, nat> {
    map a | a in (set k | k in m :: g(k)) :: MapSum(Fiber(m, g, a))
  }

  /** Grouping by g and adding up the groups is adding up everything. */
  lemma {:induction false} FibersPartition<K, A>(m: map<K, nat>, g: K -> A)
    ensures MapSum(FiberSums(m, g)) == MapSum(m)
    decreases |m|
  {
    if m == map[] {
      assert FiberSums(m, g) == map[];
    } else {
      var k :| k in m;
      FibersPartition(m - {k}, g);
      FiberGrows(m, g, k);
      SumRemove(m, k);
      SumChange(FiberSums(m - {k}, g), g(k), MapSum(Fiber(m, g, g(k))));
    }
  }

  /** Adding one entry adds it to its own group. */
  lemma FiberGrows<K, A>(m: map<K, nat>, g: K -> A, k: K)
    requires k in m
    ensures var smaller, a := FiberSums(m - {k}, g), g(k);
            && FiberSums(m, g) == smaller[a := MapSum(Fiber(m, g, a))]
            && MapSum(Fiber(m, g, a)) == m[k] + (if a in smaller then smaller[a] else 0)
  {
    var rest, a := m - {k}, g(k);
    var smaller := FiberSums(rest, g);
    assert a in FiberSums(m, g);
    assert Fiber(m, g, a) - {k} == Fiber(rest, g, a);
    SumRemove(Fiber(m, g, a), k);
    if a !in smaller {
      EmptyFiber(rest, g, a);
    }
    var grown := smaller[a := MapSum(Fiber(m, g, a))];
    forall b ensures b in FiberSums(m, g) <==> b in grown {
      if b != a {
        OtherFibersStay(m, g, k, b);
      }
    }
    forall b | b in grown ensures FiberSums(m, g)[b] == grown[b] {
      if b != a {
        OtherFibersStay(m, g, k, b);
      }
    }
  }

  lemma EmptyFiber<K, A>(m: map<K, nat>, g: K -> A, a: A)
    requires a !in FiberSums(m, g)
    ensures Fiber(m, g, a) == map[]
  {
    assert forall j :: j in m ==> g(j) in FiberSums(m, g);
  }

  lemma OtherFibersStay<K, A>(m: map<K, nat>, g: K -> A, k: K, b: A)
    requires k in m && b != g(k)
    ensures b in FiberSums(m, g) <==> b in FiberSums(m - {k}, g)
    ensures Fiber(m, g, b) == Fiber(m - {k}, g, b)
  {
    if b in FiberSums(m, g) {
      var j :| j in m && g(j) == b;
      assert j in m - {k};
    }
  }

  /** A sum of ones counts. */
  lemma {:induction false} SumOfOnes<K>(m: map<K, nat>)
    requires forall k :: k in m ==> m[k] == 1
    ensures MapSum(m) == |m|
    decreases |m|
  {
    if m == map[] {
    } else {
      var k :| k in m;
      SumRemove(m, k);
      SumOfOnes(m - {k});
      assert |m.Keys - {k}| == |m.Keys| - 1;
      assert (m - {k}).Keys == m.Keys - {k};
    }
  }

  /** A sum of indicators counts the marked keys. */
  lemma {:induction false} SumOfIndicators<K>(m: map<K, nat>, marked: set<K>)
    requires marked <= m.Keys
    requires forall k :: k in m ==> m[k] == (if k in marked then 1 else 0)
    ensures MapSum(m) == |marked|
    decreases |m|
  {
    if m == map[] {
    } else {
      var k :| k in m;
      SumRemove(m, k);
      SumOfIndicators(m - {k}, marked - {k});
    }
  }
}
