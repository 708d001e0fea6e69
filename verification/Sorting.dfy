/** Sort-then-truncate, the selection every "top N" list of the gateway is made with.
    The comparison is a total preorder, so equal entries keep the order they arrived in,
    and that order is whatever a hash map happened to produce. */
module Sorting {
  ghost predicate TotalPreorder<A(!new)>(before: (A, A) -> bool) {
    && (forall a, b :: before(a, b) || before(b, a))
    && (forall a, b, c :: before(a, b) && before(b, c) ==> before(a, c))
  }

  ghost predicate SortedBy<A>(before: (A, A) -> bool, s: seq<A>) {
    forall i, j :: 0 <= i < j < |s| ==> before(s[i], s[j])
  }

  function Insert<A>(before: (A, A) -> bool, x: A, s: seq<A>): seq<A> {
    if s == [] || before(x, s[0]) then [x] + s else [s[0]] + Insert(before, x, s[1..])
  }

  /** Stable sort. */
  function SortBy<A>(before: (A, A) -> bool, s: seq<A>): seq<A> {
    if s == [] then [] else Insert(before, s[0], SortBy(before, s[1..]))
  }

  function Truncate<A>(s: seq<A>, n: nat): seq<A> {
    if |s| <= n then s else s[..n]
  }

  lemma {:induction false} InsertKeepsOrder<A(!new)>(before: (A, A) -> bool, x: A, s: seq<A>)
    requires TotalPreorder(before) && SortedBy(before, s)
    ensures SortedBy(before, Insert(before, x, s))
    ensures multiset(Insert(before, x, s)) == multiset{x} + multiset(s)
  {
    if s == [] || before(x, s[0]) {
      assert forall j :: 0 <= j < |s| ==> before(x, s[j]);
    } else {
      var rest := Insert(before, x, s[1..]);
      InsertKeepsOrder(before, x, s[1..]);
      assert s == [s[0]] + s[1..];
      forall j | 0 <= j < |rest| ensures before(s[0], rest[j]) {
        assert rest[j] in multiset(rest);
        assert rest[j] == x || rest[j] in s[1..];
      }
    }
  }

  /** The sorted list is an ordered permutation of the input. */
  lemma {:induction false} SortIsOrderedPermutation<A(!new)>(before: (A, A) -> bool, s: seq<A>)
    requires TotalPreorder(before)
    ensures SortedBy(before, SortBy(before, s))
    ensures multiset(SortBy(before, s)) == multiset(s)
    ensures |SortBy(before, s)| == |s|
  {
    if s == [] {
    } else {
      SortIsOrderedPermutation(before, s[1..]);
      InsertKeepsOrder(before, s[0], SortBy(before, s[1..]));
      assert s == [s[0]] + s[1..];
    }
    assert |multiset(SortBy(before, s))| == |multiset(s)|;
  }

  /** What a sort-then-truncate of s must be: the kept and the cut entries together are s,
      the kept ones are in order, and no cut entry ranks strictly before a kept one. */
  ghost predicate IsTopN<A>(before: (A, A) -> bool, s: seq<A>, n: nat, kept: seq<A>, cut: seq<A>) {
    && multiset(kept) + multiset(cut) == multiset(s)
    && |kept| == (if |s| <= n then |s| else n)
    && SortedBy(before, kept)
    && (forall x, y :: x in kept && y in cut ==> before(x, y))
  }

  lemma TruncateSelectsTop<A(!new)>(before: (A, A) -> bool, s: seq<A>, n: nat) returns (cut: seq<A>)
    requires TotalPreorder(before)
    ensures IsTopN(before, s, n, Truncate(SortBy(before, s), n), cut)
  {
    SortIsOrderedPermutation(before, s);
    var sorted := SortBy(before, s);
    var kept := Truncate(sorted, n);
    cut := sorted[|kept|..];
    assert sorted == kept + cut;
  }

  ghost predicate Distinct<A>(s: seq<A>) {
    forall i, j :: 0 <= i < j < |s| ==> s[i] != s[j]
  }

  lemma {:induction false} DistinctCountsOnce<A>(s: seq<A>, x: A)
    requires Distinct(s)
    ensures multiset(s)[x] <= 1
  {
    if s == [] {
    } else {
      DistinctCountsOnce(s[1..], x);
      assert s == [s[0]] + s[1..];
      if x == s[0] {
        assert x !in s[1..];
      }
    }
  }

  lemma PermutationKeepsDistinct<A>(s: seq<A>, t: seq<A>)
    requires Distinct(s) && multiset(s) == multiset(t)
    ensures Distinct(t)
  {
    forall i, j | 0 <= i < j < |t| ensures t[i] != t[j] {
      DistinctCountsOnce(s, t[i]);
      assert t == t[..i] + [t[i]] + t[i + 1..j] + [t[j]] + t[j + 1..];
    }
  }

  /** The answer of a "top n" selection over a set, said without any order of arrival: n of its elements
      (or all of them), each once, in order, and none left out that ranks strictly before one kept. */
  ghost predicate TopOf<A>(before: (A, A) -> bool, all: set<A>, n: nat, kept: seq<A>) {
    && Distinct(kept)
    && (forall x :: x in kept ==> x in all)
    && |kept| == (if |all| <= n then |all| else n)
    && SortedBy(before, kept)
    && (forall x, y :: x in kept && y in all && y !in kept ==> before(x, y))
  }

  ghost function ElementsOf<A>(s: seq<A>): set<A> { set x | x in s }

  lemma ElementsGrow<A>(s: seq<A>, x: A)
    ensures ElementsOf(s + [x]) == ElementsOf(s) + {x} && ElementsOf([x] + s) == ElementsOf(s) + {x}
  {
  }

  lemma {:induction false} DistinctFillsSet<A>(s: seq<A>)
    requires Distinct(s)
    ensures |ElementsOf(s)| == |s|
  {
    if s == [] {
    } else {
      var front := s[..|s| - 1];
      DistinctFillsSet(front);
      assert s == front + [s[|s| - 1]];
      ElementsGrow(front, s[|s| - 1]);
      assert s[|s| - 1] !in front;
    }
  }

  /** Whatever order the elements were collected in, sort-then-truncate selects the top n of them. */
  lemma SelectTop<A(!new)>(before: (A, A) -> bool, s: seq<A>, n: nat)
    requires TotalPreorder(before) && Distinct(s)
    ensures TopOf(before, ElementsOf(s), n, Truncate(SortBy(before, s), n))
  {
    var all := ElementsOf(s);
    var kept := Truncate(SortBy(before, s), n);
    var cut := TruncateSelectsTop(before, s, n);
    var whole := kept + cut;
    assert multiset(whole) == multiset(s);
    PermutationKeepsDistinct(s, whole);
    DistinctFillsSet(s);
    forall i, j | 0 <= i < j < |kept| ensures kept[i] != kept[j] {
      assert whole[i] == kept[i] && whole[j] == kept[j];
    }
    forall x | x in kept ensures x in all {
      assert x in multiset(s);
    }
    forall x, y | x in kept && y in all && y !in kept ensures before(x, y) {
      assert y in multiset(whole) && y in cut;
    }
  }
}
