/** Vocabulary shared by every module of the gateway model. */
module Common {
  datatype Option<+T> = None | Some(value: T)

  function Min(a: int, b: int): int { if a <= b then a else b }

  /** Subtraction of unsigned integers that stops at zero. */
  function SaturatingSub(a: nat, b: nat): (d: nat)
    ensures d > 0 ==> b + d == a
    ensures d == 0 <==> a <= b
  {
    if a >= b then a - b else 0
  }

  /** The consecutive numbers lo + 1, lo + 2, ..., hi: what a gap-free stretch of seqnos looks like. */
  function Range(lo: int, hi: int): (s: seq<int>)
    requires lo <= hi
    ensures |s| == hi - lo
    ensures forall i :: 0 <= i < |s| ==> s[i] == lo + 1 + i
  {
    seq(hi - lo, i => lo + 1 + i)
  }

  lemma RangeSplit(lo: int, mid: int, hi: int)
    requires lo <= mid <= hi
    ensures Range(lo, hi) == Range(lo, mid) + Range(mid, hi)
  {
  }

  lemma Pick<T>(s: set<T>) returns (x: T)
    requires s != {}
    ensures x in s
  {
    x :| x in s;
  }
}
