/** Sums over sequences, shared by the other modules. */
module Sums {

  lemma ProductNonnegative(a: real, b: real)
    requires a >= 0.0 && b >= 0.0
    ensures a * b >= 0.0
  {
  }

  /** s[lo] + ... + s[hi - 1] */
  ghost function SumRange(s: seq<nat>, lo: nat, hi: nat): nat
    requires lo <= hi <= |s|
  {
    if lo == hi then 0 else SumRange(s, lo, hi - 1) + s[hi - 1]
  }

  ghost function Total(s: seq<nat>): nat {
    SumRange(s, 0, |s|)
  }

  lemma {:induction false} SumSplit(s: seq<nat>, lo: nat, mid: nat, hi: nat)
    requires lo <= mid <= hi <= |s|
    ensures SumRange(s, lo, hi) == SumRange(s, lo, mid) + SumRange(s, mid, hi)
  {
    if mid < hi {
      SumSplit(s, lo, mid, hi - 1);
    }
  }

  lemma SumWithin(s: seq<nat>, lo: nat, a: nat, b: nat, hi: nat)
    requires lo <= a <= b <= hi <= |s|
    ensures SumRange(s, a, b) <= SumRange(s, lo, hi)
  {
    SumSplit(s, lo, a, hi);
    SumSplit(s, a, b, hi);
  }
}
