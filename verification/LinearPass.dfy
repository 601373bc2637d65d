/** The greedy pass: densest blocks first, until the estimated samples reach the target. */
module LinearPass {
  import opened Densities

  /** The estimated samples in the first `n` blocks of `s`. */
  ghost function Estimated(s: seq<Density>, n: nat, recordsPerBuf: nat): nat
    requires Usable(s) && n <= |s|
  {
    if n == 0 then 0 else Estimated(s, n - 1, recordsPerBuf) + Estimate(s[n - 1], recordsPerBuf)
  }

  /** A choice of distinct blocks among `s`. */
  ghost predicate Selects(sel: seq<Density>, s: seq<Density>) {
    DistinctBlocks(sel) && forall i :: 0 <= i < |sel| ==> sel[i] in s
  }

  ghost predicate Densest(taken: seq<Density>, cands: seq<Density>) {
    forall d, e :: d in taken && e in cands && e !in taken ==> d.freq >= e.freq
  }

  ghost predicate Reaches(sel: seq<Density>, recordsPerBuf: nat, wanted: nat) {
    Usable(sel) && Estimated(sel, |sel|, recordsPerBuf) >= wanted
  }

  /** No nonempty selection with fewer blocks reaches the target. */
  ghost predicate FewestBlocks(taken: seq<Density>, cands: seq<Density>, recordsPerBuf: nat, wanted: nat)
  {
    forall sel :: Selects(sel, cands) && sel != [] && Reaches(sel, recordsPerBuf, wanted) ==>
                    |taken| <= |sel|
  }

  /** How many blocks of a sorted list the pass takes: it tests the target after each one. */
  method CountTaken(sorted: seq<Density>, recordsPerBuf: nat, wanted: nat) returns (n: nat)
    requires Usable(sorted)
    ensures n <= |sorted| && (n == 0 <==> sorted == [])
    ensures n == |sorted| || Estimated(sorted, n, recordsPerBuf) >= wanted
    ensures n > 1 ==> Estimated(sorted, n - 1, recordsPerBuf) < wanted
  {
    n := 0;
    var estimated := 0;
    while n < |sorted|
      invariant n <= |sorted|
      invariant estimated == Estimated(sorted, n, recordsPerBuf)
      invariant n > 0 ==> estimated < wanted
    {
      estimated := estimated + Estimate(sorted[n], recordsPerBuf);
      n := n + 1;
      if estimated >= wanted {
        break;
      }
    }
  }

  /** The greedy choice: the densest candidates, which reach the target or are all there is,
      and no smaller selection reaches it. */
  method TakeDensest(cands: seq<Density>, recordsPerBuf: nat, wanted: nat) returns (taken: seq<Density>)
    requires Usable(cands) && DistinctBlocks(cands)
    ensures Selects(taken, cands) && Densest(taken, cands)
    ensures taken == [] <==> cands == []
    ensures Reaches(taken, recordsPerBuf, wanted) || Permutes(cands, taken)
    ensures FewestBlocks(taken, cands, recordsPerBuf, wanted)
  {
    var sorted := SortByDensity(cands);
    PermutationKeepsMembers(cands, sorted);
    PermutationKeepsDistinct(cands, sorted);
    var n := CountTaken(sorted, recordsPerBuf, wanted);
    taken := sorted[..n];
    assert sorted[..|sorted|] == sorted;
    PrefixIsDensest(cands, sorted, n);
    PrefixIsGreedy(cands, sorted, n, recordsPerBuf, wanted);
    EstimatedOfPrefix(sorted, n, n, recordsPerBuf);
  }

  lemma {:induction false} EstimatedOfPrefix(s: seq<Density>, n: nat, m: nat, recordsPerBuf: nat)
    requires Usable(s) && m <= n <= |s|
    ensures Estimated(s[..n], m, recordsPerBuf) == Estimated(s, m, recordsPerBuf)
  {
    if m > 0 {
      EstimatedOfPrefix(s, n, m - 1, recordsPerBuf);
    }
  }

  lemma {:induction false} EstimatedGrows(s: seq<Density>, a: nat, b: nat, recordsPerBuf: nat)
    requires a <= b <= |s| && Usable(s)
    ensures Estimated(s, a, recordsPerBuf) <= Estimated(s, b, recordsPerBuf)
  {
    if a < b {
      EstimatedGrows(s, a, b - 1, recordsPerBuf);
    }
  }

  lemma PrefixIsDensest(cands: seq<Density>, sorted: seq<Density>, n: nat)
    requires ByDensity(sorted) && DistinctBlocks(sorted) && n <= |sorted|
    requires forall d :: d in cands <==> d in sorted
    ensures Selects(sorted[..n], cands) && Densest(sorted[..n], cands)
  {
    var taken := sorted[..n];
    assert forall m :: 0 <= m < n ==> taken[m] == sorted[m] && taken[m] in taken;
    forall d, e | d in taken && e in cands && e !in taken
      ensures d.freq >= e.freq
    {
      var a :| 0 <= a < n && taken[a] == d;
      var b :| 0 <= b < |sorted| && sorted[b] == e;
      assert n <= b;
    }
  }

  lemma PrefixIsGreedy(cands: seq<Density>, sorted: seq<Density>, n: nat, recordsPerBuf: nat, wanted: nat)
    requires Usable(sorted) && DistinctBlocks(sorted) && ByDensity(sorted)
    requires forall d :: d in cands <==> d in sorted
    requires n <= |sorted|
    requires n > 1 ==> Estimated(sorted, n - 1, recordsPerBuf) < wanted
    ensures FewestBlocks(sorted[..n], cands, recordsPerBuf, wanted)
  {
    forall sel | Selects(sel, cands) && sel != [] && Reaches(sel, recordsPerBuf, wanted)
      ensures n <= |sel|
    {
      if |sel| < n {
        SelectionBelowPrefix(sel, sorted, |sorted|, recordsPerBuf);
        EstimatedGrows(sorted, |sel|, n - 1, recordsPerBuf);
      }
    }
  }

  function Without(sel: seq<Density>, k: nat): seq<Density>
    requires k < |sel|
  {
    sel[..k] + sel[k + 1..]
  }

  lemma {:induction false} EstimatedWithout(sel: seq<Density>, k: nat, n: nat, recordsPerBuf: nat)
    requires k < n <= |sel| && Usable(sel) && Usable(Without(sel, k))
    ensures Estimated(sel, n, recordsPerBuf)
         == Estimated(Without(sel, k), n - 1, recordsPerBuf) + Estimate(sel[k], recordsPerBuf)
  {
    if k == n - 1 {
      EstimatedAgree(sel, Without(sel, k), k, recordsPerBuf);
    } else {
      EstimatedWithout(sel, k, n - 1, recordsPerBuf);
    }
  }

  lemma {:induction false} EstimatedAgree(s: seq<Density>, t: seq<Density>, n: nat, recordsPerBuf: nat)
    requires Usable(s) && Usable(t) && n <= |s| && n <= |t| && s[..n] == t[..n]
    ensures Estimated(s, n, recordsPerBuf) == Estimated(t, n, recordsPerBuf)
  {
    EstimatedOfPrefix(s, n, n, recordsPerBuf);
    EstimatedOfPrefix(t, n, n, recordsPerBuf);
  }

  ghost predicate Among(d: Density, sorted: seq<Density>, n: nat)
    requires n <= |sorted|
  {
    exists m :: 0 <= m < n && sorted[m] == d
  }

  /** A choice of distinct blocks among the first `n`. */
  ghost predicate SelectsFirst(sel: seq<Density>, sorted: seq<Density>, n: nat)
    requires n <= |sorted|
  {
    DistinctBlocks(sel) && forall i :: 0 <= i < |sel| ==> Among(sel[i], sorted, n)
  }

  lemma SelectsWithout(sel: seq<Density>, k: nat, sorted: seq<Density>, n: nat)
    requires 0 < n <= |sorted| && k < |sel| && sel[k] == sorted[n - 1]
    requires SelectsFirst(sel, sorted, n) && Usable(sel)
    ensures SelectsFirst(Without(sel, k), sorted, n - 1) && Usable(Without(sel, k))
  {
    var rest := Without(sel, k);
    assert forall i :: 0 <= i < |rest| ==> rest[i] == sel[if i < k then i else i + 1];
    assert forall i :: 0 <= i < |rest| ==> rest[i] != sel[k];
  }

  /** One step of the exchange argument: removing the sparsest block from both sides. */
  lemma ExchangeStep(sel: seq<Density>, k: nat, sorted: seq<Density>, n: nat, recordsPerBuf: nat)
    requires Usable(sorted) && Usable(sel) && ByDensity(sorted) && 0 < n <= |sorted|
    requires k < |sel| <= n && sel[k] == sorted[n - 1] && Usable(Without(sel, k))
    requires Estimated(Without(sel, k), |sel| - 1, recordsPerBuf) <= Estimated(sorted, |sel| - 1, recordsPerBuf)
    ensures Estimated(sel, |sel|, recordsPerBuf) <= Estimated(sorted, |sel|, recordsPerBuf)
  {
    EstimatedWithout(sel, k, |sel|, recordsPerBuf);
    EstimateMonotone(sorted[n - 1], sorted[|sel| - 1], recordsPerBuf);
  }

  /** No selection among the first `n` blocks is estimated to hold more than equally many of
      the densest ones. */
  lemma {:induction false} SelectionBelowPrefix(sel: seq<Density>, sorted: seq<Density>, n: nat, recordsPerBuf: nat)
    requires Usable(sorted) && Usable(sel) && ByDensity(sorted) && n <= |sorted|
    requires SelectsFirst(sel, sorted, n)
    ensures |sel| <= n
    ensures Estimated(sel, |sel|, recordsPerBuf) <= Estimated(sorted, |sel|, recordsPerBuf)
    decreases n
  {
    if sel != [] {
      assert Among(sel[0], sorted, n);
      if k :| 0 <= k < |sel| && sel[k] == sorted[n - 1] {
        SelectsWithout(sel, k, sorted, n);
        SelectionBelowPrefix(Without(sel, k), sorted, n - 1, recordsPerBuf);
        ExchangeStep(sel, k, sorted, n, recordsPerBuf);
      } else {
        SelectionBelowPrefix(sel, sorted, n - 1, recordsPerBuf);
      }
    }
  }
}
