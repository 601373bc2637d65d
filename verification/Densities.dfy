/** Block densities and their orders. */
module Densities {

  // The largest unsigned 64-bit value, which stands for "no block".
  const NPOS: nat := 0xFFFF_FFFF_FFFF_FFFF

  datatype Density = Density(idx: nat, freq: real)

  /** Truncation of a nonnegative real to an unsigned integer. */
  function Truncate(x: real): nat
    requires x >= 0.0
  {
    x.Floor
  }

  /** The estimated number of samples in a block that holds `recordsPerBuf` records. */
  function Estimate(d: Density, recordsPerBuf: nat): nat
    requires d.freq >= 0.0
  {
    Scaled(d.freq, recordsPerBuf);
    Truncate(d.freq * recordsPerBuf as real)
  }

  lemma Scaled(freq: real, n: nat)
    requires freq >= 0.0
    ensures freq * n as real >= 0.0
  {
  }

  /** The estimate is the density times the block size, truncated. */
  lemma EstimateIsFloor(d: Density, recordsPerBuf: nat)
    requires d.freq >= 0.0
    ensures Estimate(d, recordsPerBuf) as real <= d.freq * recordsPerBuf as real < Estimate(d, recordsPerBuf) as real + 1.0
  {
    Scaled(d.freq, recordsPerBuf);
  }

  lemma EstimateMonotone(a: Density, b: Density, recordsPerBuf: nat)
    requires 0.0 <= a.freq <= b.freq
    ensures Estimate(a, recordsPerBuf) <= Estimate(b, recordsPerBuf)
  {
    Scaled(b.freq - a.freq, recordsPerBuf);
    var n := recordsPerBuf as real;
    assert b.freq * n == a.freq * n + (b.freq - a.freq) * n;
  }

  ghost predicate Usable(s: seq<Density>) {
    forall i :: 0 <= i < |s| ==> s[i].freq >= 0.0
  }

  ghost predicate DistinctBlocks(s: seq<Density>) {
    forall i, j :: 0 <= i < j < |s| ==> s[i].idx != s[j].idx
  }

  ghost predicate ByDensity(s: seq<Density>) {
    forall i, j :: 0 <= i < j < |s| ==> s[i].freq >= s[j].freq
  }

  ghost predicate ById(s: seq<Density>) {
    forall i, j :: 0 <= i < j < |s| ==> s[i].idx <= s[j].idx
  }

  function Blocks(s: seq<Density>): set<nat> {
    set i | 0 <= i < |s| :: s[i].idx
  }

  /** A permutation keeps the blocks, and keeps them distinct. */
  ghost predicate Permutes(s: seq<Density>, t: seq<Density>) {
    multiset(s) == multiset(t)
  }

  lemma PermutationKeepsMembers(s: seq<Density>, t: seq<Density>)
    requires Permutes(s, t)
    ensures |s| == |t|
    ensures forall d :: d in s <==> d in t
    ensures Blocks(s) == Blocks(t)
    ensures Usable(s) ==> Usable(t)
  {
    assert |s| == |multiset(s)| == |t|;
    forall d ensures d in s <==> d in t {
      assert d in s <==> d in multiset(s);
    }
    forall b | b in Blocks(s) ensures b in Blocks(t) {
      var i :| 0 <= i < |s| && s[i].idx == b;
      assert s[i] in t;
    }
    forall b | b in Blocks(t) ensures b in Blocks(s) {
      var i :| 0 <= i < |t| && t[i].idx == b;
      assert t[i] in s;
    }
    if Usable(s) {
      forall i | 0 <= i < |t| ensures t[i].freq >= 0.0 {
        assert t[i] in s;
      }
    }
  }

  lemma {:induction false} BlocksCount(s: seq<Density>)
    ensures |Blocks(s)| <= |s|
    ensures DistinctBlocks(s) <==> |Blocks(s)| == |s|
  {
    if s != [] {
      var p := s[..|s| - 1];
      BlocksCount(p);
      assert Blocks(s) == Blocks(p) + {s[|s| - 1].idx};
      if s[|s| - 1].idx in Blocks(p) {
        var i :| 0 <= i < |p| && p[i].idx == s[|s| - 1].idx;
        assert s[i].idx == s[|s| - 1].idx;
      } else {
        assert forall i :: 0 <= i < |p| ==> p[i].idx in Blocks(p);
        if DistinctBlocks(p) {
          assert forall i :: 0 <= i < |p| ==> s[i] == p[i];
          assert DistinctBlocks(s);
        }
      }
      if DistinctBlocks(s) {
        assert DistinctBlocks(p);
      }
    }
  }

  lemma PermutationKeepsDistinct(s: seq<Density>, t: seq<Density>)
    requires Permutes(s, t) && DistinctBlocks(s)
    ensures DistinctBlocks(t)
  {
    PermutationKeepsMembers(s, t);
    BlocksCount(s);
    BlocksCount(t);
  }

  // ---------- sorting ----------

  ghost predicate Ordered(s: seq<Density>, key: Density -> real) {
    forall i, j :: 0 <= i < j < |s| ==> key(s[i]) <= key(s[j])
  }

  lemma InsertionKeepsOrder(t: seq<Density>, k: nat, d: Density, key: Density -> real)
    requires k <= |t| && Ordered(t, key)
    requires forall j :: 0 <= j < k ==> key(t[j]) <= key(d)
    requires k < |t| ==> key(d) <= key(t[k])
    ensures Ordered(t[..k] + [d] + t[k..], key)
  {
    var u := t[..k] + [d] + t[k..];
    forall i, j | 0 <= i < j < |u|
      ensures key(u[i]) <= key(u[j])
    {
      assert u[i] == if i < k then t[i] else if i == k then d else t[i - 1];
      assert u[j] == if j < k then t[j] else if j == k then d else t[j - 1];
    }
  }

  method Insert(t: seq<Density>, d: Density, key: Density -> real) returns (u: seq<Density>)
    requires Ordered(t, key)
    ensures Ordered(u, key) && multiset(u) == multiset(t) + multiset{d}
  {
    var k := 0;
    while k < |t| && key(t[k]) <= key(d)
      invariant 0 <= k <= |t|
      invariant forall j :: 0 <= j < k ==> key(t[j]) <= key(d)
    {
      k := k + 1;
    }
    InsertionKeepsOrder(t, k, d, key);
    assert t == t[..k] + t[k..];
    u := t[..k] + [d] + t[k..];
  }

  /** Stands for the library sort: equal keys may come out in any order. */
  method SortBy(s: seq<Density>, key: Density -> real) returns (t: seq<Density>)
    ensures Permutes(s, t) && Ordered(t, key)
  {
    t := [];
    var i := 0;
    while i < |s|
      invariant 0 <= i <= |s|
      invariant multiset(s[..i]) == multiset(t)
      invariant Ordered(t, key)
    {
      t := Insert(t, s[i], key);
      assert s[..i + 1] == s[..i] + [s[i]];
      i := i + 1;
    }
    assert s[..|s|] == s;
  }

  /** A sorted permutation always exists. */
  lemma SortedExists(s: seq<Density>, key: Density -> real) returns (t: seq<Density>)
    ensures Permutes(s, t) && Ordered(t, key)
  {
    if s == [] {
      t := [];
    } else {
      var d := s[|s| - 1];
      var rest := SortedExists(s[..|s| - 1], key);
      var k := 0;
      while k < |rest| && key(rest[k]) <= key(d)
        invariant 0 <= k <= |rest|
        invariant forall j :: 0 <= j < k ==> key(rest[j]) <= key(d)
      {
        k := k + 1;
      }
      InsertionKeepsOrder(rest, k, d, key);
      InsertionPermutes(s, rest, k);
      t := rest[..k] + [d] + rest[k..];
    }
  }

  lemma InsertionPermutes(s: seq<Density>, rest: seq<Density>, k: nat)
    requires s != [] && Permutes(s[..|s| - 1], rest) && k <= |rest|
    ensures Permutes(s, rest[..k] + [s[|s| - 1]] + rest[k..])
  {
    assert rest == rest[..k] + rest[k..] && s == s[..|s| - 1] + [s[|s| - 1]];
  }

  /** Descending density. */
  method SortByDensity(s: seq<Density>) returns (t: seq<Density>)
    ensures Permutes(s, t) && ByDensity(t)
  {
    t := SortBy(s, (d: Density) => -d.freq);
    assert forall i :: 0 <= i < |t| ==> ((d: Density) => -d.freq)(t[i]) == -t[i].freq;
  }

  /** Ascending block id. */
  method SortById(s: seq<Density>) returns (t: seq<Density>)
    ensures Permutes(s, t) && ById(t)
  {
    t := SortBy(s, (d: Density) => d.idx as real);
    assert forall i :: 0 <= i < |t| ==> ((d: Density) => d.idx as real)(t[i]) == t[i].idx as real;
  }
}
