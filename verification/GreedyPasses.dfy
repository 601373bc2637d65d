/** Greedy passes one after another: when a block is delivered twice. */
module GreedyPasses {
  import opened Densities
  import opened DensityMaps
  import opened LinearPass
  import opened ThresholdScan

  ghost predicate IsDensest(d: Density, list: seq<Density>) {
    d in list && forall e :: e in list ==> e.freq <= d.freq
  }

  ghost predicate DensestDelivered(list: seq<Density>, before: seq<Density>) {
    forall d :: IsDensest(d, list) ==> d.idx in Blocks(before)
  }

  /** Whatever is wanted, and in whatever order equally dense blocks come out, the pass delivers
      some block twice. */
  ghost predicate AlwaysRedelivers(stale: seq<Density>, cands: seq<Density>, recordsPerBuf: nat, before: seq<Density>,
                                   marked: set<nat>)
  {
    forall wanted, after, temp, nowMarked, done ::
      PassTaken(stale, cands, recordsPerBuf, wanted, before, marked, after, temp, nowMarked, done) ==> !DistinctBlocks(after)
  }

  /** A pass always takes a densest entry of its list. */
  lemma TakesDensest(stale: seq<Density>, cands: seq<Density>, recordsPerBuf: nat, wanted: nat,
                     before: seq<Density>, marked: set<nat>,
                     after: seq<Density>, temp: seq<Density>, nowMarked: set<nat>, done: bool)
    requires PassTaken(stale, cands, recordsPerBuf, wanted, before, marked, after, temp, nowMarked, done)
    requires stale + cands != [] && DensestDelivered(stale + cands, before)
    ensures !DistinctBlocks(after)
  {
    PermutationKeepsMembers(stale + cands, temp);
    var n: nat :| GreedyCount(temp, n, recordsPerBuf, wanted) && Permutes(before + temp[..n], after);
    FirstIsDensest(stale + cands, temp);
    var j :| 0 <= j < |before| && before[j].idx == temp[0].idx;
    TwiceIn(before, temp[..n], j, after);
  }

  lemma FirstIsDensest(list: seq<Density>, temp: seq<Density>)
    requires Permutes(list, temp) && ByDensity(temp) && temp != []
    ensures IsDensest(temp[0], list)
  {
    PermutationKeepsMembers(list, temp);
    assert temp[0] in temp;
    forall e | e in list ensures e.freq <= temp[0].freq {
      var i :| 0 <= i < |temp| && temp[i] == e;
    }
  }

  lemma TwiceIn(before: seq<Density>, added: seq<Density>, j: nat, after: seq<Density>)
    requires j < |before| && added != [] && before[j].idx == added[0].idx && Permutes(before + added, after)
    ensures !DistinctBlocks(after)
  {
    var both := before + added;
    assert both[j].idx == both[|before|].idx;
    BlocksCount(both);
    BlocksCount(after);
    PermutationKeepsMembers(both, after);
  }

  /** If a densest entry has not been delivered, one pass that wants nothing adds it alone. */
  lemma NewDensestAlone(stale: seq<Density>, cands: seq<Density>, recordsPerBuf: nat, before: seq<Density>,
                        marked: set<nat>, d: Density)
    returns (after: seq<Density>, temp: seq<Density>, nowMarked: set<nat>)
    requires Usable(stale + cands) && DistinctBlocks(before) && IsDensest(d, stale + cands) && d.idx !in Blocks(before)
    ensures PassTaken(stale, cands, recordsPerBuf, 0, before, marked, after, temp, nowMarked, false)
    ensures DistinctBlocks(after)
  {
    var list := stale + cands;
    temp := SortedFrom(list, d);
    PermutationKeepsMembers(list, temp);
    after := SortedExists(before + [d], (e: Density) => e.idx as real);
    assert ById(after) by {
      assert forall i :: 0 <= i < |after| ==> ((e: Density) => e.idx as real)(after[i]) == after[i].idx as real;
    }
    nowMarked := marked + Blocks(temp[..1]);
    assert temp[..1] == [d];
    assert GreedyCount(temp, 1, recordsPerBuf, 0);
    assert Blocks([d]) == {d.idx};
    DistinctSum(before, [d]);
    PermutationKeepsDistinct(before + [d], after);
  }

  lemma MoveToFront(a: seq<Density>, d: Density, b: seq<Density>, tail: seq<Density>)
    requires Permutes(a + b, tail)
    ensures Permutes(a + [d] + b, [d] + tail)
  {
    assert multiset(a + [d] + b) == multiset(a) + multiset([d]) + multiset(b);
    assert multiset(a + b) == multiset(a) + multiset(b);
  }

  /** A sorted order that starts with a given densest entry. */
  lemma SortedFrom(list: seq<Density>, d: Density) returns (temp: seq<Density>)
    requires IsDensest(d, list)
    ensures Permutes(list, temp) && ByDensity(temp) && temp != [] && temp[0] == d
  {
    var i :| 0 <= i < |list| && list[i] == d;
    var a, b := list[..i], list[i + 1..];
    assert list == a + [d] + b;
    var tail := SortedExists(a + b, (e: Density) => -e.freq);
    assert forall k :: 0 <= k < |tail| ==> ((e: Density) => -e.freq)(tail[k]) == -tail[k].freq;
    temp := [d] + tail;
    MoveToFront(a, d, b, tail);
    PermutationKeepsMembers(list, temp);
    assert forall k :: 0 <= k < |temp| ==> temp[k] in temp;
  }

  /** When nothing is left, nothing is delivered twice. */
  lemma EmptyPass(recordsPerBuf: nat, before: seq<Density>, marked: set<nat>) returns (after: seq<Density>)
    requires DistinctBlocks(before)
    ensures PassTaken([], [], recordsPerBuf, 0, before, marked, after, [], marked, true) && DistinctBlocks(after)
  {
    after := SortedExists(before, (e: Density) => e.idx as real);
    assert forall i :: 0 <= i < |after| ==> ((e: Density) => e.idx as real)(after[i]) == after[i].idx as real;
    PermutationKeepsDistinct(before, after);
    var none: seq<Density> := [];
    assert none[..0] == [] && before + none[..0] == before;
    assert GreedyCount(none, 0, recordsPerBuf, 0);
  }

  /** Exactly when a pass is bound to deliver a block twice: its list is not empty and all of the
      densest entries have been delivered. */
  lemma AlwaysRedeliversIff(stale: seq<Density>, cands: seq<Density>, recordsPerBuf: nat, before: seq<Density>,
                            marked: set<nat>)
    requires Usable(stale + cands) && DistinctBlocks(before)
    ensures AlwaysRedelivers(stale, cands, recordsPerBuf, before, marked)
       <==> stale + cands != [] && DensestDelivered(stale + cands, before)
  {
    if stale + cands == [] {
      var after := EmptyPass(recordsPerBuf, before, marked);
    } else if !DensestDelivered(stale + cands, before) {
      var d :| IsDensest(d, stale + cands) && d.idx !in Blocks(before);
      var after, temp, nowMarked := NewDensestAlone(stale, cands, recordsPerBuf, before, marked, d);
    } else {
      forall wanted, after, temp, nowMarked, done |
        PassTaken(stale, cands, recordsPerBuf, wanted, before, marked, after, temp, nowMarked, done)
        ensures !DistinctBlocks(after)
      {
        TakesDensest(stale, cands, recordsPerBuf, wanted, before, marked, after, temp, nowMarked, done);
      }
    }
  }

  // ---------- the state after a first pass ----------

  /** The blocks of one density. */
  function BlocksAt(s: seq<Density>, freq: real): set<nat> {
    set i | 0 <= i < |s| && s[i].freq == freq :: s[i].idx
  }

  /** A first pass takes all of the densest blocks: there is one, or all but one fall short. */
  ghost predicate TakesAllDensest(cands: seq<Density>, recordsPerBuf: nat, wanted: nat, top: Density)
    requires top.freq >= 0.0
  {
    var k := |BlocksAt(cands, top.freq)|;
    k == 1 || (k - 1) * Estimate(top, recordsPerBuf) < wanted
  }

  /** In a sorted list the densest entries come first. */
  lemma DensestFirst(temp: seq<Density>, freq: real) returns (m: nat)
    requires ByDensity(temp) && temp != [] && temp[0].freq == freq
    ensures 0 < m <= |temp| && forall i :: 0 <= i < |temp| ==> (temp[i].freq == freq <==> i < m)
  {
    m := 1;
    while m < |temp| && temp[m].freq == freq
      invariant 0 < m <= |temp|
      invariant forall i :: 0 <= i < m ==> temp[i].freq == freq
    {
      m := m + 1;
    }
  }

  lemma DensestCount(cands: seq<Density>, temp: seq<Density>, freq: real, m: nat)
    requires Permutes(cands, temp) && DistinctBlocks(temp) && m <= |temp|
    requires forall i :: 0 <= i < |temp| ==> (temp[i].freq == freq <==> i < m)
    ensures |BlocksAt(cands, freq)| == m
  {
    PermutationKeepsMembers(cands, temp);
    var first := temp[..m];
    BlocksCount(first);
    forall b ensures b in BlocksAt(cands, freq) <==> b in Blocks(first) {
      if b in BlocksAt(cands, freq) {
        var i :| 0 <= i < |cands| && cands[i].freq == freq && cands[i].idx == b;
        assert cands[i] in temp;
        var j :| 0 <= j < |temp| && temp[j] == cands[i];
        assert first[j].idx == b;
      }
      if b in Blocks(first) {
        var j :| 0 <= j < |first| && first[j].idx == b;
        assert temp[j] in cands;
        var i :| 0 <= i < |cands| && cands[i] == temp[j];
      }
    }
    assert BlocksAt(cands, freq) == Blocks(first);
  }

  /** Equally dense blocks have equal estimates. */
  lemma {:induction false} EstimatedOfEqual(temp: seq<Density>, m: nat, top: Density, recordsPerBuf: nat)
    requires Usable(temp) && m <= |temp| && top.freq >= 0.0 && forall i :: 0 <= i < m ==> temp[i].freq == top.freq
    ensures Estimated(temp, m, recordsPerBuf) == m * Estimate(top, recordsPerBuf)
  {
    if m > 0 {
      EstimatedOfEqual(temp, m - 1, top, recordsPerBuf);
      OneMoreOf(m, Estimate(top, recordsPerBuf));
    }
  }

  lemma OneMoreOf(m: nat, e: nat)
    requires m > 0
    ensures m * e == (m - 1) * e + e
  {
  }

  lemma FewerOf(n: nat, m: nat, e: nat)
    requires n <= m
    ensures n * e <= m * e
  {
  }

  /** How far the first pass gets into the densest blocks depends on their number and estimate. */
  lemma ReachesAllIff(temp: seq<Density>, n: nat, m: nat, top: Density, recordsPerBuf: nat, wanted: nat)
    requires GreedyCount(temp, n, recordsPerBuf, wanted) && 0 < m <= |temp| && top.freq >= 0.0
    requires forall i :: 0 <= i < m ==> temp[i].freq == top.freq
    ensures m <= n <==> m == 1 || (m - 1) * Estimate(top, recordsPerBuf) < wanted
  {
    EstimatedOfEqual(temp, m - 1, top, recordsPerBuf);
    if n < m {
      EstimatedOfEqual(temp, n, top, recordsPerBuf);
      FewerOf(n, m - 1, Estimate(top, recordsPerBuf));
    } else if m > 1 {
      EstimatedGrows(temp, m - 1, n - 1, recordsPerBuf);
    }
  }

  /** What is densest in the list of a second pass. */
  lemma DensestOfSecond(temp: seq<Density>, cands: seq<Density>, later: seq<Density>, m: nat, d: Density)
    requires ByDensity(temp) && temp != [] && (forall e :: e in later ==> e in temp) && m <= |temp|
    requires forall i :: 0 <= i < |temp| ==> (temp[i].freq == temp[0].freq <==> i < m)
    ensures IsDensest(d, temp + later) <==> d in temp[..m]
  {
    assert temp[0] in temp + later;
    assert d in temp + later <==> d in temp;
    if d in temp[..m] {
      var i :| 0 <= i < m && temp[i] == d;
      forall e | e in temp + later ensures e.freq <= d.freq {
        assert e in temp;
        var j :| 0 <= j < |temp| && temp[j] == e;
      }
    }
    if IsDensest(d, temp + later) {
      var i :| 0 <= i < |temp| && temp[i] == d;
      assert temp[..m][i] == d;
    }
  }

  lemma DensestDeliveredIff(temp: seq<Density>, later: seq<Density>, ordered: seq<Density>, n: nat, m: nat)
    requires ByDensity(temp) && temp != [] && DistinctBlocks(temp) && (forall e :: e in later ==> e in temp)
    requires 0 < m <= |temp| && n <= |temp| && Blocks(ordered) == Blocks(temp[..n])
    requires forall i :: 0 <= i < |temp| ==> (temp[i].freq == temp[0].freq <==> i < m)
    ensures DensestDelivered(temp + later, ordered) <==> m <= n
  {
    forall d | IsDensest(d, temp + later) && m <= n ensures d.idx in Blocks(ordered) {
      DensestOfSecond(temp, [], later, m, d);
      var i :| 0 <= i < m && temp[i] == d;
      assert temp[..n][i].idx == d.idx;
    }
    if n < m {
      assert temp[..m][n] == temp[n];
      DensestOfSecond(temp, [], later, m, temp[n]);
      assert temp[n].idx !in Blocks(temp[..n]);
    }
  }

  /** What a first pass leaves: a sorted list of all candidates, the first `n` of which are delivered. */
  lemma FirstPassLeaves(cands: seq<Density>, recordsPerBuf: nat, wanted: nat, ordered: seq<Density>, temp: seq<Density>,
                        sampled: set<nat>, done: bool)
    returns (n: nat)
    requires Usable(cands) && DistinctBlocks(cands) && cands != []
    requires PassTaken([], cands, recordsPerBuf, wanted, [], {}, ordered, temp, sampled, done)
    ensures Permutes(cands, temp) && ByDensity(temp) && temp != [] && DistinctBlocks(temp)
    ensures GreedyCount(temp, n, recordsPerBuf, wanted) && Blocks(ordered) == Blocks(temp[..n]) && DistinctBlocks(ordered)
  {
    n :| GreedyCount(temp, n, recordsPerBuf, wanted) && Permutes([] + temp[..n], ordered);
    assert [] + cands == cands && [] + temp[..n] == temp[..n];
    PermutationKeepsMembers(cands, temp);
    PermutationKeepsDistinct(cands, temp);
    PermutationKeepsMembers(temp[..n], ordered);
    PermutationKeepsDistinct(temp[..n], ordered);
  }

  /** From the densities alone: after a first pass, another pass is bound to deliver a block twice
      exactly when the first one took all of the densest blocks. */
  lemma SecondPassRedeliversIff(cands: seq<Density>, recordsPerBuf: nat, wanted: nat, top: Density,
                                ordered: seq<Density>, temp: seq<Density>, sampled: set<nat>, done: bool, later: seq<Density>)
    requires Usable(cands) && DistinctBlocks(cands) && IsDensest(top, cands) && top.freq >= 0.0
    requires PassTaken([], cands, recordsPerBuf, wanted, [], {}, ordered, temp, sampled, done)
    requires forall e :: e in later ==> e in cands
    ensures AlwaysRedelivers(temp, later, recordsPerBuf, ordered, sampled)
       <==> TakesAllDensest(cands, recordsPerBuf, wanted, top)
  {
    var n := FirstPassLeaves(cands, recordsPerBuf, wanted, ordered, temp, sampled, done);
    DensestAgree(cands, temp, top);
    LaterAreUsable(cands, temp, later);
    var m := DensestFirst(temp, top.freq);
    DensestCount(cands, temp, top.freq, m);
    ReachesAllIff(temp, n, m, top, recordsPerBuf, wanted);
    DensestDeliveredIff(temp, later, ordered, n, m);
    AlwaysRedeliversIff(temp, later, recordsPerBuf, ordered, sampled);
  }

  lemma DensestAgree(cands: seq<Density>, temp: seq<Density>, top: Density)
    requires Permutes(cands, temp) && ByDensity(temp) && temp != [] && IsDensest(top, cands)
    ensures temp[0].freq == top.freq
  {
    FirstIsDensest(cands, temp);
  }

  lemma LaterAreUsable(cands: seq<Density>, temp: seq<Density>, later: seq<Density>)
    requires Usable(cands) && Permutes(cands, temp) && forall e :: e in later ==> e in cands
    ensures Usable(temp + later) && forall e :: e in later ==> e in temp
  {
    PermutationKeepsMembers(cands, temp);
    forall i | 0 <= i < |later| ensures later[i].freq >= 0.0 {
      assert later[i] in cands;
    }
  }

  /** The candidates of a later call were candidates before. */
  lemma {:induction false} FewerCandidates(maps: seq<BaseMap>, isAnd: bool, sampled: set<nat>, later: set<nat>, n: nat)
    requires sampled <= later
    ensures forall d :: d in CandidatesUpTo(maps, isAnd, later, n) ==> d in CandidatesUpTo(maps, isAnd, sampled, n)
  {
    if n > 0 {
      FewerCandidates(maps, isAnd, sampled, later, n - 1);
    }
  }

  /** Two calls on an AND map: if the first one takes all of the densest blocks, the second one
      delivers a block again, whatever it wants. */
  method CallTwice(maps: seq<BaseMap>, numBlocks: nat, recordsPerBuf: nat, wanted: nat, next: nat, ghost top: Density)
    returns (m: DensityMap)
    requires ValidMaps(maps, numBlocks) && IsDensest(top, CandidatesUpTo(maps, true, {}, numBlocks))
    requires top.freq >= 0.0 && TakesAllDensest(CandidatesUpTo(maps, true, {}, numBlocks), recordsPerBuf, wanted, top)
    ensures !m.orderedDone && !DistinctBlocks(m.ordered)
  {
    ghost var cands := CandidatesUpTo(maps, true, {}, numBlocks);
    CandidatesAre(maps, true, {}, numBlocks, numBlocks);
    m := new DensityMap(maps, true, numBlocks, recordsPerBuf);
    var first := m.LinearPassFixedBlocks(0, wanted);
    ghost var later := CandidatesUpTo(maps, true, m.sampled, numBlocks);
    FewerCandidates(maps, true, {}, m.sampled, numBlocks);
    SecondPassRedeliversIff(cands, recordsPerBuf, wanted, top, m.ordered, m.tempOrdered, m.sampled, m.orderedDone, later);
    ghost var stale, before, marked := m.tempOrdered, m.ordered, m.sampled;
    var order := |m.ordered|;
    var second := m.LinearPassFixedBlocks(order, next);
    assert AlwaysRedelivers(stale, later, recordsPerBuf, before, marked);
  }
}
