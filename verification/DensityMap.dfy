/** A combined density map: which blocks it has delivered, and the ways it picks more. */
module DensityMaps {
  import opened Densities
  import opened LinearPass
  import opened ThresholdScan
  import E = SquaredError
  import F = ForwardOptimal
  import P = TwoProng
  import S = Sums

  /** The aggregate density the block searches use: a sum is capped at one. */
  function Merged(maps: seq<BaseMap>, isAnd: bool, b: nat): real {
    var f := Combined(maps, isAnd, b);
    if !isAnd && f > 1.0 then 1.0 else f
  }

  /** The blocks among the first `n` that have not been sampled. */
  function CandidatesUpTo(maps: seq<BaseMap>, isAnd: bool, sampled: set<nat>, n: nat): seq<Density> {
    if n == 0 then []
    else
      var rest := CandidatesUpTo(maps, isAnd, sampled, n - 1);
      var b: nat := n - 1;
      if b in sampled then rest else rest + [Density(b, Merged(maps, isAnd, b))]
  }

  /** The entry's density is what the operands make of its block: the product of their densities
      for AND, their sum, at most one, for OR. It is positive exactly when all or some of theirs are. */
  ghost predicate HasDensity(d: Density, maps: seq<BaseMap>, isAnd: bool) {
    && (forall j :: 0 <= j < |maps| ==> d.idx < |maps[j].freq|)
    && var fs := DensitiesOf(maps, d.idx);
    && d.freq == (if isAnd then Product(fs) else if E.Sum(fs) <= 1.0 then E.Sum(fs) else 1.0)
    && (d.freq > 0.0 <==>
          if isAnd then forall j :: 0 <= j < |maps| ==> maps[j].freq[d.idx] > 0.0
          else exists j :: 0 <= j < |maps| && maps[j].freq[d.idx] > 0.0)
  }

  lemma MergedIs(maps: seq<BaseMap>, isAnd: bool, numBlocks: nat, b: nat)
    requires ValidMaps(maps, numBlocks) && b < numBlocks
    ensures Merged(maps, isAnd, b) >= 0.0 && HasDensity(Density(b, Merged(maps, isAnd, b)), maps, isAnd)
  {
    CombinedIs(maps, numBlocks, isAnd, b);
    NonnegativeDensities(maps, numBlocks, b);
    PositiveIff(DensitiesOf(maps, b));
  }

  lemma NonnegativeDensities(maps: seq<BaseMap>, numBlocks: nat, b: nat)
    requires ValidMaps(maps, numBlocks) && b < numBlocks
    ensures forall j :: 0 <= j < |maps| ==> b < |maps[j].freq| && maps[j].freq[b] >= 0.0
  {
    forall j | 0 <= j < |maps| ensures b < |maps[j].freq| && maps[j].freq[b] >= 0.0 {
      assert maps[j].Valid(numBlocks);
    }
  }

  ghost predicate Increasing(s: seq<Density>) {
    forall i, j :: 0 <= i < j < |s| ==> s[i].idx < s[j].idx
  }

  lemma {:induction false} CandidatesAre(maps: seq<BaseMap>, isAnd: bool, sampled: set<nat>, numBlocks: nat, n: nat)
    requires ValidMaps(maps, numBlocks) && n <= numBlocks
    ensures var c := CandidatesUpTo(maps, isAnd, sampled, n);
            && Usable(c) && Increasing(c) && Blocks(c) == (set b: nat | b < n && b !in sampled)
            && forall i :: 0 <= i < |c| ==>
                 c[i].idx < n && c[i].idx !in sampled && HasDensity(c[i], maps, isAnd)
  {
    if n > 0 {
      CandidatesAre(maps, isAnd, sampled, numBlocks, n - 1);
      MergedIs(maps, isAnd, numBlocks, n - 1);
      var rest, c := CandidatesUpTo(maps, isAnd, sampled, n - 1), CandidatesUpTo(maps, isAnd, sampled, n);
      BlocksNext(rest, c, n - 1, sampled);
    }
  }

  lemma BlocksNext(rest: seq<Density>, c: seq<Density>, b: nat, sampled: set<nat>)
    requires Blocks(rest) == (set k: nat | k < b && k !in sampled)
    requires b in sampled ==> c == rest
    requires b !in sampled ==> |c| == |rest| + 1 && c[..|rest|] == rest && c[|rest|].idx == b
    ensures Blocks(c) == (set k: nat | k < b + 1 && k !in sampled)
  {
    forall k: nat ensures k in Blocks(c) <==> k < b + 1 && k !in sampled {
      assert k in Blocks(rest) <==> k < b && k !in sampled;
      if b !in sampled {
        assert c == rest + [c[|rest|]];
        BlocksOfSum(rest, [c[|rest|]]);
      }
    }
  }

  lemma BlocksOfSum(a: seq<Density>, b: seq<Density>)
    ensures Blocks(a + b) == Blocks(a) + Blocks(b)
  {
    var c := a + b;
    forall k | k in Blocks(a) ensures k in Blocks(c) {
      var i :| 0 <= i < |a| && a[i].idx == k;
      assert c[i].idx == k;
    }
    forall k | k in Blocks(b) ensures k in Blocks(c) {
      var i :| 0 <= i < |b| && b[i].idx == k;
      assert c[|a| + i].idx == k;
    }
  }

  lemma DistinctSum(a: seq<Density>, b: seq<Density>)
    requires DistinctBlocks(a) && DistinctBlocks(b) && Blocks(a) !! Blocks(b)
    ensures DistinctBlocks(a + b)
  {
    var c := a + b;
    forall i, j | 0 <= i < j < |c| ensures c[i].idx != c[j].idx {
      if i < |a| <= j {
        assert c[i].idx in Blocks(a) && c[j].idx in Blocks(b);
      }
    }
  }

  function Estimates(s: seq<Density>, recordsPerBuf: nat): (est: seq<nat>)
    requires forall i :: 0 <= i < |s| ==> s[i].freq >= 0.0
    ensures |est| == |s| && forall i :: 0 <= i < |s| ==> est[i] == Estimate(s[i], recordsPerBuf)
  {
    if s == [] then [] else Estimates(s[..|s| - 1], recordsPerBuf) + [Estimate(s[|s| - 1], recordsPerBuf)]
  }

  /** The program that picks the cheapest chain counts an empty block as one sample. */
  function Supply(est: seq<nat>): (supply: seq<nat>)
    ensures |supply| == |est| && forall i :: 0 <= i < |est| ==> supply[i] == (if est[i] == 0 then 1 else est[i]) >= 1
  {
    if est == [] then []
    else Supply(est[..|est| - 1]) + [if est[|est| - 1] == 0 then 1 else est[|est| - 1]]
  }

  function NonZero(s: seq<Density>): seq<Density> {
    if s == [] then []
    else NonZero(s[..|s| - 1]) + if s[|s| - 1].freq != 0.0 then [s[|s| - 1]] else []
  }

  lemma {:induction false} NonZeroKeeps(s: seq<Density>)
    requires DistinctBlocks(s)
    ensures DistinctBlocks(NonZero(s)) && Blocks(NonZero(s)) <= Blocks(s)
    ensures forall d :: d in NonZero(s) <==> d in s && d.freq != 0.0
  {
    if s != [] {
      var p, last := s[..|s| - 1], s[|s| - 1];
      NonZeroKeeps(p);
      assert s == p + [last];
      BlocksOfSum(p, [last]);
      BlocksOfSum(NonZero(p), if last.freq != 0.0 then [last] else []);
      if last.freq != 0.0 {
        assert last.idx !in Blocks(p);
        assert Blocks([last]) == {last.idx};
        DistinctSum(NonZero(p), [last]);
      } else {
        assert NonZero(s) == NonZero(p);
      }
    }
  }

  /** Leaving blocks out keeps the others in order. */
  lemma {:induction false} NonZeroInOrder(s: seq<Density>)
    requires Increasing(s)
    ensures Increasing(NonZero(s)) && forall d :: d in NonZero(s) ==> d in s
  {
    if s != [] {
      var p, last := s[..|s| - 1], s[|s| - 1];
      NonZeroInOrder(p);
      forall i | 0 <= i < |NonZero(p)| ensures NonZero(p)[i].idx < last.idx {
        assert NonZero(p)[i] in p;
      }
    }
  }

  function Pick(cands: seq<Density>, picked: seq<nat>): (s: seq<Density>)
    requires forall k :: 0 <= k < |picked| ==> picked[k] < |cands|
    ensures |s| == |picked| && forall k :: 0 <= k < |picked| ==> s[k] == cands[picked[k]]
  {
    if picked == [] then [] else Pick(cands, picked[..|picked| - 1]) + [cands[picked[|picked| - 1]]]
  }

  ghost predicate InRange(s: seq<Density>, numBlocks: nat) {
    forall i :: 0 <= i < |s| ==> s[i].idx < numBlocks
  }

  ghost predicate Below(blocks: set<nat>, numBlocks: nat) {
    forall b :: b in blocks ==> b < numBlocks
  }

  /** What a caller gets for a rank: the block delivered at that rank, or word that there is none. */
  ghost predicate Serves(d: Density, ordered: seq<Density>, order: nat) {
    if order < |ordered| then d == ordered[order] else d == Density(NPOS, 0.0)
  }

  // ---------- what one call that needs new blocks leaves behind ----------

  /** The window found is delivered without its empty blocks and marked as a whole. */
  ghost predicate WindowIs(cands: seq<Density>, recordsPerBuf: nat, wanted: nat, lo: nat, hi: nat,
                           before: seq<Density>, marked: set<nat>, after: seq<Density>, nowMarked: set<nat>)
  {
    && Usable(cands) && lo <= hi < |cands|
    && P.IsChosenWindow(Estimates(cands, recordsPerBuf), wanted, lo, hi)
    && after == before + NonZero(cands[lo..hi + 1])
    && nowMarked == marked + Blocks(cands[lo..hi + 1])
  }

  ghost predicate WindowTaken(cands: seq<Density>, recordsPerBuf: nat, wanted: nat, before: seq<Density>, marked: set<nat>,
                              after: seq<Density>, nowMarked: set<nat>, done: bool)
  {
    if cands == [] then after == before && nowMarked == marked && done
    else !done && exists lo, hi :: WindowIs(cands, recordsPerBuf, wanted, lo, hi, before, marked, after, nowMarked)
  }

  /** The picked candidates are a cheapest chain, or the last one when all fall short. */
  ghost predicate ChainIs(cands: seq<Density>, recordsPerBuf: nat, wanted: nat, picked: seq<nat>)
  {
    && Usable(cands) && F.IsChain(picked, |cands|)
    && var supply := Supply(Estimates(cands, recordsPerBuf));
       if S.Total(supply) >= wanted then F.CheapestChain(supply, wanted, picked) else picked == [|cands| - 1]
  }

  ghost predicate ChainTaken(cands: seq<Density>, recordsPerBuf: nat, wanted: nat, before: seq<Density>, marked: set<nat>,
                             after: seq<Density>, nowMarked: set<nat>, done: bool)
  {
    if cands == [] then after == before && nowMarked == marked && done
    else !done && exists picked ::
      && ChainIs(cands, recordsPerBuf, wanted, picked)
      && after == before + Pick(cands, picked)
      && nowMarked == marked + Blocks(Pick(cands, picked))
  }

  /** The densest entries of the working list are added and the whole delivered list is sorted. */
  ghost predicate PassTaken(stale: seq<Density>, cands: seq<Density>, recordsPerBuf: nat, wanted: nat,
                            before: seq<Density>, marked: set<nat>,
                            after: seq<Density>, temp: seq<Density>, nowMarked: set<nat>, done: bool)
  {
    && Permutes(stale + cands, temp) && ByDensity(temp) && Usable(temp)
    && (done <==> stale == [] && cands == [])
    && exists n: nat ::
         && GreedyCount(temp, n, recordsPerBuf, wanted)
         && Permutes(before + temp[..n], after) && ById(after)
         && nowMarked == marked + Blocks(temp[..n])
  }

  ghost predicate GreedyCount(temp: seq<Density>, n: nat, recordsPerBuf: nat, wanted: nat) {
    && Usable(temp) && n <= |temp| && (n == 0 <==> temp == [])
    && (n == |temp| || Estimated(temp, n, recordsPerBuf) >= wanted)
    && (n > 1 ==> Estimated(temp, n - 1, recordsPerBuf) < wanted)
  }

  class DensityMap {
    const maps: seq<BaseMap>
    const isAnd: bool
    const numBlocks: nat
    const recordsPerBuf: nat
    var ordered: seq<Density>
    var tempOrdered: seq<Density>
    var sampled: set<nat>
    var orderedDone: bool

    ghost predicate Valid()
      reads this
    {
      && ValidMaps(maps, numBlocks) && Usable(tempOrdered) && InRange(tempOrdered, numBlocks)
      && Below(sampled, numBlocks)
    }

    /** Every delivered block is marked as sampled, and none is delivered twice. */
    ghost predicate DeliveredOnce()
      reads this
    {
      DistinctBlocks(ordered) && Blocks(ordered) <= sampled
    }

    ghost function Candidates(): seq<Density>
      reads this
    {
      CandidatesUpTo(maps, isAnd, sampled, numBlocks)
    }

    constructor (maps: seq<BaseMap>, isAnd: bool, numBlocks: nat, recordsPerBuf: nat)
      requires ValidMaps(maps, numBlocks)
      ensures Valid() && DeliveredOnce() && ordered == [] && tempOrdered == [] && sampled == {} && !orderedDone
      ensures this.maps == maps && this.isAnd == isAnd && this.numBlocks == numBlocks && this.recordsPerBuf == recordsPerBuf
    {
      this.maps, this.isAnd, this.numBlocks, this.recordsPerBuf := maps, isAnd, numBlocks, recordsPerBuf;
      ordered, tempOrdered, sampled, orderedDone := [], [], {}, false;
    }

    /** Looks every block up in every operand. */
    method Gather() returns (cands: seq<Density>)
      requires Valid()
      ensures cands == Candidates()
      ensures Increasing(cands) && Blocks(cands) == (set b: nat | b < numBlocks && b !in sampled)
      ensures forall i :: 0 <= i < |cands| ==> HasDensity(cands[i], maps, isAnd)
    {
      cands := [];
      var i := 0;
      while i < numBlocks
        invariant 0 <= i <= numBlocks
        invariant cands == CandidatesUpTo(maps, isAnd, sampled, i)
      {
        if i !in sampled {
          cands := cands + [Density(i, Merged(maps, isAnd, i))];
        }
        i := i + 1;
      }
      CandidatesAre(maps, isAnd, sampled, numBlocks, numBlocks);
    }

    /** The shortest window of candidates. A caller that needs new blocks must still want samples. */
    method TwoProng(order: nat, wanted: nat) returns (d: Density)
      requires Valid() && (order >= |ordered| && !orderedDone ==> wanted > 0)
      modifies this`ordered, this`tempOrdered, this`sampled, this`orderedDone
      ensures Valid() && Serves(d, ordered, order)
      ensures old(DeliveredOnce()) ==> DeliveredOnce()
      ensures order < |old(ordered)| || old(orderedDone) ==>
                ordered == old(ordered) && tempOrdered == old(tempOrdered) && sampled == old(sampled)
                && orderedDone == old(orderedDone)
      ensures order >= |old(ordered)| && !old(orderedDone) ==>
                tempOrdered == old(Candidates()) &&
                WindowTaken(old(Candidates()), recordsPerBuf, wanted, old(ordered), old(sampled), ordered, sampled, orderedDone)
    {
      if order < |ordered| {
        return ordered[order];
      } else if orderedDone {
        return Density(NPOS, 0.0);
      }
      tempOrdered := Gather();
      CandidatesAre(maps, isAnd, sampled, numBlocks, numBlocks);
      if |tempOrdered| == 0 {
        orderedDone := true;
        return Density(NPOS, 0.0);
      }
      var minStart, minEnd := P.SmallestWindow(Estimates(tempOrdered, recordsPerBuf), wanted);
      var after, marked := TakeWindow(tempOrdered, minStart, minEnd, ordered, sampled, numBlocks);
      assert WindowIs(tempOrdered, recordsPerBuf, wanted, minStart, minEnd, ordered, sampled, after, marked);
      ordered, sampled := after, marked;
      d := if order < |ordered| then ordered[order] else Density(NPOS, 0.0);
    }

    /** The cheapest chain of candidates; AND maps only. */
    method VanillaForwardOptimal(order: nat, wanted: nat) returns (d: Density)
      requires Valid() && isAnd && (order >= |ordered| && !orderedDone ==> wanted > 0)
      modifies this`ordered, this`tempOrdered, this`sampled, this`orderedDone
      ensures Valid() && (old(DeliveredOnce()) ==> DeliveredOnce())
      ensures order <= |old(ordered)| ==> Serves(d, ordered, order)
      ensures order < |old(ordered)| || old(orderedDone) ==>
                ordered == old(ordered) && tempOrdered == old(tempOrdered) && sampled == old(sampled)
                && orderedDone == old(orderedDone)
      ensures order >= |old(ordered)| && !old(orderedDone) ==>
                tempOrdered == old(Candidates()) &&
                ChainTaken(old(Candidates()), recordsPerBuf, wanted, old(ordered), old(sampled), ordered, sampled, orderedDone)
    {
      if order < |ordered| {
        return ordered[order];
      } else if orderedDone {
        return Density(NPOS, 0.0);
      }
      tempOrdered := Gather();
      CandidatesAre(maps, isAnd, sampled, numBlocks, numBlocks);
      if |tempOrdered| < 1 {
        orderedDone := true;
        return Density(NPOS, 0.0);
      }
      var added;
      added, sampled := TakeChain(tempOrdered, recordsPerBuf, wanted, ordered, sampled, numBlocks);
      ordered := ordered + added;
      d := if order < |ordered| then ordered[order] else Density(NPOS, 0.0);
    }

    /** The greedy pass; AND maps only. The working list is emptied for rank zero only, and the
        delivered list is sorted again as a whole. */
    method LinearPassFixedBlocks(order: nat, wanted: nat) returns (d: Density)
      requires Valid()
      modifies this`ordered, this`tempOrdered, this`sampled, this`orderedDone
      ensures Valid() && Serves(d, ordered, order)
      ensures order < |old(ordered)| || old(orderedDone) ==>
                ordered == old(ordered) && tempOrdered == old(tempOrdered) && sampled == old(sampled)
                && orderedDone == old(orderedDone)
      ensures order >= |old(ordered)| && !old(orderedDone) && isAnd ==>
                PassTaken(if order == 0 then [] else old(tempOrdered), old(Candidates()), recordsPerBuf, wanted,
                          old(ordered), old(sampled), ordered, tempOrdered, sampled, orderedDone)
      ensures order == 0 && old(ordered) == [] && !old(orderedDone) && isAnd ==>
                && DeliveredOnce() && Selects(ordered, old(Candidates())) && Densest(ordered, old(Candidates()))
                && FewestBlocks(ordered, old(Candidates()), recordsPerBuf, wanted)
    {
      if order < |ordered| {
        return ordered[order];
      } else if orderedDone {
        return Density(NPOS, 0.0);
      }
      if order == 0 {
        tempOrdered := [];
      }
      if isAnd {
        AddDensest(wanted);
      } else {
        ordered := SortById(ordered);
      }
      d := if order < |ordered| then ordered[order] else Density(NPOS, 0.0);
    }

    method AddDensest(wanted: nat)
      requires Valid() && !orderedDone
      modifies this`ordered, this`tempOrdered, this`sampled, this`orderedDone
      ensures Valid()
      ensures PassTaken(old(tempOrdered), old(Candidates()), recordsPerBuf, wanted,
                        old(ordered), old(sampled), ordered, tempOrdered, sampled, orderedDone)
      ensures old(tempOrdered) == [] && old(ordered) == [] ==>
                && DeliveredOnce() && Selects(ordered, old(Candidates())) && Densest(ordered, old(Candidates()))
                && FewestBlocks(ordered, old(Candidates()), recordsPerBuf, wanted)
    {
      var cands := Gather();
      CandidatesAre(maps, isAnd, sampled, numBlocks, numBlocks);
      if |tempOrdered| + |cands| == 0 {
        orderedDone := true;
      }
      ordered, tempOrdered, sampled := TakePass(tempOrdered, cands, recordsPerBuf, wanted, ordered, sampled, numBlocks);
    }

    /** The first batch of the threshold algorithm. */
    method OrderedGetFirst(wanted: nat) returns (d: Density, ghost batch: Batch)
      requires Valid() && ordered == [] && sampled == {} && !orderedDone
      modifies this`ordered, this`sampled, this`orderedDone
      ensures Valid() && Serves(d, ordered, 0) && DeliveredOnce()
      ensures IsBatch(maps, numBlocks, isAnd, recordsPerBuf, wanted, batch)
      ensures Permutes(batch.emitted, ordered) && ById(ordered)
      ensures sampled == Revealed(maps, numBlocks, batch.depth + 1)
      ensures orderedDone <==> Threshold(maps, isAnd, batch.depth) == 0.0
    {
      var b, marked, done := FirstBatch(maps, numBlocks, isAnd, recordsPerBuf, wanted);
      batch := b;
      var listed := SortById(b.emitted);
      BatchDelivers(maps, numBlocks, isAnd, recordsPerBuf, wanted, b, listed);
      ordered, sampled, orderedDone := listed, marked, done;
      d := if 0 < |ordered| then ordered[0] else Density(NPOS, 0.0);
    }
  }

  lemma BatchDelivers(maps: seq<BaseMap>, numBlocks: nat, isAnd: bool, recordsPerBuf: nat, wanted: nat, batch: Batch,
                      ordered: seq<Density>)
    requires IsBatch(maps, numBlocks, isAnd, recordsPerBuf, wanted, batch) && Permutes(batch.emitted, ordered)
    ensures DistinctBlocks(ordered) && Blocks(ordered) <= Revealed(maps, numBlocks, batch.depth + 1)
    ensures Below(Revealed(maps, numBlocks, batch.depth + 1), numBlocks)
  {
    PermutationKeepsMembers(batch.emitted, ordered);
    PermutationKeepsDistinct(batch.emitted, ordered);
    forall k | 0 <= k < |batch.emitted|
      ensures batch.emitted[k].idx in Revealed(maps, numBlocks, batch.depth + 1)
    {
    }
  }

  method PickChain(cands: seq<Density>, recordsPerBuf: nat, wanted: nat) returns (picked: seq<nat>)
    requires Usable(cands) && cands != [] && wanted > 0
    ensures ChainIs(cands, recordsPerBuf, wanted, picked)
  {
    picked := F.SelectBlocks(Supply(Estimates(cands, recordsPerBuf)), wanted);
  }

  lemma ChainPickable(cands: seq<Density>, recordsPerBuf: nat, wanted: nat, picked: seq<nat>)
    requires ChainIs(cands, recordsPerBuf, wanted, picked)
    ensures picked != [] && (forall k :: 0 <= k < |picked| ==> picked[k] < |cands|)
    ensures forall j, k :: 0 <= j < k < |picked| ==> picked[j] < picked[k]
  {
  }

  lemma ChainTakenIs(cands: seq<Density>, recordsPerBuf: nat, wanted: nat, picked: seq<nat>, added: seq<Density>,
                     before: seq<Density>, marked: set<nat>, nowMarked: set<nat>)
    requires cands != [] && ChainIs(cands, recordsPerBuf, wanted, picked)
    requires added == Pick(cands, picked) && nowMarked == marked + Blocks(added)
    ensures ChainTaken(cands, recordsPerBuf, wanted, before, marked, before + added, nowMarked, false)
  {
  }

  lemma WindowStep(temp: seq<Density>, lo: nat, i: nat)
    requires lo <= i < |temp|
    ensures NonZero(temp[lo..i + 1]) == NonZero(temp[lo..i]) + if temp[i].freq != 0.0 then [temp[i]] else []
    ensures Blocks(temp[lo..i + 1]) == Blocks(temp[lo..i]) + {temp[i].idx}
  {
    assert temp[lo..i + 1][..i - lo] == temp[lo..i];
    assert temp[lo..i + 1] == temp[lo..i] + [temp[i]];
    BlocksOfSum(temp[lo..i], [temp[i]]);
    assert Blocks([temp[i]]) == {temp[i].idx};
  }

  /** Delivers the blocks of a window that are not empty; all of them count as sampled. */
  method CollectWindow(temp: seq<Density>, minStart: nat, minEnd: nat, before: seq<Density>, marked: set<nat>)
    returns (after: seq<Density>, nowMarked: set<nat>)
    requires minStart <= minEnd < |temp|
    ensures after == before + NonZero(temp[minStart..minEnd + 1])
    ensures nowMarked == marked + Blocks(temp[minStart..minEnd + 1])
  {
    after, nowMarked := before, marked;
    var i := minStart;
    while i <= minEnd
      invariant minStart <= i <= minEnd + 1
      invariant after == before + NonZero(temp[minStart..i])
      invariant nowMarked == marked + Blocks(temp[minStart..i])
    {
      WindowStep(temp, minStart, i);
      if temp[i].freq != 0.0 {
        after := after + [temp[i]];
      }
      nowMarked := nowMarked + {temp[i].idx};
      i := i + 1;
    }
  }

  method TakeWindow(temp: seq<Density>, minStart: nat, minEnd: nat, before: seq<Density>, marked: set<nat>,
                    ghost numBlocks: nat)
    returns (after: seq<Density>, nowMarked: set<nat>)
    requires minStart <= minEnd < |temp| && Increasing(temp) && Below(marked, numBlocks)
    requires forall i :: 0 <= i < |temp| ==> temp[i].idx < numBlocks && temp[i].idx !in marked
    ensures DistinctBlocks(before) && Blocks(before) <= marked ==> DistinctBlocks(after) && Blocks(after) <= nowMarked
    ensures Below(nowMarked, numBlocks)
    ensures after == before + NonZero(temp[minStart..minEnd + 1])
    ensures nowMarked == marked + Blocks(temp[minStart..minEnd + 1])
  {
    after, nowMarked := CollectWindow(temp, minStart, minEnd, before, marked);
    WindowDelivers(temp[minStart..minEnd + 1], before, marked, numBlocks);
  }

  method TakeChain(cands: seq<Density>, recordsPerBuf: nat, wanted: nat, ghost before: seq<Density>, marked: set<nat>,
                   ghost numBlocks: nat)
    returns (added: seq<Density>, nowMarked: set<nat>)
    requires Usable(cands) && Increasing(cands) && cands != [] && wanted > 0 && Below(marked, numBlocks)
    requires forall i :: 0 <= i < |cands| ==> cands[i].idx < numBlocks && cands[i].idx !in marked
    ensures ChainTaken(cands, recordsPerBuf, wanted, before, marked, before + added, nowMarked, false)
    ensures DistinctBlocks(before) && Blocks(before) <= marked ==>
              DistinctBlocks(before + added) && Blocks(before + added) <= nowMarked
    ensures Below(nowMarked, numBlocks) && added != []
  {
    var picked := PickChain(cands, recordsPerBuf, wanted);
    ChainPickable(cands, recordsPerBuf, wanted, picked);
    var chosen := Pick(cands, picked);
    added := SortById(chosen);
    PickIsNew(cands, picked, marked, numBlocks);
    SortedAlready(chosen, added);
    nowMarked := marked + Blocks(added);
    ChainTakenIs(cands, recordsPerBuf, wanted, picked, added, before, marked, nowMarked);
    DeliverMore(before, marked, added, Blocks(added));
  }

  method TakePass(stale: seq<Density>, cands: seq<Density>, recordsPerBuf: nat, wanted: nat,
                  before: seq<Density>, marked: set<nat>, ghost numBlocks: nat)
    returns (after: seq<Density>, temp: seq<Density>, nowMarked: set<nat>)
    requires Usable(stale) && Usable(cands) && Increasing(cands)
    requires InRange(stale, numBlocks) && InRange(cands, numBlocks) && Below(marked, numBlocks)
    ensures PassTaken(stale, cands, recordsPerBuf, wanted, before, marked, after, temp, nowMarked, stale == [] && cands == [])
    ensures Usable(temp) && InRange(temp, numBlocks) && Below(nowMarked, numBlocks)
    ensures stale == [] && before == [] ==>
              && DistinctBlocks(after) && Blocks(after) <= nowMarked
              && Selects(after, cands) && Densest(after, cands) && FewestBlocks(after, cands, recordsPerBuf, wanted)
  {
    MergedIsUsable(stale, cands, numBlocks);
    temp := SortByDensity(stale + cands);
    SortedIsUsable(stale + cands, temp, numBlocks);
    var n := CountTaken(temp, recordsPerBuf, wanted);
    after := SortById(before + temp[..n]);
    nowMarked := marked + Blocks(temp[..n]);
    PassIs(stale, cands, recordsPerBuf, wanted, before, marked, after, temp, n, nowMarked);
    PrefixBelow(temp, n, marked, nowMarked, numBlocks);
    FirstPassIs(stale, cands, recordsPerBuf, wanted, before, after, temp, n, nowMarked);
  }

  lemma PrefixBelow(temp: seq<Density>, n: nat, marked: set<nat>, nowMarked: set<nat>, numBlocks: nat)
    requires n <= |temp| && InRange(temp, numBlocks) && Below(marked, numBlocks) && nowMarked == marked + Blocks(temp[..n])
    ensures Below(nowMarked, numBlocks)
  {
  }

  lemma MergedIsUsable(stale: seq<Density>, cands: seq<Density>, numBlocks: nat)
    requires Usable(stale) && Usable(cands) && InRange(stale, numBlocks) && InRange(cands, numBlocks)
    ensures Usable(stale + cands) && InRange(stale + cands, numBlocks)
  {
  }

  lemma SortedIsUsable(s: seq<Density>, t: seq<Density>, numBlocks: nat)
    requires Permutes(s, t) && Usable(s) && InRange(s, numBlocks)
    ensures Usable(t) && InRange(t, numBlocks) && |s| == |t|
  {
    PermutationKeepsMembers(s, t);
    forall i | 0 <= i < |t| ensures t[i].idx < numBlocks {
      assert t[i] in s;
    }
  }

  lemma PassIs(stale: seq<Density>, cands: seq<Density>, recordsPerBuf: nat, wanted: nat,
               before: seq<Density>, marked: set<nat>, after: seq<Density>, temp: seq<Density>, n: nat,
               nowMarked: set<nat>)
    requires Permutes(stale + cands, temp) && ByDensity(temp) && GreedyCount(temp, n, recordsPerBuf, wanted) && n <= |temp|
    requires Permutes(before + temp[..n], after) && ById(after)
    requires nowMarked == marked + Blocks(temp[..n])
    ensures PassTaken(stale, cands, recordsPerBuf, wanted, before, marked, after, temp, nowMarked, stale == [] && cands == [])
  {
  }

  lemma FirstPassIs(stale: seq<Density>, cands: seq<Density>, recordsPerBuf: nat, wanted: nat,
                    before: seq<Density>, after: seq<Density>, temp: seq<Density>, n: nat, nowMarked: set<nat>)
    requires Usable(cands) && Increasing(cands)
    requires Permutes(stale + cands, temp) && ByDensity(temp) && GreedyCount(temp, n, recordsPerBuf, wanted) && n <= |temp|
    requires Permutes(before + temp[..n], after) && Blocks(temp[..n]) <= nowMarked
    ensures stale == [] && before == [] ==>
              && DistinctBlocks(after) && Blocks(after) <= nowMarked
              && Selects(after, cands) && Densest(after, cands) && FewestBlocks(after, cands, recordsPerBuf, wanted)
  {
    if stale == [] && before == [] {
      assert stale + cands == cands && before + temp[..n] == temp[..n];
      SortedPrefix(cands, recordsPerBuf, wanted, temp, n);
      SameChoice(temp[..n], after, cands, recordsPerBuf, wanted);
    }
  }

  lemma SortedPrefix(cands: seq<Density>, recordsPerBuf: nat, wanted: nat, temp: seq<Density>, n: nat)
    requires Usable(cands) && Increasing(cands) && Permutes(cands, temp) && ByDensity(temp)
    requires GreedyCount(temp, n, recordsPerBuf, wanted) && n <= |temp|
    ensures Selects(temp[..n], cands) && Densest(temp[..n], cands) && FewestBlocks(temp[..n], cands, recordsPerBuf, wanted)
  {
    PermutationKeepsMembers(cands, temp);
    PermutationKeepsDistinct(cands, temp);
    PrefixIsDensest(cands, temp, n);
    PrefixIsGreedy(cands, temp, n, recordsPerBuf, wanted);
  }

  /** The order of a choice does not matter. */
  lemma SameChoice(s: seq<Density>, t: seq<Density>, cands: seq<Density>, recordsPerBuf: nat, wanted: nat)
    requires Permutes(s, t) && Selects(s, cands) && Densest(s, cands) && FewestBlocks(s, cands, recordsPerBuf, wanted)
    ensures DistinctBlocks(t) && Blocks(t) == Blocks(s)
    ensures Selects(t, cands) && Densest(t, cands) && FewestBlocks(t, cands, recordsPerBuf, wanted)
  {
    PermutationKeepsMembers(s, t);
    PermutationKeepsDistinct(s, t);
    forall i | 0 <= i < |t| ensures t[i] in cands {
      assert t[i] in s;
      var k :| 0 <= k < |s| && s[k] == t[i];
    }
  }

  lemma WindowDelivers(window: seq<Density>, before: seq<Density>, marked: set<nat>, numBlocks: nat)
    requires Increasing(window)
    requires forall i :: 0 <= i < |window| ==> window[i].idx < numBlocks && window[i].idx !in marked
    ensures DistinctBlocks(before) && Blocks(before) <= marked ==>
              DistinctBlocks(before + NonZero(window)) && Blocks(before + NonZero(window)) <= marked + Blocks(window)
    ensures Below(Blocks(window), numBlocks)
  {
    NonZeroKeeps(window);
    DeliverMore(before, marked, NonZero(window), Blocks(window));
  }

  lemma PickIsNew(cands: seq<Density>, picked: seq<nat>, sampled: set<nat>, numBlocks: nat)
    requires Increasing(cands)
    requires forall i :: 0 <= i < |cands| ==> cands[i].idx < numBlocks && cands[i].idx !in sampled
    requires forall k :: 0 <= k < |picked| ==> picked[k] < |cands|
    requires forall j, k :: 0 <= j < k < |picked| ==> picked[j] < picked[k]
    ensures Increasing(Pick(cands, picked)) && DistinctBlocks(Pick(cands, picked))
    ensures Blocks(Pick(cands, picked)) !! sampled
    ensures Below(Blocks(Pick(cands, picked)), numBlocks)
  {
  }

  lemma LastIsSame(s: seq<Density>, t: seq<Density>)
    requires s != [] && t != [] && Increasing(s) && ById(t) && s[|s| - 1] in t && t[|t| - 1] in s
    ensures s[|s| - 1] == t[|t| - 1]
  {
  }

  lemma DropSame(s: seq<Density>, t: seq<Density>)
    requires s != [] && t != [] && multiset(s) == multiset(t) && s[|s| - 1] == t[|t| - 1]
    ensures multiset(s[..|s| - 1]) == multiset(t[..|t| - 1])
  {
    var d := s[|s| - 1];
    assert s == s[..|s| - 1] + [d] && t == t[..|t| - 1] + [d];
    assert multiset(s) == multiset(s[..|s| - 1]) + multiset{d};
    assert multiset(t) == multiset(t[..|t| - 1]) + multiset{d};
    assert multiset(s[..|s| - 1]) == multiset(s) - multiset{d};
    assert multiset(t[..|t| - 1]) == multiset(t) - multiset{d};
  }

  /** Sorting a list whose ids already increase changes nothing. */
  lemma {:induction false} SortedAlready(s: seq<Density>, t: seq<Density>)
    requires Permutes(s, t) && Increasing(s) && ById(t)
    ensures s == t
  {
    PermutationKeepsMembers(s, t);
    if s != [] {
      LastIsSame(s, t);
      DropSame(s, t);
      SortedAlready(s[..|s| - 1], t[..|t| - 1]);
    }
  }

  lemma DeliverMore(ordered: seq<Density>, sampled: set<nat>, added: seq<Density>, marked: set<nat>)
    requires DistinctBlocks(added) && Blocks(added) <= marked && marked !! sampled
    ensures DistinctBlocks(ordered) && Blocks(ordered) <= sampled ==>
              DistinctBlocks(ordered + added) && Blocks(ordered + added) <= sampled + marked
  {
    if DistinctBlocks(ordered) && Blocks(ordered) <= sampled {
      DistinctSum(ordered, added);
      BlocksOfSum(ordered, added);
    }
  }
}
