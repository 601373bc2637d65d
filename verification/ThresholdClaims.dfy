/** What a first batch of the threshold algorithm is worth, and when it falls short. */
module ThresholdClaims {
  import opened Densities
  import opened ThresholdScan

  /** The design's promise: a block goes out only when no block still to come is denser. */
  ghost predicate Sound(maps: seq<BaseMap>, numBlocks: nat, isAnd: bool, emitted: seq<Density>) {
    forall k, b: nat :: 0 <= k < |emitted| && b < numBlocks && !Holds(emitted[..k], b) ==>
                          Combined(maps, isAnd, emitted[k].idx) >= Combined(maps, isAnd, b)
  }

  lemma AndBatchIsSound(maps: seq<BaseMap>, numBlocks: nat, recordsPerBuf: nat, wanted: nat, batch: Batch)
    requires ValidMaps(maps, numBlocks)
    requires IsBatch(maps, numBlocks, true, recordsPerBuf, wanted, batch)
    ensures Sound(maps, numBlocks, true, batch.emitted)
  {
    forall k, b: nat | 0 <= k < |batch.emitted| && b < numBlocks && !Holds(batch.emitted[..k], b)
      ensures Combined(maps, true, batch.emitted[k].idx) >= Combined(maps, true, b)
    {
      AggregateBias(maps, numBlocks, true, batch.emitted[k].idx);
    }
  }

  /** An OR batch is sound only up to the one that its aggregate starts from. */
  lemma OrBatchIsOffByOne(maps: seq<BaseMap>, numBlocks: nat, recordsPerBuf: nat, wanted: nat, batch: Batch)
    requires ValidMaps(maps, numBlocks)
    requires IsBatch(maps, numBlocks, false, recordsPerBuf, wanted, batch)
    ensures forall k, b: nat :: 0 <= k < |batch.emitted| && b < numBlocks && !Holds(batch.emitted[..k], b) ==>
              Combined(maps, false, batch.emitted[k].idx) + 1.0 >= Combined(maps, false, b)
  {
    forall k, b: nat | 0 <= k < |batch.emitted| && b < numBlocks && !Holds(batch.emitted[..k], b)
      ensures Combined(maps, false, batch.emitted[k].idx) + 1.0 >= Combined(maps, false, b)
    {
      AggregateBias(maps, numBlocks, false, batch.emitted[k].idx);
    }
  }

  // ---------- OR batches are sound for one operand only ----------

  ghost predicate OrAlwaysSound(operands: nat) {
    forall maps, numBlocks, recordsPerBuf, wanted, batch ::
      |maps| == operands && ValidMaps(maps, numBlocks)
      && IsBatch(maps, numBlocks, false, recordsPerBuf, wanted, batch) ==>
        Sound(maps, numBlocks, false, batch.emitted)
  }

  lemma SingleListReveals(maps: seq<BaseMap>, numBlocks: nat, p: nat, i: nat)
    requires ValidMaps(maps, numBlocks) && |maps| == 1 && p < |maps[0].order|
    ensures maps[0].order[p] in Revealed(maps, numBlocks, i) <==> p < i
  {
    var b := maps[0].order[p];
    assert maps[0].Valid(numBlocks);
    if p < i {
      assert Seen(maps, i, b);
    }
  }

  lemma SingleListValues(maps: seq<BaseMap>, numBlocks: nat, p: nat)
    requires ValidMaps(maps, numBlocks) && |maps| == 1 && p < |maps[0].order|
    ensures Combined(maps, false, maps[0].order[p]) == maps[0].IndexGet(maps[0].order[p])
    ensures HasNew(maps, numBlocks, p)
    ensures Aggregate(maps, false, maps[0].order[p]) >= Threshold(maps, false, p)
  {
    var f := maps[0].IndexGet(maps[0].order[p]);
    SingleListReveals(maps, numBlocks, p, p);
    SingleListReveals(maps, numBlocks, p, p + 1);
    assert BlockFreqs(maps, maps[0].order[p]) == [f];
    assert DepthFreqs(maps, p) == [f];
    FoldOfOne(0.0, f);
    FoldOfOne(1.0, f);
  }

  lemma FoldOfOne(start: real, f: real)
    ensures Fold(false, start, [f]) == start + f
  {
    assert [f][..0] == [];
  }

  lemma PromptlyOut(maps: seq<BaseMap>, numBlocks: nat, recordsPerBuf: nat, wanted: nat, batch: Batch,
                    k: nat, q: nat, b: nat) returns (m: nat)
    requires IsBatch(maps, numBlocks, false, recordsPerBuf, wanted, batch)
    requires k < |batch.emitted| && q < batch.depthOf[k] && HasNew(maps, numBlocks, q)
    requires b in Revealed(maps, numBlocks, q + 1) && Aggregate(maps, false, b) >= Threshold(maps, false, q)
    ensures m < k && batch.emitted[m].idx == b
  {
    m := ShownByPrompt(maps, numBlocks, batch.emitted, batch.depthOf, q, b);
    DepthsGrow(maps, numBlocks, batch, k, m);
  }

  lemma ShownByPrompt(maps: seq<BaseMap>, numBlocks: nat, emitted: seq<Density>, depthOf: seq<nat>, q: nat, b: nat)
    returns (m: nat)
    requires |depthOf| == |emitted| && Prompt(maps, numBlocks, false, emitted, depthOf, q) && HasNew(maps, numBlocks, q)
    requires b in Revealed(maps, numBlocks, q + 1) && Aggregate(maps, false, b) >= Threshold(maps, false, q)
    ensures m < |emitted| && emitted[m].idx == b && depthOf[m] <= q
  {
    m :| 0 <= m < |emitted| && emitted[m].idx == b && depthOf[m] <= q;
  }

  lemma DepthsGrow(maps: seq<BaseMap>, numBlocks: nat, batch: Batch, k: nat, m: nat)
    requires Justified(maps, numBlocks, false, batch.emitted, batch.depthOf, batch.depth)
    requires k < |batch.emitted| && m < |batch.emitted| && batch.depthOf[m] < batch.depthOf[k]
    ensures m < k
  {
  }

  // With one list, blocks go out in list order: whatever ranks before an emitted block is out.
  lemma RankedBeforeIsOut(maps: seq<BaseMap>, numBlocks: nat, recordsPerBuf: nat, wanted: nat, batch: Batch,
                          k: nat, p: nat, q: nat)
    requires ValidMaps(maps, numBlocks) && |maps| == 1
    requires IsBatch(maps, numBlocks, false, recordsPerBuf, wanted, batch)
    requires k < |batch.emitted| && q < p < |maps[0].order| && maps[0].order[p] == batch.emitted[k].idx
    ensures Holds(batch.emitted[..k], maps[0].order[q])
  {
    SingleListReveals(maps, numBlocks, p, batch.depthOf[k] + 1);
    SingleListReveals(maps, numBlocks, q, q + 1);
    SingleListValues(maps, numBlocks, q);
    assert maps[0].Valid(numBlocks);
    var m := PromptlyOut(maps, numBlocks, recordsPerBuf, wanted, batch, k, q, maps[0].order[q]);
    assert batch.emitted[..k][m].idx == maps[0].order[q];
  }

  lemma EmittedRank(maps: seq<BaseMap>, numBlocks: nat, recordsPerBuf: nat, wanted: nat, batch: Batch, k: nat)
    returns (p: nat)
    requires |maps| == 1 && k < |batch.emitted|
    requires IsBatch(maps, numBlocks, false, recordsPerBuf, wanted, batch)
    ensures p < |maps[0].order| && maps[0].order[p] == batch.emitted[k].idx
  {
    var d := batch.emitted[k].idx;
    assert d in Revealed(maps, numBlocks, batch.depthOf[k] + 1);
    var j, r :| 0 <= j < |maps| && 0 <= r < batch.depthOf[k] + 1 && r < |maps[j].order| && maps[j].order[r] == d;
    p := r;
  }

  lemma LaterIsSparser(maps: seq<BaseMap>, numBlocks: nat, p: nat, b: nat)
    requires ValidMaps(maps, numBlocks) && |maps| == 1 && p < |maps[0].order| && b < numBlocks
    requires forall q :: 0 <= q < p ==> maps[0].order[q] != b
    ensures Combined(maps, false, maps[0].order[p]) >= Combined(maps, false, b)
  {
    var f := maps[0].IndexGet(b);
    assert maps[0].Valid(numBlocks);
    SingleListValues(maps, numBlocks, p);
    assert BlockFreqs(maps, b) == [f];
    FoldOfOne(0.0, f);
    if b in maps[0].order {
      var q :| 0 <= q < |maps[0].order| && maps[0].order[q] == b;
      assert p <= q;
    }
  }

  lemma OneOperandIsSound(maps: seq<BaseMap>, numBlocks: nat, recordsPerBuf: nat, wanted: nat, batch: Batch)
    requires ValidMaps(maps, numBlocks) && |maps| == 1
    requires IsBatch(maps, numBlocks, false, recordsPerBuf, wanted, batch)
    ensures Sound(maps, numBlocks, false, batch.emitted)
  {
    forall k, b: nat | 0 <= k < |batch.emitted| && b < numBlocks && !Holds(batch.emitted[..k], b)
      ensures Combined(maps, false, batch.emitted[k].idx) >= Combined(maps, false, b)
    {
      var p := EmittedRank(maps, numBlocks, recordsPerBuf, wanted, batch, k);
      forall q | 0 <= q < p ensures maps[0].order[q] != b {
        RankedBeforeIsOut(maps, numBlocks, recordsPerBuf, wanted, batch, k, p, q);
      }
      LaterIsSparser(maps, numBlocks, p, b);
    }
  }

  /** With one operand, blocks go out exactly in list order. */
  lemma {:induction false} OneOperandInListOrder(maps: seq<BaseMap>, numBlocks: nat, recordsPerBuf: nat, wanted: nat, batch: Batch, k: nat)
    requires ValidMaps(maps, numBlocks) && |maps| == 1 && k < |batch.emitted|
    requires IsBatch(maps, numBlocks, false, recordsPerBuf, wanted, batch)
    ensures |maps[0].order| > k && forall l :: 0 <= l <= k ==> batch.emitted[l].idx == maps[0].order[l]
  {
    if k > 0 {
      OneOperandInListOrder(maps, numBlocks, recordsPerBuf, wanted, batch, k - 1);
    }
    var p := EmittedRank(maps, numBlocks, recordsPerBuf, wanted, batch, k);
    NotOutBefore(maps, numBlocks, batch, k, p);
    NoGapBefore(maps, numBlocks, recordsPerBuf, wanted, batch, k, p);
  }

  lemma NoGapBefore(maps: seq<BaseMap>, numBlocks: nat, recordsPerBuf: nat, wanted: nat, batch: Batch, k: nat, p: nat)
    requires ValidMaps(maps, numBlocks) && |maps| == 1
    requires IsBatch(maps, numBlocks, false, recordsPerBuf, wanted, batch) && k < |batch.emitted|
    requires k <= p < |maps[0].order| && maps[0].order[p] == batch.emitted[k].idx
    requires forall l :: 0 <= l < k ==> batch.emitted[l].idx == maps[0].order[l]
    ensures p == k
  {
    NotAmongFirst(maps, numBlocks, batch.emitted, k);
    if p > k {
      RankedBeforeIsOut(maps, numBlocks, recordsPerBuf, wanted, batch, k, p, k);
    }
  }

  lemma NotOutBefore(maps: seq<BaseMap>, numBlocks: nat, batch: Batch, k: nat, p: nat)
    requires |maps| == 1 && k < |batch.emitted| && DistinctBlocks(batch.emitted)
    requires p < |maps[0].order| && maps[0].order[p] == batch.emitted[k].idx && k <= |maps[0].order|
    requires forall l :: 0 <= l < k ==> batch.emitted[l].idx == maps[0].order[l]
    ensures p >= k
  {
  }

  lemma NotAmongFirst(maps: seq<BaseMap>, numBlocks: nat, emitted: seq<Density>, k: nat)
    requires ValidMaps(maps, numBlocks) && |maps| == 1 && k < |emitted| && k < |maps[0].order|
    requires forall l :: 0 <= l < k ==> emitted[l].idx == maps[0].order[l]
    ensures !Holds(emitted[..k], maps[0].order[k])
  {
    assert maps[0].Valid(numBlocks);
  }

  /** Two lists that each start with a block of their own and share a denser second block,
      followed by any number of empty lists. */
  function LopsidedLists(operands: nat): seq<BaseMap>
    requires operands >= 2
  {
    [BaseMap([0.6, 0.0, 0.5], [0, 2]), BaseMap([0.0, 0.6, 0.5], [1, 2])]
    + seq(operands - 2, _ => BaseMap([0.0, 0.0, 0.0], []))
  }

  lemma {:induction false} FoldOfPair(start: real, a: real, b: real, fs: seq<real>)
    requires |fs| >= 2 && fs[0] == a && fs[1] == b
    requires forall j :: 2 <= j < |fs| ==> fs[j] == 0.0
    ensures Fold(false, start, fs) == start + a + b
    decreases |fs|
  {
    if |fs| > 2 {
      FoldOfPair(start, a, b, fs[..|fs| - 1]);
    } else {
      assert fs[..1] == [a];
      FoldOfOne(start, a);
    }
  }

  lemma LopsidedIsValid(operands: nat)
    requires operands >= 2
    ensures ValidMaps(LopsidedLists(operands), 3)
  {
    var maps := LopsidedLists(operands);
    forall j | 0 <= j < |maps| ensures maps[j].Valid(3) {
      var m := maps[j];
      assert m == if j == 0 then BaseMap([0.6, 0.0, 0.5], [0, 2])
                  else if j == 1 then BaseMap([0.0, 0.6, 0.5], [1, 2]) else BaseMap([0.0, 0.0, 0.0], []);
      if j == 0 {
        assert m.order[0] == 0 && m.order[1] == 2;
      } else if j == 1 {
        assert m.order[0] == 1 && m.order[1] == 2;
      }
    }
  }

  lemma LopsidedValues(operands: nat)
    requires operands >= 2
    ensures var maps := LopsidedLists(operands);
            && Aggregate(maps, false, 0) == 1.6
            && Combined(maps, false, 0) == 0.6 && Combined(maps, false, 1) == 0.6
            && Combined(maps, false, 2) == 1.0
            && Threshold(maps, false, 0) == 1.2
  {
    var maps := LopsidedLists(operands);
    FoldOfPair(1.0, 0.6, 0.0, BlockFreqs(maps, 0));
    FoldOfPair(0.0, 0.6, 0.0, BlockFreqs(maps, 0));
    FoldOfPair(0.0, 0.0, 0.6, BlockFreqs(maps, 1));
    FoldOfPair(0.0, 0.5, 0.5, BlockFreqs(maps, 2));
    FoldOfPair(0.0, 0.6, 0.6, DepthFreqs(maps, 0));
  }

  lemma LopsidedStart(operands: nat)
    requires operands >= 2
    ensures 0 in Revealed(LopsidedLists(operands), 3, 1) && HasNew(LopsidedLists(operands), 3, 0)
  {
    var maps := LopsidedLists(operands);
    assert maps[0].order[0] == 0;
    assert Seen(maps, 1, 0);
    assert 0 !in Revealed(maps, 3, 0);
  }

  lemma ManyOperandsUnsound(operands: nat)
    requires operands >= 2
    ensures !OrAlwaysSound(operands)
  {
    var maps := LopsidedLists(operands);
    LopsidedIsValid(operands);
    LopsidedValues(operands);
    LopsidedStart(operands);
    var emitted := [Density(0, 1.6)];
    var batch := Batch(emitted, [0], 0, true);
    assert !Holds(emitted[..0], 2);
    assert !Sound(maps, 3, false, emitted) by {
      assert Combined(maps, false, emitted[0].idx) < Combined(maps, false, 2);
    }
    assert CappedEstimate(emitted, 1, 1) == Capped(1.6, 1) + CappedEstimate(emitted, 0, 1);
    assert Capped(1.6, 1) == 1;
    assert Dominates(maps, 3, false, emitted);
    assert Justified(maps, 3, false, emitted, [0], 0);
    assert IsBatch(maps, 3, false, 1, 1, batch);
  }

  lemma LopsidedStartHides(operands: nat, b: nat)
    requires operands >= 2 && b in Revealed(LopsidedLists(operands), 3, 1)
    ensures b != 2
  {
    var maps := LopsidedLists(operands);
    assert forall j :: 2 <= j < |maps| ==> maps[j].order == [];
    var j, p :| 0 <= j < |maps| && 0 <= p < 1 && p < |maps[j].order| && maps[j].order[p] == b;
  }

  lemma LopsidedBatchStarts(operands: nat, recordsPerBuf: nat, wanted: nat, batch: Batch)
    requires operands >= 2 && IsBatch(LopsidedLists(operands), 3, false, recordsPerBuf, wanted, batch)
    ensures batch.emitted != [] && batch.depthOf[0] == 0
  {
    var maps := LopsidedLists(operands);
    LopsidedValues(operands);
    LopsidedStart(operands);
    if batch.depth > 0 || !batch.reached {
      var k := ShownByPrompt(maps, 3, batch.emitted, batch.depthOf, 0, 0);
    }
  }

  /** Whatever is wanted, a scan of those lists puts out one of the sparser blocks first. */
  method LopsidedRun(operands: nat, recordsPerBuf: nat, wanted: nat)
    returns (batch: Batch, sampled: set<nat>, orderedDone: bool)
    requires operands >= 2
    ensures !Sound(LopsidedLists(operands), 3, false, batch.emitted)
  {
    LopsidedIsValid(operands);
    batch, sampled, orderedDone := FirstBatch(LopsidedLists(operands), 3, false, recordsPerBuf, wanted);
    LopsidedIsUnsound(operands, recordsPerBuf, wanted, batch);
  }

  lemma LopsidedIsUnsound(operands: nat, recordsPerBuf: nat, wanted: nat, batch: Batch)
    requires operands >= 2 && IsBatch(LopsidedLists(operands), 3, false, recordsPerBuf, wanted, batch)
    ensures !Sound(LopsidedLists(operands), 3, false, batch.emitted)
  {
    LopsidedBatchStarts(operands, recordsPerBuf, wanted, batch);
    LopsidedValues(operands);
    LopsidedStartHides(operands, batch.emitted[0].idx);
    assert !Holds(batch.emitted[..0], 2);
    assert Combined(LopsidedLists(operands), false, batch.emitted[0].idx) == 0.6;
  }

  /** Exactly when the OR aggregate is safe to rank by. */
  lemma OrSoundIffOneOperand(operands: nat)
    requires operands >= 1
    ensures OrAlwaysSound(operands) <==> operands == 1
  {
    if operands == 1 {
      forall maps, numBlocks, recordsPerBuf, wanted, batch |
        |maps| == operands && ValidMaps(maps, numBlocks)
        && IsBatch(maps, numBlocks, false, recordsPerBuf, wanted, batch)
        ensures Sound(maps, numBlocks, false, batch.emitted)
      {
        OneOperandIsSound(maps, numBlocks, recordsPerBuf, wanted, batch);
      }
    } else {
      ManyOperandsUnsound(operands);
    }
  }

  // ---------- when a batch that misses its target is complete ----------

  ghost predicate LastNew(maps: seq<BaseMap>, numBlocks: nat, depth: nat, last: nat) {
    && last <= depth && HasNew(maps, numBlocks, last)
    && forall i :: last < i <= depth ==> !HasNew(maps, numBlocks, i)
  }

  lemma {:induction false} NothingNew(maps: seq<BaseMap>, numBlocks: nat, last: nat, depth: nat)
    requires LastNew(maps, numBlocks, depth, last)
    ensures Revealed(maps, numBlocks, depth + 1) == Revealed(maps, numBlocks, last + 1)
    decreases depth
  {
    if last < depth {
      assert !HasNew(maps, numBlocks, depth);
      NothingNew(maps, numBlocks, last, depth - 1);
    }
  }

  /** The depth at which the lists are used up: the first one whose threshold is zero. */
  ghost predicate RunsOutAt(maps: seq<BaseMap>, isAnd: bool, depth: nat) {
    Threshold(maps, isAnd, depth) == 0.0 && PositiveBefore(maps, isAnd, depth)
  }

  /** The last depth at which a new block appears before the lists are used up. */
  ghost predicate LastShowing(maps: seq<BaseMap>, numBlocks: nat, isAnd: bool, last: nat) {
    exists depth :: RunsOutAt(maps, isAnd, depth) && LastNew(maps, numBlocks, depth, last)
  }

  lemma EndsWhereListsRunOut(maps: seq<BaseMap>, numBlocks: nat, isAnd: bool, recordsPerBuf: nat, wanted: nat,
                             batch: Batch, depth: nat)
    requires IsBatch(maps, numBlocks, isAnd, recordsPerBuf, wanted, batch) && !batch.reached && RunsOutAt(maps, isAnd, depth)
    ensures batch.depth == depth
  {
    assert depth < batch.depth ==> Threshold(maps, isAnd, depth) > 0.0;
    assert batch.depth < depth ==> Threshold(maps, isAnd, batch.depth) > 0.0;
  }

  /** A batch that ran to the end of the lists holds exactly the shown blocks that reached the
      threshold of the last depth at which a new block appeared. */
  lemma ExhaustedBatchIs(maps: seq<BaseMap>, numBlocks: nat, isAnd: bool, recordsPerBuf: nat, wanted: nat,
                         batch: Batch, depth: nat, last: nat, b: nat)
    requires ValidMaps(maps, numBlocks) && b < numBlocks
    requires IsBatch(maps, numBlocks, isAnd, recordsPerBuf, wanted, batch) && !batch.reached
    requires RunsOutAt(maps, isAnd, depth) && LastNew(maps, numBlocks, depth, last)
    ensures Holds(batch.emitted, b) <==>
              b in Revealed(maps, numBlocks, depth + 1) && Aggregate(maps, isAnd, b) >= Threshold(maps, isAnd, last)
  {
    EndsWhereListsRunOut(maps, numBlocks, isAnd, recordsPerBuf, wanted, batch, depth);
    NothingNew(maps, numBlocks, last, depth);
    assert Prompt(maps, numBlocks, isAnd, batch.emitted, batch.depthOf, last);
    if Holds(batch.emitted, b) {
      var k :| 0 <= k < |batch.emitted| && batch.emitted[k].idx == b;
      assert batch.depthOf[k] <= last;
      ThresholdFalls(maps, numBlocks, isAnd, batch.depthOf[k], last);
      RevealedGrows(maps, numBlocks, batch.depthOf[k] + 1, last + 1);
    }
  }

  lemma RevealedGrows(maps: seq<BaseMap>, numBlocks: nat, i: nat, k: nat)
    requires i <= k
    ensures Revealed(maps, numBlocks, i) <= Revealed(maps, numBlocks, k)
  {
    forall b | b in Revealed(maps, numBlocks, i) ensures Seen(maps, k, b) {
      var j, p :| 0 <= j < |maps| && 0 <= p < i && p < |maps[j].order| && maps[j].order[p] == b;
      assert maps[j].order[p] == b;
    }
  }

  /** Every matching block is shown before the lists are used up. */
  lemma MatchIsShown(maps: seq<BaseMap>, numBlocks: nat, isAnd: bool, depth: nat, b: nat)
    requires ValidMaps(maps, numBlocks) && b < numBlocks && RunsOutAt(maps, isAnd, depth) && Combined(maps, isAnd, b) > 0.0
    ensures b in Revealed(maps, numBlocks, depth + 1)
  {
    RevealedGrows(maps, numBlocks, depth, depth + 1);
    if b !in Revealed(maps, numBlocks, depth + 1) {
      UnseenBelowThreshold(maps, numBlocks, isAnd, depth, b);
    }
  }

  /** A block was shown at the last showing depth or before. */
  lemma {:induction false} SomeDepthShows(maps: seq<BaseMap>, numBlocks: nat, depth: nat, b: nat) returns (last: nat)
    requires b in Revealed(maps, numBlocks, depth + 1)
    ensures LastNew(maps, numBlocks, depth, last)
    decreases depth
  {
    assert Revealed(maps, numBlocks, 0) == {};
    assert depth == 0 ==> HasNew(maps, numBlocks, 0);
    if HasNew(maps, numBlocks, depth) {
      last := depth;
    } else {
      last := SomeDepthShows(maps, numBlocks, depth - 1, b);
    }
  }

  /** From the lists alone: a batch that misses its target holds every matching block exactly when
      all matching blocks reach the threshold of the last depth that shows a new block. */
  lemma CompleteIff(maps: seq<BaseMap>, numBlocks: nat, isAnd: bool, recordsPerBuf: nat, wanted: nat, batch: Batch)
    requires ValidMaps(maps, numBlocks)
    requires IsBatch(maps, numBlocks, isAnd, recordsPerBuf, wanted, batch) && !batch.reached
    ensures (forall b: nat :: b < numBlocks && Combined(maps, isAnd, b) > 0.0 ==> Holds(batch.emitted, b))
       <==> (forall b: nat, last: nat :: b < numBlocks && Combined(maps, isAnd, b) > 0.0
                                         && LastShowing(maps, numBlocks, isAnd, last) ==>
                                           Aggregate(maps, isAnd, b) >= Threshold(maps, isAnd, last))
  {
    var depth := batch.depth;
    assert RunsOutAt(maps, isAnd, depth);
    forall b: nat, last: nat | b < numBlocks && Combined(maps, isAnd, b) > 0.0 && LastShowing(maps, numBlocks, isAnd, last)
      ensures Holds(batch.emitted, b) <==> Aggregate(maps, isAnd, b) >= Threshold(maps, isAnd, last)
    {
      var d :| RunsOutAt(maps, isAnd, d) && LastNew(maps, numBlocks, d, last);
      MatchIsShown(maps, numBlocks, isAnd, d, b);
      ExhaustedBatchIs(maps, numBlocks, isAnd, recordsPerBuf, wanted, batch, d, last, b);
    }
    forall b: nat | b < numBlocks && Combined(maps, isAnd, b) > 0.0
      ensures exists last: nat :: LastShowing(maps, numBlocks, isAnd, last)
    {
      MatchIsShown(maps, numBlocks, isAnd, depth, b);
      var last := SomeDepthShows(maps, numBlocks, depth, b);
      assert LastShowing(maps, numBlocks, isAnd, last);
    }
  }

  /** Two lists that rank the same two blocks in opposite orders: both blocks match, but the
      scan ends without delivering either. */
  method CrossedLists() returns (batch: Batch, sampled: set<nat>, orderedDone: bool)
    ensures batch.emitted == [] && orderedDone
    ensures var maps := [BaseMap([0.9, 0.5], [0, 1]), BaseMap([0.5, 0.9], [1, 0])];
            Combined(maps, true, 0) == 0.45 && Combined(maps, true, 1) == 0.45
  {
    var maps := [BaseMap([0.9, 0.5], [0, 1]), BaseMap([0.5, 0.9], [1, 0])];
    CrossedAreValid(maps);
    CrossedValues(maps);
    batch, sampled, orderedDone := FirstBatch(maps, 2, true, 1, 1);
    CrossedBatchIsEmpty(maps, batch);
  }

  lemma CrossedAreValid(maps: seq<BaseMap>)
    requires maps == [BaseMap([0.9, 0.5], [0, 1]), BaseMap([0.5, 0.9], [1, 0])]
    ensures ValidMaps(maps, 2)
  {
    assert maps[0].order[0] == 0 && maps[0].order[1] == 1;
    assert maps[1].order[0] == 1 && maps[1].order[1] == 0;
    assert maps[0].Valid(2) && maps[1].Valid(2);
  }

  lemma CrossedBatchIsEmpty(maps: seq<BaseMap>, batch: Batch)
    requires maps == [BaseMap([0.9, 0.5], [0, 1]), BaseMap([0.5, 0.9], [1, 0])] && ValidMaps(maps, 2)
    requires IsBatch(maps, 2, true, 1, 1, batch)
    ensures batch.emitted == [] && !batch.reached && batch.depth > 0
  {
    CrossedValues(maps);
    AggregateBias(maps, 2, true, 0);
    AggregateBias(maps, 2, true, 1);
    if batch.emitted != [] {
      OnlyFirstDepthIsNew(maps, 2, batch.depthOf[0]);
      assert false;
    }
  }

  lemma OnlyFirstDepthIsNew(maps: seq<BaseMap>, numBlocks: nat, i: nat)
    requires HasNew(maps, numBlocks, i)
    requires forall b: nat :: b < numBlocks ==> b in Revealed(maps, numBlocks, 1)
    ensures i == 0
  {
    if i > 0 {
      RevealedGrows(maps, numBlocks, 1, i);
      RevealedGrows(maps, numBlocks, i, i + 1);
    }
  }

  lemma CrossedValues(maps: seq<BaseMap>)
    requires maps == [BaseMap([0.9, 0.5], [0, 1]), BaseMap([0.5, 0.9], [1, 0])]
    ensures Combined(maps, true, 0) == 0.45 && Combined(maps, true, 1) == 0.45
    ensures Threshold(maps, true, 0) == 0.81
    ensures Revealed(maps, 2, 1) == {0, 1}
  {
    assert BlockFreqs(maps, 0) == [0.9, 0.5] && BlockFreqs(maps, 1) == [0.5, 0.9];
    assert DepthFreqs(maps, 0) == [0.9, 0.9];
    ProductOfPair(0.9, 0.5);
    ProductOfPair(0.5, 0.9);
    ProductOfPair(0.9, 0.9);
    assert maps[0].order[0] == 0 && maps[1].order[0] == 1;
    assert Seen(maps, 1, 0) && Seen(maps, 1, 1);
  }

  lemma ProductOfPair(a: real, b: real)
    ensures Fold(true, 1.0, [a, b]) == a * b
  {
    assert [a, b][..1] == [a] && [a][..0] == [];
    assert Fold(true, 1.0, [a]) == Fold(true, 1.0, []) * a == a;
  }
}
