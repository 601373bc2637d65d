/** The threshold algorithm over sorted density lists: the first batch of a combined map. */
module ThresholdScan {
  import opened Densities
  import E = SquaredError

  /** A finished base map: the density of every block, and its blocks in descending order. */
  datatype BaseMap = BaseMap(freq: seq<real>, order: seq<nat>) {

    ghost predicate Valid(numBlocks: nat) {
      && |freq| == numBlocks
      && (forall b :: 0 <= b < numBlocks ==> freq[b] >= 0.0)
      && (forall p :: 0 <= p < |order| ==> order[p] < numBlocks)
      && (forall p, q :: 0 <= p < q < |order| ==> order[p] != order[q] && freq[order[p]] >= freq[order[q]])
      && (forall b :: 0 <= b < numBlocks && b !in order ==> freq[b] == 0.0)
    }

    /** Random access by block. */
    function IndexGet(b: nat): real {
      if b < |freq| then freq[b] else 0.0
    }

    /** Sorted access by rank; past the end there is no block and no density. */
    function OrderedGet(i: nat): Density {
      if i < |order| then Density(order[i], IndexGet(order[i])) else Density(NPOS, 0.0)
    }
  }

  ghost predicate ValidMaps(maps: seq<BaseMap>, numBlocks: nat) {
    && |maps| > 0 && numBlocks < NPOS
    && forall j {:trigger maps[j].Valid(numBlocks)} :: 0 <= j < |maps| ==> maps[j].Valid(numBlocks)
  }

  // ---------- aggregation ----------

  function Fold(isAnd: bool, start: real, fs: seq<real>): real {
    if fs == [] then start
    else
      var rest := Fold(isAnd, start, fs[..|fs| - 1]);
      if isAnd then rest * fs[|fs| - 1] else rest + fs[|fs| - 1]
  }

  function BlockFreqs(maps: seq<BaseMap>, b: nat): seq<real> {
    seq(|maps|, j requires 0 <= j < |maps| => maps[j].IndexGet(b))
  }

  function DepthFreqs(maps: seq<BaseMap>, i: nat): seq<real> {
    seq(|maps|, j requires 0 <= j < |maps| => maps[j].OrderedGet(i).freq)
  }

  /** The aggregate density of a block: the product for AND, the sum for OR. */
  function Combined(maps: seq<BaseMap>, isAnd: bool, b: nat): real {
    Fold(isAnd, if isAnd then 1.0 else 0.0, BlockFreqs(maps, b))
  }

  /** What the scan computes for a block it meets: it starts from one for OR as well. */
  function Aggregate(maps: seq<BaseMap>, isAnd: bool, b: nat): real {
    Fold(isAnd, 1.0, BlockFreqs(maps, b))
  }

  /** The aggregate of the densities at one depth of the lists. */
  function Threshold(maps: seq<BaseMap>, isAnd: bool, i: nat): real {
    Fold(isAnd, if isAnd then 1.0 else 0.0, DepthFreqs(maps, i))
  }

  lemma {:induction false} FoldMonotone(isAnd: bool, start: real, fs: seq<real>, gs: seq<real>)
    requires start >= 0.0 && |fs| == |gs|
    requires forall j :: 0 <= j < |fs| ==> 0.0 <= fs[j] <= gs[j]
    ensures 0.0 <= Fold(isAnd, start, fs) <= Fold(isAnd, start, gs)
  {
    if fs != [] {
      var n := |fs| - 1;
      FoldMonotone(isAnd, start, fs[..n], gs[..n]);
      if isAnd {
        ProductMonotone(Fold(isAnd, start, fs[..n]), Fold(isAnd, start, gs[..n]), fs[n], gs[n]);
      }
    }
  }

  lemma ProductMonotone(a: real, b: real, c: real, d: real)
    requires 0.0 <= a <= b && 0.0 <= c <= d
    ensures 0.0 <= a * c <= b * d
  {
    assert b * d - a * c == (b - a) * d + a * (d - c);
  }

  lemma {:induction false} FoldShift(start: real, shift: real, fs: seq<real>)
    ensures Fold(false, start + shift, fs) == Fold(false, start, fs) + shift
  {
    if fs != [] {
      FoldShift(start, shift, fs[..|fs| - 1]);
    }
  }

  lemma {:induction false} FoldOfZeros(isAnd: bool, start: real, fs: seq<real>)
    requires fs != [] || start == 0.0
    requires forall j :: 0 <= j < |fs| ==> fs[j] == 0.0
    requires !isAnd ==> start == 0.0
    ensures Fold(isAnd, start, fs) == 0.0
  {
    if fs != [] && !isAnd {
      FoldOfZeros(isAnd, start, fs[..|fs| - 1]);
    }
  }

  /** For AND the scan's aggregate is the density; for OR it is one too large. */
  lemma AggregateBias(maps: seq<BaseMap>, numBlocks: nat, isAnd: bool, b: nat)
    requires ValidMaps(maps, numBlocks) && b < numBlocks
    ensures Aggregate(maps, isAnd, b) == Combined(maps, isAnd, b) + if isAnd then 0.0 else 1.0
    ensures Combined(maps, isAnd, b) >= 0.0
  {
    if !isAnd {
      FoldShift(0.0, 1.0, BlockFreqs(maps, b));
    }
    forall j | 0 <= j < |maps| ensures maps[j].IndexGet(b) >= 0.0 {
      assert maps[j].Valid(numBlocks);
    }
    FoldMonotone(isAnd, if isAnd then 1.0 else 0.0, BlockFreqs(maps, b), BlockFreqs(maps, b));
  }

  // ---------- what aggregates mean ----------

  ghost function Product(fs: seq<real>): real {
    if fs == [] then 1.0 else Product(fs[..|fs| - 1]) * fs[|fs| - 1]
  }

  /** What the operands say about a block. */
  ghost function DensitiesOf(maps: seq<BaseMap>, b: nat): (fs: seq<real>)
    requires forall j :: 0 <= j < |maps| ==> b < |maps[j].freq|
    ensures |fs| == |maps| && forall j :: 0 <= j < |maps| ==> fs[j] == maps[j].freq[b]
  {
    seq(|maps|, j requires 0 <= j < |maps| => maps[j].freq[b])
  }

  /** The densities of the blocks at one rank of the lists, zero where a list has ended. */
  ghost function DensitiesAt(maps: seq<BaseMap>, numBlocks: nat, i: nat): (fs: seq<real>)
    requires ValidMaps(maps, numBlocks)
    ensures |fs| == |maps|
    ensures forall j :: 0 <= j < |maps| ==>
              && maps[j].Valid(numBlocks)
              && fs[j] == if i < |maps[j].order| then maps[j].freq[maps[j].order[i]] else 0.0
  {
    assert forall j :: 0 <= j < |maps| ==> maps[j].Valid(numBlocks);
    seq(|maps|, j requires 0 <= j < |maps| => if i < |maps[j].order| then maps[j].freq[maps[j].order[i]] else 0.0)
  }

  lemma {:induction false} FoldIs(isAnd: bool, start: real, fs: seq<real>)
    ensures Fold(isAnd, start, fs) == if isAnd then start * Product(fs) else start + E.Sum(fs)
  {
    if fs != [] {
      var n := |fs| - 1;
      FoldIs(isAnd, start, fs[..n]);
      Associate(start, Product(fs[..n]), fs[n]);
    }
  }

  lemma Associate(a: real, b: real, c: real)
    ensures a * b * c == a * (b * c)
  {
  }

  /** A product of densities is positive exactly when all are, a sum exactly when one is. */
  lemma {:induction false} PositiveIff(fs: seq<real>)
    requires forall j :: 0 <= j < |fs| ==> fs[j] >= 0.0
    ensures Product(fs) >= 0.0 && E.Sum(fs) >= 0.0
    ensures Product(fs) > 0.0 <==> forall j :: 0 <= j < |fs| ==> fs[j] > 0.0
    ensures E.Sum(fs) > 0.0 <==> exists j :: 0 <= j < |fs| && fs[j] > 0.0
  {
    if fs != [] {
      var n := |fs| - 1;
      PositiveIff(fs[..n]);
      ProductSign(Product(fs[..n]), fs[n]);
    }
  }

  lemma ProductSign(a: real, b: real)
    requires a >= 0.0 && b >= 0.0
    ensures a * b >= 0.0 && (a * b > 0.0 <==> a > 0.0 && b > 0.0)
  {
    if a > 0.0 && b > 0.0 {
      assert a * b > 0.0;
    } else {
      assert a * b == 0.0;
    }
  }

  lemma CombinedIs(maps: seq<BaseMap>, numBlocks: nat, isAnd: bool, b: nat)
    requires ValidMaps(maps, numBlocks) && b < numBlocks
    ensures forall j :: 0 <= j < |maps| ==> b < |maps[j].freq|
    ensures Combined(maps, isAnd, b) == if isAnd then Product(DensitiesOf(maps, b)) else E.Sum(DensitiesOf(maps, b))
    ensures Aggregate(maps, isAnd, b) == if isAnd then Product(DensitiesOf(maps, b)) else 1.0 + E.Sum(DensitiesOf(maps, b))
  {
    forall j | 0 <= j < |maps| ensures b < |maps[j].freq| && BlockFreqs(maps, b)[j] == maps[j].freq[b] {
      assert maps[j].Valid(numBlocks);
    }
    assert BlockFreqs(maps, b) == DensitiesOf(maps, b);
    FoldIs(isAnd, if isAnd then 1.0 else 0.0, BlockFreqs(maps, b));
    FoldIs(isAnd, 1.0, BlockFreqs(maps, b));
  }

  lemma ThresholdIs(maps: seq<BaseMap>, numBlocks: nat, isAnd: bool, i: nat)
    requires ValidMaps(maps, numBlocks)
    ensures Threshold(maps, isAnd, i)
         == if isAnd then Product(DensitiesAt(maps, numBlocks, i)) else E.Sum(DensitiesAt(maps, numBlocks, i))
  {
    var fs := DensitiesAt(maps, numBlocks, i);
    forall j | 0 <= j < |maps| ensures DepthFreqs(maps, i)[j] == fs[j] {
      assert maps[j].Valid(numBlocks);
    }
    assert DepthFreqs(maps, i) == fs;
    FoldIs(isAnd, if isAnd then 1.0 else 0.0, fs);
  }

  /** In terms of the base maps: the aggregates of a block and of one rank of the lists. The scan's
      aggregate of an OR is one too large. */
  lemma AggregatesAre(maps: seq<BaseMap>, numBlocks: nat, isAnd: bool, b: nat, i: nat)
    requires ValidMaps(maps, numBlocks) && b < numBlocks
    ensures forall j :: 0 <= j < |maps| ==> b < |maps[j].freq|
    ensures Combined(maps, isAnd, b) == if isAnd then Product(DensitiesOf(maps, b)) else E.Sum(DensitiesOf(maps, b))
    ensures Aggregate(maps, isAnd, b) == if isAnd then Product(DensitiesOf(maps, b)) else 1.0 + E.Sum(DensitiesOf(maps, b))
    ensures Threshold(maps, isAnd, i)
         == if isAnd then Product(DensitiesAt(maps, numBlocks, i)) else E.Sum(DensitiesAt(maps, numBlocks, i))
  {
    CombinedIs(maps, numBlocks, isAnd, b);
    ThresholdIs(maps, numBlocks, isAnd, i);
  }

  // ---------- what a prefix of the lists reveals ----------

  /** Block `b` stands in some list before position `i`. */
  ghost predicate Seen(maps: seq<BaseMap>, i: nat, b: nat) {
    exists j, p :: 0 <= j < |maps| && 0 <= p < i && p < |maps[j].order| && maps[j].order[p] == b
  }

  /** The blocks that stand in some list before position `i`. */
  ghost function Revealed(maps: seq<BaseMap>, numBlocks: nat, i: nat): set<nat> {
    set b: nat | b < numBlocks && Seen(maps, i, b)
  }

  /** Some block appears for the first time at depth `i`. */
  ghost predicate HasNew(maps: seq<BaseMap>, numBlocks: nat, i: nat) {
    Revealed(maps, numBlocks, i) != Revealed(maps, numBlocks, i + 1)
  }

  /** A block that no list prefix has shown yet cannot beat the threshold. */
  lemma UnseenBelowThreshold(maps: seq<BaseMap>, numBlocks: nat, isAnd: bool, i: nat, b: nat)
    requires ValidMaps(maps, numBlocks) && b < numBlocks && b !in Revealed(maps, numBlocks, i)
    ensures Combined(maps, isAnd, b) <= Threshold(maps, isAnd, i)
  {
    forall j | 0 <= j < |maps|
      ensures 0.0 <= maps[j].IndexGet(b) <= maps[j].OrderedGet(i).freq
    {
      assert maps[j].Valid(numBlocks);
      if b in maps[j].order {
        var p :| 0 <= p < |maps[j].order| && maps[j].order[p] == b;
        assert i <= p;
      }
    }
    FoldMonotone(isAnd, if isAnd then 1.0 else 0.0, BlockFreqs(maps, b), DepthFreqs(maps, i));
  }

  lemma ThresholdFalls(maps: seq<BaseMap>, numBlocks: nat, isAnd: bool, i: nat, k: nat)
    requires ValidMaps(maps, numBlocks) && i <= k
    ensures 0.0 <= Threshold(maps, isAnd, k) <= Threshold(maps, isAnd, i)
  {
    forall j | 0 <= j < |maps|
      ensures 0.0 <= maps[j].OrderedGet(k).freq <= maps[j].OrderedGet(i).freq
    {
      assert maps[j].Valid(numBlocks);
    }
    FoldMonotone(isAnd, if isAnd then 1.0 else 0.0,
                 DepthFreqs(maps, k), DepthFreqs(maps, i));
  }

  function MaxLength(maps: seq<BaseMap>): nat {
    if maps == [] then 0
    else
      var rest := MaxLength(maps[..|maps| - 1]);
      if |maps[|maps| - 1].order| > rest then |maps[|maps| - 1].order| else rest
  }

  lemma {:induction false} MaxLengthBounds(maps: seq<BaseMap>, j: nat)
    requires j < |maps|
    ensures |maps[j].order| <= MaxLength(maps)
  {
    if j < |maps| - 1 {
      MaxLengthBounds(maps[..|maps| - 1], j);
    }
  }

  /** Past the end of every list the threshold is zero, which ends the unbounded loop. */
  lemma ThresholdVanishes(maps: seq<BaseMap>, numBlocks: nat, isAnd: bool, i: nat)
    requires ValidMaps(maps, numBlocks) && i >= MaxLength(maps)
    ensures Threshold(maps, isAnd, i) == 0.0
  {
    forall j | 0 <= j < |maps|
      ensures maps[j].OrderedGet(i).freq == 0.0
    {
      assert maps[j].Valid(numBlocks);
      MaxLengthBounds(maps, j);
    }
    FoldOfZeros(isAnd, if isAnd then 1.0 else 0.0, DepthFreqs(maps, i));
  }

  // ---------- batches ----------

  /** A finished batch: blocks in emission order, the depth at which each was emitted, the
      depth at which the scan stopped, and whether the estimate reached the target. */
  datatype Batch = Batch(emitted: seq<Density>, depthOf: seq<nat>, depth: nat, reached: bool)

  ghost predicate Holds(s: seq<Density>, b: nat) {
    exists k :: 0 <= k < |s| && s[k].idx == b
  }

  /** Every emitted density is at least the aggregate density of every block still to come. */
  ghost predicate Dominates(maps: seq<BaseMap>, numBlocks: nat, isAnd: bool, emitted: seq<Density>)
  {
    forall k, b: nat :: 0 <= k < |emitted| && b < numBlocks && !Holds(emitted[..k], b) ==>
                          emitted[k].freq >= Combined(maps, isAnd, b)
  }

  /** Blocks come out at depths that show something new, once they reach the threshold there. */
  ghost predicate Justified(maps: seq<BaseMap>, numBlocks: nat, isAnd: bool, emitted: seq<Density>,
                            depthOf: seq<nat>, depth: nat)
  {
    && |depthOf| == |emitted|
    && (forall k, l :: 0 <= k < l < |emitted| ==> depthOf[k] <= depthOf[l])
    && (forall k :: 0 <= k < |emitted| ==>
          && emitted[k].idx < numBlocks
          && emitted[k].freq == Aggregate(maps, isAnd, emitted[k].idx)
          && depthOf[k] <= depth
          && HasNew(maps, numBlocks, depthOf[k])
          && emitted[k].idx in Revealed(maps, numBlocks, depthOf[k] + 1)
          && emitted[k].freq >= Threshold(maps, isAnd, depthOf[k]))
  }

  /** At a depth that shows something new, every seen block at or above the threshold is out. */
  ghost predicate Prompt(maps: seq<BaseMap>, numBlocks: nat, isAnd: bool, emitted: seq<Density>,
                         depthOf: seq<nat>, i: nat)
    requires |depthOf| == |emitted|
  {
    HasNew(maps, numBlocks, i) ==>
      forall b :: b in Revealed(maps, numBlocks, i + 1)
                       && Aggregate(maps, isAnd, b) >= Threshold(maps, isAnd, i) ==>
                         exists k :: 0 <= k < |emitted| && emitted[k].idx == b && depthOf[k] <= i
  }

  ghost predicate IsBatch(maps: seq<BaseMap>, numBlocks: nat, isAnd: bool, recordsPerBuf: nat, wanted: nat,
                          batch: Batch)
  {
    && DistinctBlocks(batch.emitted)
    && Justified(maps, numBlocks, isAnd, batch.emitted, batch.depthOf, batch.depth)
    && Dominates(maps, numBlocks, isAnd, batch.emitted)
    && (forall i :: 0 <= i < batch.depth ==>
          && Prompt(maps, numBlocks, isAnd, batch.emitted, batch.depthOf, i)
          && Threshold(maps, isAnd, i) > 0.0)
    && (if batch.reached
        then batch.emitted != [] && CappedEstimate(batch.emitted, |batch.emitted|, recordsPerBuf) >= wanted
        else && Prompt(maps, numBlocks, isAnd, batch.emitted, batch.depthOf, batch.depth)
             && Threshold(maps, isAnd, batch.depth) == 0.0)
    && (forall m :: 0 < m < |batch.emitted| ==> CappedEstimate(batch.emitted, m, recordsPerBuf) < wanted)
  }

  /** The estimate the scan keeps: a density above one counts as a full block. */
  function Capped(freq: real, recordsPerBuf: nat): nat {
    if freq <= 0.0 then 0
    else Estimate(Density(0, if freq < 1.0 then freq else 1.0), recordsPerBuf)
  }

  /** It is the truncated product with the density brought between zero and one. */
  lemma CappedIsFloor(freq: real, recordsPerBuf: nat)
    ensures freq <= 0.0 ==> Capped(freq, recordsPerBuf) == 0
    ensures freq >= 1.0 ==> Capped(freq, recordsPerBuf) == recordsPerBuf
    ensures 0.0 < freq < 1.0 ==>
              Capped(freq, recordsPerBuf) as real <= freq * recordsPerBuf as real < Capped(freq, recordsPerBuf) as real + 1.0
  {
    if freq > 0.0 {
      EstimateIsFloor(Density(0, if freq < 1.0 then freq else 1.0), recordsPerBuf);
    }
  }

  ghost function CappedEstimate(s: seq<Density>, n: nat, recordsPerBuf: nat): nat
    requires n <= |s|
  {
    if n == 0 then 0 else CappedEstimate(s, n - 1, recordsPerBuf) + Capped(s[n - 1].freq, recordsPerBuf)
  }

  // ---------- the scan ----------

  /** The scan's variables: blocks met but not emitted, the densest of them and its position,
      the batch so far, its estimate, the blocks met, and whether the target is reached. */
  datatype Scan = Scan(temp: seq<Density>, curMax: Density, maxPos: nat, emitted: seq<Density>,
                       depthOf: seq<nat>, estimated: nat, sampled: set<nat>, done: bool)

  const NOTHING := Density(NPOS, -1.0)

  ghost predicate MaxOk(s: Scan) {
    if s.temp == [] then s.curMax.freq < 0.0
    else
      && s.maxPos < |s.temp| && s.temp[s.maxPos] == s.curMax
      && forall t :: 0 <= t < |s.temp| ==> s.temp[t].freq <= s.curMax.freq
  }

  /** The blocks met are exactly those waiting and those emitted, each once. */
  ghost predicate MetOk(maps: seq<BaseMap>, numBlocks: nat, isAnd: bool, s: Scan)
  {
    && DistinctBlocks(s.temp) && DistinctBlocks(s.emitted)
    && (forall t :: 0 <= t < |s.temp| ==>
          && s.temp[t].idx < numBlocks
          && s.temp[t].freq == Aggregate(maps, isAnd, s.temp[t].idx)
          && !Holds(s.emitted, s.temp[t].idx))
    && (forall b :: b in s.sampled <==> Holds(s.temp, b) || Holds(s.emitted, b))
  }

  /** What the scan promises about the batch it has built up to depth `i`. */
  ghost predicate OutputOk(maps: seq<BaseMap>, numBlocks: nat, isAnd: bool, recordsPerBuf: nat, wanted: nat, i: nat,
                           emitted: seq<Density>, depthOf: seq<nat>, estimated: nat, done: bool)
  {
    && EstimateOk(recordsPerBuf, wanted, emitted, estimated, done)
    && Justified(maps, numBlocks, isAnd, emitted, depthOf, i)
    && Dominates(maps, numBlocks, isAnd, emitted)
    && forall k :: 0 <= k < i ==> Prompt(maps, numBlocks, isAnd, emitted, depthOf, k)
  }

  ghost predicate EstimateOk(recordsPerBuf: nat, wanted: nat, emitted: seq<Density>, estimated: nat, done: bool) {
    && estimated == CappedEstimate(emitted, |emitted|, recordsPerBuf)
    && (if done then emitted != [] && estimated >= wanted else emitted == [] || estimated < wanted)
    && forall m :: 0 < m < |emitted| ==> CappedEstimate(emitted, m, recordsPerBuf) < wanted
  }

  /** Everything before depth `i` has been met, and nothing beyond it. */
  ghost predicate DepthOk(maps: seq<BaseMap>, numBlocks: nat, i: nat, s: Scan) {
    Revealed(maps, numBlocks, i) <= s.sampled <= Revealed(maps, numBlocks, i + 1)
  }

  ghost predicate ScanOk(maps: seq<BaseMap>, numBlocks: nat, isAnd: bool, recordsPerBuf: nat, wanted: nat,
                         i: nat, s: Scan)
  {
    && MetOk(maps, numBlocks, isAnd, s)
    && (!s.done ==> MaxOk(s))
    && DepthOk(maps, numBlocks, i, s)
    && OutputOk(maps, numBlocks, isAnd, recordsPerBuf, wanted, i, s.emitted, s.depthOf, s.estimated, s.done)
  }

  lemma DominatesNext(maps: seq<BaseMap>, numBlocks: nat, isAnd: bool, i: nat, s: Scan)
    requires ValidMaps(maps, numBlocks) && MetOk(maps, numBlocks, isAnd, s) && MaxOk(s)
    requires DepthOk(maps, numBlocks, i, s) && Dominates(maps, numBlocks, isAnd, s.emitted)
    requires s.temp != [] && s.curMax.freq >= Threshold(maps, isAnd, i)
    ensures Dominates(maps, numBlocks, isAnd, s.emitted + [s.curMax])
  {
    var next := s.emitted + [s.curMax];
    forall k, b: nat | 0 <= k < |next| && b < numBlocks && !Holds(next[..k], b)
      ensures next[k].freq >= Combined(maps, isAnd, b)
    {
      if k < |s.emitted| {
        assert next[..k] == s.emitted[..k];
      } else {
        assert next[..k] == s.emitted;
        AggregateBias(maps, numBlocks, isAnd, b);
        if b !in s.sampled {
          UnseenBelowThreshold(maps, numBlocks, isAnd, i, b);
        }
      }
    }
  }

  lemma PromptStays(maps: seq<BaseMap>, numBlocks: nat, isAnd: bool, emitted: seq<Density>,
                    depthOf: seq<nat>, d: Density, at: nat, k: nat)
    requires ValidMaps(maps, numBlocks) && |depthOf| == |emitted|
    requires Prompt(maps, numBlocks, isAnd, emitted, depthOf, k)
    ensures Prompt(maps, numBlocks, isAnd, emitted + [d], depthOf + [at], k)
  {
    if HasNew(maps, numBlocks, k) {
      forall b | b in Revealed(maps, numBlocks, k + 1)
                       && Aggregate(maps, isAnd, b) >= Threshold(maps, isAnd, k)
        ensures exists m :: 0 <= m < |emitted + [d]| && (emitted + [d])[m].idx == b && (depthOf + [at])[m] <= k
      {
        var m :| 0 <= m < |emitted| && emitted[m].idx == b && depthOf[m] <= k;
        assert (emitted + [d])[m].idx == b && (depthOf + [at])[m] <= k;
      }
    }
  }

  lemma {:induction false} CappedEstimateAgrees(s: seq<Density>, d: Density, n: nat, recordsPerBuf: nat)
    requires n <= |s|
    ensures CappedEstimate(s + [d], n, recordsPerBuf) == CappedEstimate(s, n, recordsPerBuf)
  {
    if n > 0 {
      CappedEstimateAgrees(s, d, n - 1, recordsPerBuf);
    }
  }

  function RemoveAt(s: seq<Density>, k: nat): seq<Density>
    requires k < |s|
  {
    s[..k] + s[k + 1..]
  }

  /** The scan's state right after the densest waiting block has gone out. */
  function EmitMax(s: Scan, i: nat, recordsPerBuf: nat, wanted: nat): Scan
    requires s.maxPos < |s.temp|
  {
    var estimated := s.estimated + Capped(s.curMax.freq, recordsPerBuf);
    Scan(RemoveAt(s.temp, s.maxPos), NOTHING, 0, s.emitted + [s.curMax], s.depthOf + [i],
         estimated, s.sampled, estimated >= wanted)
  }

  lemma RemovalFacts(s: seq<Density>, k: nat)
    requires k < |s| && DistinctBlocks(s)
    ensures DistinctBlocks(RemoveAt(s, k)) && !Holds(RemoveAt(s, k), s[k].idx)
    ensures forall t :: 0 <= t < |RemoveAt(s, k)| ==> RemoveAt(s, k)[t] in s
    ensures forall b: nat :: Holds(s, b) <==> Holds(RemoveAt(s, k), b) || b == s[k].idx
  {
    var r := RemoveAt(s, k);
    assert forall t :: 0 <= t < |r| ==> r[t] == s[if t < k then t else t + 1];
    forall b: nat | Holds(s, b) && b != s[k].idx
      ensures Holds(r, b)
    {
      var t :| 0 <= t < |s| && s[t].idx == b;
      assert r[if t < k then t else t - 1].idx == b;
    }
  }

  lemma AppendFacts(s: seq<Density>, d: Density)
    requires DistinctBlocks(s) && !Holds(s, d.idx)
    ensures DistinctBlocks(s + [d])
    ensures forall b: nat :: Holds(s + [d], b) <==> Holds(s, b) || b == d.idx
  {
    var u := s + [d];
    assert forall k :: 0 <= k < |s| ==> u[k] == s[k];
    assert u[|s|] == d;
    forall b: nat | Holds(s, b)
      ensures Holds(u, b)
    {
      var k :| 0 <= k < |s| && s[k].idx == b;
      assert u[k].idx == b;
    }
  }

  lemma EmitKeepsMet(maps: seq<BaseMap>, numBlocks: nat, isAnd: bool, s: Scan, n: Scan)
    requires ValidMaps(maps, numBlocks) && MetOk(maps, numBlocks, isAnd, s) && s.maxPos < |s.temp|
    requires n.temp == RemoveAt(s.temp, s.maxPos) && n.emitted == s.emitted + [s.temp[s.maxPos]]
    requires n.sampled == s.sampled
    ensures MetOk(maps, numBlocks, isAnd, n)
  {
    RemovalFacts(s.temp, s.maxPos);
    AppendFacts(s.emitted, s.temp[s.maxPos]);
    forall t | 0 <= t < |n.temp|
      ensures n.temp[t].idx < numBlocks
      ensures n.temp[t].freq == Aggregate(maps, isAnd, n.temp[t].idx)
      ensures !Holds(n.emitted, n.temp[t].idx)
    {
      assert n.temp[t] in s.temp;
      assert Holds(n.temp, n.temp[t].idx);
    }
  }

  lemma EmitKeepsEstimate(recordsPerBuf: nat, wanted: nat, s: Scan, i: nat)
    requires EstimateOk(recordsPerBuf, wanted, s.emitted, s.estimated, false) && s.maxPos < |s.temp|
    ensures var n := EmitMax(s, i, recordsPerBuf, wanted);
            EstimateOk(recordsPerBuf, wanted, n.emitted, n.estimated, n.done)
  {
    forall m | 0 <= m <= |s.emitted|
      ensures CappedEstimate(s.emitted + [s.curMax], m, recordsPerBuf) == CappedEstimate(s.emitted, m, recordsPerBuf)
    {
      CappedEstimateAgrees(s.emitted, s.curMax, m, recordsPerBuf);
    }
  }

  lemma EmitKeepsJustified(maps: seq<BaseMap>, numBlocks: nat, isAnd: bool, i: nat, s: Scan)
    requires ValidMaps(maps, numBlocks) && MetOk(maps, numBlocks, isAnd, s) && MaxOk(s) && s.temp != []
    requires DepthOk(maps, numBlocks, i, s) && HasNew(maps, numBlocks, i)
    requires Justified(maps, numBlocks, isAnd, s.emitted, s.depthOf, i)
    requires s.curMax.freq >= Threshold(maps, isAnd, i)
    ensures Justified(maps, numBlocks, isAnd, s.emitted + [s.curMax], s.depthOf + [i], i)
  {
    assert Holds(s.temp, s.temp[s.maxPos].idx);
    assert s.temp[s.maxPos].idx in s.sampled;
  }

  lemma EmitKeepsScan(maps: seq<BaseMap>, numBlocks: nat, isAnd: bool, recordsPerBuf: nat, wanted: nat, i: nat,
                      s: Scan, n: Scan)
    requires ValidMaps(maps, numBlocks) && ScanOk(maps, numBlocks, isAnd, recordsPerBuf, wanted, i, s)
    requires !s.done && s.temp != [] && HasNew(maps, numBlocks, i)
    requires s.curMax.freq >= Threshold(maps, isAnd, i)
    requires var e := EmitMax(s, i, recordsPerBuf, wanted);
             n == e.(curMax := n.curMax, maxPos := n.maxPos)
    requires !n.done ==> MaxOk(n)
    ensures ScanOk(maps, numBlocks, isAnd, recordsPerBuf, wanted, i, n)
  {
    EmitKeepsMet(maps, numBlocks, isAnd, s, n);
    EmitKeepsEstimate(recordsPerBuf, wanted, s, i);
    DominatesNext(maps, numBlocks, isAnd, i, s);
    EmitKeepsJustified(maps, numBlocks, isAnd, i, s);
    forall k | 0 <= k < i
      ensures Prompt(maps, numBlocks, isAnd, n.emitted, n.depthOf, k)
    {
      PromptStays(maps, numBlocks, isAnd, s.emitted, s.depthOf, s.curMax, i, k);
    }
  }

  /** The densest waiting block, found by a linear search. */
  method FindMax(temp: seq<Density>) returns (curMax: Density, maxPos: nat)
    requires forall t :: 0 <= t < |temp| ==> temp[t].freq >= 0.0
    ensures temp == [] ==> curMax == NOTHING
    ensures temp != [] ==> maxPos < |temp| && temp[maxPos] == curMax
    ensures forall t :: 0 <= t < |temp| ==> temp[t].freq <= curMax.freq
  {
    curMax, maxPos := NOTHING, 0;
    var c := 0;
    while c < |temp|
      invariant 0 <= c <= |temp|
      invariant c == 0 ==> curMax == NOTHING
      invariant c > 0 ==> maxPos < c && temp[maxPos] == curMax
      invariant forall t :: 0 <= t < c ==> temp[t].freq <= curMax.freq
    {
      if temp[c].freq > curMax.freq {
        curMax, maxPos := temp[c], c;
      }
      c := c + 1;
    }
  }

  lemma WaitingAreUsable(maps: seq<BaseMap>, numBlocks: nat, isAnd: bool, s: Scan)
    requires ValidMaps(maps, numBlocks) && MetOk(maps, numBlocks, isAnd, s)
    ensures forall t :: 0 <= t < |s.temp| ==> s.temp[t].freq >= 0.0
  {
    forall t | 0 <= t < |s.temp| ensures s.temp[t].freq >= 0.0 {
      AggregateBias(maps, numBlocks, isAnd, s.temp[t].idx);
    }
  }

  /** Emits the densest waiting block and, unless that reached the target, finds the next. */
  method EmitOne(maps: seq<BaseMap>, numBlocks: nat, isAnd: bool, recordsPerBuf: nat, wanted: nat,
                 i: nat, s: Scan) returns (n: Scan)
    requires ValidMaps(maps, numBlocks) && ScanOk(maps, numBlocks, isAnd, recordsPerBuf, wanted, i, s)
    requires !s.done && s.temp != [] && HasNew(maps, numBlocks, i)
    requires s.curMax.freq >= Threshold(maps, isAnd, i)
    ensures ScanOk(maps, numBlocks, isAnd, recordsPerBuf, wanted, i, n)
    ensures n.sampled == s.sampled && |n.temp| < |s.temp|
  {
    n := EmitMax(s, i, recordsPerBuf, wanted);
    EmitKeepsMet(maps, numBlocks, isAnd, s, n);
    if !n.done {
      WaitingAreUsable(maps, numBlocks, isAnd, n);
      var curMax, maxPos := FindMax(n.temp);
      n := n.(curMax := curMax, maxPos := maxPos);
    }
    EmitKeepsScan(maps, numBlocks, isAnd, recordsPerBuf, wanted, i, s, n);
  }

  /** Emits while the densest waiting block reaches the threshold. */
  method EmitReady(maps: seq<BaseMap>, numBlocks: nat, isAnd: bool, recordsPerBuf: nat, wanted: nat,
                   i: nat, threshold: real, s0: Scan) returns (s: Scan)
    requires ValidMaps(maps, numBlocks) && ScanOk(maps, numBlocks, isAnd, recordsPerBuf, wanted, i, s0)
    requires HasNew(maps, numBlocks, i) && threshold == Threshold(maps, isAnd, i) && threshold >= 0.0
    ensures ScanOk(maps, numBlocks, isAnd, recordsPerBuf, wanted, i, s)
    ensures s.sampled == s0.sampled
    ensures !s.done ==> s.curMax.freq < threshold
  {
    s := s0;
    while !s.done && s.curMax.freq >= threshold
      invariant ScanOk(maps, numBlocks, isAnd, recordsPerBuf, wanted, i, s)
      invariant s.sampled == s0.sampled
      decreases |s.temp|
    {
      s := EmitOne(maps, numBlocks, isAnd, recordsPerBuf, wanted, i, s);
    }
  }

  /** Records a block met for the first time. */
  function MeetBlock(maps: seq<BaseMap>, isAnd: bool, s: Scan, b: nat): Scan
  {
    var d := Density(b, Aggregate(maps, isAnd, b));
    var met := s.(temp := s.temp + [d], sampled := s.sampled + {b});
    if d.freq > s.curMax.freq then met.(curMax := d, maxPos := |s.temp|) else met
  }

  lemma MeetKeepsMet(maps: seq<BaseMap>, numBlocks: nat, isAnd: bool, s: Scan, b: nat)
    requires ValidMaps(maps, numBlocks) && MetOk(maps, numBlocks, isAnd, s)
    requires b < numBlocks && b !in s.sampled
    ensures MetOk(maps, numBlocks, isAnd, MeetBlock(maps, isAnd, s, b))
  {
    AppendFacts(s.temp, Density(b, Aggregate(maps, isAnd, b)));
  }

  lemma MeetKeepsMax(maps: seq<BaseMap>, numBlocks: nat, isAnd: bool, s: Scan, b: nat)
    requires ValidMaps(maps, numBlocks) && MaxOk(s) && b < numBlocks
    ensures MaxOk(MeetBlock(maps, isAnd, s, b))
  {
    AggregateBias(maps, numBlocks, isAnd, b);
  }

  lemma MeetKeepsScan(maps: seq<BaseMap>, numBlocks: nat, isAnd: bool, recordsPerBuf: nat, wanted: nat, i: nat,
                      s: Scan, b: nat)
    requires ValidMaps(maps, numBlocks) && ScanOk(maps, numBlocks, isAnd, recordsPerBuf, wanted, i, s)
    requires b !in s.sampled && b in Revealed(maps, numBlocks, i + 1)
    ensures ScanOk(maps, numBlocks, isAnd, recordsPerBuf, wanted, i, MeetBlock(maps, isAnd, s, b))
  {
    MeetKeepsMet(maps, numBlocks, isAnd, s, b);
    if !s.done {
      MeetKeepsMax(maps, numBlocks, isAnd, s, b);
    }
  }

  ghost predicate Shows(m: BaseMap, i: nat, b: nat) {
    i < |m.order| && m.order[i] == b
  }

  /** One of the first `n` lists has block `b` at depth `i`. */
  ghost predicate Shown(maps: seq<BaseMap>, i: nat, b: nat, n: nat)
    requires n <= |maps|
  {
    exists j :: 0 <= j < n && Shows(maps[j], i, b)
  }

  lemma FoldStep(isAnd: bool, start: real, fs: seq<real>, j: nat)
    requires j < |fs|
    ensures Fold(isAnd, start, fs[..j + 1])
         == if isAnd then Fold(isAnd, start, fs[..j]) * fs[j] else Fold(isAnd, start, fs[..j]) + fs[j]
  {
    assert fs[..j + 1][..j] == fs[..j];
  }

  /** Reads one depth of every list: the blocks it shows that were not met before, and the
      threshold. */
  method ReadDepth(maps: seq<BaseMap>, numBlocks: nat, isAnd: bool, i: nat, sampled: set<nat>)
    returns (newSeen: set<nat>, threshold: real)
    requires ValidMaps(maps, numBlocks)
    ensures threshold == Threshold(maps, isAnd, i)
    ensures newSeen == ShownUpTo(maps, numBlocks, i, |maps|) - sampled
  {
    newSeen, threshold := {}, if isAnd then 1.0 else 0.0;
    ghost var fs := DepthFreqs(maps, i);
    ghost var shown := {};
    assert ShownUpTo(maps, numBlocks, i, 0) == {};
    var j := 0;
    while j < |maps|
      invariant 0 <= j <= |maps|
      invariant threshold == Fold(isAnd, if isAnd then 1.0 else 0.0, fs[..j])
      invariant shown == ShownUpTo(maps, numBlocks, i, j)
      invariant newSeen == shown - sampled
    {
      ListShows(maps, numBlocks, i, j);
      FoldStep(isAnd, if isAnd then 1.0 else 0.0, fs, j);
      var d := maps[j].OrderedGet(i);
      if d.idx != NPOS {
        shown := shown + {d.idx};
      }
      if d.idx != NPOS && d.idx !in sampled {
        newSeen := newSeen + {d.idx};
      }
      threshold := if isAnd then threshold * d.freq else threshold + d.freq;
      j := j + 1;
    }
    assert fs[..|maps|] == fs;
  }

  /** The blocks that one of the first `n` lists has at depth `i`. */
  ghost function ShownUpTo(maps: seq<BaseMap>, numBlocks: nat, i: nat, n: nat): set<nat>
    requires n <= |maps|
  {
    set b: nat | b < numBlocks && Shown(maps, i, b, n)
  }

  lemma ListShows(maps: seq<BaseMap>, numBlocks: nat, i: nat, j: nat)
    requires ValidMaps(maps, numBlocks) && j < |maps|
    ensures ShownUpTo(maps, numBlocks, i, j + 1)
         == ShownUpTo(maps, numBlocks, i, j) + if i < |maps[j].order| then {maps[j].order[i]} else {}
    ensures maps[j].OrderedGet(i).idx != NPOS <==> i < |maps[j].order|
  {
    assert maps[j].Valid(numBlocks);
    if i < |maps[j].order| {
      assert Shows(maps[j], i, maps[j].order[i]);
    }
  }

  lemma AllShown(maps: seq<BaseMap>, numBlocks: nat, i: nat)
    requires ValidMaps(maps, numBlocks)
    ensures Revealed(maps, numBlocks, i + 1)
         == Revealed(maps, numBlocks, i) + ShownUpTo(maps, numBlocks, i, |maps|)
  {
    forall b: nat | Shown(maps, i, b, |maps|)
      ensures Seen(maps, i + 1, b)
    {
      var j :| 0 <= j < |maps| && Shows(maps[j], i, b);
      assert 0 <= i < i + 1 && maps[j].order[i] == b;
    }
    forall b: nat | Seen(maps, i + 1, b) && !Seen(maps, i, b)
      ensures Shown(maps, i, b, |maps|)
    {
      var j, p :| 0 <= j < |maps| && 0 <= p < i + 1 && p < |maps[j].order| && maps[j].order[p] == b;
      assert Shows(maps[j], i, b);
    }
  }

  ghost predicate FirstShownAt(maps: seq<BaseMap>, numBlocks: nat, i: nat, b: nat) {
    b in Revealed(maps, numBlocks, i + 1) && b !in Revealed(maps, numBlocks, i)
  }

  /** Meets one new block and emits whatever is ready. */
  method MeetAndEmit(maps: seq<BaseMap>, numBlocks: nat, isAnd: bool, recordsPerBuf: nat, wanted: nat,
                     i: nat, threshold: real, s0: Scan, b: nat) returns (s: Scan)
    requires ValidMaps(maps, numBlocks) && ScanOk(maps, numBlocks, isAnd, recordsPerBuf, wanted, i, s0)
    requires b !in s0.sampled && FirstShownAt(maps, numBlocks, i, b)
    requires threshold == Threshold(maps, isAnd, i) && threshold >= 0.0
    ensures ScanOk(maps, numBlocks, isAnd, recordsPerBuf, wanted, i, s)
    ensures s.sampled == s0.sampled + {b}
    ensures !s.done ==> s.curMax.freq < threshold
  {
    MeetKeepsScan(maps, numBlocks, isAnd, recordsPerBuf, wanted, i, s0, b);
    s := EmitReady(maps, numBlocks, isAnd, recordsPerBuf, wanted, i, threshold, MeetBlock(maps, isAnd, s0, b));
  }

  /** Meets every new block of one depth, emitting after each. */
  method ScanDepth(maps: seq<BaseMap>, numBlocks: nat, isAnd: bool, recordsPerBuf: nat, wanted: nat,
                   i: nat, s0: Scan) returns (s: Scan, threshold: real)
    requires ValidMaps(maps, numBlocks) && ScanOk(maps, numBlocks, isAnd, recordsPerBuf, wanted, i, s0)
    requires !s0.done && s0.sampled == Revealed(maps, numBlocks, i)
    ensures ScanOk(maps, numBlocks, isAnd, recordsPerBuf, wanted, i, s)
    ensures threshold == Threshold(maps, isAnd, i)
    ensures s.sampled == Revealed(maps, numBlocks, i + 1)
    ensures !s.done ==> Prompt(maps, numBlocks, isAnd, s.emitted, s.depthOf, i)
  {
    var newSeen;
    newSeen, threshold := ReadDepth(maps, numBlocks, isAnd, i, s0.sampled);
    AllShown(maps, numBlocks, i);
    ThresholdFalls(maps, numBlocks, isAnd, i, i);
    s := MeetAll(maps, numBlocks, isAnd, recordsPerBuf, wanted, i, threshold, s0, newSeen);
    if !s.done && newSeen != {} {
      PromptNow(maps, numBlocks, isAnd, recordsPerBuf, wanted, i, s);
    }
  }

  /** The loop over the new blocks; the order in which they come up is not fixed. */
  method MeetAll(maps: seq<BaseMap>, numBlocks: nat, isAnd: bool, recordsPerBuf: nat, wanted: nat,
                 i: nat, threshold: real, s0: Scan, newSeen: set<nat>) returns (s: Scan)
    requires ValidMaps(maps, numBlocks) && ScanOk(maps, numBlocks, isAnd, recordsPerBuf, wanted, i, s0)
    requires threshold == Threshold(maps, isAnd, i) && threshold >= 0.0
    requires newSeen !! s0.sampled
    requires forall b :: b in newSeen ==> FirstShownAt(maps, numBlocks, i, b)
    ensures ScanOk(maps, numBlocks, isAnd, recordsPerBuf, wanted, i, s)
    ensures s.sampled == s0.sampled + newSeen
    ensures newSeen != {} && !s.done ==> s.curMax.freq < threshold
  {
    s := s0;
    var left := newSeen;
    while left != {}
      invariant Meeting(newSeen, left, s0.sampled, s.sampled)
      invariant ScanOk(maps, numBlocks, isAnd, recordsPerBuf, wanted, i, s)
      invariant left != newSeen && !s.done ==> s.curMax.freq < threshold
      decreases left
    {
      var b :| b in left;
      MeetingNext(newSeen, left, s0.sampled, s.sampled, b);
      s := MeetAndEmit(maps, numBlocks, isAnd, recordsPerBuf, wanted, i, threshold, s, b);
      left := left - {b};
    }
  }

  /** Of the new blocks some are left; the others have joined the ones met before. */
  ghost predicate Meeting(newSeen: set<nat>, left: set<nat>, before: set<nat>, now: set<nat>) {
    left <= newSeen && newSeen !! before && now == before + (newSeen - left)
  }

  lemma MeetingNext(newSeen: set<nat>, left: set<nat>, before: set<nat>, now: set<nat>, b: nat)
    requires Meeting(newSeen, left, before, now) && b in left
    ensures b in newSeen && b !in now && Meeting(newSeen, left - {b}, before, now + {b})
  {
    assert now + {b} == before + (newSeen - (left - {b}));
  }

  lemma PromptNow(maps: seq<BaseMap>, numBlocks: nat, isAnd: bool, recordsPerBuf: nat, wanted: nat, i: nat, s: Scan)
    requires ValidMaps(maps, numBlocks) && ScanOk(maps, numBlocks, isAnd, recordsPerBuf, wanted, i, s)
    requires !s.done && s.curMax.freq < Threshold(maps, isAnd, i)
    requires s.sampled == Revealed(maps, numBlocks, i + 1)
    ensures Prompt(maps, numBlocks, isAnd, s.emitted, s.depthOf, i)
  {
    forall b | b in Revealed(maps, numBlocks, i + 1)
               && Aggregate(maps, isAnd, b) >= Threshold(maps, isAnd, i)
      ensures exists k :: 0 <= k < |s.emitted| && s.emitted[k].idx == b && s.depthOf[k] <= i
    {
      assert b in s.sampled && !Holds(s.temp, b);
      var k :| 0 <= k < |s.emitted| && s.emitted[k].idx == b;
      assert s.depthOf[k] <= i;
    }
  }

  /** The first batch of a combined map that has not been sampled yet. */
  method FirstBatch(maps: seq<BaseMap>, numBlocks: nat, isAnd: bool, recordsPerBuf: nat, wanted: nat)
    returns (batch: Batch, sampled: set<nat>, orderedDone: bool)
    requires ValidMaps(maps, numBlocks)
    ensures IsBatch(maps, numBlocks, isAnd, recordsPerBuf, wanted, batch)
    ensures orderedDone <==> Threshold(maps, isAnd, batch.depth) == 0.0
    ensures sampled == Revealed(maps, numBlocks, batch.depth + 1)
  {
    var s := Scan([], NOTHING, 0, [], [], 0, {}, false);
    var i := 0;
    StartIsOk(maps, numBlocks, isAnd, recordsPerBuf, wanted, s);
    orderedDone := false;
    while true
      invariant ScanOk(maps, numBlocks, isAnd, recordsPerBuf, wanted, i, s)
      invariant !s.done && !orderedDone
      invariant s.sampled == Revealed(maps, numBlocks, i)
      invariant PositiveBefore(maps, isAnd, i)
      decreases MaxLength(maps) - i
    {
      var threshold;
      s, threshold := ScanDepth(maps, numBlocks, isAnd, recordsPerBuf, wanted, i, s);
      if threshold == 0.0 {
        orderedDone := true;
      }
      if s.done || orderedDone {
        batch, sampled := Batch(s.emitted, s.depthOf, i, s.done), s.sampled;
        FinishIsBatch(maps, numBlocks, isAnd, recordsPerBuf, wanted, i, s);
        return;
      }
      NextDepth(maps, numBlocks, isAnd, recordsPerBuf, wanted, i, s);
      i := i + 1;
    }
  }

  ghost predicate PositiveBefore(maps: seq<BaseMap>, isAnd: bool, i: nat) {
    forall k :: 0 <= k < i ==> Threshold(maps, isAnd, k) > 0.0
  }

  lemma StartIsOk(maps: seq<BaseMap>, numBlocks: nat, isAnd: bool, recordsPerBuf: nat, wanted: nat, s: Scan)
    requires s == Scan([], NOTHING, 0, [], [], 0, {}, false)
    ensures ScanOk(maps, numBlocks, isAnd, recordsPerBuf, wanted, 0, s)
    ensures Revealed(maps, numBlocks, 0) == {}
  {
  }

  lemma FinishIsBatch(maps: seq<BaseMap>, numBlocks: nat, isAnd: bool, recordsPerBuf: nat, wanted: nat, i: nat, s: Scan)
    requires ScanOk(maps, numBlocks, isAnd, recordsPerBuf, wanted, i, s)
    requires PositiveBefore(maps, isAnd, i)
    requires !s.done ==> Prompt(maps, numBlocks, isAnd, s.emitted, s.depthOf, i) && Threshold(maps, isAnd, i) == 0.0
    ensures IsBatch(maps, numBlocks, isAnd, recordsPerBuf, wanted, Batch(s.emitted, s.depthOf, i, s.done))
  {
  }

  lemma NextDepth(maps: seq<BaseMap>, numBlocks: nat, isAnd: bool, recordsPerBuf: nat, wanted: nat, i: nat, s: Scan)
    requires ValidMaps(maps, numBlocks) && ScanOk(maps, numBlocks, isAnd, recordsPerBuf, wanted, i, s)
    requires Prompt(maps, numBlocks, isAnd, s.emitted, s.depthOf, i)
    requires s.sampled == Revealed(maps, numBlocks, i + 1)
    requires Threshold(maps, isAnd, i) != 0.0
    requires PositiveBefore(maps, isAnd, i)
    ensures ScanOk(maps, numBlocks, isAnd, recordsPerBuf, wanted, i + 1, s)
    ensures PositiveBefore(maps, isAnd, i + 1)
    ensures i < MaxLength(maps)
  {
    ThresholdFalls(maps, numBlocks, isAnd, i, i);
    AllShown(maps, numBlocks, i + 1);
    OutputDeepens(maps, numBlocks, isAnd, recordsPerBuf, wanted, i, i + 1, s);
    if i >= MaxLength(maps) {
      ThresholdVanishes(maps, numBlocks, isAnd, i);
    }
  }

  lemma OutputDeepens(maps: seq<BaseMap>, numBlocks: nat, isAnd: bool, recordsPerBuf: nat, wanted: nat, i: nat, next: nat,
                      s: Scan)
    requires OutputOk(maps, numBlocks, isAnd, recordsPerBuf, wanted, i, s.emitted, s.depthOf, s.estimated, s.done)
    requires next == i + 1 && Prompt(maps, numBlocks, isAnd, s.emitted, s.depthOf, i)
    ensures OutputOk(maps, numBlocks, isAnd, recordsPerBuf, wanted, next, s.emitted, s.depthOf, s.estimated, s.done)
  {
    JustifiedDeeper(maps, numBlocks, isAnd, s.emitted, s.depthOf, i, next);
    forall k | 0 <= k < next ensures Prompt(maps, numBlocks, isAnd, s.emitted, s.depthOf, k) {
      assert k < i || k == i;
    }
  }

  lemma JustifiedDeeper(maps: seq<BaseMap>, numBlocks: nat, isAnd: bool, emitted: seq<Density>, depthOf: seq<nat>,
                        i: nat, next: nat)
    requires Justified(maps, numBlocks, isAnd, emitted, depthOf, i) && i <= next
    ensures Justified(maps, numBlocks, isAnd, emitted, depthOf, next)
  {
  }
}
