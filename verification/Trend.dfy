/** Incremental trend lines: each step resamples the groups of the segments that can still be
    split and cuts one segment in two. */
module TrendLine {
  import opened Samples
  import opened Segments
  import opened SquaredError
  import opened Sums

  function Averages(groups: seq<Group>): seq<real> {
    seq(|groups|, i requires 0 <= i < |groups| => groups[i].avg)
  }

  // ---------- the interval-sum table ----------

  /** The sum of the averages of positions a to b of a segment. */
  ghost function IntervalSum(avgs: seq<real>, start: nat, a: nat, b: nat): real
    requires a <= b && start + b < |avgs|
  {
    Sum(avgs[start + a..start + b + 1])
  }

  /** The first `len` columns hold all interval sums of the segment. */
  ghost predicate TableUpTo(table: array2<real>, avgs: seq<real>, start: nat, len: nat)
    requires start + len <= |avgs| && len <= table.Length0 && len <= table.Length1
    reads table
  {
    forall a: nat, b: nat :: a <= b < len ==> table[a, b] == IntervalSum(avgs, start, a, b)
  }

  ghost predicate TableOk(table: array2<real>, avgs: seq<real>, start: nat, end: nat)
    requires start <= end < |avgs| && end - start < table.Length0 && end - start < table.Length1
    reads table
  {
    TableUpTo(table, avgs, start, end - start + 1)
  }

  /** Average of the positions up to a cut. */
  function LeftMean(table: array2<real>, start: nat, g: nat): real
    requires start <= g && g - start < table.Length1 && table.Length0 > 0
    reads table
  {
    (1.0 / (g - start + 1) as real) * table[0, g - start]
  }

  /** Average of the positions after a cut, zero when there are none. */
  function RightMean(table: array2<real>, start: nat, end: nat, g: nat): real
    requires start <= g <= end && end - start < table.Length0 && end - start < table.Length1
    reads table
  {
    if g == end then 0.0
    else (1.0 / (end - (g + 1) + 1) as real) * table[g - start + 1, end - start]
  }

  function GainOf(n1: real, n2: real, alphaT: real, alphaU: real, cells: real): real
    requires cells != 0.0
  {
    n1 * n2 * (alphaT - alphaU) * (alphaT - alphaU) / cells
  }

  /** The score of a cut after position `g`. */
  function Gain(table: array2<real>, card: nat, start: nat, end: nat, g: nat): real
    requires start <= g <= end < card && end - start < table.Length0 && end - start < table.Length1
    reads table
  {
    GainOf((g - start + 1) as real, (end - (g + 1) + 1) as real,
           LeftMean(table, start, g), RightMean(table, start, end, g),
           (card * (end - start + 1)) as real)
  }

  lemma GainNonnegative(n1: real, n2: real, alphaT: real, alphaU: real, cells: real)
    requires n1 >= 0.0 && n2 >= 0.0 && cells > 0.0
    ensures GainOf(n1, n2, alphaT, alphaU, cells) >= 0.0
    ensures n2 == 0.0 ==> GainOf(n1, n2, alphaT, alphaU, cells) == 0.0
  {
    SquareNonnegative(alphaT - alphaU);
    ProductNonnegative(n1, n2);
    ProductNonnegative(n1 * n2, Sq(alphaT - alphaU));
    assert n1 * n2 * (alphaT - alphaU) * (alphaT - alphaU) == n1 * n2 * Sq(alphaT - alphaU);
    QuotientSign(n1 * n2 * Sq(alphaT - alphaU), cells);
  }

  lemma GainFacts(table: array2<real>, card: nat, start: nat, end: nat, g: nat)
    requires start <= g <= end < card && end - start < table.Length0 && end - start < table.Length1
    ensures Gain(table, card, start, end, g) >= 0.0
    ensures g == end ==> Gain(table, card, start, end, g) == 0.0
  {
    GainNonnegative((g - start + 1) as real, (end - (g + 1) + 1) as real,
                    LeftMean(table, start, g), RightMean(table, start, end, g),
                    (card * (end - start + 1)) as real);
  }

  /** The score is the drop in squared error divided by the number of groups. */
  lemma GainIsReduction(n1: real, n2: real, alphaT: real, alphaU: real, card: real)
    requires n1 + n2 > 0.0 && card > 0.0
    ensures card * (n1 + n2) != 0.0
    ensures GainOf(n1, n2, alphaT, alphaU, card * (n1 + n2)) * card == Reduction(n1, alphaT, n2, alphaU)
  {
    PositiveProduct(card, n1 + n2);
    var top := n1 * n2 * Sq(alphaT - alphaU);
    assert n1 * n2 * (alphaT - alphaU) * (alphaT - alphaU) == top;
    var q := top / (card * (n1 + n2));
    assert (q * card) * (n1 + n2) == q * (card * (n1 + n2)) == top;
    DivideBack(q * card, n1 + n2, top);
  }

  lemma TableGivesMeans(table: array2<real>, avgs: seq<real>, start: nat, end: nat, g: nat)
    requires start <= g < end < |avgs| && end - start < table.Length0 && end - start < table.Length1
    requires TableOk(table, avgs, start, end)
    ensures LeftMean(table, start, g) == Mean(avgs[start..g + 1])
    ensures RightMean(table, start, end, g) == Mean(avgs[g + 1..end + 1])
  {
    assert table[0, g - start] == IntervalSum(avgs, start, 0, g - start);
    assert table[g - start + 1, end - start] == IntervalSum(avgs, start, g - start + 1, end - start);
    ScaleIsQuotient((g - start + 1) as real, Sum(avgs[start..g + 1]));
    ScaleIsQuotient((end - g) as real, Sum(avgs[g + 1..end + 1]));
  }

  lemma GainOverCells(n1: real, n2: real, alphaT: real, alphaU: real, card: nat, len: nat, cells: real)
    returns (gain: real, drop: real)
    requires card > 0 && len > 0 && n1 + n2 == len as real && cells == (card * len) as real
    ensures cells != 0.0 && gain == GainOf(n1, n2, alphaT, alphaU, cells) && drop == Reduction(n1, alphaT, n2, alphaU)
    ensures gain * card as real == drop
  {
    CellCount(card, len, n1 + n2);
    GainIsReduction(n1, n2, alphaT, alphaU, card as real);
    gain, drop := GainOf(n1, n2, alphaT, alphaU, cells), Reduction(n1, alphaT, n2, alphaU);
  }

  lemma DropFromSizes(avgs: seq<real>, seg: Segment, g: nat, n1: real, n2: real)
    requires seg.start <= g < seg.end < |avgs|
    requires n1 == (g - seg.start + 1) as real && n2 == (seg.end - (g + 1) + 1) as real
    ensures Drop(avgs, seg, g) == Reduction(n1, Mean(avgs[seg.start..g + 1]), n2, Mean(avgs[g + 1..seg.end + 1]))
  {
    assert |avgs[seg.start..g + 1]| as real == n1 && |avgs[g + 1..seg.end + 1]| as real == n2;
  }

  /** The score of a cut when the table holds the true interval sums. */
  ghost function TrueGain(avgs: seq<real>, card: nat, seg: Segment, g: nat): real
    requires seg.start <= g < seg.end < card == |avgs|
  {
    GainOf((g - seg.start + 1) as real, (seg.end - (g + 1) + 1) as real,
           Mean(avgs[seg.start..g + 1]), Mean(avgs[g + 1..seg.end + 1]),
           (card * (seg.end - seg.start + 1)) as real)
  }

  lemma GainTimesCard(avgs: seq<real>, card: nat, seg: Segment, g: nat) returns (gain: real, drop: real)
    requires seg.start <= g < seg.end < card == |avgs|
    ensures gain == TrueGain(avgs, card, seg, g) && drop == Drop(avgs, seg, g)
    ensures gain * card as real == drop
  {
    var n1, n2 := (g - seg.start + 1) as real, (seg.end - (g + 1) + 1) as real;
    gain, drop := GainOverCells(n1, n2, Mean(avgs[seg.start..g + 1]), Mean(avgs[g + 1..seg.end + 1]), card,
                                seg.end - seg.start + 1, (card * (seg.end - seg.start + 1)) as real);
    DropFromSizes(avgs, seg, g, n1, n2);
  }

  lemma RankByScale(x: real, y: real, n: nat, p: real, q: real)
    requires x <= y && x * n as real == p && y * n as real == q
    ensures p <= q
  {
    ScaleOrder(x, y, n);
  }

  /** Ranking cuts by score is ranking them by the drop in squared error. */
  lemma GainRanksDrops(avgs: seq<real>, card: nat, x: Segment, c: nat, y: Segment, d: nat)
    requires |avgs| == card && x.start <= c < x.end < card && y.start <= d < y.end < card
    requires TrueGain(avgs, card, x, c) <= TrueGain(avgs, card, y, d)
    ensures Drop(avgs, x, c) <= Drop(avgs, y, d)
  {
    var gain1, drop1 := GainTimesCard(avgs, card, x, c);
    var gain2, drop2 := GainTimesCard(avgs, card, y, d);
    RankByScale(gain1, gain2, card, drop1, drop2);
  }

  lemma TableGivesGain(table: array2<real>, card: nat, avgs: seq<real>, seg: Segment, g: nat)
    requires seg.start <= g < seg.end < card == |avgs|
    requires seg.end - seg.start < table.Length0 && seg.end - seg.start < table.Length1
    requires TableOk(table, avgs, seg.start, seg.end)
    ensures Gain(table, card, seg.start, seg.end, g) == TrueGain(avgs, card, seg, g)
  {
    TableGivesMeans(table, avgs, seg.start, seg.end, g);
  }

  lemma CellCount(card: nat, len: nat, n: real)
    requires len as real == n
    ensures (card * len) as real == card as real * n
  {
  }

  // ---------- one refinement step ----------

  /** Position `g` belongs to a segment that can still be split. */
  ghost predicate Refinable(segs: seq<Segment>, g: nat) {
    exists k :: 0 <= k < |segs| && Splittable(segs[k]) && Contains(segs[k], g)
  }

  /** The groups after a step has queried every refinable position once. */
  ghost function Resampled(groups: seq<Group>, segs: seq<Segment>, answers: seq<Answer>): seq<Group>
    requires |answers| == |groups|
    requires forall g :: 0 <= g < |groups| ==> groups[g].Accepts(answers[g])
  {
    seq(|groups|, g requires 0 <= g < |groups| =>
      if Refinable(segs, g) then groups[g].Resample(answers[g]) else groups[g])
  }

  lemma RefinableInSegment(segs: seq<Segment>, card: nat, k: nat, g: nat)
    requires Tiles(segs, card) && k < |segs| && Contains(segs[k], g)
    ensures Refinable(segs, g) <==> Splittable(segs[k])
  {
    var j := GroupHasOneSegment(segs, card, g);
  }

  /** No group of a segment has run out of records. */
  ghost predicate Settled(groups: seq<Group>, g: Segment) {
    forall i :: g.start <= i <= g.end && i < |groups| ==> !groups[i].exhausted
  }

  ghost predicate AllSettled(groups: seq<Group>, segs: seq<Segment>) {
    forall k :: 0 <= k < |segs| && Splittable(segs[k]) ==> Settled(groups, segs[k])
  }

  /** How many groups of a segment a step queries. */
  function Queries(g: Segment): nat {
    if g.end > g.start then g.end - g.start + 1 else 0
  }

  /** How many groups the next step will query. */
  function GroupsToQuery(segs: seq<Segment>): nat {
    if segs == [] then 0 else GroupsToQuery(segs[..|segs| - 1]) + Queries(segs[|segs| - 1])
  }

  /** The groups the next step resamples. */
  ghost function RefinableGroups(segs: seq<Segment>, card: nat): set<nat> {
    set g: nat | g < card && Refinable(segs, g)
  }

  ghost function GroupsOf(seg: Segment): (s: set<nat>)
    requires seg.start <= seg.end
    ensures |s| == seg.end - seg.start + 1
    ensures forall g :: g in s <==> Contains(seg, g)
    decreases seg.end - seg.start
  {
    if seg.start == seg.end then {seg.start}
    else GroupsOf(seg.(end := seg.end - 1)) + {seg.end}
  }

  /** The groups of the first `n` segments that are to be resampled, counted. */
  lemma {:induction false} QueriesUpTo(segs: seq<Segment>, card: nat, n: nat)
    requires Tiles(segs, card) && n <= |segs|
    ensures GroupsToQuery(segs[..n]) == |RefinableGroups(segs[..n], card)|
  {
    if n == 0 {
      assert RefinableGroups(segs[..0], card) == {};
    } else {
      QueriesUpTo(segs, card, n - 1);
      var rest, last := segs[..n - 1], segs[n - 1];
      assert segs[..n] == rest + [last];
      QueriesAppend(rest, last);
      RefinableAppend(rest, last, card);
      if Splittable(last) {
        forall g | g in RefinableGroups(rest, card) ensures g !in GroupsOf(last) {
          OtherSegment(segs, card, n - 1, g);
        }
      }
    }
  }

  lemma OtherSegment(segs: seq<Segment>, card: nat, n: nat, g: nat)
    requires Tiles(segs, card) && n < |segs| && Refinable(segs[..n], g)
    ensures !Contains(segs[n], g)
  {
    var k :| 0 <= k < n && Splittable(segs[..n][k]) && Contains(segs[..n][k], g);
    TilesInOrder(segs, card, k, n);
  }

  lemma RefinableAppend(segs: seq<Segment>, last: Segment, card: nat)
    requires last.start <= last.end < card
    ensures RefinableGroups(segs + [last], card)
         == RefinableGroups(segs, card) + if Splittable(last) then GroupsOf(last) else {}
  {
    forall g: nat
      ensures Refinable(segs + [last], g) <==> Refinable(segs, g) || (Splittable(last) && Contains(last, g))
    {
      RefinableInLonger(segs, last, g);
    }
  }

  lemma RefinableInLonger(segs: seq<Segment>, last: Segment, g: nat)
    ensures Refinable(segs + [last], g) <==> Refinable(segs, g) || (Splittable(last) && Contains(last, g))
  {
    var longer := segs + [last];
    if Refinable(segs, g) {
      var k :| 0 <= k < |segs| && Splittable(segs[k]) && Contains(segs[k], g);
      assert longer[k] == segs[k];
    }
    assert longer[|segs|] == last;
  }

  /** The number of groups of a segment that has more than one. */
  ghost function SizeIfSeveral(seg: Segment): nat {
    if seg.start < seg.end then 1 + seg.end - seg.start else 0
  }

  /** The count kept of a partition is the number of groups the next step resamples. */
  lemma QueriesAreGroups(segs: seq<Segment>, card: nat)
    requires Tiles(segs, card)
    ensures GroupsToQuery(segs) == |RefinableGroups(segs, card)|
  {
    QueriesUpTo(segs, card, |segs|);
    assert segs[..|segs|] == segs;
  }

  lemma QueriesAppend(segs: seq<Segment>, g: Segment)
    ensures GroupsToQuery(segs + [g]) == GroupsToQuery(segs) + Queries(g)
  {
    assert (segs + [g])[..|segs|] == segs;
  }

  lemma QueriesAppendTwo(segs: seq<Segment>, g: Segment, h: Segment)
    ensures GroupsToQuery(segs + [g] + [h]) == GroupsToQuery(segs) + Queries(g) + Queries(h)
  {
    QueriesAppend(segs, g);
    QueriesAppend(segs + [g], h);
  }

  /** The new partition after `s` old segments. */
  ghost function RewrittenTo(prev: seq<Segment>, splitNo: int, s: nat, first: Segment, second: Segment): seq<Segment>
    requires s <= |prev|
  {
    if splitNo < 0 || s <= splitNo then prev[..s]
    else prev[..splitNo] + [first, second] + prev[splitNo + 1..s]
  }

  lemma RewrittenCopies(prev: seq<Segment>, splitNo: int, s: nat, next: nat, first: Segment, second: Segment)
    requires s < |prev| && s != splitNo && next == s + 1
    ensures RewrittenTo(prev, splitNo, next, first, second) == RewrittenTo(prev, splitNo, s, first, second) + [prev[s]]
  {
  }

  lemma RewrittenSplits(prev: seq<Segment>, s: nat, next: nat, first: Segment, second: Segment)
    requires s < |prev| && next == s + 1
    ensures RewrittenTo(prev, s, next, first, second) == prev[..s] + [first] + [second]
    ensures RewrittenTo(prev, s, s, first, second) == prev[..s]
  {
  }

  lemma RewrittenWhole(prev: seq<Segment>, splitNo: int, first: Segment, second: Segment)
    requires splitNo < |prev|
    ensures RewrittenTo(prev, splitNo, |prev|, first, second)
         == if splitNo < 0 then prev else prev[..splitNo] + [first, second] + prev[splitNo + 1..]
  {
  }

  class Trend {
    const card: nat
    const avgMap: array2<real>
    var groups: seq<Group>
    var kBest: map<nat, seq<Segment>>
    var firstIteration: bool
    var splitSeg: int
    var firstNewSegment: Segment
    var secondNewSegment: Segment
    var nonSingleGroups: nat
    var avgMin: real
    var avgMax: real

    ghost predicate Valid()
      reads this
    {
      && 0 < card == |groups|
      && avgMap.Length0 == card && avgMap.Length1 == card
      && (firstIteration ==> forall g :: 0 <= g < card ==> groups[g] == Group(0.0, 0, false))
    }

    /** The segments kept for an iteration; an iteration not stored has none. */
    function Kept(i: nat): seq<Segment>
      reads this
    {
      if i in kBest then kBest[i] else []
    }

    constructor (card: nat)
      requires card > 0
      ensures Valid() && fresh(avgMap) && this.card == card
      ensures firstIteration && kBest == map[] && splitSeg == -1 && nonSingleGroups == 366
      ensures forall g :: 0 <= g < card ==> groups[g] == Group(0.0, 0, false)
    {
      this.card := card;
      avgMap := new real[card, card]((i, j) => 0.0);
      groups := seq(card, _ => Group(0.0, 0, false));
      kBest := map[];
      firstIteration, splitSeg, nonSingleGroups := true, -1, 366;
      firstNewSegment, secondNewSegment := Segment(0, 0, 0.0), Segment(0, 0, 0.0);
      avgMin, avgMax := 10000000.0, -10000000.0;
    }

    /** Queries the groups of one segment and extends the interval-sum table column by column.
        A group without records leaves its column as it was. */
    method SampleAndTabulate(start: nat, end: nat, answers: seq<Answer>)
      requires Valid() && !firstIteration && start <= end < card && |answers| == card
      requires forall g :: 0 <= g < card ==> groups[g].Accepts(answers[g])
      modifies this`groups, avgMap
      ensures Valid()
      ensures forall g :: 0 <= g < card ==>
                groups[g] == if start <= g <= end then old(groups)[g].Resample(answers[g]) else old(groups)[g]
      ensures Settled(groups, Segment(start, end, 0.0)) ==> TableOk(avgMap, Averages(groups), start, end)
      ensures forall g: nat :: start <= g <= end && groups[g].exhausted ==> ColumnStale(g - start)
    {
      var g, am := start, 0;
      while g <= end
        invariant start <= g <= end + 1 && am == g - start
        invariant Valid()
        invariant forall i :: 0 <= i < card ==>
            groups[i] == if start <= i < g then old(groups)[i].Resample(answers[i]) else old(groups)[i]
        invariant NoneOutBetween(groups, start, g) ==> TableUpTo(avgMap, Averages(groups), start, am)
        invariant forall i: nat :: start <= i < g && groups[i].exhausted ==> ColumnStale(i - start)
        invariant forall a, b :: 0 <= a < card && am <= b < card ==> avgMap[a, b] == old(avgMap[a, b])
      {
        ghost var before := groups;
        groups := groups[g := groups[g].Resample(answers[g])];
        NoneOutSoFar(before, groups, start, g);
        TableSurvives(avgMap, before, groups, start, g);
        if !groups[g].exhausted {
          FillColumn(start, am);
        }
        g, am := g + 1, am + 1;
      }
    }

    /** The column of an exhausted group still holds what an earlier step left there. */
    twostate predicate ColumnStale(col: nat)
      requires col < avgMap.Length0 && col < avgMap.Length1
      reads avgMap
    {
      forall a :: 0 <= a <= col ==> avgMap[a, col] == old(avgMap[a, col])
    }

    /** Adds position `am` to every interval sum that ends there. */
    method FillColumn(start: nat, am: nat)
      requires Valid() && start + am < card
      modifies avgMap
      ensures old(TableUpTo(avgMap, Averages(groups), start, am)) ==>
                TableUpTo(avgMap, Averages(groups), start, am + 1)
      ensures forall a, b :: 0 <= a < card && 0 <= b < card && b != am ==> avgMap[a, b] == old(avgMap[a, b])
    {
      var avg := groups[start + am].avg;
      avgMap[am, am] := avg;
      var it := 0;
      while it < am
        invariant 0 <= it <= am
        invariant avgMap[am, am] == avg
        invariant forall a :: 0 <= a < it ==> avgMap[a, am] == old(avgMap[a, am - 1]) + avg
        invariant forall a, b :: 0 <= a < card && 0 <= b < card && b != am ==> avgMap[a, b] == old(avgMap[a, b])
      {
        avgMap[it, am] := avgMap[it, am - 1] + avg;
        it := it + 1;
      }
      ghost var avgs := Averages(groups);
      if old(TableUpTo(avgMap, avgs, start, am)) {
        forall a: nat | a <= am
          ensures avgMap[a, am] == IntervalSum(avgs, start, a, am)
        {
          SumToNext(avgs, start + a, start + am);
          if a < am {
            assert old(avgMap[a, am - 1]) == IntervalSum(avgs, start, a, am - 1);
          }
        }
      }
    }

    /** The best cut of one segment: the leftmost position with the highest score. */
    method BestCut(start: nat, end: nat) returns (max: real, maxSplit: nat, mean1: real, mean2: real)
      requires Valid() && start < end < card
      ensures start <= maxSplit < end
      ensures max == Gain(avgMap, card, start, end, maxSplit) >= 0.0
      ensures mean1 == LeftMean(avgMap, start, maxSplit)
      ensures mean2 == RightMean(avgMap, start, end, maxSplit)
      ensures forall g :: start <= g <= end ==> Gain(avgMap, card, start, end, g) <= max
      ensures forall g :: start <= g < maxSplit ==> Gain(avgMap, card, start, end, g) < max
    {
      max, maxSplit, mean1, mean2 := -1000000000.0, 0, 0.0, 0.0;
      var g := start;
      while g <= end
        invariant start <= g <= end + 1
        invariant g == start ==> max == -1000000000.0
        invariant g > start ==>
            && start <= maxSplit < g && maxSplit < end
            && max == Gain(avgMap, card, start, end, maxSplit) >= 0.0
            && mean1 == LeftMean(avgMap, start, maxSplit)
            && mean2 == RightMean(avgMap, start, end, maxSplit)
        invariant forall h :: start <= h < g ==> Gain(avgMap, card, start, end, h) <= max
        invariant g > start ==> forall h :: start <= h < maxSplit ==> Gain(avgMap, card, start, end, h) < max
      {
        var alphaT := LeftMean(avgMap, start, g);
        var alphaU := RightMean(avgMap, start, end, g);
        var gain := Gain(avgMap, card, start, end, g);
        GainFacts(avgMap, card, start, end, g);
        if gain > max {
          max, maxSplit, mean1, mean2 := gain, g, alphaT, alphaU;
        }
        g := g + 1;
      }
    }

    /** Resamples one segment and finds its best cut. When none of its groups has run out, the
        means are exact and the cut lowers the squared error most. */
    method RefineSegment(seg: Segment, answers: seq<Answer>)
      returns (max: real, maxSplit: nat, mean1: real, mean2: real)
      requires Valid() && !firstIteration && Splittable(seg) && seg.end < card && |answers| == card
      requires forall g :: 0 <= g < card ==> groups[g].Accepts(answers[g])
      modifies this`groups, avgMap
      ensures Valid()
      ensures forall g :: 0 <= g < card ==>
                groups[g] == if Contains(seg, g) then old(groups)[g].Resample(answers[g]) else old(groups)[g]
      ensures seg.start <= maxSplit < seg.end && max >= 0.0
      ensures Settled(groups, seg) ==> CutIsBest(Averages(groups), seg, card, max, maxSplit, mean1, mean2)
    {
      SampleAndTabulate(seg.start, seg.end, answers);
      max, maxSplit, mean1, mean2 := BestCut(seg.start, seg.end);
      if Settled(groups, seg) {
        TableGivesMeans(avgMap, Averages(groups), seg.start, seg.end, maxSplit);
        forall c | seg.start <= c < seg.end
          ensures Gain(avgMap, card, seg.start, seg.end, c) == TrueGain(Averages(groups), card, seg, c)
        {
          TableGivesGain(avgMap, card, Averages(groups), seg, c);
        }
      }
    }

    method RefineAt(prev: seq<Segment>, s: nat, answers: seq<Answer>, ghost start: seq<Group>, ghost target: seq<Group>)
      returns (max: real, maxSplit: nat, mean1: real, mean2: real)
      requires Valid() && !firstIteration && Tiles(prev, card) && s < |prev| && Splittable(prev[s])
      requires |answers| == |start| == card && forall g :: 0 <= g < card ==> start[g].Accepts(answers[g])
      requires target == Resampled(start, prev, answers)
      requires Progress(groups, start, target, prev, card, s)
      modifies this`groups, avgMap
      ensures Valid() && Progress(groups, start, target, prev, card, s + 1)
      ensures ValidCut(prev, s, maxSplit) && max >= 0.0
      ensures AllSettled(target, prev) ==>
                CutIsBest(Averages(target), prev[s], card, max, maxSplit, mean1, mean2)
    {
      BoundaryStep(prev, card, s);
      TargetOnSegment(groups, start, target, prev, card, answers, s);
      max, maxSplit, mean1, mean2 := RefineSegment(prev[s], answers);
      assert forall g :: 0 <= g < card && Contains(prev[s], g) ==> groups[g] == target[g];
      if AllSettled(target, prev) {
        assert Settled(target, prev[s]);
        CutCarriesOver(Averages(groups), Averages(target), prev[s], card, max, maxSplit, mean1, mean2);
      }
    }

    /** Resamples every segment that can be split and keeps the best cut of all. */
    method ChooseSplit(prev: seq<Segment>, answers: seq<Answer>)
      returns (splitNo: int, maxSplit: nat, mean1: real, mean2: real)
      requires Valid() && !firstIteration && (prev == [] || Tiles(prev, card)) && |answers| == card
      requires forall g :: 0 <= g < card ==> groups[g].Accepts(answers[g])
      modifies this`groups, avgMap
      ensures Valid()
      ensures groups == Resampled(old(groups), prev, answers)
      ensures if splitNo < 0 then splitNo == -1 && forall k :: 0 <= k < |prev| ==> !Splittable(prev[k])
              else ValidCut(prev, splitNo, maxSplit)
      ensures splitNo >= 0 && AllSettled(groups, prev) ==>
                exists best :: ChoiceIsBest(Averages(groups), prev, card, |prev|, best, splitNo, maxSplit, mean1, mean2)
    {
      ghost var target := Resampled(groups, prev, answers);
      var globalMax := -1000000000.0;
      splitNo, maxSplit, mean1, mean2 := -1, 0, 0.0, 0.0;
      var s := 0;
      ProgressStarts(groups, target, prev, card, answers);
      while s < |prev|
        invariant 0 <= s <= |prev|
        invariant Valid() && Progress(groups, old(groups), target, prev, card, s)
        invariant ChosenSoFar(target, prev, card, s, globalMax, splitNo, maxSplit, mean1, mean2)
      {
        if Splittable(prev[s]) {
          var max, split, m1, m2 := RefineAt(prev, s, answers, old(groups), target);
          ChooseNext(target, prev, card, s, globalMax, splitNo, maxSplit, mean1, mean2, max, split, m1, m2);
          if max > globalMax {
            globalMax, splitNo, maxSplit, mean1, mean2 := max, s, split, m1, m2;
          }
        } else {
          ProgressSkips(groups, old(groups), target, prev, card, answers, s);
          SkipNext(target, prev, card, s, globalMax, splitNo, maxSplit, mean1, mean2);
        }
        s := s + 1;
      }
      ProgressEnds(groups, old(groups), target, prev, card);
      ChosenOfAll(target, prev, card, globalMax, splitNo, maxSplit, mean1, mean2);
    }

    /** Cuts one segment in two and records what is to be published. */
    method CutSegment(s: nat, seg: Segment, maxSplit: nat, mean1: real, mean2: real)
      returns (left: Segment, right: Segment, queries: nat)
      requires Splittable(seg) && seg.start <= maxSplit <= seg.end
      modifies this`splitSeg, this`firstNewSegment, this`secondNewSegment, this`avgMin, this`avgMax
      ensures left == Segment(seg.start, CutPoint(seg, maxSplit), mean1)
      ensures right == Segment(CutPoint(seg, maxSplit) + 1, seg.end, mean2)
      ensures splitSeg == s && firstNewSegment == left && secondNewSegment == right
      ensures avgMin == Min(old(avgMin), Min(mean1, mean2)) && avgMax == Max(old(avgMax), Max(mean1, mean2))
      ensures queries == Queries(left) + Queries(right) + if maxSplit < seg.end then Queries(right) else 0
    {
      avgMax := Max(avgMax, if mean2 > mean1 then mean2 else mean1);
      avgMin := Min(avgMin, if mean2 < mean1 then mean2 else mean1);
      if maxSplit == seg.end {
        left, right := Segment(seg.start, maxSplit - 1, mean1), Segment(maxSplit, seg.end, mean2);
        queries := Queries(left) + Queries(right);
      } else {
        left, right := Segment(seg.start, maxSplit, mean1), Segment(maxSplit + 1, seg.end, mean2);
        queries := Queries(left) + Queries(right) + Queries(right);
      }
      splitSeg, firstNewSegment, secondNewSegment := s, left, right;
    }

    /** Builds the new partition from the old one. */
    method Rewrite(prev: seq<Segment>, splitNo: int, maxSplit: nat, mean1: real, mean2: real)
      returns (tmp: seq<Segment>)
      requires splitNo >= 0 ==>
                 splitNo < |prev| && prev[splitNo].start <= maxSplit <= prev[splitNo].end && Splittable(prev[splitNo])
      modifies this`splitSeg, this`firstNewSegment, this`secondNewSegment, this`nonSingleGroups, this`avgMin, this`avgMax
      ensures splitNo < 0 ==>
                && tmp == prev && nonSingleGroups == GroupsToQuery(tmp)
                && (Tiles(tmp, card) ==> nonSingleGroups == |RefinableGroups(tmp, card)|)
                && splitSeg == old(splitSeg) && avgMin == old(avgMin) && avgMax == old(avgMax)
                && firstNewSegment == old(firstNewSegment) && secondNewSegment == old(secondNewSegment)
      ensures splitNo >= 0 ==>
                var cut := CutPoint(prev[splitNo], maxSplit);
                && tmp == SplitAt(prev, splitNo, cut, mean1, mean2)
                && splitSeg == splitNo
                && firstNewSegment == Segment(prev[splitNo].start, cut, mean1)
                && secondNewSegment == Segment(cut + 1, prev[splitNo].end, mean2)
                && avgMin == Min(old(avgMin), Min(mean1, mean2))
                && avgMax == Max(old(avgMax), Max(mean1, mean2))
                && (Tiles(tmp, card) ==>
                      nonSingleGroups == |RefinableGroups(tmp, card)|
                        + if maxSplit < prev[splitNo].end then SizeIfSeveral(secondNewSegment) else 0)
    {
      tmp, nonSingleGroups := [], 0;
      ghost var extra: nat := 0;
      var s := 0;
      while s < |prev|
        invariant 0 <= s <= |prev|
        invariant nonSingleGroups == GroupsToQuery(tmp) + extra
        invariant tmp == RewrittenTo(prev, splitNo, s, firstNewSegment, secondNewSegment)
        invariant splitNo < 0 || s <= splitNo ==>
            && extra == 0
            && splitSeg == old(splitSeg) && avgMin == old(avgMin) && avgMax == old(avgMax)
            && firstNewSegment == old(firstNewSegment) && secondNewSegment == old(secondNewSegment)
        invariant 0 <= splitNo < s ==>
            var cut := CutPoint(prev[splitNo], maxSplit);
            && splitSeg == splitNo
            && firstNewSegment == Segment(prev[splitNo].start, cut, mean1)
            && secondNewSegment == Segment(cut + 1, prev[splitNo].end, mean2)
            && avgMin == Min(old(avgMin), Min(mean1, mean2))
            && avgMax == Max(old(avgMax), Max(mean1, mean2))
            && extra == if maxSplit < prev[splitNo].end then Queries(secondNewSegment) else 0
      {
        ghost var next := s + 1;
        if s == splitNo {
          RewrittenSplits(prev, s, next, firstNewSegment, secondNewSegment);
          var left, right, queries := CutSegment(s, prev[s], maxSplit, mean1, mean2);
          RewrittenSplits(prev, s, next, left, right);
          QueriesAppendTwo(tmp, left, right);
          nonSingleGroups := nonSingleGroups + queries;
          extra := if maxSplit < prev[s].end then Queries(right) else 0;
          tmp := tmp + [left] + [right];
        } else {
          RewrittenCopies(prev, splitNo, s, next, firstNewSegment, secondNewSegment);
          QueriesAppend(tmp, prev[s]);
          nonSingleGroups := nonSingleGroups + Queries(prev[s]);
          tmp := tmp + [prev[s]];
        }
        s := s + 1;
      }
      RewrittenWhole(prev, splitNo, firstNewSegment, secondNewSegment);
      if Tiles(tmp, card) {
        QueriesAreGroups(tmp, card);
      }
    }

    /** Queries every group once and adds up the answers. */
    method QueryAll(answers: seq<Answer>) returns (total: real)
      requires |groups| == card && |answers| == card
      requires forall g :: 0 <= g < card ==> groups[g].Accepts(answers[g])
      modifies this`groups
      ensures |groups| == card
      ensures forall g :: 0 <= g < card ==> groups[g] == old(groups)[g].Resample(answers[g])
      ensures total == AnswerTotal(answers, card)
    {
      total := 0.0;
      var g := 0;
      while g < card
        invariant 0 <= g <= card && |groups| == card
        invariant forall h :: 0 <= h < g ==> groups[h] == old(groups)[h].Resample(answers[h])
        invariant forall h :: g <= h < card ==> groups[h] == old(groups)[h]
        invariant total == AnswerTotal(answers, g)
      {
        groups := groups[g := groups[g].Resample(answers[g])];
        if answers[g].Sampled? {
          total := total + answers[g].avg;
        }
        g := g + 1;
      }
    }

    /** The first step: every group is queried and one segment covers them all. */
    method FirstStep(i: nat, answers: seq<Answer>) returns (made: seq<Segment>)
      requires Valid() && firstIteration && |answers| == card
      requires forall g :: 0 <= g < card ==> groups[g].Accepts(answers[g])
      modifies this`groups, this`kBest, this`firstIteration, this`splitSeg, this`firstNewSegment,
               this`avgMin, this`avgMax
      ensures Valid() && !firstIteration
      ensures forall g :: 0 <= g < card ==> groups[g] == old(groups)[g].Resample(answers[g])
      ensures made == [firstNewSegment] && kBest == old(kBest)[i := made]
      ensures splitSeg == -1 && firstNewSegment.start == 0 && firstNewSegment.end == card - 1
      ensures avgMin == avgMax == firstNewSegment.mean
      ensures firstNewSegment.mean == Mean(Averages(groups))
    {
      firstIteration := false;
      ghost var start := groups;
      var total := QueryAll(answers);
      var mean := total / card as real;
      FirstMean(groups, start, answers, card, total, mean);
      made := [Segment(0, card - 1, mean)];
      kBest := kBest[i := made];
      splitSeg, firstNewSegment, avgMin, avgMax := -1, made[0], mean, mean;
    }

    /** A later step: resample, choose, rewrite. */
    method NextStep(prev: seq<Segment>, answers: seq<Answer>) returns (made: seq<Segment>)
      requires Valid() && !firstIteration && (prev == [] || Tiles(prev, card)) && |answers| == card
      requires forall g :: 0 <= g < card ==> groups[g].Accepts(answers[g])
      modifies this`groups, this`splitSeg, this`firstNewSegment, this`secondNewSegment, this`nonSingleGroups,
               this`avgMin, this`avgMax, avgMap
      ensures Valid()
      ensures groups == Resampled(old(groups), prev, answers)
      ensures prev != [] && |prev| < card ==> SplitDone(prev, made, old(avgMin), old(avgMax)) && CountsSecondTwice(made)
      ensures prev == [] || |prev| == card ==>
                && made == prev && splitSeg == old(splitSeg)
                && firstNewSegment == old(firstNewSegment) && secondNewSegment == old(secondNewSegment)
                && avgMin == old(avgMin) && avgMax == old(avgMax) && nonSingleGroups == |RefinableGroups(made, card)|
    {
      var splitNo, maxSplit, mean1, mean2 := ChooseSplit(prev, answers);
      if prev != [] && |prev| < card {
        SomeSegmentSplits(prev, card);
        MakeGoodCut(groups, prev, card, splitNo, maxSplit, mean1, mean2);
      } else if |prev| == card {
        FullTilingIsSingles(prev, card);
      }
      made := Rewrite(prev, splitNo, maxSplit, mean1, mean2);
      assert RefinableGroups([], card) == {};
      if prev != [] && |prev| < card {
        FinishSplit(prev, made, maxSplit, mean1, mean2, old(avgMin), old(avgMax));
      }
    }

    lemma FinishSplit(prev: seq<Segment>, made: seq<Segment>, cut: nat, mean1: real, mean2: real,
                      oldMin: real, oldMax: real)
      requires splitSeg >= 0 && GoodCut(groups, prev, card, splitSeg, cut, mean1, mean2)
      requires made == SplitAt(prev, splitSeg, cut, mean1, mean2)
      requires firstNewSegment == Segment(prev[splitSeg].start, cut, mean1)
      requires secondNewSegment == Segment(cut + 1, prev[splitSeg].end, mean2)
      requires avgMin == Min(oldMin, Min(mean1, mean2)) && avgMax == Max(oldMax, Max(mean1, mean2))
      requires Tiles(made, card) ==> CountsSecondTwice(made)
      ensures SplitDone(prev, made, oldMin, oldMax) && CountsSecondTwice(made)
    {
    }

    /** One step. The result is the partition the step made, which is kept for iterations
        below `card` only. */
    method GenHisto(i: nat, answers: seq<Answer>) returns (made: seq<Segment>)
      requires Valid() && i > 0 && |answers| == card
      requires forall g :: 0 <= g < card ==> groups[g].Accepts(answers[g])
      requires !firstIteration ==> Kept(i - 1) == [] || Tiles(Kept(i - 1), card)
      modifies this, avgMap
      ensures Valid() && !firstIteration
      ensures old(firstIteration) ==>
                && made == [firstNewSegment] && splitSeg == -1 && Tiles(made, card)
                && kBest == old(kBest)[i := made] && avgMin == avgMax == firstNewSegment.mean
                && (forall g :: 0 <= g < card ==> groups[g] == old(groups)[g].Resample(answers[g]))
                && firstNewSegment.mean == Mean(Averages(groups))
                && secondNewSegment == old(secondNewSegment) && nonSingleGroups == old(nonSingleGroups)
      ensures !old(firstIteration) ==>
                && groups == Resampled(old(groups), old(Kept(i - 1)), answers)
                && kBest == if i < card then old(kBest)[i := made] else old(kBest)
      ensures !old(firstIteration) && old(Kept(i - 1)) != [] && |old(Kept(i - 1))| < card ==>
                SplitDone(old(Kept(i - 1)), made, old(avgMin), old(avgMax)) && CountsSecondTwice(made)
      ensures !old(firstIteration) && (old(Kept(i - 1)) == [] || |old(Kept(i - 1))| == card) ==>
                && made == old(Kept(i - 1)) && splitSeg == old(splitSeg)
                && firstNewSegment == old(firstNewSegment) && secondNewSegment == old(secondNewSegment)
                && avgMin == old(avgMin) && avgMax == old(avgMax) && nonSingleGroups == |RefinableGroups(made, card)|
    {
      if firstIteration {
        made := FirstStep(i, answers);
        assert Linked(made, 0);
      } else {
        made := NextStep(Kept(i - 1), answers);
        if i < card {
          kBest := kBest[i := made];
        }
      }
    }

    /** The count of groups to query next is that of the groups the next step resamples, and once
        more those of the second new segment if it has several. */
    ghost predicate CountsSecondTwice(made: seq<Segment>)
      reads this
    {
      nonSingleGroups == |RefinableGroups(made, card)| + SizeIfSeveral(secondNewSegment)
    }

    /** The outcome of a step that split: segment `splitSeg` became the two new segments; when
        no group of a splittable segment ran out, their means are the exact averages of their
        groups and no other single split leaves a smaller squared error. */
    ghost predicate SplitDone(prev: seq<Segment>, made: seq<Segment>, oldMin: real, oldMax: real)
      reads this
    {
      && 0 <= splitSeg < |prev| && Within(prev, card) && |groups| == card
      && Tiles(made, card) && |made| == |prev| + 1
      && ValidCut(prev, splitSeg, firstNewSegment.end)
      && firstNewSegment.start == prev[splitSeg].start
      && secondNewSegment.start == firstNewSegment.end + 1 && secondNewSegment.end == prev[splitSeg].end
      && made == prev[..splitSeg] + [firstNewSegment, secondNewSegment] + prev[splitSeg + 1..]
      && avgMin == Min(oldMin, Min(firstNewSegment.mean, secondNewSegment.mean))
      && avgMax == Max(oldMax, Max(firstNewSegment.mean, secondNewSegment.mean))
      && (AllSettled(groups, prev) ==>
            && firstNewSegment.mean == Mean(Cells(Averages(groups), firstNewSegment))
            && secondNewSegment.mean == Mean(Cells(Averages(groups), secondNewSegment))
            && BestOneSplit(Averages(groups), prev, made))
    }
  }

  /** The best cut among the first `n` segments, or none when none of them can be split. */
  ghost predicate ChosenSoFar(target: seq<Group>, prev: seq<Segment>, card: nat, n: nat, best: real,
                              splitNo: int, maxSplit: nat, mean1: real, mean2: real)
  {
    && n <= |prev| && Within(prev, card) && |target| == card
    && (if splitNo < 0
        then splitNo == -1 && best == -1000000000.0 && forall k :: 0 <= k < n ==> !Splittable(prev[k])
        else splitNo < n && ValidCut(prev, splitNo, maxSplit) && best >= 0.0)
    && (AllSettled(target, prev) && splitNo >= 0 ==>
          ChoiceIsBest(Averages(target), prev, card, n, best, splitNo, maxSplit, mean1, mean2))
  }

  lemma ChosenOfAll(target: seq<Group>, prev: seq<Segment>, card: nat, best: real,
                    splitNo: int, maxSplit: nat, mean1: real, mean2: real)
    requires ChosenSoFar(target, prev, card, |prev|, best, splitNo, maxSplit, mean1, mean2)
    ensures if splitNo < 0 then splitNo == -1 && forall k :: 0 <= k < |prev| ==> !Splittable(prev[k])
            else ValidCut(prev, splitNo, maxSplit)
    ensures splitNo >= 0 && AllSettled(target, prev) ==>
              exists any :: ChoiceIsBest(Averages(target), prev, card, |prev|, any, splitNo, maxSplit, mean1, mean2)
  {
  }

  lemma SkipNext(target: seq<Group>, prev: seq<Segment>, card: nat, s: nat, best: real,
                 splitNo: int, maxSplit: nat, mean1: real, mean2: real)
    requires s < |prev| && !Splittable(prev[s])
    requires ChosenSoFar(target, prev, card, s, best, splitNo, maxSplit, mean1, mean2)
    ensures ChosenSoFar(target, prev, card, s + 1, best, splitNo, maxSplit, mean1, mean2)
  {
  }

  lemma ChooseNext(target: seq<Group>, prev: seq<Segment>, card: nat, s: nat, best: real,
                   splitNo: int, maxSplit: nat, mean1: real, mean2: real, max: real, split: nat, m1: real, m2: real)
    requires s < |prev| && ChosenSoFar(target, prev, card, s, best, splitNo, maxSplit, mean1, mean2)
    requires ValidCut(prev, s, split) && max >= 0.0
    requires AllSettled(target, prev) ==> CutIsBest(Averages(target), prev[s], card, max, split, m1, m2)
    ensures if max > best then ChosenSoFar(target, prev, card, s + 1, max, s, split, m1, m2)
            else ChosenSoFar(target, prev, card, s + 1, best, splitNo, maxSplit, mean1, mean2)
  {
    if AllSettled(target, prev) {
      if max > best {
        ghost var known := splitNo >= 0;
        NewChoice(Averages(target), prev, card, s, best, known, splitNo, maxSplit, mean1, mean2, max, split, m1, m2);
      } else {
        OldChoice(Averages(target), prev, card, s, best, splitNo, maxSplit, mean1, mean2, max, split, m1, m2);
      }
    }
  }

  lemma NewChoice(avgs: seq<real>, prev: seq<Segment>, card: nat, s: nat, best: real, known: bool, splitNo: int,
                  maxSplit: nat, mean1: real, mean2: real, max: real, split: nat, m1: real, m2: real)
    requires |avgs| == card && Within(prev, card) && s < |prev| && ValidCut(prev, s, split)
    requires known ==> splitNo >= 0 && ValidCut(prev, splitNo, maxSplit)
                       && ChoiceIsBest(avgs, prev, card, s, best, splitNo, maxSplit, mean1, mean2)
    requires !known ==> forall k :: 0 <= k < s ==> !Splittable(prev[k])
    requires CutIsBest(avgs, prev[s], card, max, split, m1, m2) && max > best
    ensures ChoiceIsBest(avgs, prev, card, s + 1, max, s, split, m1, m2)
  {
  }

  lemma OldChoice(avgs: seq<real>, prev: seq<Segment>, card: nat, s: nat, best: real, splitNo: int,
                  maxSplit: nat, mean1: real, mean2: real, max: real, split: nat, m1: real, m2: real)
    requires |avgs| == card && Within(prev, card) && s < |prev| && ValidCut(prev, s, split)
    requires 0 <= splitNo < s && ValidCut(prev, splitNo, maxSplit)
    requires ChoiceIsBest(avgs, prev, card, s, best, splitNo, maxSplit, mean1, mean2)
    requires CutIsBest(avgs, prev[s], card, max, split, m1, m2) && max <= best
    ensures ChoiceIsBest(avgs, prev, card, s + 1, best, splitNo, maxSplit, mean1, mean2)
  {
    forall t: nat, c: nat | t < s + 1 && ValidCut(prev, t, c)
      ensures TrueGain(avgs, card, prev[t], c) <= best && (t < splitNo ==> TrueGain(avgs, card, prev[t], c) < best)
    {
      OldCut(avgs, prev, card, s, best, splitNo, maxSplit, mean1, mean2, max, split, m1, m2, t, c);
    }
  }

  lemma OldCut(avgs: seq<real>, prev: seq<Segment>, card: nat, s: nat, best: real, splitNo: int, maxSplit: nat, mean1: real,
               mean2: real, max: real, split: nat, m1: real, m2: real, t: nat, c: nat)
    requires |avgs| == card && Within(prev, card) && s < |prev| && ValidCut(prev, s, split)
    requires 0 <= splitNo < s && ValidCut(prev, splitNo, maxSplit)
    requires ChoiceIsBest(avgs, prev, card, s, best, splitNo, maxSplit, mean1, mean2)
    requires CutIsBest(avgs, prev[s], card, max, split, m1, m2) && max <= best
    requires t <= s && ValidCut(prev, t, c)
    ensures TrueGain(avgs, card, prev[t], c) <= best && (t < splitNo ==> TrueGain(avgs, card, prev[t], c) < best)
  {
  }

  /** Where a segment is really cut: a split reported at its end is moved one to the left. */
  function CutPoint(seg: Segment, maxSplit: nat): nat
    requires Splittable(seg) && maxSplit <= seg.end
  {
    if maxSplit == seg.end then maxSplit - 1 else maxSplit
  }

  ghost function AnswerTotal(answers: seq<Answer>, n: nat): real
    requires n <= |answers|
  {
    if n == 0 then 0.0
    else AnswerTotal(answers, n - 1) + if answers[n - 1].Sampled? then answers[n - 1].avg else 0.0
  }

  lemma {:induction false} FirstTotal(groups: seq<Group>, start: seq<Group>, answers: seq<Answer>, n: nat)
    requires n <= |groups| == |start| == |answers|
    requires forall g :: 0 <= g < n ==>
               && start[g] == Group(0.0, 0, false) && start[g].Accepts(answers[g])
               && groups[g] == start[g].Resample(answers[g])
    ensures AnswerTotal(answers, n) == Sum(Averages(groups)[..n])
  {
    if n > 0 {
      FirstTotal(groups, start, answers, n - 1);
      FirstAverage(start[n - 1], answers[n - 1]);
      assert Averages(groups)[..n][..n - 1] == Averages(groups)[..n - 1];
    }
  }

  lemma FirstMean(groups: seq<Group>, start: seq<Group>, answers: seq<Answer>, card: nat, total: real, mean: real)
    requires 0 < card == |groups| == |start| == |answers|
    requires forall g :: 0 <= g < card ==>
               && start[g] == Group(0.0, 0, false) && start[g].Accepts(answers[g])
               && groups[g] == start[g].Resample(answers[g])
    requires total == AnswerTotal(answers, card) && mean == total / card as real
    ensures mean == Mean(Averages(groups))
  {
    FirstTotal(groups, start, answers, card);
    assert Averages(groups)[..card] == Averages(groups);
  }

  ghost predicate NoneOutBetween(groups: seq<Group>, start: nat, end: nat)
    requires end <= |groups|
  {
    forall i :: start <= i < end ==> !groups[i].exhausted
  }

  lemma NoneOutSoFar(before: seq<Group>, after: seq<Group>, start: nat, g: nat)
    requires start <= g < |before| == |after| && forall i :: 0 <= i < g ==> after[i] == before[i]
    ensures NoneOutBetween(after, start, g + 1) <==> NoneOutBetween(before, start, g) && !after[g].exhausted
  {
  }

  lemma TableSurvives(table: array2<real>, before: seq<Group>, after: seq<Group>, start: nat, g: nat)
    requires start <= g < |before| && |after| == |before|
    requires g - start <= table.Length0 && g - start <= table.Length1
    requires forall i :: 0 <= i < g ==> after[i] == before[i]
    ensures TableUpTo(table, Averages(before), start, g - start) ==>
              TableUpTo(table, Averages(after), start, g - start)
  {
    forall a: nat, b: nat | a <= b < g - start
      ensures IntervalSum(Averages(after), start, a, b) == IntervalSum(Averages(before), start, a, b)
    {
      assert Averages(after)[start + a..start + b + 1] == Averages(before)[start + a..start + b + 1];
    }
  }

  lemma SumToNext(avgs: seq<real>, lo: nat, hi: nat)
    requires lo <= hi < |avgs|
    ensures Sum(avgs[lo..hi + 1]) == Sum(avgs[lo..hi]) + avgs[hi]
  {
    assert avgs[lo..hi + 1][..hi - lo] == avgs[lo..hi];
  }

  lemma ScaleOrder(x: real, y: real, n: nat)
    requires x <= y
    ensures x * n as real <= y * n as real
  {
    ProductNonnegative(y - x, n as real);
    assert (y - x) * n as real == y * n as real - x * n as real;
  }

  /** What a segment's best cut is worth; it is the first of equals. */
  ghost predicate CutIsBest(avgs: seq<real>, seg: Segment, card: nat, max: real, cut: nat, mean1: real, mean2: real)
    requires seg.start <= cut < seg.end < card == |avgs|
  {
    && mean1 == Mean(avgs[seg.start..cut + 1])
    && mean2 == Mean(avgs[cut + 1..seg.end + 1])
    && max == TrueGain(avgs, card, seg, cut)
    && (forall c :: seg.start <= c < seg.end ==> TrueGain(avgs, card, seg, c) <= max)
    && (forall c :: seg.start <= c < cut ==> TrueGain(avgs, card, seg, c) < max)
  }

  /** No cut of the first `n` segments scores higher than the chosen one, and none of an earlier
      segment as high. */
  ghost predicate ChoiceIsBest(avgs: seq<real>, prev: seq<Segment>, card: nat, n: nat, globalMax: real,
                               s: nat, cut: nat, mean1: real, mean2: real)
    requires |avgs| == card && Within(prev, card) && n <= |prev| && ValidCut(prev, s, cut)
  {
    && CutIsBest(avgs, prev[s], card, globalMax, cut, mean1, mean2)
    && forall t: nat, c: nat :: t < n && ValidCut(prev, t, c) ==>
         && TrueGain(avgs, card, prev[t], c) <= globalMax
         && (t < s ==> TrueGain(avgs, card, prev[t], c) < globalMax)
  }

  /** A cut that makes a partition, with exact means and the least error if no group of a
      splittable segment ran out. */
  ghost predicate GoodCut(groups: seq<Group>, prev: seq<Segment>, card: nat, s: nat, cut: nat, mean1: real, mean2: real) {
    && Within(prev, card) && |groups| == card && ValidCut(prev, s, cut)
    && var made := SplitAt(prev, s, cut, mean1, mean2);
    && Tiles(made, card) && |made| == |prev| + 1
    && (AllSettled(groups, prev) ==>
          && mean1 == Mean(Cells(Averages(groups), Segment(prev[s].start, cut, mean1)))
          && mean2 == Mean(Cells(Averages(groups), Segment(cut + 1, prev[s].end, mean2)))
          && BestOneSplit(Averages(groups), prev, made))
  }

  lemma MakeGoodCut(groups: seq<Group>, prev: seq<Segment>, card: nat, s: nat, cut: nat, mean1: real, mean2: real)
    requires Tiles(prev, card) && |groups| == card && ValidCut(prev, s, cut)
    requires AllSettled(groups, prev) ==>
               exists best :: ChoiceIsBest(Averages(groups), prev, card, |prev|, best, s, cut, mean1, mean2)
    ensures GoodCut(groups, prev, card, s, cut, mean1, mean2)
  {
    SplitTiles(prev, card, s, cut, mean1, mean2);
    if AllSettled(groups, prev) {
      BestChoiceDropsMost(Averages(groups), prev, card, s, cut, mean1, mean2);
    }
  }

  lemma BestChoiceDropsMost(avgs: seq<real>, prev: seq<Segment>, card: nat, s: nat, cut: nat, mean1: real, mean2: real)
    requires |avgs| == card && Within(prev, card) && ValidCut(prev, s, cut)
    requires exists best :: ChoiceIsBest(avgs, prev, card, |prev|, best, s, cut, mean1, mean2)
    ensures BestOneSplit(avgs, prev, SplitAt(prev, s, cut, mean1, mean2))
    ensures mean1 == Mean(Cells(avgs, Segment(prev[s].start, cut, mean1)))
    ensures mean2 == Mean(Cells(avgs, Segment(cut + 1, prev[s].end, mean2)))
  {
    var best :| ChoiceIsBest(avgs, prev, card, |prev|, best, s, cut, mean1, mean2);
    forall t: nat, c: nat | ValidCut(prev, t, c)
      ensures Drop(avgs, prev[t], c) <= Drop(avgs, prev[s], cut)
    {
      GainRanksDrops(avgs, card, prev[t], c, prev[s], cut);
    }
    LargestDropIsBest(avgs, prev, s, cut, mean1, mean2);
  }

  lemma SameMeans(x: seq<real>, y: seq<real>, seg: Segment, c: nat)
    requires |x| == |y| && seg.start <= c < seg.end < |x|
    requires forall i :: seg.start <= i <= seg.end ==> x[i] == y[i]
    ensures x[seg.start..c + 1] == y[seg.start..c + 1] && x[c + 1..seg.end + 1] == y[c + 1..seg.end + 1]
  {
  }

  lemma SameGain(x: seq<real>, y: seq<real>, seg: Segment, card: nat, c: nat)
    requires |x| == |y| == card && seg.start <= c < seg.end < card
    requires forall i :: seg.start <= i <= seg.end ==> x[i] == y[i]
    ensures TrueGain(x, card, seg, c) == TrueGain(y, card, seg, c)
  {
    SameMeans(x, y, seg, c);
  }

  lemma CutCarriesOver(x: seq<real>, y: seq<real>, seg: Segment, card: nat, max: real, cut: nat, mean1: real, mean2: real)
    requires |x| == |y| == card && seg.start <= cut < seg.end < card
    requires forall i :: seg.start <= i <= seg.end ==> x[i] == y[i]
    requires CutIsBest(x, seg, card, max, cut, mean1, mean2)
    ensures CutIsBest(y, seg, card, max, cut, mean1, mean2)
  {
    SameMeans(x, y, seg, cut);
    forall c | seg.start <= c < seg.end
      ensures TrueGain(x, card, seg, c) == TrueGain(y, card, seg, c)
    {
      SameGain(x, y, seg, card, c);
    }
  }

  /** Where the first `s` segments end. */
  function Boundary(prev: seq<Segment>, card: nat, s: nat): nat
    requires s <= |prev|
  {
    if s < |prev| then prev[s].start else card
  }

  lemma BoundaryStep(prev: seq<Segment>, card: nat, s: nat)
    requires Tiles(prev, card) && s < |prev|
    ensures Boundary(prev, card, s) == prev[s].start && Boundary(prev, card, s + 1) == prev[s].end + 1
  {
    if s + 1 < |prev| {
      assert Linked(prev, s + 1);
    }
  }

  /** The groups of the first `s` segments have been resampled, the others not yet. */
  ghost predicate Progress(groups: seq<Group>, start: seq<Group>, target: seq<Group>, prev: seq<Segment>, card: nat, s: nat) {
    && s <= |prev| && |start| == |target| == |groups| == card
    && forall g :: 0 <= g < card ==> groups[g] == if g < Boundary(prev, card, s) then target[g] else start[g]
  }

  lemma ProgressStarts(groups: seq<Group>, target: seq<Group>, prev: seq<Segment>, card: nat, answers: seq<Answer>)
    requires |groups| == |answers| == card && (prev == [] || Tiles(prev, card))
    requires forall g :: 0 <= g < card ==> groups[g].Accepts(answers[g])
    requires target == Resampled(groups, prev, answers)
    ensures Progress(groups, groups, target, prev, card, 0)
  {
    if prev != [] {
      assert Linked(prev, 0);
    }
  }

  lemma ProgressSkips(groups: seq<Group>, start: seq<Group>, target: seq<Group>, prev: seq<Segment>, card: nat,
                      answers: seq<Answer>, s: nat)
    requires Tiles(prev, card) && s < |prev| && !Splittable(prev[s]) && |answers| == card
    requires Progress(groups, start, target, prev, card, s)
    requires forall g :: 0 <= g < card ==> start[g].Accepts(answers[g])
    requires target == Resampled(start, prev, answers)
    ensures Progress(groups, start, target, prev, card, s + 1)
  {
    BoundaryStep(prev, card, s);
    TargetOnSegment(groups, start, target, prev, card, answers, s);
  }

  lemma ProgressEnds(groups: seq<Group>, start: seq<Group>, target: seq<Group>, prev: seq<Segment>, card: nat)
    requires Progress(groups, start, target, prev, card, |prev|)
    ensures groups == target
  {
  }

  lemma TargetOnSegment(groups: seq<Group>, start: seq<Group>, target: seq<Group>, prev: seq<Segment>, card: nat,
                        answers: seq<Answer>, s: nat)
    requires Tiles(prev, card) && s < |prev| && |groups| == |start| == |answers| == card
    requires forall g :: 0 <= g < card ==> start[g].Accepts(answers[g])
    requires target == Resampled(start, prev, answers)
    requires forall g :: 0 <= g < card ==>
               groups[g] == if g < prev[s].start then target[g] else start[g]
    ensures forall g :: 0 <= g < card && Contains(prev[s], g) ==>
              target[g] == if Splittable(prev[s]) then groups[g].Resample(answers[g]) else groups[g]
    ensures forall g :: 0 <= g < card ==> groups[g].Accepts(answers[g])
  {
    forall g | 0 <= g < card && Contains(prev[s], g)
      ensures Refinable(prev, g) <==> Splittable(prev[s])
    {
      RefinableInSegment(prev, card, s, g);
    }
    forall g | 0 <= g < card ensures groups[g].Accepts(answers[g]) {
    }
  }
}
