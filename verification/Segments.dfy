/** Partitions of a line of groups into segments, and what one split does to their error. */
module Segments {
  import opened SquaredError
  import opened Totals

  /** Groups `start` to `end`, both included. */
  datatype Segment = Segment(start: nat, end: nat, mean: real)

  predicate Splittable(g: Segment) {
    g.end > g.start
  }

  predicate Contains(g: Segment, i: nat) {
    g.start <= i <= g.end
  }

  /** Every segment is a nonempty range among the first `n` groups. */
  ghost predicate Within(segs: seq<Segment>, n: nat) {
    forall k :: 0 <= k < |segs| ==> segs[k].start <= segs[k].end < n
  }

  ghost predicate Linked(segs: seq<Segment>, k: nat)
    requires k < |segs|
  {
    segs[k].start == if k == 0 then 0 else segs[k - 1].end + 1
  }

  /** The segments are nonempty, in order, and cover groups 0 to card - 1 exactly. */
  ghost predicate Tiles(segs: seq<Segment>, card: nat) {
    && |segs| > 0
    && Within(segs, card)
    && (forall k :: 0 <= k < |segs| ==> Linked(segs, k))
    && segs[|segs| - 1].end == card - 1
  }

  lemma {:induction false} TilesInOrder(segs: seq<Segment>, card: nat, j: nat, k: nat)
    requires Tiles(segs, card) && j < k < |segs|
    ensures segs[j].end < segs[k].start
    decreases k
  {
    assert Linked(segs, k);
    if j < k - 1 {
      TilesInOrder(segs, card, j, k - 1);
    }
  }

  /** Each group lies in exactly one segment. */
  lemma GroupHasOneSegment(segs: seq<Segment>, card: nat, i: nat) returns (k: nat)
    requires Tiles(segs, card) && i < card
    ensures k < |segs| && Contains(segs[k], i)
    ensures forall j :: 0 <= j < |segs| && Contains(segs[j], i) ==> j == k
  {
    k := 0;
    assert Linked(segs, 0);
    while segs[k].end < i
      invariant k < |segs| && segs[k].start <= i
      decreases |segs| - k
    {
      assert Linked(segs, k + 1);
      k := k + 1;
    }
    forall j | 0 <= j < |segs| && Contains(segs[j], i) ensures j == k {
      if j < k {
        TilesInOrder(segs, card, j, k);
      } else if k < j {
        TilesInOrder(segs, card, k, j);
      }
    }
  }

  /** Pigeonhole: fewer segments than groups leaves a segment with two groups. */
  lemma SomeSegmentSplits(segs: seq<Segment>, card: nat)
    requires Tiles(segs, card) && |segs| < card
    ensures exists k :: 0 <= k < |segs| && Splittable(segs[k])
  {
    var k := 0;
    assert Linked(segs, 0);
    while k < |segs| - 1 && !Splittable(segs[k])
      invariant k < |segs| && segs[k].start == k
    {
      assert Linked(segs, k + 1);
      k := k + 1;
    }
    assert Splittable(segs[k]);
  }

  /** Never more segments than groups. */
  lemma {:induction false} AtMostCard(segs: seq<Segment>, card: nat, k: nat)
    requires Tiles(segs, card) && k < |segs|
    ensures k <= segs[k].start
  {
    assert Linked(segs, k);
    if k > 0 {
      AtMostCard(segs, card, k - 1);
    }
  }

  /** As many segments as groups means one group each. */
  lemma FullTilingIsSingles(segs: seq<Segment>, card: nat)
    requires Tiles(segs, card) && |segs| == card
    ensures forall k :: 0 <= k < |segs| ==> !Splittable(segs[k])
  {
    forall k | 0 <= k < |segs| ensures !Splittable(segs[k]) {
      AtMostCard(segs, card, k);
      RoomAfter(segs, card, k);
    }
  }

  lemma {:induction false} RoomAfter(segs: seq<Segment>, card: nat, k: nat)
    requires Tiles(segs, card) && k < |segs|
    ensures segs[k].end + (|segs| - k) <= card
    decreases |segs| - k
  {
    if k < |segs| - 1 {
      assert Linked(segs, k + 1);
      RoomAfter(segs, card, k + 1);
    }
  }

  // ---------- one split ----------

  ghost predicate ValidCut(segs: seq<Segment>, s: nat, cut: nat) {
    s < |segs| && segs[s].start <= cut < segs[s].end
  }

  function SplitAt(segs: seq<Segment>, s: nat, cut: nat, mean1: real, mean2: real): seq<Segment>
    requires s < |segs|
  {
    segs[..s]
    + [Segment(segs[s].start, cut, mean1), Segment(cut + 1, segs[s].end, mean2)]
    + segs[s + 1..]
  }

  lemma SplitTiles(segs: seq<Segment>, card: nat, s: nat, cut: nat, mean1: real, mean2: real)
    requires Tiles(segs, card) && ValidCut(segs, s, cut)
    ensures Tiles(SplitAt(segs, s, cut, mean1, mean2), card)
    ensures |SplitAt(segs, s, cut, mean1, mean2)| == |segs| + 1
  {
    var t := SplitAt(segs, s, cut, mean1, mean2);
    assert forall k :: 0 <= k < s ==> t[k] == segs[k];
    assert forall k :: s + 2 <= k < |t| ==> t[k] == segs[k - 1];
    assert Within(t, card);
    forall k | 0 <= k < |t| ensures Linked(t, k) {
      if k <= s {
        assert Linked(segs, k);
      } else if k > s + 1 {
        assert Linked(segs, k - 1);
      }
    }
  }

  // ---------- squared error of a partition ----------

  function Cells(avgs: seq<real>, g: Segment): seq<real>
    requires g.start <= g.end < |avgs|
  {
    avgs[g.start..g.end + 1]
  }

  ghost function SegmentError(avgs: seq<real>, g: Segment): real {
    if g.start <= g.end < |avgs| then Error(Cells(avgs, g)) else 0.0
  }

  /** The squared error of a whole partition. */
  ghost function TotalError(avgs: seq<real>, segs: seq<Segment>): real {
    TotalBy((g: Segment) => SegmentError(avgs, g), segs)
  }

  // Whatever is summed over segments, a cut changes only its own segment's share.
  lemma TotalBySplit(err: Segment -> real, segs: seq<Segment>, s: nat, cut: nat, mean1: real, mean2: real, drop: real)
    requires s < |segs|
    requires err(Segment(segs[s].start, cut, mean1)) + err(Segment(cut + 1, segs[s].end, mean2)) == err(segs[s]) - drop
    ensures TotalBy(err, SplitAt(segs, s, cut, mean1, mean2)) == TotalBy(err, segs) - drop
  {
    var l, r := Segment(segs[s].start, cut, mean1), Segment(cut + 1, segs[s].end, mean2);
    TotalByReplace(err, segs, s, [l, r]);
    TotalByFew(err, l, r);
  }

  /** How much a cut lowers the error of its segment. */
  ghost function Drop(avgs: seq<real>, g: Segment, cut: nat): real
    requires g.start <= cut < g.end < |avgs|
  {
    var a, b := avgs[g.start..cut + 1], avgs[cut + 1..g.end + 1];
    Reduction(|a| as real, Mean(a), |b| as real, Mean(b))
  }

  lemma CutDropsError(avgs: seq<real>, g: Segment, l: Segment, r: Segment)
    requires g.start <= l.end < g.end < |avgs|
    requires l.start == g.start && r.start == l.end + 1 && r.end == g.end
    ensures SegmentError(avgs, l) + SegmentError(avgs, r) == SegmentError(avgs, g) - Drop(avgs, g, l.end)
  {
    assert Cells(avgs, g) == Cells(avgs, l) + Cells(avgs, r);
    SplitLowersError(Cells(avgs, l), Cells(avgs, r));
  }

  lemma SplitDropsError(avgs: seq<real>, segs: seq<Segment>, s: nat, cut: nat, mean1: real, mean2: real)
    requires Within(segs, |avgs|) && ValidCut(segs, s, cut)
    ensures TotalError(avgs, SplitAt(segs, s, cut, mean1, mean2))
         == TotalError(avgs, segs) - Drop(avgs, segs[s], cut)
  {
    var l, r := Segment(segs[s].start, cut, mean1), Segment(cut + 1, segs[s].end, mean2);
    CutDropsError(avgs, segs[s], l, r);
    TotalBySplit((g: Segment) => SegmentError(avgs, g), segs, s, cut, mean1, mean2, Drop(avgs, segs[s], cut));
  }

  /** No other single split of any segment leaves a smaller squared error. */
  ghost predicate BestOneSplit(avgs: seq<real>, segs: seq<Segment>, made: seq<Segment>) {
    forall s: nat, cut: nat, a, b ::
      ValidCut(segs, s, cut) ==> TotalError(avgs, made) <= TotalError(avgs, SplitAt(segs, s, cut, a, b))
  }

  lemma LargestDropIsBest(avgs: seq<real>, segs: seq<Segment>, s: nat, cut: nat, mean1: real, mean2: real)
    requires Within(segs, |avgs|) && ValidCut(segs, s, cut)
    requires forall t: nat, c: nat :: ValidCut(segs, t, c) ==> Drop(avgs, segs[t], c) <= Drop(avgs, segs[s], cut)
    ensures BestOneSplit(avgs, segs, SplitAt(segs, s, cut, mean1, mean2))
  {
    SplitDropsError(avgs, segs, s, cut, mean1, mean2);
    forall t: nat, c: nat, a, b | ValidCut(segs, t, c)
      ensures TotalError(avgs, SplitAt(segs, s, cut, mean1, mean2)) <= TotalError(avgs, SplitAt(segs, t, c, a, b))
    {
      SplitDropsError(avgs, segs, t, c, a, b);
    }
  }
}
