/** A whole trend-line session: steps on the server, deltas published, the client's view. */
module TrendSession {
  import opened Delta
  import opened Samples
  import opened Segments
  import opened TrendLine

  /** A segment as shown to the user, in attribute values. */
  datatype Shown = Shown(b: int, e: int, a: real)

  predicate OnAxis(g: Segment, groupMap: seq<int>) {
    g.start < |groupMap| && g.end < |groupMap|
  }

  /** The entry gives the attribute values of the segment's ends, and its mean. */
  ghost predicate Displays(e: Shown, groupMap: seq<int>, g: Segment) {
    OnAxis(g, groupMap) && e.b == groupMap[g.start] && e.e == groupMap[g.end] && e.a == g.mean
  }

  /** The view gives the segments one by one. */
  ghost predicate DisplaysAll(view: seq<Shown>, groupMap: seq<int>, segs: seq<Segment>) {
    |view| == |segs| && forall k :: 0 <= k < |view| ==> Displays(view[k], groupMap, segs[k])
  }

  ghost predicate Ascending(values: seq<int>) {
    forall i, j :: 0 <= i < j < |values| ==> values[i] < values[j]
  }

  ghost predicate Spans(e: Shown, v: int) {
    e.b <= v <= e.e
  }

  /** The ranges of the view follow one another and every attribute value lies in one of them. */
  ghost predicate CoversValues(view: seq<Shown>, values: seq<int>) {
    && (forall k :: 0 <= k < |view| ==> view[k].b <= view[k].e)
    && (forall j, k :: 0 <= j < k < |view| ==> view[j].e < view[k].b)
    && (forall g :: 0 <= g < |values| ==> exists k :: 0 <= k < |view| && Spans(view[k], values[g]))
  }

  /** A partition shown over increasing values covers each of them once. */
  lemma ViewCovers(view: seq<Shown>, groupMap: seq<int>, segs: seq<Segment>)
    requires Tiles(segs, |groupMap|) && DisplaysAll(view, groupMap, segs) && Ascending(groupMap)
    ensures CoversValues(view, groupMap)
  {
    forall k | 0 <= k < |view| ensures view[k].b <= view[k].e {
      assert Displays(view[k], groupMap, segs[k]);
    }
    forall j, k | 0 <= j < k < |view| ensures view[j].e < view[k].b {
      TilesInOrder(segs, |groupMap|, j, k);
      assert Displays(view[j], groupMap, segs[j]) && Displays(view[k], groupMap, segs[k]);
    }
    forall g | 0 <= g < |groupMap| ensures exists k :: 0 <= k < |view| && Spans(view[k], groupMap[g]) {
      var k := GroupHasOneSegment(segs, |groupMap|, g);
      assert Displays(view[k], groupMap, segs[k]);
      assert Spans(view[k], groupMap[g]);
    }
  }

  /** A segment as it is to be shown. */
  ghost function Show(groupMap: seq<int>, g: Segment): Shown
    requires OnAxis(g, groupMap)
  {
    Shown(groupMap[g.start], groupMap[g.end], g.mean)
  }

  ghost function ShowAll(groupMap: seq<int>, segs: seq<Segment>): seq<Shown>
    requires forall k :: 0 <= k < |segs| ==> OnAxis(segs[k], groupMap)
  {
    seq(|segs|, k requires 0 <= k < |segs| => Show(groupMap, segs[k]))
  }

  /** What the fields say was made last: one segment before any split, then two. */
  ghost function LastPieces(t: Trend): seq<Segment>
    reads t
  {
    if t.splitSeg == -1 then [t.firstNewSegment] else [t.firstNewSegment, t.secondNewSegment]
  }

  /** The position of the first of them in the client's view. */
  ghost function LastPlace(t: Trend): int
    reads t
  {
    if t.splitSeg == -1 then 0 else t.splitSeg
  }

  /** The entry shows the k-th piece at its place. */
  ghost predicate PackedAs(e: Entry<Shown>, groupMap: seq<int>, pieces: seq<Segment>, place: int, k: nat) {
    place >= 0 && k < |pieces| && e.n == place + k && Displays(e.item, groupMap, pieces[k])
  }

  /** Packs the first or the second new segment; there is no second one before the first split. */
  method PackSegmentResult(t: Trend, groupMap: seq<int>, isSecond: bool) returns (r: Entry<Shown>)
    requires t.splitSeg >= -1
    requires OnAxis(if isSecond then t.secondNewSegment else t.firstNewSegment, groupMap)
    ensures (if isSecond then 1 else 0) < |LastPieces(t)| ==>
              PackedAs(r, groupMap, LastPieces(t), LastPlace(t), if isSecond then 1 else 0)
  {
    if !isSecond {
      var segNo := t.splitSeg;
      if t.splitSeg == -1 {
        segNo := 0;
      }
      r := Entry(segNo, Shown(groupMap[t.firstNewSegment.start], groupMap[t.firstNewSegment.end], t.firstNewSegment.mean));
    } else {
      r := Entry(t.splitSeg + 1,
                 Shown(groupMap[t.secondNewSegment.start], groupMap[t.secondNewSegment.end], t.secondNewSegment.mean));
    }
  }

  /** The published delta: all pieces made last, from their place on. */
  method Publish(t: Trend, groupMap: seq<int>) returns (delta: seq<Entry<Shown>>)
    requires t.splitSeg >= -1 && forall k :: 0 <= k < |LastPieces(t)| ==> OnAxis(LastPieces(t)[k], groupMap)
    ensures delta != [] && Numbered(delta, delta[0].n) && delta[0].n == LastPlace(t)
    ensures Items(delta) == ShowAll(groupMap, LastPieces(t))
  {
    assert OnAxis(LastPieces(t)[0], groupMap);
    var first := PackSegmentResult(t, groupMap, false);
    delta := [first];
    if t.splitSeg != -1 {
      assert OnAxis(LastPieces(t)[1], groupMap);
      var second := PackSegmentResult(t, groupMap, true);
      delta := delta + [second];
    }
  }

  /** Replaying the delta of a splitting step turns the old partition into the new one. */
  lemma ReplayOfSplit(groupMap: seq<int>, prev: seq<Segment>, made: seq<Segment>, s: nat, pieces: seq<Segment>)
    requires Within(prev, |groupMap|) && Within(made, |groupMap|) && s < |prev|
    requires forall k :: 0 <= k < |pieces| ==> OnAxis(pieces[k], groupMap)
    requires made == prev[..s] + pieces + prev[s + 1..]
    ensures ShowAll(groupMap, made)
         == ShowAll(groupMap, prev)[..s] + ShowAll(groupMap, pieces) + ShowAll(groupMap, prev)[s + 1..]
  {
  }

  ghost predicate MeansBounded(segs: seq<Segment>, lo: real, hi: real) {
    forall k :: 0 <= k < |segs| ==> lo <= segs[k].mean <= hi
  }

  /** What holds after step `i`. Up to step `card` the client's view is the server's partition
      into `i` segments; later steps publish the last split again. */
  ghost predicate InStep(t: Trend, groupMap: seq<int>, made: seq<Segment>, view: seq<Shown>, i: nat)
    reads t
  {
    && t.Valid() && !t.firstIteration && |groupMap| == t.card && i > 0
    && PublishedOk(t, i)
    && t.Kept(i) == (if i < t.card || (t.card == 1 && i == 1) then made else [])
    && (forall k :: k > i ==> k !in t.kBest)
    && (i <= t.card ==>
          && Tiles(made, t.card) && |made| == i
          && view == ShowAll(groupMap, made)
          && MeansBounded(made, t.avgMin, t.avgMax))
    && (if t.card == 1 then view == [Show(groupMap, t.firstNewSegment)] else |view| == i)
  }

  /** What is left to publish after step `i`. */
  ghost predicate PublishedOk(t: Trend, i: nat)
    reads t
  {
    && InRange(t.firstNewSegment, t.card)
    && (if i == 1 || t.card == 1 then t.splitSeg == -1
        else 0 <= t.splitSeg < i - 1 && InRange(t.secondNewSegment, t.card))
  }

  predicate InRange(g: Segment, n: nat) {
    g.start <= g.end < n
  }

  method FirstRound(t: Trend, groupMap: seq<int>, answers: seq<Answer>) returns (ghost made: seq<Segment>, view: seq<Shown>)
    requires t.Valid() && t.firstIteration && t.kBest == map[] && |groupMap| == |answers| == t.card
    requires forall g :: 0 <= g < t.card ==> t.groups[g].Accepts(answers[g])
    modifies t, t.avgMap
    ensures InStep(t, groupMap, made, view, 1)
    ensures forall g :: 0 <= g < t.card ==> t.groups[g] == old(t.groups)[g].Resample(answers[g])
  {
    var m := t.GenHisto(1, answers);
    made := m;
    var delta := Publish(t, groupMap);
    view := Replay([], delta);
    assert view == ShowAll(groupMap, made);
  }

  /** A step up to `card`: some segment splits, and the view follows. */
  method SplitRound(t: Trend, groupMap: seq<int>, i: nat, answers: seq<Answer>, ghost prev: seq<Segment>, view: seq<Shown>)
    returns (ghost made: seq<Segment>, next: seq<Shown>)
    requires 1 < i <= t.card && InStep(t, groupMap, prev, view, i - 1) && |answers| == t.card
    requires forall g :: 0 <= g < t.card ==> t.groups[g].Accepts(answers[g])
    modifies t, t.avgMap
    ensures InStep(t, groupMap, made, next, i)
    ensures t.SplitDone(prev, made, old(t.avgMin), old(t.avgMax))
    ensures t.groups == Resampled(old(t.groups), prev, answers)
    ensures Started(old(t.groups)) ==> Started(t.groups)
  {
    StartedStays(t.groups, prev, answers);
    assert t.Kept(i - 1) == prev;
    var m := t.GenHisto(i, answers);
    made := m;
    next := ShowSplit(t, groupMap, i, prev, made, old(t.avgMin), old(t.avgMax), view);
  }

  lemma SplitFits(t: Trend, groupMap: seq<int>, prev: seq<Segment>, made: seq<Segment>, oldMin: real, oldMax: real)
    requires t.SplitDone(prev, made, oldMin, oldMax) && |groupMap| == t.card
    ensures 0 <= t.splitSeg == LastPlace(t) < |prev| && Within(prev, t.card)
    ensures forall k :: 0 <= k < |LastPieces(t)| ==> OnAxis(LastPieces(t)[k], groupMap)
  {
  }

  /** The delta of a splitting step, and the view after it. */
  method ShowSplit(t: Trend, groupMap: seq<int>, ghost i: nat, ghost prev: seq<Segment>, ghost made: seq<Segment>,
                   ghost oldMin: real, ghost oldMax: real, view: seq<Shown>)
    returns (next: seq<Shown>)
    requires t.Valid() && !t.firstIteration && |groupMap| == t.card && 1 < i <= t.card
    requires t.SplitDone(prev, made, oldMin, oldMax) && MeansBounded(prev, oldMin, oldMax) && |prev| == i - 1
    requires t.Kept(i) == (if i < t.card then made else []) && forall k :: k > i ==> k !in t.kBest
    requires view == ShowAll(groupMap, prev)
    ensures InStep(t, groupMap, made, next, i)
  {
    SplitFits(t, groupMap, prev, made, oldMin, oldMax);
    var delta := Publish(t, groupMap);
    next := Replay(view, delta);
    InStepAfterSplit(t, groupMap, prev, made, i, oldMin, oldMax, view, next);
  }

  lemma InStepAfterSplit(t: Trend, groupMap: seq<int>, prev: seq<Segment>, made: seq<Segment>, i: nat,
                         oldMin: real, oldMax: real, view: seq<Shown>, next: seq<Shown>)
    requires t.Valid() && !t.firstIteration && |groupMap| == t.card && 1 < i <= t.card
    requires t.SplitDone(prev, made, oldMin, oldMax) && MeansBounded(prev, oldMin, oldMax) && |prev| == i - 1
    requires t.Kept(i) == (if i < t.card then made else []) && forall k :: k > i ==> k !in t.kBest
    requires view == ShowAll(groupMap, prev) && forall k :: 0 <= k < |LastPieces(t)| ==> OnAxis(LastPieces(t)[k], groupMap)
    requires next == view[..LastPlace(t)] + ShowAll(groupMap, LastPieces(t)) + view[LastPlace(t) + 1..]
    ensures InStep(t, groupMap, made, next, i)
  {
    SplitIsPublishable(t, prev, made, i, oldMin, oldMax);
    ReplayOfSplit(groupMap, prev, made, LastPlace(t), LastPieces(t));
  }

  lemma SplitIsPublishable(t: Trend, prev: seq<Segment>, made: seq<Segment>, i: nat, oldMin: real, oldMax: real)
    requires t.SplitDone(prev, made, oldMin, oldMax) && MeansBounded(prev, oldMin, oldMax)
    requires |prev| == i - 1 && 1 < i <= t.card
    ensures PublishedOk(t, i) && MeansBounded(made, t.avgMin, t.avgMax) && |made| == i
    ensures LastPlace(t) == t.splitSeg && made == prev[..LastPlace(t)] + LastPieces(t) + prev[LastPlace(t) + 1..]
  {
    assert made[t.splitSeg] == t.firstNewSegment && made[t.splitSeg + 1] == t.secondNewSegment;
    BoundsWiden(prev, made, t.splitSeg, oldMin, oldMax, t.avgMin, t.avgMax);
  }

  lemma BoundsWiden(prev: seq<Segment>, made: seq<Segment>, s: nat, lo: real, hi: real, lo': real, hi': real)
    requires MeansBounded(prev, lo, hi) && s < |prev| && |made| == |prev| + 1
    requires made == prev[..s] + [made[s], made[s + 1]] + prev[s + 1..]
    requires lo' == Min(lo, Min(made[s].mean, made[s + 1].mean))
    requires hi' == Max(hi, Max(made[s].mean, made[s + 1].mean))
    ensures MeansBounded(made, lo', hi')
  {
    forall k | 0 <= k < |made| ensures lo' <= made[k].mean <= hi' {
      if k < s {
        assert made[k] == prev[k];
      } else if k > s + 1 {
        assert made[k] == prev[k - 1];
      }
    }
  }

  /** A step beyond `card`: nothing is left to split, and the last delta is published again. */
  method StaleRound(t: Trend, groupMap: seq<int>, i: nat, answers: seq<Answer>, ghost prev: seq<Segment>, view: seq<Shown>)
    returns (ghost made: seq<Segment>, next: seq<Shown>)
    requires t.card < i && i > 1 && InStep(t, groupMap, prev, view, i - 1) && |answers| == t.card
    requires forall g :: 0 <= g < t.card ==> t.groups[g].Accepts(answers[g])
    modifies t, t.avgMap
    ensures InStep(t, groupMap, made, next, i)
    ensures Started(old(t.groups)) ==> Started(t.groups)
  {
    var m := t.GenHisto(i, answers);
    made := m;
    StartedStays(old(t.groups), old(t.Kept(i - 1)), answers);
    var delta := Publish(t, groupMap);
    next := Replay(view, delta);
  }

  /** Counts that keep every group's mean defined: the first query of a group draws something. */
  ghost predicate Samplable(answers: seq<seq<Answer>>, card: nat) {
    && (forall i :: 0 <= i < |answers| ==> |answers[i]| == card)
    && (answers != [] ==> forall g :: 0 <= g < card && answers[0][g].Sampled? ==> answers[0][g].count > 0)
  }

  /** Every group has samples behind it or has run out. */
  ghost predicate Started(groups: seq<Group>) {
    forall g :: 0 <= g < |groups| ==> groups[g].exhausted || groups[g].num > 0
  }

  lemma StartedStays(groups: seq<Group>, segs: seq<Segment>, answers: seq<Answer>)
    requires |answers| == |groups|
    requires forall g :: 0 <= g < |groups| ==> groups[g].Accepts(answers[g])
    ensures Started(groups) ==> Started(Resampled(groups, segs, answers))
  {
  }

  lemma SessionShows(groupMap: seq<int>, made: seq<Segment>, view: seq<Shown>, inStep: bool)
    requires inStep ==> Tiles(made, |groupMap|) && view == ShowAll(groupMap, made)
    ensures inStep ==> DisplaysAll(view, groupMap, made) && (Ascending(groupMap) ==> CoversValues(view, groupMap))
  {
    if inStep && Ascending(groupMap) {
      ViewCovers(view, groupMap, made);
    }
  }

  /** A session of any length. The client's view is the server's partition exactly as long as
      the number of steps does not exceed the number of groups: after that the view of two or
      more groups keeps growing beyond what any partition of them can hold. */
  method Session(card: nat, groupMap: seq<int>, answers: seq<seq<Answer>>)
    returns (t: Trend, ghost made: seq<Segment>, view: seq<Shown>)
    requires card > 0 && |groupMap| == card && answers != [] && Samplable(answers, card)
    ensures t.card == card && InStep(t, groupMap, made, view, |answers|)
    ensures |answers| <= card ==> Tiles(made, card) && |made| == |answers| && DisplaysAll(view, groupMap, made)
    ensures |answers| <= card && Ascending(groupMap) ==> CoversValues(view, groupMap)
    ensures card < |answers| && card > 1 ==> |view| == |answers| > card
  {
    t := new Trend(card);
    made, view := FirstRound(t, groupMap, answers[0]);
    var i := 1;
    while i < |answers|
      invariant 1 <= i <= |answers|
      invariant fresh(t) && fresh(t.avgMap) && t.card == card
      invariant InStep(t, groupMap, made, view, i)
      invariant Started(t.groups)
    {
      i := i + 1;
      if i <= card {
        made, view := SplitRound(t, groupMap, i, answers[i - 1], made, view);
      } else {
        made, view := StaleRound(t, groupMap, i, answers[i - 1], made, view);
      }
    }
    SessionShows(groupMap, made, view, |answers| <= card);
  }
}
