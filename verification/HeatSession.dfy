/** A whole heat-map session: steps on the server, deltas published, the client's view. */
module HeatSession {
  import opened Delta
  import opened HeatMap
  import opened HeatSearch
  import opened Quadrants
  import opened Samples

  /** A quadrant as shown to the user, in attribute values. */
  datatype Shown = Shown(xb: int, xe: int, yb: int, ye: int, a: real)

  /** Attribute values of the columns and of the rows. */
  datatype Axes = Axes(xs: seq<int>, ys: seq<int>)

  ghost predicate OnAxes(q: Quadrant, axes: Axes) {
    Fits(q, |axes.xs|, |axes.ys|)
  }

  /** The entry gives the attribute values of the quadrant's four sides, and its mean. */
  ghost predicate Displays(e: Shown, axes: Axes, q: Quadrant) {
    && OnAxes(q, axes)
    && e.xb == axes.xs[q.xs] && e.xe == axes.xs[q.xe] && e.yb == axes.ys[q.ys] && e.ye == axes.ys[q.ye]
    && e.a == q.mean
  }

  /** The view gives the quadrants one by one. */
  ghost predicate DisplaysAll(view: seq<Shown>, axes: Axes, quads: seq<Quadrant>) {
    |view| == |quads| && forall k :: 0 <= k < |view| ==> Displays(view[k], axes, quads[k])
  }

  ghost predicate Ascending(values: seq<int>) {
    forall i, j :: 0 <= i < j < |values| ==> values[i] < values[j]
  }

  ghost predicate Spans(e: Shown, v: int, w: int) {
    e.xb <= v <= e.xe && e.yb <= w <= e.ye
  }

  /** Every pair of attribute values lies in exactly one region of the view. */
  ghost predicate CoversValues(view: seq<Shown>, axes: Axes) {
    forall x, y :: 0 <= x < |axes.xs| && 0 <= y < |axes.ys| ==>
      && (exists k :: 0 <= k < |view| && Spans(view[k], axes.xs[x], axes.ys[y]))
      && (forall j, k :: 0 <= j < k < |view| && Spans(view[j], axes.xs[x], axes.ys[y]) ==>
            !Spans(view[k], axes.xs[x], axes.ys[y]))
  }

  lemma SpansIffHolds(e: Shown, axes: Axes, q: Quadrant, x: nat, y: nat)
    requires Displays(e, axes, q) && Ascending(axes.xs) && Ascending(axes.ys) && x < |axes.xs| && y < |axes.ys|
    ensures Spans(e, axes.xs[x], axes.ys[y]) <==> Quadrants.Holds(q, x, y)
  {
  }

  /** A partition shown over increasing values covers each pair of them once. */
  lemma ViewCovers(view: seq<Shown>, axes: Axes, quads: seq<Quadrant>)
    requires Partition(quads, |axes.xs|, |axes.ys|) && DisplaysAll(view, axes, quads)
    requires Ascending(axes.xs) && Ascending(axes.ys)
    ensures CoversValues(view, axes)
  {
    PartitionCoversOnce(quads, |axes.xs|, |axes.ys|);
    forall x, y | 0 <= x < |axes.xs| && 0 <= y < |axes.ys|
      ensures exists k :: 0 <= k < |view| && Spans(view[k], axes.xs[x], axes.ys[y])
      ensures forall j, k :: 0 <= j < k < |view| && Spans(view[j], axes.xs[x], axes.ys[y]) ==>
                !Spans(view[k], axes.xs[x], axes.ys[y])
    {
      forall k | 0 <= k < |view| ensures Spans(view[k], axes.xs[x], axes.ys[y]) <==> Quadrants.Holds(quads[k], x, y) {
        SpansIffHolds(view[k], axes, quads[k], x, y);
      }
      assert Owned(quads, x, y);
    }
  }

  /** A quadrant as it is to be shown. */
  ghost function Show(axes: Axes, q: Quadrant): Shown
    requires OnAxes(q, axes)
  {
    Shown(axes.xs[q.xs], axes.xs[q.xe], axes.ys[q.ys], axes.ys[q.ye], q.mean)
  }

  lemma DisplaysIff(view: seq<Shown>, axes: Axes, quads: seq<Quadrant>)
    requires AllFit(quads, |axes.xs|, |axes.ys|)
    ensures DisplaysAll(view, axes, quads) <==> view == ShowAll(axes, quads)
  {
    if DisplaysAll(view, axes, quads) {
      forall k | 0 <= k < |view| ensures view[k] == ShowAll(axes, quads)[k] {
        assert Displays(view[k], axes, quads[k]);
      }
    }
  }

  ghost function ShowAll(axes: Axes, quads: seq<Quadrant>): seq<Shown>
    requires AllFit(quads, |axes.xs|, |axes.ys|)
  {
    seq(|quads|, k requires 0 <= k < |quads| => Show(axes, quads[k]))
  }

  /** What the fields say was cut last: one region before any cut, then two or four. */
  ghost function LastPieces(t: Heat): seq<Quadrant>
    reads t
  {
    if t.splitQuad == -1 then [t.firstNew]
    else if t.isTwoSeg then [t.firstNew, t.secondNew]
    else [t.firstNew, t.secondNew, t.thirdNew, t.fourthNew]
  }

  ghost function LastPlace(t: Heat): int
    reads t
  {
    if t.splitQuad == -1 then 0 else t.splitQuad
  }

  method PackCellResult(t: Heat, axes: Axes, cellNo: nat) returns (r: Entry<Shown>)
    requires t.splitQuad >= -1 && 1 <= cellNo <= |LastPieces(t)|
    requires AllFit(LastPieces(t), |axes.xs|, |axes.ys|)
    ensures PackedAs(r, axes, LastPieces(t), LastPlace(t), cellNo - 1)
  {
    assert OnAxes(LastPieces(t)[cellNo - 1], axes);
    var quadNo := t.splitQuad;
    var q;
    if cellNo == 1 {
      if t.splitQuad == -1 {
        quadNo := 0;
      }
      q := t.firstNew;
    } else if cellNo == 2 {
      quadNo, q := t.splitQuad + 1, t.secondNew;
    } else if cellNo == 3 {
      quadNo, q := t.splitQuad + 2, t.thirdNew;
    } else {
      quadNo, q := t.splitQuad + 3, t.fourthNew;
    }
    r := Entry(quadNo, Shown(axes.xs[q.xs], axes.xs[q.xe], axes.ys[q.ys], axes.ys[q.ye], q.mean));
  }

  /** The published delta: one, two or four regions. */
  method Publish(t: Heat, axes: Axes) returns (delta: seq<Entry<Shown>>)
    requires t.splitQuad >= -1 && !t.isOneCell && AllFit(LastPieces(t), |axes.xs|, |axes.ys|)
    ensures delta != [] && Numbered(delta, delta[0].n) && delta[0].n == LastPlace(t)
    ensures Items(delta) == ShowAll(axes, LastPieces(t))
  {
    var first := PackCellResult(t, axes, 1);
    delta := [first];
    if t.splitQuad == -1 {
    } else if t.isOneCell {
    } else if t.isTwoSeg {
      var second := PackCellResult(t, axes, 2);
      delta := delta + [second];
    } else {
      var second := PackCellResult(t, axes, 2);
      var third := PackCellResult(t, axes, 3);
      var fourth := PackCellResult(t, axes, 4);
      delta := delta + [second, third, fourth];
    }
    forall i | 0 <= i < |delta| ensures PackedAs(delta[i], axes, LastPieces(t), LastPlace(t), i) {
    }
    PackedAll(axes, LastPieces(t), LastPlace(t), delta);
  }

  /** The entry shows the k-th piece at its place. */
  ghost predicate PackedAs(e: Entry<Shown>, axes: Axes, pieces: seq<Quadrant>, place: int, k: nat) {
    place >= 0 && k < |pieces| && e.n == place + k && Displays(e.item, axes, pieces[k])
  }

  lemma PackedAll(axes: Axes, pieces: seq<Quadrant>, place: nat, delta: seq<Entry<Shown>>)
    requires AllFit(pieces, |axes.xs|, |axes.ys|) && |delta| == |pieces| > 0
    requires forall i :: 0 <= i < |delta| ==> PackedAs(delta[i], axes, pieces, place, i)
    ensures Numbered(delta, delta[0].n) && delta[0].n == place && Items(delta) == ShowAll(axes, pieces)
  {
    forall i | 0 <= i < |delta| ensures Items(delta)[i] == ShowAll(axes, pieces)[i] {
      assert PackedAs(delta[i], axes, pieces, place, i);
    }
  }

  /** Showing and replacing commute. */
  lemma ShowReplaced(axes: Axes, prev: seq<Quadrant>, s: nat, pieces: seq<Quadrant>)
    requires AllFit(prev, |axes.xs|, |axes.ys|) && AllFit(pieces, |axes.xs|, |axes.ys|) && s < |prev|
    ensures AllFit(Replace(prev, s, pieces), |axes.xs|, |axes.ys|)
    ensures ShowAll(axes, Replace(prev, s, pieces))
         == ShowAll(axes, prev)[..s] + ShowAll(axes, pieces) + ShowAll(axes, prev)[s + 1..]
  {
    var made := Replace(prev, s, pieces);
    forall k | 0 <= k < |made| ensures Fits(made[k], |axes.xs|, |axes.ys|) {
    }
  }

  ghost predicate MeansBounded(quads: seq<Quadrant>, lo: real, hi: real) {
    forall k :: 0 <= k < |quads| ==> lo <= quads[k].mean <= hi
  }

  lemma {:induction false} MeansWithin(v: real, w: real, pieces: seq<Quadrant>)
    ensures MinMean(v, pieces) <= v && w <= MaxMean(w, pieces)
    ensures MeansBounded(pieces, MinMean(v, pieces), MaxMean(w, pieces))
    ensures MinMean(v, pieces) == v || exists k :: 0 <= k < |pieces| && pieces[k].mean == MinMean(v, pieces)
    ensures MaxMean(w, pieces) == w || exists k :: 0 <= k < |pieces| && pieces[k].mean == MaxMean(w, pieces)
  {
    if pieces != [] {
      var p := pieces[..|pieces| - 1];
      MeansWithin(v, w, p);
      assert forall k :: 0 <= k < |p| ==> p[k] == pieces[k];
    }
  }

  /** The counts of a session: steps that split, and steps that did not. */
  datatype Counts = Counts(splits: nat, stalls: nat)

  /** How many regions a stale delta adds to the view each time. */
  ghost function Growth(t: Heat): nat
    reads t
  {
    |LastPieces(t)| - 1
  }

  /** What holds after step `i`. */
  ghost predicate InStep(t: Heat, axes: Axes, made: seq<Quadrant>, view: seq<Shown>, i: nat, c: Counts)
    reads t
  {
    && t.Valid() && !t.firstIteration && |axes.xs| == t.cardX && |axes.ys| == t.cardY && i > 0
    && i == 1 + c.splits + c.stalls
    && t.Kept(i) == made && made != [] && Partition(made, t.cardX, t.cardY)
    && MeansBounded(made, t.avgMin, t.avgMax)
    && AllFit(LastPieces(t), t.cardX, t.cardY) && -1 <= t.splitQuad < |made|
    && (t.splitQuad == -1 <==> c.splits == 0)
    && 1 + c.splits <= |made| && (c.splits == 0 ==> made == [t.firstNew])
    && (c.stalls > 0 ==> !t.SomeLive(made))
    && |view| == |made| + c.stalls * Growth(t)
    && (c.stalls == 0 || c.splits == 0 ==> view == ShowAll(axes, made))
  }

  ghost predicate Started(cells: CellState) {
    forall x, y :: 0 <= x < |cells| && 0 <= y < |cells[x]| ==> cells[x][y].exhausted || cells[x][y].num > 0
  }

  /** The first query of a cell that finds records draws at least one sample. */
  ghost predicate Samplable(answers: seq<seq<seq<Answer>>>, cx: nat, cy: nat) {
    && (forall i :: 0 <= i < |answers| ==> |answers[i]| == cx && forall x :: 0 <= x < cx ==> |answers[i][x]| == cy)
    && (answers != [] ==>
          forall x, y :: 0 <= x < cx && 0 <= y < cy && answers[0][x][y].Sampled? ==> answers[0][x][y].count > 0)
  }

  method FirstRound(t: Heat, axes: Axes, answers: seq<seq<Answer>>)
    returns (ghost made: seq<Quadrant>, view: seq<Shown>)
    requires t.Valid() && t.firstIteration && |axes.xs| == t.cardX && |axes.ys| == t.cardY
    requires Answerable(t.cells, answers, t.cardX, t.cardY)
    modifies t
    ensures InStep(t, axes, made, view, 1, Counts(0, 0))
    ensures AllResampled(old(t.cells), t.cells, answers, t.cardX, t.cardY)
  {
    var m, split, b := t.GenHeat(1, answers);
    made := m;
    var delta := Publish(t, axes);
    view := Replay([], delta);
  }

  lemma StartedStays(before: CellState, after: CellState, quads: seq<Quadrant>, answers: seq<seq<Answer>>, cx: nat, cy: nat)
    requires Answerable(before, answers, cx, cy) && CellsShaped(after, cx, cy)
    requires RefinableResampled(before, after, quads, answers, cx, cy)
    ensures Started(before) ==> Started(after)
  {
    if Started(before) {
      forall x, y | 0 <= x < |after| && 0 <= y < |after[x]|
        ensures after[x][y].exhausted || after[x][y].num > 0
      {
        assert before[x][y].Accepts(answers[x][y]);
        assert before[x][y].exhausted || before[x][y].num > 0;
      }
    }
  }

  /** The outcome of a split in terms of the published fields. */
  ghost predicate CutMade(t: Heat, prev: seq<Quadrant>, made: seq<Quadrant>, oldMin: real, oldMax: real)
    reads t
  {
    && 0 <= t.splitQuad < |prev| && AllFit(prev, t.cardX, t.cardY)
    && made == Replace(prev, t.splitQuad, LastPieces(t)) && Partition(made, t.cardX, t.cardY) && |made| > |prev|
    && AllFit(LastPieces(t), t.cardX, t.cardY) && AllFit(made, t.cardX, t.cardY)
    && t.avgMin == MinMean(oldMin, LastPieces(t)) && t.avgMax == MaxMean(oldMax, LastPieces(t))
  }

  lemma PiecesAreLast(t: Heat, prev: seq<Quadrant>, made: seq<Quadrant>, b: Scored, oldMin: real, oldMax: real)
    requires t.SplitDone(prev, made, b, oldMin, oldMax)
    ensures CutMade(t, prev, made, oldMin, oldMax)
  {
    var pieces := Pieces(Averages(t.cells), t.cardX, t.cardY, prev[t.splitQuad], b);
    assert |pieces| != 1 by {
      assert |made| == |prev| + |pieces| - 1;
    }
    assert pieces == LastPieces(t);
    forall k | 0 <= k < |pieces| ensures Fits(pieces[k], t.cardX, t.cardY) {
      assert made[t.splitQuad + k] == pieces[k];
    }
  }

  /** A step that split: the view follows. */
  lemma AfterSplit(t: Heat, axes: Axes, prev: seq<Quadrant>, made: seq<Quadrant>, oldMin: real, oldMax: real)
    requires CutMade(t, prev, made, oldMin, oldMax) && MeansBounded(prev, oldMin, oldMax)
    requires |axes.xs| == t.cardX && |axes.ys| == t.cardY
    ensures MeansBounded(made, t.avgMin, t.avgMax)
    ensures ShowAll(axes, made)
         == ShowAll(axes, prev)[..t.splitQuad] + ShowAll(axes, LastPieces(t)) + ShowAll(axes, prev)[t.splitQuad + 1..]
  {
    MeansWithin(oldMin, oldMax, LastPieces(t));
    BoundsWiden(prev, t.splitQuad, LastPieces(t), oldMin, oldMax, t.avgMin, t.avgMax);
    ShowReplaced(axes, prev, t.splitQuad, LastPieces(t));
  }

  lemma BoundsWiden(prev: seq<Quadrant>, s: nat, pieces: seq<Quadrant>, lo: real, hi: real, lo': real, hi': real)
    requires s < |prev| && MeansBounded(prev, lo, hi) && MeansBounded(pieces, lo', hi') && lo' <= lo && hi <= hi'
    ensures MeansBounded(Replace(prev, s, pieces), lo', hi')
  {
  }

  /** Once a step does not split, no later step does. */
  lemma StallStays(before: CellState, after: CellState, quads: seq<Quadrant>, answers: seq<seq<Answer>>, cx: nat, cy: nat)
    requires Answerable(before, answers, cx, cy) && CellsShaped(after, cx, cy)
    requires RefinableResampled(before, after, quads, answers, cx, cy)
    ensures AnyLive(after, quads, cx, cy) ==> AnyLive(before, quads, cx, cy)
  {
  }

  /** A later step and its delta. */
  method NextRound(t: Heat, axes: Axes, i: nat, answers: seq<seq<Answer>>, ghost prev: seq<Quadrant>, view: seq<Shown>,
                   ghost c: Counts)
    returns (ghost made: seq<Quadrant>, next: seq<Shown>, ghost d: Counts)
    requires i > 1 && InStep(t, axes, prev, view, i - 1, c) && Answerable(t.cells, answers, t.cardX, t.cardY)
    modifies t
    ensures InStep(t, axes, made, next, i, d) && t.kBest == old(t.kBest)[i := made]
    ensures if t.SomeLive(prev) then d == Counts(c.splits + 1, 0) && |made| > |prev|
            else d == Counts(c.splits, c.stalls + 1) && made == prev
    ensures RefinableResampled(old(t.cells), t.cells, prev, answers, t.cardX, t.cardY)
  {
    ghost var before := t.cells;
    var m, split, b := t.GenHeat(i, answers);
    made := m;
    StallStays(before, t.cells, prev, answers, t.cardX, t.cardY);
    if split {
      PiecesAreLast(t, prev, made, b, old(t.avgMin), old(t.avgMax));
    } else {
      SamePieces(t, old(LastPieces(t)));
    }
    var delta := Publish(t, axes);
    next := Replay(view, delta);
    if split {
      d := Counts(c.splits + 1, 0);
      InStepAfterSplit(t, axes, prev, made, old(t.avgMin), old(t.avgMax), view, next, i, c);
    } else {
      d := Counts(c.splits, c.stalls + 1);
      InStepAfterStall(t, axes, prev, view, next, i, c);
    }
  }

  lemma InStepAfterSplit(t: Heat, axes: Axes, prev: seq<Quadrant>, made: seq<Quadrant>, oldMin: real, oldMax: real,
                         view: seq<Shown>, next: seq<Shown>, i: nat, c: Counts)
    requires t.Valid() && !t.firstIteration && |axes.xs| == t.cardX && |axes.ys| == t.cardY
    requires i == 2 + c.splits && c.stalls == 0 && t.Kept(i) == made && 1 + c.splits <= |prev|
    requires CutMade(t, prev, made, oldMin, oldMax) && MeansBounded(prev, oldMin, oldMax) && view == ShowAll(axes, prev)
    requires next == view[..LastPlace(t)] + ShowAll(axes, LastPieces(t)) + view[LastPlace(t) + 1..]
    ensures InStep(t, axes, made, next, i, Counts(c.splits + 1, 0))
  {
    AfterSplit(t, axes, prev, made, oldMin, oldMax);
  }

  lemma InStepAfterStall(t: Heat, axes: Axes, prev: seq<Quadrant>, view: seq<Shown>, next: seq<Shown>, i: nat, c: Counts)
    requires t.Valid() && !t.firstIteration && |axes.xs| == t.cardX && |axes.ys| == t.cardY
    requires i == 2 + c.splits + c.stalls && t.Kept(i) == prev && 1 + c.splits <= |prev|
    requires Partition(prev, t.cardX, t.cardY) && MeansBounded(prev, t.avgMin, t.avgMax) && !t.SomeLive(prev)
    requires AllFit(LastPieces(t), t.cardX, t.cardY) && -1 <= t.splitQuad < |prev| && (t.splitQuad == -1 <==> c.splits == 0)
    requires |view| == |prev| + c.stalls * Growth(t)
    requires c.splits == 0 ==> prev == [t.firstNew] && view == ShowAll(axes, prev)
    requires next == view[..LastPlace(t)] + ShowAll(axes, LastPieces(t)) + view[LastPlace(t) + 1..]
    ensures InStep(t, axes, prev, next, i, Counts(c.splits, c.stalls + 1))
  {
    ViewAfterStall(t, axes, prev, view, next, c);
  }

  lemma SamePieces(t: Heat, pieces: seq<Quadrant>)
    requires pieces == LastPieces(t)
    ensures Growth(t) == |pieces| - 1
  {
  }

  /** A delta published again makes the view longer, unless nothing was ever split. */
  lemma ViewAfterStall(t: Heat, axes: Axes, quads: seq<Quadrant>, view: seq<Shown>, next: seq<Shown>, c: Counts)
    requires AllFit(quads, |axes.xs|, |axes.ys|) && AllFit(LastPieces(t), |axes.xs|, |axes.ys|)
    requires |view| == |quads| + c.stalls * Growth(t) && -1 <= t.splitQuad < |quads| && quads != []
    requires (t.splitQuad == -1 <==> c.splits == 0) && (c.splits == 0 ==> quads == [t.firstNew] && view == ShowAll(axes, quads))
    requires next == view[..LastPlace(t)] + ShowAll(axes, LastPieces(t)) + view[LastPlace(t) + 1..]
    ensures |next| == |quads| + (c.stalls + 1) * Growth(t)
    ensures c.splits == 0 ==> next == ShowAll(axes, quads)
  {
    OneMoreStall(c.stalls, Growth(t));
  }

  lemma OneMoreStall(n: nat, growth: nat)
    ensures (n + 1) * growth == n * growth + growth
  {
  }

  ghost predicate NeverRunsOut(answers: seq<seq<seq<Answer>>>, cx: nat, cy: nat)
    requires forall i :: 0 <= i < |answers| ==> |answers[i]| == cx && forall x :: 0 <= x < cx ==> |answers[i][x]| == cy
  {
    forall i :: 0 <= i < |answers| ==> AllAnswer(answers[i], cx, cy)
  }

  ghost predicate NoneOut(cells: CellState) {
    forall x, y :: 0 <= x < |cells| && 0 <= y < |cells[x]| ==> !cells[x][y].exhausted
  }

  lemma NoneOutStays(before: CellState, after: CellState, quads: seq<Quadrant>, answers: seq<seq<Answer>>, cx: nat, cy: nat)
    requires Answerable(before, answers, cx, cy) && CellsShaped(after, cx, cy) && AllAnswer(answers, cx, cy) && NoneOut(before)
    requires RefinableResampled(before, after, quads, answers, cx, cy)
    ensures NoneOut(after)
  {
    forall x, y | 0 <= x < |after| && 0 <= y < |after[x]| ensures !after[x][y].exhausted {
      assert before[x][y].Accepts(answers[x][y]) && answers[x][y].Sampled?;
    }
  }

  lemma SplittableIsLive(t: Heat, made: seq<Quadrant>, k: nat)
    requires t.Valid() && AllFit(made, t.cardX, t.cardY) && NoneOut(t.cells) && k < |made|
    ensures Splittable(made[k]) ==> t.SomeLive(made)
  {
    if Splittable(made[k]) {
      assert Fits(made[k], t.cardX, t.cardY) && Quadrants.Holds(made[k], made[k].xs, made[k].ys);
      assert Refinable(made, |made|, made[k].xs, made[k].ys);
      assert !t.cells[made[k].xs][made[k].ys].exhausted;
    }
  }

  /** A session cannot split more often than it has cells to separate; if no cell ran out and no
      split was possible, every cell stands alone. */
  lemma EndOfSplitting(t: Heat, axes: Axes, made: seq<Quadrant>, view: seq<Shown>, i: nat, c: Counts)
    requires InStep(t, axes, made, view, i, c)
    ensures c.splits < |made| <= t.cardX * t.cardY
    ensures NoneOut(t.cells) && (c.stalls > 0 || i >= t.cardX * t.cardY) ==> |made| == t.cardX * t.cardY
  {
    AtMostArea(made, t.cardX, t.cardY);
    if NoneOut(t.cells) && c.stalls > 0 {
      forall k | 0 <= k < |made| ensures !Splittable(made[k]) {
        SplittableIsLive(t, made, k);
      }
    }
  }

  // ---------- the steps of a session ----------

  /** The partitions after the steps so far, in order: step `i` split exactly when it changed the
      partition before it. */
  ghost predicate StepSplit(trace: seq<seq<Quadrant>>, i: nat) {
    0 < i < |trace| && trace[i] != trace[i - 1]
  }

  ghost predicate NoStepSplit(trace: seq<seq<Quadrant>>) {
    forall i: nat :: !StepSplit(trace, i)
  }

  /** The trace is what the map has kept, and it says what the counts say. */
  ghost predicate Traced(t: Heat, trace: seq<seq<Quadrant>>, made: seq<Quadrant>, c: Counts)
    reads t
  {
    && trace != [] && trace[|trace| - 1] == made && |trace[0]| == 1
    && (forall i :: 0 <= i < |trace| ==> t.Kept(i + 1) == trace[i])
    && (c.splits == 0 <==> NoStepSplit(trace))
    && (c.stalls == 0 <==> |trace| == 1 || StepSplit(trace, |trace| - 1))
  }

  /** While no cell runs out, a step splits exactly when some quadrant holds two cells or more. */
  ghost predicate SplitsWhileItCan(trace: seq<seq<Quadrant>>, cells: nat) {
    forall i: nat :: 0 < i < |trace| ==> (StepSplit(trace, i) <==> |trace[i - 1]| < cells)
  }

  lemma TraceGrows(t: Heat, trace: seq<seq<Quadrant>>, prev: seq<Quadrant>, made: seq<Quadrant>, c: Counts, d: Counts,
                   split: bool, kept: map<nat, seq<Quadrant>>)
    requires trace != [] && trace[|trace| - 1] == prev && |trace[0]| == 1
    requires forall i :: 0 <= i < |trace| ==> (if i + 1 in kept then kept[i + 1] else []) == trace[i]
    requires (c.splits == 0 <==> NoStepSplit(trace)) && t.kBest == kept[|trace| + 1 := made]
    requires if split then d == Counts(c.splits + 1, 0) && made != prev else d == Counts(c.splits, c.stalls + 1) && made == prev
    ensures Traced(t, trace + [made], made, d)
    ensures StepSplit(trace + [made], |trace|) == split
  {
    var next := trace + [made];
    forall i: nat | i < |trace| ensures StepSplit(next, i) == StepSplit(trace, i) {
    }
    assert StepSplit(next, |trace|) == split;
    if NoStepSplit(trace) && !split {
      forall i: nat ensures !StepSplit(next, i) {
        assert !StepSplit(trace, i);
      }
    }
    if NoStepSplit(next) {
      forall i: nat ensures !StepSplit(trace, i) {
        assert !StepSplit(next, i);
      }
    }
  }

  lemma CanSplitOn(trace: seq<seq<Quadrant>>, made: seq<Quadrant>, cells: nat)
    requires trace != [] && SplitsWhileItCan(trace, cells)
    requires StepSplit(trace + [made], |trace|) <==> |trace[|trace| - 1]| < cells
    ensures SplitsWhileItCan(trace + [made], cells)
  {
    var next := trace + [made];
    forall i: nat | 0 < i < |next| ensures StepSplit(next, i) <==> |next[i - 1]| < cells {
      if i < |trace| {
        assert StepSplit(next, i) == StepSplit(trace, i);
      }
    }
  }

  /** With no cell out, something can be split exactly when there are fewer quadrants than cells. */
  lemma LiveIffFewer(t: Heat, prev: seq<Quadrant>)
    requires t.Valid() && Partition(prev, t.cardX, t.cardY) && NoneOut(t.cells)
    ensures t.SomeLive(prev) <==> |prev| < t.cardX * t.cardY
  {
    AtMostArea(prev, t.cardX, t.cardY);
    forall k | 0 <= k < |prev| ensures Splittable(prev[k]) ==> t.SomeLive(prev) {
      SplittableIsLive(t, prev, k);
    }
  }

  /** The client sees the server's partition exactly when the last step split, or no step ever did. */
  lemma ViewIsPartitionIff(t: Heat, axes: Axes, made: seq<Quadrant>, view: seq<Shown>, c: Counts, trace: seq<seq<Quadrant>>)
    requires InStep(t, axes, made, view, |trace|, c) && Traced(t, trace, made, c)
    ensures DisplaysAll(view, axes, made) <==> StepSplit(trace, |trace| - 1) || NoStepSplit(trace)
  {
    DisplaysIff(view, axes, made);
    if c.stalls > 0 && c.splits > 0 {
      Grows(c.stalls, Growth(t));
      assert |view| > |made|;
    }
    assert |trace| == 1 ==> NoStepSplit(trace);
  }

  /** If no cell runs out: exactly when the step before last left two cells in one quadrant, or
      there is but one step or one cell. */
  lemma ViewIsPartitionIffRoom(axes: Axes, made: seq<Quadrant>, view: seq<Shown>, trace: seq<seq<Quadrant>>, cells: nat)
    requires trace != [] && |trace[0]| == 1 && SplitsWhileItCan(trace, cells) && cells > 0
    requires AllFit(made, |axes.xs|, |axes.ys|)
    requires DisplaysAll(view, axes, made) <==> StepSplit(trace, |trace| - 1) || NoStepSplit(trace)
    ensures DisplaysAll(view, axes, made) <==> |trace| == 1 || |trace[|trace| - 2]| < cells || cells == 1
  {
    if |trace| > 1 {
      assert StepSplit(trace, 1) <==> 1 < cells;
      if cells == 1 {
        OneCellNeverSplits(trace, |trace| - 1);
      }
    }
  }

  lemma {:induction false} OneCellNeverSplits(trace: seq<seq<Quadrant>>, n: nat)
    requires n < |trace| && |trace[0]| == 1 && SplitsWhileItCan(trace, 1)
    ensures |trace[n]| == 1 && forall i: nat :: i <= n ==> !StepSplit(trace, i)
  {
    if n > 0 {
      OneCellNeverSplits(trace, n - 1);
      assert StepSplit(trace, n) <==> |trace[n - 1]| < 1;
    }
  }

  lemma Grows(a: nat, b: nat)
    requires a > 0 && b > 0
    ensures a * b > 0
  {
  }

  method TracedRound(t: Heat, axes: Axes, i: nat, ghost last: nat, answers: seq<seq<Answer>>, ghost prev: seq<Quadrant>,
                     view: seq<Shown>, ghost c: Counts, ghost trace: seq<seq<Quadrant>>)
    returns (ghost made: seq<Quadrant>, next: seq<Shown>, ghost d: Counts, ghost longer: seq<seq<Quadrant>>)
    requires i == last + 1 && InStep(t, axes, prev, view, last, c) && Answerable(t.cells, answers, t.cardX, t.cardY)
    requires Traced(t, trace, prev, c) && |trace| == last
    modifies t
    ensures InStep(t, axes, made, next, i, d) && Traced(t, longer, made, d) && longer == trace + [made]
    ensures RefinableResampled(old(t.cells), t.cells, prev, answers, t.cardX, t.cardY)
    ensures StepSplit(longer, |trace|) == t.SomeLive(prev)
  {
    ghost var kept := t.kBest;
    made, next, d := NextRound(t, axes, i, answers, prev, view, c);
    TraceGrows(t, trace, prev, made, c, d, t.SomeLive(prev), kept);
    longer := trace + [made];
  }

  /** What no cell running out adds to a step. */
  lemma RoundWithoutOut(t: Heat, before: CellState, answers: seq<seq<Answer>>, trace: seq<seq<Quadrant>>, made: seq<Quadrant>)
    requires t.Valid() && trace != [] && Partition(trace[|trace| - 1], t.cardX, t.cardY)
    requires Answerable(before, answers, t.cardX, t.cardY) && AllAnswer(answers, t.cardX, t.cardY) && NoneOut(before)
    requires RefinableResampled(before, t.cells, trace[|trace| - 1], answers, t.cardX, t.cardY)
    requires SplitsWhileItCan(trace, t.cardX * t.cardY)
    requires StepSplit(trace + [made], |trace|) == t.SomeLive(trace[|trace| - 1])
    ensures NoneOut(t.cells) && SplitsWhileItCan(trace + [made], t.cardX * t.cardY)
  {
    NoneOutStays(before, t.cells, trace[|trace| - 1], answers, t.cardX, t.cardY);
    LiveIffFewer(t, trace[|trace| - 1]);
    CanSplitOn(trace, made, t.cardX * t.cardY);
  }

  /** What a session keeps besides the partition: every later answer can be taken, and if no cell
      ever runs out, steps split while they can. */
  ghost predicate Steady(t: Heat, answers: seq<seq<seq<Answer>>>, trace: seq<seq<Quadrant>>)
    requires Samplable(answers, t.cardX, t.cardY)
    reads t
  {
    && CellsShaped(t.cells, t.cardX, t.cardY) && Started(t.cells)
    && (NeverRunsOut(answers, t.cardX, t.cardY) ==> NoneOut(t.cells) && SplitsWhileItCan(trace, t.cardX * t.cardY))
  }

  lemma CanAnswer(t: Heat, answers: seq<seq<seq<Answer>>>, trace: seq<seq<Quadrant>>, i: nat)
    requires Samplable(answers, t.cardX, t.cardY) && Steady(t, answers, trace) && i < |answers|
    ensures Answerable(t.cells, answers[i], t.cardX, t.cardY)
  {
  }

  lemma StaysSteady(t: Heat, before: CellState, answers: seq<seq<seq<Answer>>>, i: nat, trace: seq<seq<Quadrant>>, made: seq<Quadrant>)
    requires t.Valid() && trace != [] && Partition(trace[|trace| - 1], t.cardX, t.cardY)
    requires Samplable(answers, t.cardX, t.cardY) && i < |answers| && Answerable(before, answers[i], t.cardX, t.cardY)
    requires Started(before)
    requires NeverRunsOut(answers, t.cardX, t.cardY) ==> NoneOut(before) && SplitsWhileItCan(trace, t.cardX * t.cardY)
    requires RefinableResampled(before, t.cells, trace[|trace| - 1], answers[i], t.cardX, t.cardY)
    requires StepSplit(trace + [made], |trace|) == t.SomeLive(trace[|trace| - 1])
    ensures Steady(t, answers, trace + [made])
  {
    StartedStays(before, t.cells, trace[|trace| - 1], answers[i], t.cardX, t.cardY);
    if NeverRunsOut(answers, t.cardX, t.cardY) {
      RoundWithoutOut(t, before, answers[i], trace, made);
    }
  }

  lemma StartsSteady(t: Heat, axes: Axes, before: CellState, answers: seq<seq<seq<Answer>>>, made: seq<Quadrant>,
                     view: seq<Shown>, trace: seq<seq<Quadrant>>)
    requires InStep(t, axes, made, view, 1, Counts(0, 0)) && trace == [made]
    requires Samplable(answers, t.cardX, t.cardY) && answers != [] && CellsShaped(before, t.cardX, t.cardY)
    requires forall x, y :: 0 <= x < t.cardX && 0 <= y < t.cardY ==> before[x][y] == Group(0.0, 0, false)
    requires AllResampled(before, t.cells, answers[0], t.cardX, t.cardY)
    ensures Traced(t, trace, made, Counts(0, 0)) && Steady(t, answers, trace)
  {
    if NeverRunsOut(answers, t.cardX, t.cardY) {
      assert AllAnswer(answers[0], t.cardX, t.cardY);
    }
  }

  /** A session of any length. */
  method Session(cx: nat, cy: nat, axes: Axes, answers: seq<seq<seq<Answer>>>)
    returns (t: Heat, ghost made: seq<Quadrant>, view: seq<Shown>, ghost c: Counts, ghost trace: seq<seq<Quadrant>>)
    requires cx > 0 && cy > 0 && |axes.xs| == cx && |axes.ys| == cy
    requires answers != [] && Samplable(answers, cx, cy)
    ensures t.cardX == cx && t.cardY == cy && InStep(t, axes, made, view, |answers|, c)
    ensures |trace| == |answers| && Traced(t, trace, made, c)
    ensures c.splits < |made| <= cx * cy
    ensures DisplaysAll(view, axes, made) <==> StepSplit(trace, |trace| - 1) || NoStepSplit(trace)
    ensures Ascending(axes.xs) && Ascending(axes.ys) && DisplaysAll(view, axes, made) ==> CoversValues(view, axes)
    ensures NeverRunsOut(answers, cx, cy) && |answers| >= cx * cy ==> |made| == cx * cy
    ensures NeverRunsOut(answers, cx, cy) ==>
              && SplitsWhileItCan(trace, cx * cy)
              && (DisplaysAll(view, axes, made) <==> |trace| == 1 || |trace[|trace| - 2]| < cx * cy || cx * cy == 1)
  {
    t := new Heat(cx, cy);
    ghost var unseen := t.cells;
    made, view := FirstRound(t, axes, answers[0]);
    c, trace := Counts(0, 0), [made];
    StartsSteady(t, axes, unseen, answers, made, view, trace);
    var i := 1;
    while i < |answers|
      invariant 1 <= i <= |answers| && |trace| == i
      invariant fresh(t) && t.cardX == cx && t.cardY == cy
      invariant InStep(t, axes, made, view, i, c) && Traced(t, trace, made, c)
      invariant Steady(t, answers, trace)
    {
      CanAnswer(t, answers, trace, i);
      ghost var before, shorter := t.cells, trace;
      var next := i + 1;
      made, view, c, trace := TracedRound(t, axes, next, i, answers[i], made, view, c, trace);
      StaysSteady(t, before, answers, i, shorter, made);
      i := next;
    }
    SessionEnds(t, cx, cy, axes, answers, made, view, c, trace);
  }

  lemma SessionEnds(t: Heat, cx: nat, cy: nat, axes: Axes, answers: seq<seq<seq<Answer>>>, made: seq<Quadrant>,
                    view: seq<Shown>, c: Counts, trace: seq<seq<Quadrant>>)
    requires t.cardX == cx && t.cardY == cy
    requires InStep(t, axes, made, view, |trace|, c) && Traced(t, trace, made, c)
    requires Samplable(answers, cx, cy) && Steady(t, answers, trace)
    ensures c.splits < |made| <= cx * cy
    ensures DisplaysAll(view, axes, made) <==> StepSplit(trace, |trace| - 1) || NoStepSplit(trace)
    ensures Ascending(axes.xs) && Ascending(axes.ys) && DisplaysAll(view, axes, made) ==> CoversValues(view, axes)
    ensures NeverRunsOut(answers, cx, cy) && |trace| >= cx * cy ==> |made| == cx * cy
    ensures NeverRunsOut(answers, cx, cy) ==>
              && SplitsWhileItCan(trace, cx * cy)
              && (DisplaysAll(view, axes, made) <==>
                    |trace| == 1 || |trace[|trace| - 2]| < cx * cy || cx * cy == 1)
  {
    EndOfSplitting(t, axes, made, view, |trace|, c);
    ViewIsPartitionIff(t, axes, made, view, c, trace);
    if Ascending(axes.xs) && Ascending(axes.ys) && DisplaysAll(view, axes, made) {
      ViewCovers(view, axes, made);
    }
    if NeverRunsOut(answers, cx, cy) {
      PositiveArea(cx, cy);
      ViewIsPartitionIffRoom(axes, made, view, trace, cx * cy);
    }
  }
}
