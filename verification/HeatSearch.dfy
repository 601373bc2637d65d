/** The exhaustive search for the best split point of a quadrant and the best quadrant. */
module HeatSearch {
  import opened Grids
  import opened Quadrants
  import opened SquaredError

  ghost function MeanOrZero(s: seq<real>): real {
    if s == [] then 0.0 else Mean(s)
  }

  method AddColumn(col: seq<real>, y0: nat, y1: nat, before: real) returns (total: real)
    requires y0 <= y1 <= |col|
    ensures total == before + Sum(col[y0..y1])
  {
    total := before;
    var ky := y0;
    while ky < y1
      invariant y0 <= ky <= y1
      invariant total == before + Sum(col[y0..ky])
    {
      total := total + col[ky];
      assert col[y0..ky + 1][..ky - y0] == col[y0..ky];
      ky := ky + 1;
    }
  }

  method AddNextColumn(grid: Grid, cx: nat, cy: nat, x0: nat, kx: nat, ghost next: nat, y0: nat, y1: nat, before: real)
    returns (total: real)
    requires Shaped(grid, cx, cy) && x0 <= kx < next <= cx && next == kx + 1 && y0 <= y1 <= cy
    requires before == Sum(Block(grid, x0, kx, y0, y1))
    ensures total == Sum(Block(grid, x0, next, y0, y1))
  {
    total := AddColumn(grid[kx], y0, y1, before);
    ColumnAdds(grid, cx, cy, x0, kx, next, y0, y1);
  }

  method SumBlock(grid: Grid, cx: nat, cy: nat, x0: nat, x1: nat, y0: nat, y1: nat) returns (total: real)
    requires Shaped(grid, cx, cy) && x0 <= x1 <= cx && y0 <= y1 <= cy
    ensures total == Sum(Block(grid, x0, x1, y0, y1))
  {
    total := 0.0;
    var kx := x0;
    while kx < x1
      invariant x0 <= kx <= x1
      invariant total == Sum(Block(grid, x0, kx, y0, y1))
    {
      ghost var next := kx + 1;
      total := AddNextColumn(grid, cx, cy, x0, kx, next, y0, y1, total);
      kx := kx + 1;
    }
  }

  lemma ColumnAdds(grid: Grid, cx: nat, cy: nat, x0: nat, kx: nat, next: nat, y0: nat, y1: nat)
    requires Shaped(grid, cx, cy) && x0 <= kx < next <= cx && next == kx + 1 && y0 <= y1 <= cy
    ensures Sum(Block(grid, x0, next, y0, y1)) == Sum(Block(grid, x0, kx, y0, y1)) + Sum(grid[kx][y0..y1])
  {
    LastColumn(grid, cx, cy, x0, next, y0, y1);
    SumAppend(Block(grid, x0, kx, y0, y1), grid[kx][y0..y1]);
  }

  /** The mean of one part and its share of the score; an empty part has neither. */
  method PartMean(grid: Grid, cx: nat, cy: nat, x0: nat, x1: nat, y0: nat, y1: nat)
    returns (alpha: real, term: real)
    requires Shaped(grid, cx, cy) && x0 <= x1 <= cx && y0 <= y1 <= cy
    ensures alpha == MeanOrZero(Block(grid, x0, x1, y0, y1))
    ensures term == Explained(Block(grid, x0, x1, y0, y1)) && term >= 0.0
  {
    var total := SumBlock(grid, cx, cy, x0, x1, y0, y1);
    BlockSize(grid, cx, cy, x0, x1, y0, y1);
    alpha := if x0 < x1 && y0 < y1 then MeanOf(total, x1 - x0, y1 - y0) else 0.0;
    term := alpha * alpha * (x1 - x0) as real * (y1 - y0) as real;
    PartIsExplained(Block(grid, x0, x1, y0, y1), x1 - x0, y1 - y0, total, alpha);
    ExplainedWithinSquares(Block(grid, x0, x1, y0, y1));
  }

  function MeanOf(total: real, w: nat, h: nat): real
    requires w > 0 && h > 0
  {
    PositiveArea(w, h);
    (1.0 / (w * h) as real) * total
  }

  lemma PositiveArea(w: nat, h: nat)
    requires w > 0 && h > 0
    ensures w * h > 0
  {
  }

  lemma PartIsExplained(s: seq<real>, w: nat, h: nat, total: real, alpha: real)
    requires |s| == w * h && total == Sum(s)
    requires alpha == if w > 0 && h > 0 then MeanOf(total, w, h) else 0.0
    ensures alpha == MeanOrZero(s) && alpha * alpha * w as real * h as real == Explained(s)
  {
    AreaProduct(alpha, w, h);
    if w > 0 && h > 0 {
      PositiveArea(w, h);
      ScaleIsQuotient((w * h) as real, total);
    } else {
      assert w * h == 0;
    }
  }

  lemma AreaProduct(alpha: real, w: nat, h: nat)
    ensures alpha * alpha * w as real * h as real == Weighted((w * h) as real, alpha)
  {
    assert (w * h) as real == w as real * h as real;
  }

  /** The score of a split point and the means of its parts: upper left, upper right, lower
      right, lower left. */
  datatype Scored = Scored(score: real, x: int, y: int, mean1: real, mean2: real, mean3: real, mean4: real)

  const NO_POINT := Scored(-1000000000.0, -1, -1, 0.0, 0.0, 0.0, 0.0)

  ghost predicate MeansOk(grid: Grid, cx: nat, cy: nat, q: Quadrant, b: Scored)
    requires Shaped(grid, cx, cy) && Fits(q, cx, cy) && Holds(q, b.x, b.y)
  {
    var p := PartsAt(grid, cx, cy, q, b.x, b.y);
    && b.mean1 == MeanOrZero(p.upperLeft) && b.mean2 == MeanOrZero(p.upperRight)
    && b.mean3 == MeanOrZero(p.lowerRight) && b.mean4 == MeanOrZero(p.lowerLeft)
  }

  method ScorePoint(grid: Grid, cx: nat, cy: nat, q: Quadrant, x: nat, y: nat) returns (b: Scored)
    requires Shaped(grid, cx, cy) && Fits(q, cx, cy) && Holds(q, x, y)
    ensures b.x == x && b.y == y && b.score == Score(grid, cx, cy, q, x, y) >= 0.0
    ensures MeansOk(grid, cx, cy, q, b)
  {
    var alphaT, termT := PartMean(grid, cx, cy, q.xs, x + 1, y, q.ye + 1);
    var alphaU, termU := PartMean(grid, cx, cy, x + 1, q.xe + 1, y, q.ye + 1);
    var alphaV, termV := PartMean(grid, cx, cy, x + 1, q.xe + 1, q.ys, y);
    var alphaW, termW := PartMean(grid, cx, cy, q.xs, x + 1, q.ys, y);
    b := Scored(termT + termU + termV + termW, x, y, alphaT, alphaU, alphaV, alphaW);
    ScoreIsSum(grid, cx, cy, q, x, y, termT, termU, termV, termW);
  }

  lemma ScoreIsSum(grid: Grid, cx: nat, cy: nat, q: Quadrant, x: nat, y: nat, t: real, u: real, v: real, w: real)
    requires Shaped(grid, cx, cy) && Fits(q, cx, cy) && Holds(q, x, y)
    requires t == Explained(Block(grid, q.xs, x + 1, y, q.ye + 1))
    requires u == Explained(Block(grid, x + 1, q.xe + 1, y, q.ye + 1))
    requires v == Explained(Block(grid, x + 1, q.xe + 1, q.ys, y))
    requires w == Explained(Block(grid, q.xs, x + 1, q.ys, y))
    ensures Score(grid, cx, cy, q, x, y) == t + u + v + w
  {
  }

  // ---------- the search ----------

  /** Which cells have not run out of records. */
  type Live = (nat, nat) -> bool

  /** The points of a quadrant the search has visited: columns left of x, and column x below y. */
  predicate Visited(q: Quadrant, px: int, py: int, x: int, y: int) {
    Holds(q, px, py) && (px < x || (px == x && py < y))
  }

  /** The best live point among those visited, the first of equals. */
  ghost predicate BestSoFar(grid: Grid, cx: nat, cy: nat, live: Live, q: Quadrant, b: Scored, x: int, y: int)
    requires Shaped(grid, cx, cy) && Fits(q, cx, cy)
  {
    if b.x < 0 then
      b == NO_POINT && forall px: nat, py: nat :: Visited(q, px, py, x, y) ==> !live(px, py)
    else
      && b.y >= 0 && Visited(q, b.x, b.y, x, y) && live(b.x, b.y)
      && b.score == Score(grid, cx, cy, q, b.x, b.y) >= 0.0
      && MeansOk(grid, cx, cy, q, b)
      && forall px: nat, py: nat :: Visited(q, px, py, x, y) && live(px, py) ==>
           && Score(grid, cx, cy, q, px, py) <= b.score
           && (Visited(q, px, py, b.x, b.y) ==> Score(grid, cx, cy, q, px, py) < b.score)
  }

  ghost predicate BestPointOf(grid: Grid, cx: nat, cy: nat, live: Live, q: Quadrant, b: Scored)
    requires Shaped(grid, cx, cy) && Fits(q, cx, cy)
  {
    BestSoFar(grid, cx, cy, live, q, b, q.xe + 1, q.ys)
  }

  method VisitPoint(grid: Grid, cx: nat, cy: nat, live: Live, q: Quadrant, x: nat, y: nat, ghost next: nat, b0: Scored)
    returns (b: Scored)
    requires Shaped(grid, cx, cy) && Fits(q, cx, cy) && Holds(q, x, y) && next == y + 1
    requires BestSoFar(grid, cx, cy, live, q, b0, x, y)
    ensures BestSoFar(grid, cx, cy, live, q, b, x, next)
  {
    b := b0;
    VisitedNext(q, x, y, next);
    if live(x, y) {
      var here := ScorePoint(grid, cx, cy, q, x, y);
      if here.score > b.score {
        BetterPoint(grid, cx, cy, live, q, x, y, next, b0, here);
        b := here;
      }
    }
  }

  lemma VisitedNext(q: Quadrant, x: nat, y: nat, next: nat)
    requires Holds(q, x, y) && next == y + 1
    ensures forall px: nat, py: nat :: Visited(q, px, py, x, next) <==> Visited(q, px, py, x, y) || (px == x && py == y)
  {
  }

  lemma BetterPoint(grid: Grid, cx: nat, cy: nat, live: Live, q: Quadrant, x: nat, y: nat, next: nat, b: Scored, here: Scored)
    requires Shaped(grid, cx, cy) && Fits(q, cx, cy) && Holds(q, x, y) && next == y + 1 && live(x, y)
    requires BestSoFar(grid, cx, cy, live, q, b, x, y) && here.score > b.score && here.x == x && here.y == y
    requires here.score == Score(grid, cx, cy, q, x, y) >= 0.0 && MeansOk(grid, cx, cy, q, here)
    ensures BestSoFar(grid, cx, cy, live, q, here, x, next)
  {
    VisitedNext(q, x, y, next);
    forall px: nat, py: nat | Visited(q, px, py, x, next) && live(px, py)
      ensures Score(grid, cx, cy, q, px, py) <= here.score
      ensures Visited(q, px, py, x, y) ==> Score(grid, cx, cy, q, px, py) < here.score
    {
    }
  }

  method BestPoint(grid: Grid, cx: nat, cy: nat, live: Live, q: Quadrant) returns (b: Scored)
    requires Shaped(grid, cx, cy) && Fits(q, cx, cy)
    ensures BestPointOf(grid, cx, cy, live, q, b)
  {
    b := NO_POINT;
    var x := q.xs;
    while x <= q.xe
      invariant q.xs <= x <= q.xe + 1
      invariant BestSoFar(grid, cx, cy, live, q, b, x, q.ys)
    {
      b := VisitColumn(grid, cx, cy, live, q, x, b);
      x := x + 1;
    }
  }

  method VisitColumn(grid: Grid, cx: nat, cy: nat, live: Live, q: Quadrant, x: nat, b0: Scored) returns (b: Scored)
    requires Shaped(grid, cx, cy) && Fits(q, cx, cy) && q.xs <= x <= q.xe
    requires BestSoFar(grid, cx, cy, live, q, b0, x, q.ys)
    ensures BestSoFar(grid, cx, cy, live, q, b, x + 1, q.ys)
  {
    b := b0;
    var y := q.ys;
    while y <= q.ye
      invariant q.ys <= y <= q.ye + 1
      invariant BestSoFar(grid, cx, cy, live, q, b, x, y)
    {
      ghost var next := y + 1;
      b := VisitPoint(grid, cx, cy, live, q, x, y, next, b);
      y := y + 1;
    }
    NextColumn(grid, cx, cy, live, q, b, x, x + 1, q.ye + 1);
  }

  lemma NextColumn(grid: Grid, cx: nat, cy: nat, live: Live, q: Quadrant, b: Scored, x: int, next: int, top: int)
    requires Shaped(grid, cx, cy) && Fits(q, cx, cy) && next == x + 1 && top == q.ye + 1
    requires BestSoFar(grid, cx, cy, live, q, b, x, top)
    ensures BestSoFar(grid, cx, cy, live, q, b, next, q.ys)
  {
    assert forall px: nat, py: nat :: Visited(q, px, py, next, q.ys) <==> Visited(q, px, py, x, top);
  }

  // ---------- the choice of a quadrant ----------

  /** No live point of the quadrant scores above `v`. */
  ghost predicate Capped(grid: Grid, cx: nat, cy: nat, live: Live, q: Quadrant, v: real)
    requires Shaped(grid, cx, cy) && Fits(q, cx, cy)
  {
    forall px: nat, py: nat :: Holds(q, px, py) && live(px, py) ==> Score(grid, cx, cy, q, px, py) <= v
  }

  /** All live points of the quadrant score below `v`. */
  ghost predicate Beaten(grid: Grid, cx: nat, cy: nat, live: Live, q: Quadrant, v: real)
    requires Shaped(grid, cx, cy) && Fits(q, cx, cy)
  {
    forall px: nat, py: nat :: Holds(q, px, py) && live(px, py) ==> Score(grid, cx, cy, q, px, py) < v
  }

  ghost predicate Lifeless(live: Live, q: Quadrant) {
    forall px: nat, py: nat :: Holds(q, px, py) ==> !live(px, py)
  }

  /** The chosen quadrant is the first of those with the highest best score among the first `n`;
      none is chosen when no quadrant that can be split has a live cell. */
  ghost predicate ChosenAmong(grid: Grid, cx: nat, cy: nat, live: Live, quads: seq<Quadrant>, n: nat,
                              s: int, b: Scored)
    requires Shaped(grid, cx, cy) && AllFit(quads, cx, cy) && n <= |quads|
  {
    if s < 0 then
      && s == -1 && b.score == NO_POINT.score
      && forall t :: 0 <= t < n && Splittable(quads[t]) ==> Lifeless(live, quads[t])
    else
      && s < n && Splittable(quads[s]) && b.x >= 0 && b.score >= 0.0
      && (forall t :: 0 <= t < n && Splittable(quads[t]) ==> Capped(grid, cx, cy, live, quads[t], b.score))
      && (forall t :: 0 <= t < s && Splittable(quads[t]) ==> Beaten(grid, cx, cy, live, quads[t], b.score))
  }

  method ChooseQuadrant(grid: Grid, cx: nat, cy: nat, live: Live, quads: seq<Quadrant>)
    returns (s: int, b: Scored)
    requires Shaped(grid, cx, cy) && AllFit(quads, cx, cy)
    ensures ChosenAmong(grid, cx, cy, live, quads, |quads|, s, b)
    ensures s >= 0 ==> BestPointOf(grid, cx, cy, live, quads[s], b)
  {
    s, b := -1, NO_POINT;
    var k := 0;
    while k < |quads|
      invariant 0 <= k <= |quads|
      invariant ChosenAmong(grid, cx, cy, live, quads, k, s, b)
      invariant s >= 0 ==> BestPointOf(grid, cx, cy, live, quads[s], b)
    {
      if Splittable(quads[k]) {
        var here := BestPoint(grid, cx, cy, live, quads[k]);
        BestIsTop(grid, cx, cy, live, quads[k], here);
        ChooseStep(grid, cx, cy, live, quads, k, s, b, here);
        if here.score > b.score {
          s, b := k, here;
        }
      } else {
        SkipQuadrant(grid, cx, cy, live, quads, k, s, b);
      }
      k := k + 1;
    }
  }

  lemma ChooseStep(grid: Grid, cx: nat, cy: nat, live: Live, quads: seq<Quadrant>, k: nat, s: int, b: Scored, here: Scored)
    requires Shaped(grid, cx, cy) && AllFit(quads, cx, cy) && k < |quads| && Splittable(quads[k])
    requires ChosenAmong(grid, cx, cy, live, quads, k, s, b)
    requires Capped(grid, cx, cy, live, quads[k], here.score)
    requires if here.x < 0 then here == NO_POINT && Lifeless(live, quads[k]) else here.score >= 0.0
    ensures if here.score > b.score then ChosenAmong(grid, cx, cy, live, quads, k + 1, k, here)
            else ChosenAmong(grid, cx, cy, live, quads, k + 1, s, b)
  {
    if here.score > b.score {
      TakeQuadrant(grid, cx, cy, live, quads, k, s, b, here);
    } else {
      KeepQuadrant(grid, cx, cy, live, quads, k, s, b, here);
    }
  }

  lemma SkipQuadrant(grid: Grid, cx: nat, cy: nat, live: Live, quads: seq<Quadrant>, k: nat, s: int, b: Scored)
    requires Shaped(grid, cx, cy) && AllFit(quads, cx, cy) && k < |quads| && !Splittable(quads[k])
    requires ChosenAmong(grid, cx, cy, live, quads, k, s, b)
    ensures ChosenAmong(grid, cx, cy, live, quads, k + 1, s, b)
  {
  }

  lemma TakeQuadrant(grid: Grid, cx: nat, cy: nat, live: Live, quads: seq<Quadrant>, k: nat, s: int, b: Scored, here: Scored)
    requires Shaped(grid, cx, cy) && AllFit(quads, cx, cy) && k < |quads| && Splittable(quads[k])
    requires ChosenAmong(grid, cx, cy, live, quads, k, s, b) && here.score > b.score
    requires Capped(grid, cx, cy, live, quads[k], here.score) && here.x >= 0 && here.score >= 0.0
    ensures ChosenAmong(grid, cx, cy, live, quads, k + 1, k, here)
  {
    forall t | 0 <= t < k && Splittable(quads[t])
      ensures Capped(grid, cx, cy, live, quads[t], here.score) && Beaten(grid, cx, cy, live, quads[t], here.score)
    {
      OldCap(grid, cx, cy, live, quads, k, s, b, t, here.score);
    }
  }

  lemma KeepQuadrant(grid: Grid, cx: nat, cy: nat, live: Live, quads: seq<Quadrant>, k: nat, s: int, b: Scored, here: Scored)
    requires Shaped(grid, cx, cy) && AllFit(quads, cx, cy) && k < |quads| && Splittable(quads[k])
    requires ChosenAmong(grid, cx, cy, live, quads, k, s, b) && here.score <= b.score
    requires Capped(grid, cx, cy, live, quads[k], here.score)
    requires if here.x < 0 then here == NO_POINT && Lifeless(live, quads[k]) else here.score >= 0.0
    ensures ChosenAmong(grid, cx, cy, live, quads, k + 1, s, b)
  {
    if s >= 0 {
      CapRises(grid, cx, cy, live, quads[k], here.score, b.score);
    }
  }

  lemma OldCap(grid: Grid, cx: nat, cy: nat, live: Live, quads: seq<Quadrant>, k: nat, s: int, b: Scored, t: nat, v: real)
    requires Shaped(grid, cx, cy) && AllFit(quads, cx, cy) && t < k <= |quads| && Splittable(quads[t])
    requires ChosenAmong(grid, cx, cy, live, quads, k, s, b) && b.score < v
    ensures Capped(grid, cx, cy, live, quads[t], v) && Beaten(grid, cx, cy, live, quads[t], v)
  {
    if s >= 0 {
      CapRises(grid, cx, cy, live, quads[t], b.score, v);
    }
  }

  lemma CapRises(grid: Grid, cx: nat, cy: nat, live: Live, q: Quadrant, v: real, w: real)
    requires Shaped(grid, cx, cy) && Fits(q, cx, cy) && v <= w && Capped(grid, cx, cy, live, q, v)
    ensures Capped(grid, cx, cy, live, q, w) && (v < w ==> Beaten(grid, cx, cy, live, q, w))
  {
  }

  lemma BestIsTop(grid: Grid, cx: nat, cy: nat, live: Live, q: Quadrant, b: Scored)
    requires Shaped(grid, cx, cy) && Fits(q, cx, cy) && BestPointOf(grid, cx, cy, live, q, b)
    ensures b.x < 0 ==> b == NO_POINT && Lifeless(live, q)
    ensures b.x >= 0 ==> b.score >= 0.0
    ensures Capped(grid, cx, cy, live, q, b.score)
  {
    assert forall px: nat, py: nat :: Holds(q, px, py) ==> Visited(q, px, py, q.xe + 1, q.ys);
  }
}
