/** One step of the heat map seen over the whole grid: what the pieces' means are worth, and
    when the step is the best single cut. */
module HeatGlobal {
  import opened Grids
  import opened HeatClaims
  import opened HeatMap
  import opened HeatSearch
  import opened Quadrants
  import opened SquaredError
  import opened Sums
  import opened Totals

  ghost predicate MeanIsExact(grid: Grid, cx: nat, cy: nat, q: Quadrant)
    requires Shaped(grid, cx, cy) && Fits(q, cx, cy)
  {
    Cells(grid, cx, cy, q) != [] && q.mean == Mean(Cells(grid, cx, cy, q))
  }

  predicate AsksForNoSplit(q: Quadrant, b: Scored) {
    b.x == q.xe && b.y == q.ys
  }

  /** A cut at a point other than the corner gives every piece the exact mean of its cells. */
  lemma PieceMeansAreExact(grid: Grid, cx: nat, cy: nat, q: Quadrant, b: Scored, k: nat)
    requires Shaped(grid, cx, cy) && Fits(q, cx, cy) && Holds(q, b.x, b.y) && MeansOk(grid, cx, cy, q, b)
    requires !AsksForNoSplit(q, b) && k < |Pieces(grid, cx, cy, q, b)|
    ensures Fits(Pieces(grid, cx, cy, q, b)[k], cx, cy)
    ensures MeanIsExact(grid, cx, cy, Pieces(grid, cx, cy, q, b)[k])
  {
    var p, t := Pieces(grid, cx, cy, q, b), PartsAt(grid, cx, cy, q, b.x, b.y);
    if b.x == q.xe {
      RowPieces(grid, cx, cy, q, b);
      PieceIsExact(grid, cx, cy, p[k], if k == 0 then t.upperLeft else t.lowerLeft);
    } else if b.y == q.ys {
      ColumnPieces(grid, cx, cy, q, b);
      PieceIsExact(grid, cx, cy, p[k], if k == 0 then t.upperLeft else t.upperRight);
    } else {
      FourPieces(grid, cx, cy, q, b);
      PieceIsExact(grid, cx, cy, p[k],
                   if k == 0 then t.upperLeft else if k == 1 then t.upperRight
                   else if k == 2 then t.lowerRight else t.lowerLeft);
    }
  }

  lemma PieceIsExact(grid: Grid, cx: nat, cy: nat, r: Quadrant, part: seq<real>)
    requires Shaped(grid, cx, cy) && IsPart(grid, cx, cy, r, part) && r.mean == MeanOrZero(part)
    ensures MeanIsExact(grid, cx, cy, r)
  {
    BlockSize(grid, cx, cy, r.xs, r.xe + 1, r.ys, r.ye + 1);
    PositiveArea(r.xe + 1 - r.xs, r.ye + 1 - r.ys);
  }

  // ---------- the fallback cuts ----------

  lemma LeftOverMean(m: real, n: nat, cell: real, rest: real)
    requires n > 1
    ensures MeanWithout(m, n, cell) == rest / (n - 1) as real <==> m == (rest + cell) / n as real
  {
    var l := n as real * m - cell;
    if l / (n as real - 1.0) == rest / (n - 1) as real {
      assert l == rest;
      DivideBack(m, n as real, rest + cell);
    }
  }

  /** The corner cut of one column or one row gives the rest an exact mean exactly when the
      mean stored with the quadrant is that of its cells as they are now. */
  lemma CornerCutIsExactIffMeanIsFresh(grid: Grid, cx: nat, cy: nat, q: Quadrant)
    requires Shaped(grid, cx, cy) && Fits(q, cx, cy) && Splittable(q) && (q.xs == q.xe || q.ys == q.ye)
    ensures var p := Corner(grid, cx, cy, q);
            && |p| == 2 && Fits(p[0], cx, cy) && Fits(p[1], cx, cy)
            && MeanIsExact(grid, cx, cy, p[1])
            && (MeanIsExact(grid, cx, cy, p[0]) <==> MeanIsExact(grid, cx, cy, q))
  {
    LoneCorner(grid, cx, cy, q);
    if q.xs == q.xe {
      RestOfColumn(grid, cx, cy, q);
    } else {
      RestOfRow(grid, cx, cy, q);
    }
  }

  lemma LoneCorner(grid: Grid, cx: nat, cy: nat, q: Quadrant)
    requires Shaped(grid, cx, cy) && Fits(q, cx, cy)
    ensures Block(grid, q.xe, q.xe + 1, q.ys, q.ys + 1) == [grid[q.xe][q.ys]]
    ensures Mean([grid[q.xe][q.ys]]) == grid[q.xe][q.ys]
  {
    OneColumn(grid, cx, cy, q.xe, q.ys, q.ys + 1);
    FlatMean([grid[q.xe][q.ys]], grid[q.xe][q.ys]);
  }

  lemma ColumnCells(grid: Grid, cx: nat, cy: nat, q: Quadrant)
    requires Shaped(grid, cx, cy) && Fits(q, cx, cy) && q.xs == q.xe
    ensures Cells(grid, cx, cy, q) == grid[q.xs][q.ys..q.ye + 1]
  {
    OneColumn(grid, cx, cy, q.xs, q.ys, q.ye + 1);
  }

  lemma CornerOfLine(grid: Grid, cx: nat, cy: nat, q: Quadrant) returns (r: Quadrant)
    requires Shaped(grid, cx, cy) && Fits(q, cx, cy) && Splittable(q) && (q.xs == q.xe || q.ys == q.ye)
    ensures r == Corner(grid, cx, cy, q)[0]
    ensures r.mean == MeanWithout(q.mean, if q.xs == q.xe then q.ye - q.ys + 1 else q.xe - q.xs + 1, grid[q.xe][q.ys])
    ensures if q.xs == q.xe then r.xs == q.xs && r.xe == q.xe && r.ys == q.ys + 1 && r.ye == q.ye
            else r.xs == q.xs && r.xe == q.xe - 1 && r.ys == q.ys && r.ye == q.ye
  {
    r := Corner(grid, cx, cy, q)[0];
  }

  lemma FirstApart(col: seq<real>, lo: nat, hi: nat)
    requires lo < hi <= |col|
    ensures col[lo..hi] == [col[lo]] + col[lo + 1..hi] && |col[lo..hi]| == hi - lo
  {
  }

  lemma RestOfColumn(grid: Grid, cx: nat, cy: nat, q: Quadrant)
    requires Shaped(grid, cx, cy) && Fits(q, cx, cy) && q.xs == q.xe && q.ys < q.ye
    ensures MeanIsExact(grid, cx, cy, Corner(grid, cx, cy, q)[0]) <==> MeanIsExact(grid, cx, cy, q)
  {
    var r := CornerOfLine(grid, cx, cy, q);
    ColumnCells(grid, cx, cy, q);
    ColumnCells(grid, cx, cy, r);
    FirstApart(grid[q.xs], q.ys, q.ye + 1);
    RestIsExact(grid, cx, cy, q, r, grid[q.xs][q.ys..q.ye + 1], grid[q.xs][q.ys + 1..q.ye + 1], grid[q.xe][q.ys]);
  }

  lemma RowCells(grid: Grid, cx: nat, cy: nat, q: Quadrant)
    requires Shaped(grid, cx, cy) && Fits(q, cx, cy) && q.ys == q.ye && q.xs < q.xe
    ensures var rest := Block(grid, q.xs, q.xe, q.ys, q.ye + 1);
            && Cells(grid, cx, cy, q) == rest + [grid[q.xe][q.ys]] && |rest| == q.xe - q.xs
  {
    LoneCorner(grid, cx, cy, q);
    BlockSplitX(grid, cx, cy, q.xs, q.xe, q.xe + 1, q.ys, q.ye + 1);
    BlockSize(grid, cx, cy, q.xs, q.xe, q.ys, q.ye + 1);
  }

  lemma RestOfRow(grid: Grid, cx: nat, cy: nat, q: Quadrant)
    requires Shaped(grid, cx, cy) && Fits(q, cx, cy) && q.xs < q.xe && q.ys == q.ye
    ensures MeanIsExact(grid, cx, cy, Corner(grid, cx, cy, q)[0]) <==> MeanIsExact(grid, cx, cy, q)
  {
    var r := CornerOfLine(grid, cx, cy, q);
    var cell, rest := grid[q.xe][q.ys], Block(grid, q.xs, q.xe, q.ys, q.ye + 1);
    RowCells(grid, cx, cy, q);
    RestIsExact(grid, cx, cy, q, r, rest + [cell], rest, cell);
  }

  lemma RestIsExact(grid: Grid, cx: nat, cy: nat, q: Quadrant, p: Quadrant, all: seq<real>, rest: seq<real>, cell: real)
    requires Shaped(grid, cx, cy) && Fits(q, cx, cy) && Fits(p, cx, cy)
    requires Cells(grid, cx, cy, q) == all && Cells(grid, cx, cy, p) == rest != []
    requires all == [cell] + rest || all == rest + [cell]
    requires p.mean == MeanWithout(q.mean, |all|, cell)
    ensures MeanIsExact(grid, cx, cy, p) <==> MeanIsExact(grid, cx, cy, q)
  {
    LoneCellLeft(all, [cell], rest, q.mean, cell);
  }

  lemma LoneCellLeft(all: seq<real>, lone: seq<real>, rest: seq<real>, m: real, cell: real)
    requires rest != [] && lone == [cell] && |all| == |rest| + 1
    requires Sum(all) == Sum(lone + rest) || Sum(all) == Sum(rest + lone)
    ensures MeanWithout(m, |all|, cell) == Mean(rest) <==> m == Mean(all)
  {
    SumAppend(lone, rest);
    SumAppend(rest, lone);
    assert lone[..0] == [];
    LeftOverMean(m, |all|, cell, Sum(rest));
  }

  lemma {:induction false} RowSumIsSum(grid: Grid, x: nat, y0: nat, y1: nat)
    requires x < |grid| && y0 <= y1 <= |grid[x]|
    ensures RowSum(grid, x, y0, y1) == Sum(grid[x][y0..y1])
    decreases y1
  {
    if y0 < y1 {
      RowSumIsSum(grid, x, y0, y1 - 1);
      assert grid[x][y0..y1][..y1 - 1 - y0] == grid[x][y0..y1 - 1];
    }
  }

  lemma {:induction false} ColumnSumIsSum(grid: Grid, cx: nat, cy: nat, y: nat, x0: nat, x1: nat)
    requires Shaped(grid, cx, cy) && y < cy && x0 <= x1 <= cx
    ensures ColumnSum(grid, y, x0, x1) == Sum(Block(grid, x0, x1, y, y + 1))
    decreases x1
  {
    if x0 < x1 {
      var last := x1 - 1;
      ColumnSumIsSum(grid, cx, cy, y, x0, last);
      ColumnAdds(grid, cx, cy, x0, last, x1, y, y + 1);
      SumOfOne(grid[last], y);
    }
  }

  lemma SumOfOne(col: seq<real>, y: nat)
    requires y < |col|
    ensures Sum(col[y..y + 1]) == col[y]
  {
    assert col[y..y + 1] == [] + [col[y]];
  }

  /** A mean computed as a sum over a count is exact. */
  lemma SumIsExactMean(grid: Grid, cx: nat, cy: nat, r: Quadrant, n: nat)
    requires Shaped(grid, cx, cy) && Fits(r, cx, cy) && n == (r.xe + 1 - r.xs) * (r.ye + 1 - r.ys)
    requires n > 0 && r.mean == Sum(Cells(grid, cx, cy, r)) / n as real
    ensures MeanIsExact(grid, cx, cy, r)
  {
    BlockSize(grid, cx, cy, r.xs, r.xe + 1, r.ys, r.ye + 1);
  }

  /** The corner cut of a rectangle gives three pieces their exact means. What is left gets the
      stored mean less the sum of the three means, which is its mean exactly when the stored mean
      is the sum, and not the weighted average, of the four means. */
  lemma RectangleCutIsExactIff(grid: Grid, cx: nat, cy: nat, q: Quadrant)
    requires Shaped(grid, cx, cy) && Fits(q, cx, cy) && q.xs < q.xe && q.ys < q.ye
    ensures var p := Corner(grid, cx, cy, q);
            && (forall k :: 0 <= k < |p| ==> Fits(p[k], cx, cy)) && |p| == 4
            && (forall k :: 1 <= k < |p| ==> MeanIsExact(grid, cx, cy, p[k]))
            && (MeanIsExact(grid, cx, cy, p[0]) <==>
                  q.mean == Mean(Cells(grid, cx, cy, p[0])) + p[1].mean + p[2].mean + p[3].mean)
  {
    RightPieceIsExact(grid, cx, cy, q, Corner(grid, cx, cy, q)[1]);
    LoneCorner(grid, cx, cy, q);
    LowerPieceIsExact(grid, cx, cy, q, Corner(grid, cx, cy, q)[3]);
    BlockSize(grid, cx, cy, q.xs, q.xe, q.ys + 1, q.ye + 1);
    PositiveArea(q.xe - q.xs, q.ye - q.ys);
  }

  lemma RightPieceIsExact(grid: Grid, cx: nat, cy: nat, q: Quadrant, p: Quadrant)
    requires Shaped(grid, cx, cy) && Fits(q, cx, cy) && q.ys < q.ye
    requires p == Quadrant(q.xe, q.xe, q.ys + 1, q.ye, RowSum(grid, q.xe, q.ys + 1, q.ye + 1) / (q.ye - q.ys) as real)
    ensures Fits(p, cx, cy) && MeanIsExact(grid, cx, cy, p)
  {
    RowSumIsSum(grid, q.xe, q.ys + 1, q.ye + 1);
    OneColumn(grid, cx, cy, q.xe, q.ys + 1, q.ye + 1);
    SumIsExactMean(grid, cx, cy, p, q.ye - q.ys);
  }

  lemma LowerPieceIsExact(grid: Grid, cx: nat, cy: nat, q: Quadrant, p: Quadrant)
    requires Shaped(grid, cx, cy) && Fits(q, cx, cy) && q.xs < q.xe
    requires p == Quadrant(q.xs, q.xe - 1, q.ys, q.ys, ColumnSum(grid, q.ys, q.xs, q.xe) / (q.xe - q.xs) as real)
    ensures Fits(p, cx, cy) && MeanIsExact(grid, cx, cy, p)
  {
    ColumnSumIsSum(grid, cx, cy, q.ys, q.xs, q.xe);
    SumIsExactMean(grid, cx, cy, p, q.xe - q.xs);
  }

  lemma {:induction false} FlatRowSum(grid: Grid, x: nat, y0: nat, y1: nat, v: real)
    requires x < |grid| && y0 <= y1 <= |grid[x]| && forall y :: y0 <= y < y1 ==> grid[x][y] == v
    ensures RowSum(grid, x, y0, y1) == v * (y1 - y0) as real
    decreases y1
  {
    if y0 < y1 {
      FlatRowSum(grid, x, y0, y1 - 1, v);
      assert (y1 - y0) as real == (y1 - 1 - y0) as real + 1.0;
    }
  }

  lemma {:induction false} FlatColumnSum(grid: Grid, y: nat, x0: nat, x1: nat, v: real)
    requires x0 <= x1 <= |grid| && forall x :: x0 <= x < x1 ==> y < |grid[x]| && grid[x][y] == v
    ensures ColumnSum(grid, y, x0, x1) == v * (x1 - x0) as real
    decreases x1
  {
    if x0 < x1 {
      FlatColumnSum(grid, y, x0, x1 - 1, v);
      assert (x1 - x0) as real == (x1 - 1 - x0) as real + 1.0;
    }
  }

  /** The corner cut of a rectangle does not keep the mean of a flat region: from cells and mean
      all equal to v it makes -2v, which is right for v = 0 only. */
  lemma RectangleCutBreaksFlatMean(grid: Grid, cx: nat, cy: nat, q: Quadrant)
    requires Shaped(grid, cx, cy) && Fits(q, cx, cy) && q.xs < q.xe && q.ys < q.ye
    requires Flat(grid, cx, cy, q, q.mean)
    ensures var p := Corner(grid, cx, cy, q);
            && Fits(p[0], cx, cy) && p[0].mean == -2.0 * q.mean
            && (MeanIsExact(grid, cx, cy, p[0]) <==> q.mean == 0.0)
  {
    var p, v := Corner(grid, cx, cy, q), q.mean;
    FlatRowSum(grid, q.xe, q.ys + 1, q.ye + 1, v);
    FlatColumnSum(grid, q.ys, q.xs, q.xe, v);
    DivideBack(v, (q.ye - q.ys) as real, RowSum(grid, q.xe, q.ys + 1, q.ye + 1));
    DivideBack(v, (q.xe - q.xs) as real, ColumnSum(grid, q.ys, q.xs, q.xe));
    var rest := Cells(grid, cx, cy, p[0]);
    BlockSize(grid, cx, cy, q.xs, q.xe, q.ys + 1, q.ye + 1);
    PositiveArea(q.xe - q.xs, q.ye - q.ys);
    BlockCells(grid, cx, cy, q.xs, q.xe, q.ys + 1, q.ye + 1, v);
    FlatMean(rest, v);
  }

  // ---------- squared error of the whole grid ----------

  ghost function QuadError(grid: Grid, cx: nat, cy: nat, q: Quadrant): real
    requires Shaped(grid, cx, cy)
  {
    if Fits(q, cx, cy) then Error(Cells(grid, cx, cy, q)) else 0.0
  }

  ghost function ErrorOf(grid: Grid, cx: nat, cy: nat): Quadrant -> real
    requires Shaped(grid, cx, cy)
  {
    (q: Quadrant) => QuadError(grid, cx, cy, q)
  }

  ghost function TotalError(grid: Grid, cx: nat, cy: nat, quads: seq<Quadrant>): real
    requires Shaped(grid, cx, cy)
  {
    TotalBy(ErrorOf(grid, cx, cy), quads)
  }

  lemma FourExplainMore(s: seq<real>, a: seq<real>, b: seq<real>, c: seq<real>, d: seq<real>)
    requires SameMoments(s, (a + b) + (c + d))
    ensures Explained(a) + Explained(b) + Explained(c) + Explained(d) >= Explained(s)
  {
    PartsExplainMore(s, a + b, c + d);
    PartsExplainMore(a + b, a, b);
    PartsExplainMore(c + d, c, d);
  }

  /** No point scores below the corner, which is no cut at all. */
  lemma NothingBelowCorner(grid: Grid, cx: nat, cy: nat, q: Quadrant, x: nat, y: nat)
    requires Shaped(grid, cx, cy) && Fits(q, cx, cy) && Holds(q, x, y)
    ensures Score(grid, cx, cy, q, x, y) >= Score(grid, cx, cy, q, q.xe, q.ys)
    ensures Score(grid, cx, cy, q, x, y) > Score(grid, cx, cy, q, q.xe, q.ys)
       <==> SplitError(grid, cx, cy, q, x, y) < QuadError(grid, cx, cy, q)
  {
    var p := PartsAt(grid, cx, cy, q, x, y);
    PartsAddUp(grid, cx, cy, q, x, y);
    FourExplainMore(Cells(grid, cx, cy, q), p.lowerLeft, p.lowerRight, p.upperLeft, p.upperRight);
    CornerScore(grid, cx, cy, q);
    ScoreIsErrorLeft(grid, cx, cy, q, x, y);
    ErrorIsUnexplained(Cells(grid, cx, cy, q));
  }

  /** A live point that the search would prefer to the corner: any point it meets before, and a
      later point whose cut gains something. */
  ghost predicate BeatsCorner(grid: Grid, cx: nat, cy: nat, live: Live, q: Quadrant, x: nat, y: nat)
    requires Shaped(grid, cx, cy) && Fits(q, cx, cy)
  {
    Holds(q, x, y) && live(x, y) && (x < q.xe || SplitError(grid, cx, cy, q, x, y) < QuadError(grid, cx, cy, q))
  }

  /** When the search asks for no split, cells that ran out included. */
  lemma AsksForNoSplitIff(grid: Grid, cx: nat, cy: nat, live: Live, q: Quadrant, b: Scored)
    requires Shaped(grid, cx, cy) && Fits(q, cx, cy) && BestPointOf(grid, cx, cy, live, q, b)
    ensures AsksForNoSplit(q, b)
       <==> live(q.xe, q.ys) && forall x: nat, y: nat :: !BeatsCorner(grid, cx, cy, live, q, x, y)
  {
    BestIsTop(grid, cx, cy, live, q, b);
    assert Holds(q, q.xe, q.ys);
    forall x: nat, y: nat | BeatsCorner(grid, cx, cy, live, q, x, y) ensures !AsksForNoSplit(q, b) {
      BeatenIsNotChosen(grid, cx, cy, live, q, b, x, y);
    }
    if !AsksForNoSplit(q, b) && live(q.xe, q.ys) {
      NothingBelowCorner(grid, cx, cy, q, b.x, b.y);
      assert Visited(q, q.xe, q.ys, q.xe + 1, q.ys);
      assert b.x == q.xe ==> Visited(q, q.xe, q.ys, b.x, b.y);
      assert BeatsCorner(grid, cx, cy, live, q, b.x, b.y);
    }
  }

  lemma BeatenIsNotChosen(grid: Grid, cx: nat, cy: nat, live: Live, q: Quadrant, b: Scored, x: nat, y: nat)
    requires Shaped(grid, cx, cy) && Fits(q, cx, cy) && BestPointOf(grid, cx, cy, live, q, b)
    requires BeatsCorner(grid, cx, cy, live, q, x, y)
    ensures !AsksForNoSplit(q, b)
  {
    NothingBelowCorner(grid, cx, cy, q, x, y);
    assert Visited(q, x, y, q.xe + 1, q.ys);
    assert x < q.xe ==> Visited(q, x, y, q.xe, q.ys);
  }

  /** The point a cut really goes through. */
  function CutX(q: Quadrant, x: nat, y: nat): nat
    requires Splittable(q)
  {
    if x == q.xe && y == q.ys && q.xs < q.xe then q.xe - 1 else x
  }

  function CutY(q: Quadrant, x: nat, y: nat): nat {
    if x == q.xe && y == q.ys && q.ys < q.ye then q.ys + 1 else y
  }

  lemma {:induction false} TotalByAgrees<T(!new)>(err: T -> real, a: seq<T>, b: seq<T>)
    requires |a| == |b| && forall k :: 0 <= k < |a| ==> err(a[k]) == err(b[k])
    ensures TotalBy(err, a) == TotalBy(err, b)
  {
    if a != [] {
      TotalByAgrees(err, a[..|a| - 1], b[..|b| - 1]);
    }
  }

  lemma TotalOfFour<T(!new)>(err: T -> real, a: T, b: T, c: T, d: T)
    ensures TotalBy(err, [a, b, c, d]) == err(a) + err(b) + err(c) + err(d)
  {
    TotalByFew(err, a, b);
    TotalByFew(err, c, d);
    assert [a, b, c, d] == [a, b] + [c, d];
    TotalByAppend(err, [a, b], [c, d]);
  }

  /** The piece `r` is the part given. */
  ghost predicate IsPart(grid: Grid, cx: nat, cy: nat, r: Quadrant, part: seq<real>)
    requires Shaped(grid, cx, cy)
  {
    Fits(r, cx, cy) && Cells(grid, cx, cy, r) == part
  }

  lemma ColumnPieces(grid: Grid, cx: nat, cy: nat, q: Quadrant, b: Scored)
    requires Shaped(grid, cx, cy) && Fits(q, cx, cy) && Holds(q, b.x, b.y) && b.x < q.xe && b.y == q.ys
    ensures var p := Pieces(grid, cx, cy, q, b);
            var t := PartsAt(grid, cx, cy, q, b.x, b.y);
            && |p| == 2 && IsPart(grid, cx, cy, p[0], t.upperLeft) && IsPart(grid, cx, cy, p[1], t.upperRight)
            && t.lowerRight == [] && t.lowerLeft == []
            && p[0].mean == b.mean1 && p[1].mean == b.mean2
  {
    EmptyRows(grid, cx, cy, b.x + 1, q.xe + 1, q.ys);
    EmptyRows(grid, cx, cy, q.xs, b.x + 1, q.ys);
  }

  lemma RowPieces(grid: Grid, cx: nat, cy: nat, q: Quadrant, b: Scored)
    requires Shaped(grid, cx, cy) && Fits(q, cx, cy) && Holds(q, b.x, b.y) && b.x == q.xe && b.y > q.ys
    ensures var p := Pieces(grid, cx, cy, q, b);
            var t := PartsAt(grid, cx, cy, q, b.x, b.y);
            && |p| == 2 && IsPart(grid, cx, cy, p[0], t.upperLeft) && IsPart(grid, cx, cy, p[1], t.lowerLeft)
            && t.upperRight == [] && t.lowerRight == []
            && p[0].mean == b.mean1 && p[1].mean == b.mean4
  {
  }

  lemma FourPieces(grid: Grid, cx: nat, cy: nat, q: Quadrant, b: Scored)
    requires Shaped(grid, cx, cy) && Fits(q, cx, cy) && Holds(q, b.x, b.y) && b.x < q.xe && b.y > q.ys
    ensures var p := Pieces(grid, cx, cy, q, b);
            var t := PartsAt(grid, cx, cy, q, b.x, b.y);
            && |p| == 4 && IsPart(grid, cx, cy, p[0], t.upperLeft) && IsPart(grid, cx, cy, p[1], t.upperRight)
            && IsPart(grid, cx, cy, p[2], t.lowerRight) && IsPart(grid, cx, cy, p[3], t.lowerLeft)
            && p[0].mean == b.mean1 && p[1].mean == b.mean2 && p[2].mean == b.mean3 && p[3].mean == b.mean4
  {
  }

  lemma TwoErrors(grid: Grid, cx: nat, cy: nat, p: seq<Quadrant>, a: seq<real>, b: seq<real>)
    requires Shaped(grid, cx, cy) && |p| == 2 && IsPart(grid, cx, cy, p[0], a) && IsPart(grid, cx, cy, p[1], b)
    ensures TotalError(grid, cx, cy, p) == Error(a) + Error(b)
  {
    TotalByFew(ErrorOf(grid, cx, cy), p[0], p[1]);
    assert p == [p[0], p[1]];
  }

  lemma FourPieceErrors(grid: Grid, cx: nat, cy: nat, p: seq<Quadrant>, a: seq<real>, b: seq<real>, c: seq<real>, d: seq<real>)
    requires Shaped(grid, cx, cy) && |p| == 4 && IsPart(grid, cx, cy, p[0], a) && IsPart(grid, cx, cy, p[1], b)
    requires IsPart(grid, cx, cy, p[2], c) && IsPart(grid, cx, cy, p[3], d)
    ensures TotalError(grid, cx, cy, p) == Error(a) + Error(b) + Error(c) + Error(d)
  {
    TotalOfFour(ErrorOf(grid, cx, cy), p[0], p[1], p[2], p[3]);
    assert p == [p[0], p[1], p[2], p[3]];
  }

  lemma RealPiecesError(grid: Grid, cx: nat, cy: nat, q: Quadrant, b: Scored)
    requires Shaped(grid, cx, cy) && Fits(q, cx, cy) && Holds(q, b.x, b.y) && !AsksForNoSplit(q, b)
    ensures TotalError(grid, cx, cy, Pieces(grid, cx, cy, q, b)) == SplitError(grid, cx, cy, q, b.x, b.y)
  {
    var p, t := Pieces(grid, cx, cy, q, b), PartsAt(grid, cx, cy, q, b.x, b.y);
    if b.x == q.xe {
      RowPieces(grid, cx, cy, q, b);
      TwoErrors(grid, cx, cy, p, t.upperLeft, t.lowerLeft);
    } else if b.y == q.ys {
      ColumnPieces(grid, cx, cy, q, b);
      TwoErrors(grid, cx, cy, p, t.upperLeft, t.upperRight);
    } else {
      FourPieces(grid, cx, cy, q, b);
      FourPieceErrors(grid, cx, cy, p, t.upperLeft, t.upperRight, t.lowerRight, t.lowerLeft);
    }
  }

  /** The corner cut takes the same regions as the cut at the point it really goes through. */
  lemma CornerRegions(grid: Grid, cx: nat, cy: nat, q: Quadrant, c: Scored)
    requires Shaped(grid, cx, cy) && Fits(q, cx, cy) && Splittable(q)
    requires c.x == CutX(q, q.xe, q.ys) && c.y == CutY(q, q.xe, q.ys)
    ensures Holds(q, c.x, c.y) && !AsksForNoSplit(q, c)
    ensures SameRegions(Corner(grid, cx, cy, q), Pieces(grid, cx, cy, q, c))
  {
  }

  predicate SameRegions(a: seq<Quadrant>, b: seq<Quadrant>) {
    |a| == |b| && forall k :: 0 <= k < |a| ==> a[k].(mean := 0.0) == b[k].(mean := 0.0)
  }

  lemma SameRegionsError(grid: Grid, cx: nat, cy: nat, a: seq<Quadrant>, b: seq<Quadrant>)
    requires Shaped(grid, cx, cy) && SameRegions(a, b)
    ensures TotalError(grid, cx, cy, a) == TotalError(grid, cx, cy, b)
  {
    forall k | 0 <= k < |a| ensures QuadError(grid, cx, cy, a[k]) == QuadError(grid, cx, cy, b[k]) {
      assert a[k].(mean := 0.0) == b[k].(mean := 0.0);
      MeanIsNoMatter(grid, cx, cy, a[k]);
      MeanIsNoMatter(grid, cx, cy, b[k]);
    }
    TotalByAgrees(ErrorOf(grid, cx, cy), a, b);
  }

  lemma MeanIsNoMatter(grid: Grid, cx: nat, cy: nat, q: Quadrant)
    requires Shaped(grid, cx, cy)
    ensures QuadError(grid, cx, cy, q) == QuadError(grid, cx, cy, q.(mean := 0.0))
  {
  }

  /** After a cut the quadrant's share of the error is that of the point the cut goes through. */
  lemma PiecesError(grid: Grid, cx: nat, cy: nat, q: Quadrant, b: Scored)
    requires Shaped(grid, cx, cy) && Fits(q, cx, cy) && Splittable(q) && Holds(q, b.x, b.y)
    ensures Holds(q, CutX(q, b.x, b.y), CutY(q, b.x, b.y))
    ensures TotalError(grid, cx, cy, Pieces(grid, cx, cy, q, b))
         == SplitError(grid, cx, cy, q, CutX(q, b.x, b.y), CutY(q, b.x, b.y))
  {
    if AsksForNoSplit(q, b) {
      var c := Scored(0.0, CutX(q, q.xe, q.ys), CutY(q, q.xe, q.ys), 0.0, 0.0, 0.0, 0.0);
      CornerRegions(grid, cx, cy, q, c);
      RealPiecesError(grid, cx, cy, q, c);
      SameRegionsError(grid, cx, cy, Corner(grid, cx, cy, q), Pieces(grid, cx, cy, q, c));
    } else {
      RealPiecesError(grid, cx, cy, q, b);
    }
  }

  lemma CutError(grid: Grid, cx: nat, cy: nat, prev: seq<Quadrant>, s: nat, b: Scored)
    requires Shaped(grid, cx, cy) && AllFit(prev, cx, cy) && s < |prev| && Splittable(prev[s]) && Holds(prev[s], b.x, b.y)
    ensures Holds(prev[s], CutX(prev[s], b.x, b.y), CutY(prev[s], b.x, b.y))
    ensures TotalError(grid, cx, cy, Replace(prev, s, Pieces(grid, cx, cy, prev[s], b)))
         == TotalError(grid, cx, cy, prev) - QuadError(grid, cx, cy, prev[s])
            + SplitError(grid, cx, cy, prev[s], CutX(prev[s], b.x, b.y), CutY(prev[s], b.x, b.y))
  {
    PiecesError(grid, cx, cy, prev[s], b);
    TotalByReplace(ErrorOf(grid, cx, cy), prev, s, Pieces(grid, cx, cy, prev[s], b));
  }

  // ---------- is the step the best single cut? ----------

  ghost predicate Candidate(prev: seq<Quadrant>, t: nat, p: Scored) {
    t < |prev| && Splittable(prev[t]) && Holds(prev[t], p.x, p.y)
  }

  /** No other single cut of any quadrant leaves a smaller squared error. */
  ghost predicate BestOneCut(grid: Grid, cx: nat, cy: nat, prev: seq<Quadrant>, made: seq<Quadrant>)
    requires Shaped(grid, cx, cy) && AllFit(prev, cx, cy)
  {
    forall t: nat, p: Scored :: Candidate(prev, t, p) ==>
      TotalError(grid, cx, cy, made) <= TotalError(grid, cx, cy, Replace(prev, t, Pieces(grid, cx, cy, prev[t], p)))
  }

  function NoneExhausted(): Live {
    (x: nat, y: nat) => true
  }

  /** What the search picks when no cell has run out. */
  ghost predicate Picked(grid: Grid, cx: nat, cy: nat, prev: seq<Quadrant>, s: nat, b: Scored)
    requires Shaped(grid, cx, cy) && AllFit(prev, cx, cy)
  {
    && s < |prev| && ChosenAmong(grid, cx, cy, NoneExhausted(), prev, |prev|, s, b)
    && BestPointOf(grid, cx, cy, NoneExhausted(), prev[s], b) && Holds(prev[s], b.x, b.y)
  }

  ghost predicate AlwaysBest(prev: seq<Quadrant>, cx: nat, cy: nat)
    requires AllFit(prev, cx, cy)
  {
    forall grid: Grid, s: nat, b: Scored ::
      Shaped(grid, cx, cy) && Picked(grid, cx, cy, prev, s, b) ==>
        BestOneCut(grid, cx, cy, prev, Replace(prev, s, Pieces(grid, cx, cy, prev[s], b)))
  }

  ghost predicate AtMostOneSplittable(prev: seq<Quadrant>) {
    forall s, t :: 0 <= s < |prev| && 0 <= t < |prev| && Splittable(prev[s]) && Splittable(prev[t]) ==> s == t
  }

  /** No cut of the quadrant beats the cut that is really made. */
  lemma CutIsBestInQuadrant(grid: Grid, cx: nat, cy: nat, q: Quadrant, b: Scored, x: nat, y: nat)
    requires Shaped(grid, cx, cy) && Fits(q, cx, cy) && Splittable(q) && Holds(q, x, y)
    requires BestPointOf(grid, cx, cy, NoneExhausted(), q, b) && Holds(q, b.x, b.y)
    ensures Holds(q, CutX(q, b.x, b.y), CutY(q, b.x, b.y))
    ensures SplitError(grid, cx, cy, q, CutX(q, b.x, b.y), CutY(q, b.x, b.y)) <= SplitError(grid, cx, cy, q, x, y)
  {
    BestPointLeavesLeastError(grid, cx, cy, NoneExhausted(), q, b);
    if AsksForNoSplit(q, b) {
      NoSplitIffFlatColumn(grid, cx, cy, NoneExhausted(), q, b);
      CornerScore(grid, cx, cy, q);
      ColumnScore(grid, cx, cy, q, q.ys + 1);
      ScoreIsErrorLeft(grid, cx, cy, q, q.xe, q.ys);
      ScoreIsErrorLeft(grid, cx, cy, q, q.xe, q.ys + 1);
    }
  }

  lemma OneSplittableIsBest(grid: Grid, cx: nat, cy: nat, prev: seq<Quadrant>, s: nat, b: Scored)
    requires Shaped(grid, cx, cy) && AllFit(prev, cx, cy) && AtMostOneSplittable(prev)
    requires Picked(grid, cx, cy, prev, s, b)
    ensures BestOneCut(grid, cx, cy, prev, Replace(prev, s, Pieces(grid, cx, cy, prev[s], b)))
  {
    CutError(grid, cx, cy, prev, s, b);
    forall t: nat, p: Scored | Candidate(prev, t, p)
      ensures TotalError(grid, cx, cy, Replace(prev, s, Pieces(grid, cx, cy, prev[s], b)))
           <= TotalError(grid, cx, cy, Replace(prev, t, Pieces(grid, cx, cy, prev[t], p)))
    {
      CutError(grid, cx, cy, prev, t, p);
      CutIsBestInQuadrant(grid, cx, cy, prev[s], b, CutX(prev[s], p.x, p.y), CutY(prev[s], p.x, p.y));
    }
  }

  // ---------- two quadrants that can be split ----------

  lemma {:induction false} BlockRange(grid: Grid, cx: nat, cy: nat, x0: nat, x1: nat, y0: nat, y1: nat, hi: real)
    requires Shaped(grid, cx, cy) && x0 <= x1 <= cx && y0 <= y1 <= cy
    requires forall x, y :: x0 <= x < x1 && y0 <= y < y1 ==> 0.0 <= grid[x][y] <= hi
    ensures forall i :: 0 <= i < |Block(grid, x0, x1, y0, y1)| ==> 0.0 <= Block(grid, x0, x1, y0, y1)[i] <= hi
  {
    if x0 < x1 {
      BlockRange(grid, cx, cy, x0, x1 - 1, y0, y1, hi);
    }
  }

  lemma {:induction false} SmallSquares(s: seq<real>)
    requires forall i :: 0 <= i < |s| ==> 0.0 <= s[i] <= 1.0
    ensures SumOfSquares(s) <= |s| as real
  {
    if s != [] {
      SmallSquares(s[..|s| - 1]);
      SmallSquare(s[|s| - 1]);
    }
  }

  lemma SmallSquare(x: real)
    requires 0.0 <= x <= 1.0
    ensures Sq(x) <= 1.0
  {
    ProductNonnegative(x, 1.0 - x);
  }

  lemma AreaWithin(q: Quadrant, cx: nat, cy: nat)
    requires Fits(q, cx, cy)
    ensures 1 <= (q.xe + 1 - q.xs) * (q.ye + 1 - q.ys) <= cx * cy
  {
    var w, h := q.xe + 1 - q.xs, q.ye + 1 - q.ys;
    PositiveArea(w, h);
    assert cx * cy - w * h == (cx - w) * cy + w * (cy - h);
    NonnegativeProduct(cx - w, cy);
    NonnegativeProduct(w, cy - h);
  }

  lemma NonnegativeProduct(a: nat, b: nat)
    ensures a * b >= 0
  {
  }

  lemma ErrorNonnegative(s: seq<real>)
    ensures Error(s) >= 0.0
  {
    if s != [] {
      SpreadNonnegative(s, Mean(s));
    }
  }

  /** No score exceeds the sum of squares. */
  lemma ScoreWithinSquares(grid: Grid, cx: nat, cy: nat, q: Quadrant, x: nat, y: nat)
    requires Shaped(grid, cx, cy) && Fits(q, cx, cy) && Holds(q, x, y)
    ensures Score(grid, cx, cy, q, x, y) <= SumOfSquares(Cells(grid, cx, cy, q))
    ensures SplitError(grid, cx, cy, q, x, y) >= 0.0
  {
    var p := PartsAt(grid, cx, cy, q, x, y);
    ScoreIsErrorLeft(grid, cx, cy, q, x, y);
    ErrorNonnegative(p.upperLeft);
    ErrorNonnegative(p.upperRight);
    ErrorNonnegative(p.lowerRight);
    ErrorNonnegative(p.lowerLeft);
  }

  /** Quadrant `a` holds one large value throughout; quadrant `b` holds ones in its first column,
      or in its first cell if it is one column; all other cells hold zero. */
  function Lure(cx: nat, cy: nat, a: Quadrant, b: Quadrant): Grid {
    seq(cx, x requires 0 <= x < cx => seq(cy, y requires 0 <= y < cy => LureAt(cx, cy, a, b, x, y)))
  }

  function LureAt(cx: nat, cy: nat, a: Quadrant, b: Quadrant, x: nat, y: nat): real {
    if Holds(a, x, y) then (cx * cy) as real + 1.0
    else if Holds(b, x, y) && (if b.xs < b.xe then x == b.xs else y == b.ys) then 1.0
    else 0.0
  }

  lemma LureShaped(cx: nat, cy: nat, a: Quadrant, b: Quadrant)
    ensures Shaped(Lure(cx, cy, a, b), cx, cy)
    ensures forall x, y :: 0 <= x < cx && 0 <= y < cy ==> Lure(cx, cy, a, b)[x][y] == LureAt(cx, cy, a, b, x, y)
  {
  }

  /** A flat quadrant scores its whole sum of squares at any point. */
  lemma FlatScore(grid: Grid, cx: nat, cy: nat, q: Quadrant, v: real)
    requires Shaped(grid, cx, cy) && Fits(q, cx, cy) && Flat(grid, cx, cy, q, v)
    ensures Error(Cells(grid, cx, cy, q)) == 0.0
    ensures Cells(grid, cx, cy, q) != []
    ensures SumOfSquares(Cells(grid, cx, cy, q)) == Weighted(|Cells(grid, cx, cy, q)| as real, v)
  {
    var s := Cells(grid, cx, cy, q);
    BlockSize(grid, cx, cy, q.xs, q.xe + 1, q.ys, q.ye + 1);
    AreaWithin(q, cx, cy);
    BlockCells(grid, cx, cy, q.xs, q.xe + 1, q.ys, q.ye + 1, v);
    ConstantList(s, v);
    FlatMean(s, v);
    ErrorIsUnexplained(s);
  }

  lemma FlatPartError(s: seq<real>, v: real)
    requires forall i :: 0 <= i < |s| ==> s[i] == v
    ensures Error(s) == 0.0
  {
    if s != [] {
      ConstantList(s, v);
      FlatMean(s, v);
      ErrorIsUnexplained(s);
    }
  }

  lemma FlatSplitError(grid: Grid, cx: nat, cy: nat, q: Quadrant, v: real)
    requires Shaped(grid, cx, cy) && Fits(q, cx, cy) && Flat(grid, cx, cy, q, v)
    ensures SplitError(grid, cx, cy, q, q.xs, q.ys) == 0.0
  {
    var p := PartsAt(grid, cx, cy, q, q.xs, q.ys);
    BlockCells(grid, cx, cy, q.xs, q.xs + 1, q.ys, q.ye + 1, v);
    BlockCells(grid, cx, cy, q.xs + 1, q.xe + 1, q.ys, q.ye + 1, v);
    FlatPartError(p.upperLeft, v);
    FlatPartError(p.upperRight, v);
    EmptyRows(grid, cx, cy, q.xs + 1, q.xe + 1, q.ys);
    EmptyRows(grid, cx, cy, q.xs, q.xs + 1, q.ys);
  }

  lemma FirstPointIsBest(grid: Grid, cx: nat, cy: nat, q: Quadrant, v: real) returns (b: Scored)
    requires Shaped(grid, cx, cy) && Fits(q, cx, cy) && Flat(grid, cx, cy, q, v)
    ensures BestPointOf(grid, cx, cy, NoneExhausted(), q, b) && b.x == q.xs && b.y == q.ys
    ensures b.score == SumOfSquares(Cells(grid, cx, cy, q)) >= 0.0
  {
    var p := PartsAt(grid, cx, cy, q, q.xs, q.ys);
    b := Scored(Score(grid, cx, cy, q, q.xs, q.ys), q.xs, q.ys, MeanOrZero(p.upperLeft),
                MeanOrZero(p.upperRight), MeanOrZero(p.lowerRight), MeanOrZero(p.lowerLeft));
    FlatSplitError(grid, cx, cy, q, v);
    ScoreIsErrorLeft(grid, cx, cy, q, q.xs, q.ys);
    ExplainedWithinSquares(Cells(grid, cx, cy, q));
    forall x: nat, y: nat | Holds(q, x, y)
      ensures Score(grid, cx, cy, q, x, y) <= b.score
    {
      ScoreWithinSquares(grid, cx, cy, q, x, y);
    }
  }

  ghost predicate Small(grid: Grid, cx: nat, cy: nat, q: Quadrant)
    requires Shaped(grid, cx, cy) && Fits(q, cx, cy)
  {
    forall x, y :: q.xs <= x < q.xe + 1 && q.ys <= y < q.ye + 1 ==> 0.0 <= grid[x][y] <= 1.0
  }

  lemma SmallQuadrantSquares(grid: Grid, cx: nat, cy: nat, q: Quadrant)
    requires Shaped(grid, cx, cy) && Fits(q, cx, cy) && Small(grid, cx, cy, q)
    ensures SumOfSquares(Cells(grid, cx, cy, q)) <= (cx * cy) as real
  {
    BlockSize(grid, cx, cy, q.xs, q.xe + 1, q.ys, q.ye + 1);
    AreaWithin(q, cx, cy);
    BlockRange(grid, cx, cy, q.xs, q.xe + 1, q.ys, q.ye + 1, 1.0);
    SmallSquares(Cells(grid, cx, cy, q));
  }

  lemma SquaresCap(grid: Grid, cx: nat, cy: nat, q: Quadrant, v: real)
    requires Shaped(grid, cx, cy) && Fits(q, cx, cy) && SumOfSquares(Cells(grid, cx, cy, q)) <= v
    ensures Capped(grid, cx, cy, NoneExhausted(), q, v)
  {
    forall x: nat, y: nat | Holds(q, x, y)
      ensures Score(grid, cx, cy, q, x, y) <= v
    {
      ScoreWithinSquares(grid, cx, cy, q, x, y);
    }
  }

  lemma LureIsSmall(cx: nat, cy: nat, prev: seq<Quadrant>, s: nat, t: nat, k: nat)
    requires Partition(prev, cx, cy) && s < |prev| && t < |prev| && k < |prev| && k != s
    ensures Shaped(Lure(cx, cy, prev[s], prev[t]), cx, cy) && Small(Lure(cx, cy, prev[s], prev[t]), cx, cy, prev[k])
  {
    LureShaped(cx, cy, prev[s], prev[t]);
    PartitionCoversOnce(prev, cx, cy);
  }

  lemma LureIsFlat(cx: nat, cy: nat, q: Quadrant, r: Quadrant) returns (b: Scored)
    requires Fits(q, cx, cy)
    ensures var grid := Lure(cx, cy, q, r);
            && Shaped(grid, cx, cy) && QuadError(grid, cx, cy, q) == 0.0
            && BestPointOf(grid, cx, cy, NoneExhausted(), q, b) && Holds(q, b.x, b.y)
            && b.score == SumOfSquares(Cells(grid, cx, cy, q)) > (cx * cy) as real
  {
    var grid := Lure(cx, cy, q, r);
    LureShaped(cx, cy, q, r);
    var n := cx * cy;
    LargeFlatSquares(grid, cx, cy, q, n);
    b := FirstPointIsBest(grid, cx, cy, q, n as real + 1.0);
  }

  lemma LargeFlatSquares(grid: Grid, cx: nat, cy: nat, q: Quadrant, n: nat)
    requires Shaped(grid, cx, cy) && Fits(q, cx, cy) && Flat(grid, cx, cy, q, n as real + 1.0)
    ensures Error(Cells(grid, cx, cy, q)) == 0.0
    ensures SumOfSquares(Cells(grid, cx, cy, q)) > n as real
  {
    FlatScore(grid, cx, cy, q, n as real + 1.0);
    LargeFlatScore(n, |Cells(grid, cx, cy, q)|);
  }

  lemma LargeFlatScore(cells: nat, n: nat)
    requires n >= 1
    ensures Weighted(n as real, cells as real + 1.0) > cells as real
  {
    var v := cells as real + 1.0;
    ProductNonnegative(v, v - 1.0);
    ProductNonnegative(v * v, n as real - 1.0);
    assert Weighted(n as real, v) == v * v + v * v * (n as real - 1.0);
  }

  /** The search goes for the large flat quadrant, which cannot gain anything. */
  lemma LurePicks(cx: nat, cy: nat, prev: seq<Quadrant>, s: nat, t: nat) returns (b: Scored)
    requires Partition(prev, cx, cy) && s < |prev| && t < |prev| && s != t && Splittable(prev[s])
    ensures var grid := Lure(cx, cy, prev[s], prev[t]);
            && Shaped(grid, cx, cy) && Picked(grid, cx, cy, prev, s, b)
            && QuadError(grid, cx, cy, prev[s]) == 0.0
  {
    var grid := Lure(cx, cy, prev[s], prev[t]);
    b := LureIsFlat(cx, cy, prev[s], prev[t]);
    forall k | 0 <= k < |prev| && Splittable(prev[k])
      ensures Capped(grid, cx, cy, NoneExhausted(), prev[k], b.score)
      ensures k != s ==> Beaten(grid, cx, cy, NoneExhausted(), prev[k], b.score)
    {
      if k != s {
        LureIsSmall(cx, cy, prev, s, t, k);
        SmallQuadrantSquares(grid, cx, cy, prev[k]);
        SquaresCap(grid, cx, cy, prev[k], SumOfSquares(Cells(grid, cx, cy, prev[k])));
        CapRises(grid, cx, cy, NoneExhausted(), prev[k], SumOfSquares(Cells(grid, cx, cy, prev[k])), b.score);
      } else {
        SquaresCap(grid, cx, cy, prev[k], b.score);
      }
    }
  }

  lemma LureOnTarget(cx: nat, cy: nat, prev: seq<Quadrant>, s: nat, t: nat)
    requires Partition(prev, cx, cy) && s < |prev| && t < |prev| && s != t
    ensures forall x: nat, y: nat :: Holds(prev[t], x, y) ==> !Holds(prev[s], x, y)
  {
    PartitionCoversOnce(prev, cx, cy);
  }

  /** Meanwhile the other quadrant could have gained. */
  lemma LureMisses(cx: nat, cy: nat, prev: seq<Quadrant>, s: nat, t: nat) returns (p: Scored)
    requires Partition(prev, cx, cy) && s < |prev| && t < |prev| && s != t && Splittable(prev[t])
    ensures var grid := Lure(cx, cy, prev[s], prev[t]);
            && Shaped(grid, cx, cy) && Candidate(prev, t, p)
            && TotalError(grid, cx, cy, Replace(prev, t, Pieces(grid, cx, cy, prev[t], p)))
               < TotalError(grid, cx, cy, prev)
  {
    var grid, q := Lure(cx, cy, prev[s], prev[t]), prev[t];
    LureOnTarget(cx, cy, prev, s, t);
    var x, y := LureGains(cx, cy, prev[s], q);
    p := Scored(0.0, x, y, 0.0, 0.0, 0.0, 0.0);
    CutError(grid, cx, cy, prev, t, p);
  }

  lemma LureGains(cx: nat, cy: nat, r: Quadrant, q: Quadrant) returns (x: nat, y: nat)
    requires Fits(q, cx, cy) && Splittable(q)
    requires forall x: nat, y: nat :: Holds(q, x, y) ==> !Holds(r, x, y)
    ensures var grid := Lure(cx, cy, r, q);
            && Shaped(grid, cx, cy) && Holds(q, x, y) && (x != q.xe || y != q.ys)
            && SplitError(grid, cx, cy, q, x, y) < QuadError(grid, cx, cy, q)
  {
    var grid := Lure(cx, cy, r, q);
    LureShaped(cx, cy, r, q);
    x, y := q.xs, if q.xs < q.xe then q.ys else q.ys + 1;
    ScoreIsErrorLeft(grid, cx, cy, q, x, y);
    ErrorIsUnexplained(Cells(grid, cx, cy, q));
    if q.xs < q.xe {
      ColumnsDiffer(grid, cx, cy, q);
    } else {
      RowsDiffer(grid, cx, cy, q);
    }
  }

  lemma ColumnsDiffer(grid: Grid, cx: nat, cy: nat, q: Quadrant)
    requires Shaped(grid, cx, cy) && Fits(q, cx, cy) && q.xs < q.xe
    requires forall x, y :: q.xs <= x <= q.xe && q.ys <= y <= q.ye ==> grid[x][y] == if x == q.xs then 1.0 else 0.0
    ensures Score(grid, cx, cy, q, q.xs, q.ys) > Explained(Cells(grid, cx, cy, q))
  {
    var a, b := FirstColumnParts(grid, cx, cy, q);
    FlatBlock(grid, cx, cy, q.xs, q.xs + 1, q.ys, q.ye + 1, 1.0);
    FlatBlock(grid, cx, cy, q.xs + 1, q.xe + 1, q.ys, q.ye + 1, 0.0);
    PartsExplainMore(a + b, a, b);
  }

  lemma FlatBlock(grid: Grid, cx: nat, cy: nat, x0: nat, x1: nat, y0: nat, y1: nat, v: real)
    requires Shaped(grid, cx, cy) && x0 < x1 <= cx && y0 < y1 <= cy
    requires forall x, y :: x0 <= x < x1 && y0 <= y < y1 ==> grid[x][y] == v
    ensures Block(grid, x0, x1, y0, y1) != [] && Mean(Block(grid, x0, x1, y0, y1)) == v
  {
    BlockSize(grid, cx, cy, x0, x1, y0, y1);
    PositiveArea(x1 - x0, y1 - y0);
    BlockCells(grid, cx, cy, x0, x1, y0, y1, v);
    FlatMean(Block(grid, x0, x1, y0, y1), v);
  }

  lemma RowsDiffer(grid: Grid, cx: nat, cy: nat, q: Quadrant)
    requires Shaped(grid, cx, cy) && Fits(q, cx, cy) && q.xs == q.xe && q.ys < q.ye
    requires forall x, y :: q.xs <= x <= q.xe && q.ys <= y <= q.ye ==> grid[x][y] == if y == q.ys then 1.0 else 0.0
    ensures Score(grid, cx, cy, q, q.xe, q.ys + 1) > Explained(Cells(grid, cx, cy, q))
  {
    var col := grid[q.xs];
    ColumnScore(grid, cx, cy, q, q.ys + 1);
    FlatMean(col[q.ys..q.ys + 1], 1.0);
    FlatMean(col[q.ys + 1..q.ye + 1], 0.0);
  }

  lemma LureIsNotBest(cx: nat, cy: nat, prev: seq<Quadrant>, s: nat, t: nat)
    requires Partition(prev, cx, cy) && s < |prev| && t < |prev| && s != t && Splittable(prev[s]) && Splittable(prev[t])
    ensures !AlwaysBest(prev, cx, cy)
  {
    var grid := Lure(cx, cy, prev[s], prev[t]);
    var b := LurePicks(cx, cy, prev, s, t);
    var p := LureMisses(cx, cy, prev, s, t);
    CutError(grid, cx, cy, prev, s, b);
    ScoreWithinSquares(grid, cx, cy, prev[s], CutX(prev[s], b.x, b.y), CutY(prev[s], b.x, b.y));
    assert !BestOneCut(grid, cx, cy, prev, Replace(prev, s, Pieces(grid, cx, cy, prev[s], b)));
  }

  /** Because the search compares what a cut explains and not what it gains, it is the best
      single cut for all cell values exactly when at most one quadrant can be split. */
  lemma BestCutIffOneSplittable(prev: seq<Quadrant>, cx: nat, cy: nat)
    requires Partition(prev, cx, cy)
    ensures AlwaysBest(prev, cx, cy) <==> AtMostOneSplittable(prev)
  {
    if AtMostOneSplittable(prev) {
      forall grid: Grid, s: nat, b: Scored | Shaped(grid, cx, cy) && Picked(grid, cx, cy, prev, s, b)
        ensures BestOneCut(grid, cx, cy, prev, Replace(prev, s, Pieces(grid, cx, cy, prev[s], b)))
      {
        OneSplittableIsBest(grid, cx, cy, prev, s, b);
      }
    } else {
      var s, t :| 0 <= s < |prev| && 0 <= t < |prev| && Splittable(prev[s]) && Splittable(prev[t]) && s != t;
      LureIsNotBest(cx, cy, prev, s, t);
    }
  }
}
