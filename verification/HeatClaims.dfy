/** What the split search of the heat map achieves, and where it does not. */
module HeatClaims {
  import opened Grids
  import opened HeatSearch
  import opened Quadrants
  import opened SquaredError

  ghost predicate AllLive(live: Live, q: Quadrant) {
    forall x: nat, y: nat :: Holds(q, x, y) ==> live(x, y)
  }

  // ---------- the best point of one quadrant ----------

  /** The chosen point leaves the least squared error among all live points of the quadrant. */
  lemma BestPointLeavesLeastError(grid: Grid, cx: nat, cy: nat, live: Live, q: Quadrant, b: Scored)
    requires Shaped(grid, cx, cy) && Fits(q, cx, cy) && BestPointOf(grid, cx, cy, live, q, b) && b.x >= 0
    ensures Holds(q, b.x, b.y)
    ensures forall x: nat, y: nat :: Holds(q, x, y) && live(x, y) ==>
              SplitError(grid, cx, cy, q, b.x, b.y) <= SplitError(grid, cx, cy, q, x, y)
  {
    BestIsTop(grid, cx, cy, live, q, b);
    ScoreIsErrorLeft(grid, cx, cy, q, b.x, b.y);
    forall x: nat, y: nat | Holds(q, x, y) && live(x, y)
      ensures SplitError(grid, cx, cy, q, b.x, b.y) <= SplitError(grid, cx, cy, q, x, y)
    {
      ScoreIsErrorLeft(grid, cx, cy, q, x, y);
    }
  }

  // ---------- when the search asks for no split ----------

  ghost predicate Flat(grid: Grid, cx: nat, cy: nat, q: Quadrant, v: real)
    requires Shaped(grid, cx, cy) && Fits(q, cx, cy)
  {
    forall x, y :: q.xs <= x <= q.xe && q.ys <= y <= q.ye ==> grid[x][y] == v
  }

  lemma CornerScore(grid: Grid, cx: nat, cy: nat, q: Quadrant)
    requires Shaped(grid, cx, cy) && Fits(q, cx, cy)
    ensures Score(grid, cx, cy, q, q.xe, q.ys) == Explained(Cells(grid, cx, cy, q))
  {
    var p := PartsAt(grid, cx, cy, q, q.xe, q.ys);
    assert p.upperRight == [] && p.lowerRight == [];
    BlockSize(grid, cx, cy, q.xs, q.xe + 1, q.ys, q.ys);
    assert (q.xe + 1 - q.xs) * (q.ys - q.ys) == 0;
    assert p.lowerLeft == [];
  }

  /** Cutting off the first column leaves two parts. */
  lemma FirstColumnParts(grid: Grid, cx: nat, cy: nat, q: Quadrant) returns (a: seq<real>, b: seq<real>)
    requires Shaped(grid, cx, cy) && Fits(q, cx, cy) && q.xs < q.xe
    ensures a == Block(grid, q.xs, q.xs + 1, q.ys, q.ye + 1) && b == Block(grid, q.xs + 1, q.xe + 1, q.ys, q.ye + 1)
    ensures Cells(grid, cx, cy, q) == a + b
    ensures Score(grid, cx, cy, q, q.xs, q.ys) == Explained(a) + Explained(b)
  {
    a, b := Block(grid, q.xs, q.xs + 1, q.ys, q.ye + 1), Block(grid, q.xs + 1, q.xe + 1, q.ys, q.ye + 1);
    var p := PartsAt(grid, cx, cy, q, q.xs, q.ys);
    EmptyRows(grid, cx, cy, q.xs, q.xs + 1, q.ys);
    EmptyRows(grid, cx, cy, q.xs + 1, q.xe + 1, q.ys);
    assert p == Parts(a, b, [], []);
    BlockSplitX(grid, cx, cy, q.xs, q.xs + 1, q.xe + 1, q.ys, q.ye + 1);
  }

  /** Cutting off the first column never scores below no cut at all. */
  lemma FirstColumnScore(grid: Grid, cx: nat, cy: nat, q: Quadrant)
    requires Shaped(grid, cx, cy) && Fits(q, cx, cy) && q.xs < q.xe
    ensures Score(grid, cx, cy, q, q.xs, q.ys) >= Explained(Cells(grid, cx, cy, q))
  {
    var a, b := FirstColumnParts(grid, cx, cy, q);
    PartsExplainMore(a + b, a, b);
  }

  lemma EmptyRows(grid: Grid, cx: nat, cy: nat, x0: nat, x1: nat, y: nat)
    requires Shaped(grid, cx, cy) && x0 <= x1 <= cx && y <= cy
    ensures Block(grid, x0, x1, y, y) == []
  {
    BlockSize(grid, cx, cy, x0, x1, y, y);
    assert (x1 - x0) * (y - y) == 0;
  }

  /** In one column the score of a cut at row y is what its two halves explain. */
  lemma ColumnScore(grid: Grid, cx: nat, cy: nat, q: Quadrant, y: nat)
    requires Shaped(grid, cx, cy) && Fits(q, cx, cy) && q.xs == q.xe && q.ys < y <= q.ye
    ensures var col := grid[q.xs];
            && Cells(grid, cx, cy, q) == col[q.ys..q.ye + 1]
            && Score(grid, cx, cy, q, q.xe, y) >= Explained(col[q.ys..q.ye + 1])
            && (Score(grid, cx, cy, q, q.xe, y) == Explained(col[q.ys..q.ye + 1])
                <==> HalvesAgree(col, q.ys, y, q.ye + 1))
  {
    var col := grid[q.xs];
    var a, b := ColumnParts(grid, cx, cy, q, y);
    PartsExplainMore(a + b, a, b);
  }

  lemma ColumnParts(grid: Grid, cx: nat, cy: nat, q: Quadrant, y: nat) returns (a: seq<real>, b: seq<real>)
    requires Shaped(grid, cx, cy) && Fits(q, cx, cy) && q.xs == q.xe && q.ys < y <= q.ye
    ensures a == grid[q.xs][q.ys..y] && b == grid[q.xs][y..q.ye + 1]
    ensures Cells(grid, cx, cy, q) == grid[q.xs][q.ys..q.ye + 1] == a + b
    ensures Score(grid, cx, cy, q, q.xe, y) == Explained(a) + Explained(b)
  {
    OneColumn(grid, cx, cy, q.xs, q.ys, q.ye + 1);
    OneColumn(grid, cx, cy, q.xs, q.ys, y);
    OneColumn(grid, cx, cy, q.xs, y, q.ye + 1);
    a, b := grid[q.xs][q.ys..y], grid[q.xs][y..q.ye + 1];
    var p := PartsAt(grid, cx, cy, q, q.xe, y);
    assert p == Parts(b, [], [], a);
  }

  lemma OneColumn(grid: Grid, cx: nat, cy: nat, x: nat, y0: nat, y1: nat)
    requires Shaped(grid, cx, cy) && x < cx && y0 <= y1 <= cy
    ensures Block(grid, x, x + 1, y0, y1) == grid[x][y0..y1]
  {
    assert Block(grid, x, x, y0, y1) == [];
  }

  /** The halves of col[lo..hi] at y have one mean. */
  ghost predicate HalvesAgree(col: seq<real>, lo: nat, y: nat, hi: nat)
    requires lo < y < hi <= |col|
  {
    Mean(col[lo..y]) == Mean(col[y..hi])
  }

  /** All pairs of halves agree in their means exactly when all members are equal. */
  lemma HalvesAgreeIffFlat(col: seq<real>, lo: nat, hi: nat)
    requires lo + 1 < hi <= |col|
    ensures (forall y :: lo < y < hi ==> HalvesAgree(col, lo, y, hi))
       <==> (forall y :: lo <= y < hi ==> col[y] == col[lo])
  {
    if forall y :: lo < y < hi ==> HalvesAgree(col, lo, y, hi) {
      forall y | lo <= y < hi ensures col[y] == Mean(col[lo..hi]) {
        MemberIsMean(col, lo, y, hi);
      }
    }
    if forall y :: lo <= y < hi ==> col[y] == col[lo] {
      forall y | lo < y < hi ensures HalvesAgree(col, lo, y, hi) {
        FlatMean(col[lo..y], col[lo]);
        FlatMean(col[y..hi], col[lo]);
      }
    }
  }

  lemma MemberIsMean(col: seq<real>, lo: nat, y: nat, hi: nat)
    requires lo <= y < hi <= |col|
    requires forall k :: lo < k < hi ==> HalvesAgree(col, lo, k, hi)
    ensures col[y] == Mean(col[lo..hi])
  {
    PrefixMean(col, lo, y, hi);
    PrefixMean(col, lo, y + 1, hi);
    assert col[lo..y + 1][..y - lo] == col[lo..y];
    StepOfMean(Sum(col[lo..y]), (y - lo) as real, Mean(col[lo..hi]), col[y]);
  }

  lemma FlatMean(s: seq<real>, v: real)
    requires s != [] && forall i :: 0 <= i < |s| ==> s[i] == v
    ensures Mean(s) == v && Sum(s) == v * |s| as real
  {
    ConstantList(s, v);
    DivideBack(v, |s| as real, Sum(s));
  }

  lemma StepOfMean(sum: real, n: real, m: real, v: real)
    requires sum == m * n && sum + v == m * (n + 1.0)
    ensures v == m
  {
  }

  lemma PrefixMean(col: seq<real>, lo: nat, y: nat, hi: nat)
    requires lo < hi <= |col| && lo <= y <= hi
    requires lo < y < hi ==> HalvesAgree(col, lo, y, hi)
    ensures Sum(col[lo..y]) == Mean(col[lo..hi]) * (y - lo) as real
  {
    if y == lo {
      assert col[lo..y] == [];
    } else if y == hi {
      MeanTimesSize(col[lo..y]);
    } else {
      assert col[lo..hi] == col[lo..y] + col[y..hi];
      HalfMean(col[lo..y], col[y..hi]);
      MeanTimesSize(col[lo..y]);
    }
  }

  lemma HalfMean(a: seq<real>, b: seq<real>)
    requires a != [] && b != [] && Mean(a) == Mean(b)
    ensures Mean(a + b) == Mean(a)
  {
    SumAppend(a, b);
    MeanTimesSize(a);
    MeanTimesSize(b);
    MeanTimesSize(a + b);
    assert |a + b| as real == |a| as real + |b| as real;
    MeanOfBoth(Mean(a), |a| as real, |b| as real, Mean(a + b));
  }

  lemma MeanOfBoth(m: real, n1: real, n2: real, whole: real)
    requires n1 > 0.0 && n2 > 0.0 && whole * (n1 + n2) == m * n1 + m * n2
    ensures whole == m
  {
    assert (whole - m) * (n1 + n2) == 0.0;
    if whole != m {
      ZeroFactor(whole - m, n1 + n2);
    }
  }

  /** With no cell run out, the search asks for no split exactly in a one-column quadrant whose
      cells are all equal. */
  lemma NoSplitIffFlatColumn(grid: Grid, cx: nat, cy: nat, live: Live, q: Quadrant, b: Scored)
    requires Shaped(grid, cx, cy) && Fits(q, cx, cy) && Splittable(q) && AllLive(live, q)
    requires BestPointOf(grid, cx, cy, live, q, b)
    ensures b.x >= 0 && Holds(q, b.x, b.y)
    ensures b.x == q.xe && b.y == q.ys <==> q.xs == q.xe && Flat(grid, cx, cy, q, grid[q.xs][q.ys])
  {
    BestIsTop(grid, cx, cy, live, q, b);
    assert Holds(q, q.xs, q.ys);
    CornerScore(grid, cx, cy, q);
    if q.xs < q.xe {
      FirstColumnScore(grid, cx, cy, q);
      if b.x == q.xe && b.y == q.ys {
        assert Visited(q, q.xs, q.ys, b.x, b.y);
      }
    } else {
      OneColumnChoice(grid, cx, cy, live, q, b);
    }
  }

  lemma OneColumnChoice(grid: Grid, cx: nat, cy: nat, live: Live, q: Quadrant, b: Scored)
    requires Shaped(grid, cx, cy) && Fits(q, cx, cy) && q.xs == q.xe && q.ys < q.ye && AllLive(live, q)
    requires BestPointOf(grid, cx, cy, live, q, b) && b.x >= 0
    ensures b.y == q.ys <==> Flat(grid, cx, cy, q, grid[q.xs][q.ys])
  {
    var col, hi := grid[q.xs], q.ye + 1;
    HalvesAgreeIffFlat(col, q.ys, hi);
    FlatColumn(grid, cx, cy, q);
    if b.y == q.ys {
      CornerWins(grid, cx, cy, live, q, b, col, hi);
    } else {
      CornerLoses(grid, cx, cy, live, q, b);
      assert !HalvesAgree(col, q.ys, b.y, hi);
    }
  }

  lemma CornerWins(grid: Grid, cx: nat, cy: nat, live: Live, q: Quadrant, b: Scored, col: seq<real>, hi: nat)
    requires Shaped(grid, cx, cy) && Fits(q, cx, cy) && q.xs == q.xe && AllLive(live, q)
    requires BestPointOf(grid, cx, cy, live, q, b) && b.x >= 0 && b.y == q.ys && col == grid[q.xs] && hi == q.ye + 1
    ensures forall y :: q.ys < y < hi ==> HalvesAgree(col, q.ys, y, hi)
  {
    forall y | q.ys < y < hi ensures HalvesAgree(col, q.ys, y, hi) {
      assert Holds(q, q.xe, y);
      assert Visited(q, q.xe, y, q.xe + 1, q.ys);
      AgainstCorner(grid, cx, cy, q, y);
    }
  }

  lemma CornerLoses(grid: Grid, cx: nat, cy: nat, live: Live, q: Quadrant, b: Scored)
    requires Shaped(grid, cx, cy) && Fits(q, cx, cy) && q.xs == q.xe && AllLive(live, q)
    requires BestPointOf(grid, cx, cy, live, q, b) && b.x >= 0 && b.y != q.ys
    ensures q.ys < b.y < q.ye + 1 && !HalvesAgree(grid[q.xs], q.ys, b.y, q.ye + 1)
  {
    assert Holds(q, q.xe, q.ys);
    assert Visited(q, q.xe, q.ys, b.x, b.y);
    AgainstCorner(grid, cx, cy, q, b.y);
  }

  /** In one column no cut scores below the corner, and it scores the same only if its halves
      agree. */
  lemma AgainstCorner(grid: Grid, cx: nat, cy: nat, q: Quadrant, y: nat)
    requires Shaped(grid, cx, cy) && Fits(q, cx, cy) && q.xs == q.xe && q.ys < y <= q.ye
    ensures Score(grid, cx, cy, q, q.xe, y) >= Score(grid, cx, cy, q, q.xe, q.ys)
    ensures Score(grid, cx, cy, q, q.xe, y) == Score(grid, cx, cy, q, q.xe, q.ys)
       <==> HalvesAgree(grid[q.xs], q.ys, y, q.ye + 1)
  {
    CornerScore(grid, cx, cy, q);
    ColumnScore(grid, cx, cy, q, y);
  }

  lemma FlatColumn(grid: Grid, cx: nat, cy: nat, q: Quadrant)
    requires Shaped(grid, cx, cy) && Fits(q, cx, cy) && q.xs == q.xe
    ensures Flat(grid, cx, cy, q, grid[q.xs][q.ys])
       <==> (forall y :: q.ys <= y < q.ye + 1 ==> grid[q.xs][y] == grid[q.xs][q.ys])
  {
  }
}
