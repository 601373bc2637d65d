/** Incremental heat maps: each step resamples the cells of the quadrants that can still be
    split and cuts one quadrant in two or four. */
module HeatMap {
  import opened Grids
  import opened HeatSearch
  import opened Quadrants
  import opened Samples
  import opened SquaredError

  // ---------- the pieces of a cut ----------

  function RowSum(grid: Grid, x: nat, y0: nat, y1: nat): real
    requires x < |grid| && y0 <= y1 <= |grid[x]|
    decreases y1
  {
    if y0 == y1 then 0.0 else RowSum(grid, x, y0, y1 - 1) + grid[x][y1 - 1]
  }

  function ColumnSum(grid: Grid, y: nat, x0: nat, x1: nat): real
    requires x0 <= x1 <= |grid| && forall x :: x0 <= x < x1 ==> y < |grid[x]|
    decreases x1
  {
    if x0 == x1 then 0.0 else ColumnSum(grid, y, x0, x1 - 1) + grid[x1 - 1][y]
  }

  /** The mean that is left when one cell is taken out of a region with mean `mean`. */
  function MeanWithout(mean: real, cells: nat, cell: real): real
    requires cells > 1
  {
    (cells as real * mean - cell) / (cells as real - 1.0)
  }

  /** The new quadrants, branch by branch. A point in the last column and first row asks for
      no split; the code then cuts off the cell at that corner all the same. */
  function Pieces(grid: Grid, cx: nat, cy: nat, q: Quadrant, b: Scored): seq<Quadrant>
    requires |grid| == cx && (forall x :: 0 <= x < cx ==> |grid[x]| == cy)
    requires Fits(q, cx, cy) && Holds(q, b.x, b.y)
  {
    var x: nat, y: nat := b.x, b.y;
    if x < q.xe then
      if y == q.ys then
        [Quadrant(q.xs, x, q.ys, q.ye, b.mean1), Quadrant(x + 1, q.xe, q.ys, q.ye, b.mean2)]
      else
        [Quadrant(q.xs, x, y, q.ye, b.mean1), Quadrant(x + 1, q.xe, y, q.ye, b.mean2),
         Quadrant(x + 1, q.xe, q.ys, y - 1, b.mean3), Quadrant(q.xs, x, q.ys, y - 1, b.mean4)]
    else if y != q.ys then
      [Quadrant(q.xs, q.xe, y, q.ye, b.mean1), Quadrant(q.xs, q.xe, q.ys, y - 1, b.mean4)]
    else Corner(grid, cx, cy, q)
  }

  function Corner(grid: Grid, cx: nat, cy: nat, q: Quadrant): seq<Quadrant>
    requires |grid| == cx && (forall x :: 0 <= x < cx ==> |grid[x]| == cy)
    requires Fits(q, cx, cy)
  {
    var cell := grid[q.xe][q.ys];
    if q.xe == q.xs then
      if q.ye != q.ys then
        [Quadrant(q.xs, q.xe, q.ys + 1, q.ye, MeanWithout(q.mean, q.ye - q.ys + 1, cell)),
         Quadrant(q.xs, q.xe, q.ys, q.ys, cell)]
      else [q]
    else if q.ye == q.ys then
      [Quadrant(q.xs, q.xe - 1, q.ys, q.ye, MeanWithout(q.mean, q.xe - q.xs + 1, cell)),
       Quadrant(q.xe, q.xe, q.ys, q.ye, cell)]
    else
      var quad2 := RowSum(grid, q.xe, q.ys + 1, q.ye + 1) / (q.ye - q.ys) as real;
      var quad4 := ColumnSum(grid, q.ys, q.xs, q.xe) / (q.xe - q.xs) as real;
      [Quadrant(q.xs, q.xe - 1, q.ys + 1, q.ye, q.mean - (quad2 + cell + quad4)),
       Quadrant(q.xe, q.xe, q.ys + 1, q.ye, quad2),
       Quadrant(q.xe, q.xe, q.ys, q.ys, cell),
       Quadrant(q.xs, q.xe - 1, q.ys, q.ys, quad4)]
  }

  /** Every branch covers the quadrant exactly, with two or four pieces unless it is one cell. */
  lemma PiecesCover(grid: Grid, cx: nat, cy: nat, q: Quadrant, b: Scored)
    requires Shaped(grid, cx, cy) && Fits(q, cx, cy) && Holds(q, b.x, b.y)
    ensures Covers(Pieces(grid, cx, cy, q, b), q, cx, cy)
    ensures Splittable(q) ==> |Pieces(grid, cx, cy, q, b)| == 2 || |Pieces(grid, cx, cy, q, b)| == 4
  {
    var p := Pieces(grid, cx, cy, q, b);
    if b.x < q.xe {
      if b.y == q.ys {
        CoversColumns(q, b.x, b.mean1, b.mean2, cx, cy);
      } else {
        CoversFour(q, b.x, b.y, b.mean1, b.mean2, b.mean3, b.mean4, cx, cy);
      }
    } else if b.y != q.ys {
      CoversRows(q, b.y, b.mean1, b.mean4, cx, cy);
    } else {
      CornerCovers(grid, cx, cy, q);
    }
  }

  lemma CornerCovers(grid: Grid, cx: nat, cy: nat, q: Quadrant)
    requires Shaped(grid, cx, cy) && Fits(q, cx, cy)
    ensures Covers(Corner(grid, cx, cy, q), q, cx, cy)
    ensures Splittable(q) ==> |Corner(grid, cx, cy, q)| == 2 || |Corner(grid, cx, cy, q)| == 4
  {
    var p := Corner(grid, cx, cy, q);
    if q.xe == q.xs {
      if q.ye != q.ys {
        CoversRows(q, q.ys + 1, p[0].mean, p[1].mean, cx, cy);
      } else {
        CoversSelf(q, cx, cy);
      }
    } else if q.ye == q.ys {
      CoversColumns(q, q.xe - 1, p[0].mean, p[1].mean, cx, cy);
    } else {
      CoversFour(q, q.xe - 1, q.ys + 1, p[0].mean, p[1].mean, p[2].mean, p[3].mean, cx, cy);
    }
  }

  lemma CoversSelf(q: Quadrant, cx: nat, cy: nat)
    requires Fits(q, cx, cy)
    ensures Covers([q], q, cx, cy)
  {
    assert TotalArea([q], cx, cy) == TotalArea([], cx, cy) + Area(q);
    forall x, y ensures Owners([q], x, y) == if Holds(q, x, y) then 1 else 0 {
      OwnersOne(q, x, y);
    }
  }

  // ---------- cell state ----------

  type CellState = seq<seq<Group>>

  ghost predicate CellsShaped(cells: CellState, cx: nat, cy: nat) {
    |cells| == cx && forall x :: 0 <= x < cx ==> |cells[x]| == cy
  }

  function Averages(cells: CellState): Grid {
    seq(|cells|, x requires 0 <= x < |cells| =>
      seq(|cells[x]|, y requires 0 <= y < |cells[x]| => cells[x][y].avg))
  }

  function LiveCells(cells: CellState): Live {
    (x: nat, y: nat) => x < |cells| && y < |cells[x]| && !cells[x][y].exhausted
  }

  ghost predicate Answerable(cells: CellState, answers: seq<seq<Answer>>, cx: nat, cy: nat) {
    && CellsShaped(cells, cx, cy)
    && |answers| == cx && (forall x :: 0 <= x < cx ==> |answers[x]| == cy)
    && forall x, y :: 0 <= x < cx && 0 <= y < cy ==> cells[x][y].Accepts(answers[x][y])
  }

  ghost predicate AllAnswer(answers: seq<seq<Answer>>, cx: nat, cy: nat)
    requires |answers| == cx && forall x :: 0 <= x < cx ==> |answers[x]| == cy
  {
    forall x, y :: 0 <= x < cx && 0 <= y < cy ==> answers[x][y].Sampled?
  }

  /** Cell (x, y) lies in one of the first `n` quadrants and that quadrant can be split. */
  ghost predicate Refinable(quads: seq<Quadrant>, n: nat, x: int, y: int)
    requires n <= |quads|
  {
    exists k :: 0 <= k < n && Splittable(quads[k]) && Quadrants.Holds(quads[k], x, y)
  }

  /** After a step exactly the cells of quadrants that can be split have taken in their answers. */
  ghost predicate RefinableResampled(before: CellState, cells: CellState, quads: seq<Quadrant>, answers: seq<seq<Answer>>,
                                     cx: nat, cy: nat)
    requires Answerable(before, answers, cx, cy) && CellsShaped(cells, cx, cy)
  {
    forall x, y :: 0 <= x < cx && 0 <= y < cy ==>
      cells[x][y] == if Refinable(quads, |quads|, x, y) then before[x][y].Resample(answers[x][y]) else before[x][y]
  }

  /** Some cell that has not run out lies in a quadrant of more than one cell. */
  ghost predicate AnyLive(cells: CellState, quads: seq<Quadrant>, cx: nat, cy: nat) {
    exists x: nat, y: nat ::
      x < cx && y < cy && x < |cells| && y < |cells[x]| && Refinable(quads, |quads|, x, y) && !cells[x][y].exhausted
  }

  /** The least of a bound and the means of some pieces. */
  function MinMean(v: real, pieces: seq<Quadrant>): real {
    if pieces == [] then v else Min(MinMean(v, pieces[..|pieces| - 1]), pieces[|pieces| - 1].mean)
  }

  /** The greatest of a bound and the means of some pieces. */
  function MaxMean(v: real, pieces: seq<Quadrant>): real {
    if pieces == [] then v else Max(MaxMean(v, pieces[..|pieces| - 1]), pieces[|pieces| - 1].mean)
  }

  lemma FewMeans(v: real, a: Quadrant, b: Quadrant, c: Quadrant, d: Quadrant)
    ensures MinMean(v, [a, b]) == Min(v, Min(a.mean, b.mean))
    ensures MaxMean(v, [a, b]) == Max(v, Max(a.mean, b.mean))
    ensures MinMean(v, [a, b, c, d]) == Min(v, Min(Min(a.mean, b.mean), Min(c.mean, d.mean)))
    ensures MaxMean(v, [a, b, c, d]) == Max(v, Max(Max(a.mean, b.mean), Max(c.mean, d.mean)))
  {
    assert [a][..0] == [] && [a, b][..1] == [a] && [a, b, c][..2] == [a, b] && [a, b, c, d][..3] == [a, b, c];
    assert MinMean(v, [a]) == Min(MinMean(v, []), a.mean) == Min(v, a.mean);
    assert MaxMean(v, [a]) == Max(MaxMean(v, []), a.mean) == Max(v, a.mean);
    assert MinMean(v, [a, b]) == Min(MinMean(v, [a]), b.mean);
    assert MaxMean(v, [a, b]) == Max(MaxMean(v, [a]), b.mean);
  }

  class Heat {
    const cardX: nat
    const cardY: nat
    var cells: CellState
    var kBest: map<nat, seq<Quadrant>>
    var firstIteration: bool
    var splitQuad: int
    var isTwoSeg: bool
    var isOneCell: bool
    var firstNew: Quadrant
    var secondNew: Quadrant
    var thirdNew: Quadrant
    var fourthNew: Quadrant
    var avgMin: real
    var avgMax: real

    ghost predicate Valid()
      reads this
    {
      && cardX > 0 && cardY > 0 && CellsShaped(cells, cardX, cardY)
      && !isOneCell
      && (firstIteration ==> forall x, y :: 0 <= x < cardX && 0 <= y < cardY ==> cells[x][y] == Group(0.0, 0, false))
    }

    function Kept(i: nat): seq<Quadrant>
      reads this
    {
      if i in kBest then kBest[i] else []
    }

    constructor (cx: nat, cy: nat)
      requires cx > 0 && cy > 0
      ensures Valid() && cardX == cx && cardY == cy
      ensures firstIteration && kBest == map[] && splitQuad == -1
    {
      cardX, cardY := cx, cy;
      cells := seq(cx, _ => seq(cy, _ => Group(0.0, 0, false)));
      kBest := map[];
      firstIteration, splitQuad, isTwoSeg, isOneCell := true, -1, false, false;
      var none := Quadrant(0, 0, 0, 0, 0.0);
      firstNew, secondNew, thirdNew, fourthNew := none, none, none, none;
      avgMin, avgMax := 10000000.0, -10000000.0;
    }

    /** Queries every cell of one quadrant. */
    method SampleQuadrant(q: Quadrant, answers: seq<seq<Answer>>)
      requires Answerable(cells, answers, cardX, cardY) && Fits(q, cardX, cardY)
      modifies this`cells
      ensures CellsShaped(cells, cardX, cardY)
      ensures forall x, y :: 0 <= x < cardX && 0 <= y < cardY ==>
                cells[x][y] == if Quadrants.Holds(q, x, y) then old(cells)[x][y].Resample(answers[x][y]) else old(cells)[x][y]
    {
      var x := q.xs;
      while x <= q.xe
        invariant q.xs <= x <= q.xe + 1
        invariant CellsShaped(cells, cardX, cardY)
        invariant forall i, j :: 0 <= i < cardX && 0 <= j < cardY ==>
            cells[i][j] == if Visited(q, i, j, x, q.ys) then old(cells)[i][j].Resample(answers[i][j]) else old(cells)[i][j]
      {
        var y := q.ys;
        while y <= q.ye
          invariant q.ys <= y <= q.ye + 1
          invariant CellsShaped(cells, cardX, cardY)
          invariant forall i, j :: 0 <= i < cardX && 0 <= j < cardY ==>
              cells[i][j] == if Visited(q, i, j, x, y) then old(cells)[i][j].Resample(answers[i][j]) else old(cells)[i][j]
        {
          cells := cells[x := cells[x][y := cells[x][y].Resample(answers[x][y])]];
          y := y + 1;
        }
        x := x + 1;
      }
    }

    /** Queries the cells of every quadrant that can be split, each once. */
    method SampleAll(prev: seq<Quadrant>, answers: seq<seq<Answer>>)
      requires Answerable(cells, answers, cardX, cardY)
      requires prev == [] || Partition(prev, cardX, cardY)
      modifies this`cells
      ensures CellsShaped(cells, cardX, cardY) && RefinableResampled(old(cells), cells, prev, answers, cardX, cardY)
    {
      if prev != [] {
        PartitionCoversOnce(prev, cardX, cardY);
      }
      var s := 0;
      while s < |prev|
        invariant 0 <= s <= |prev|
        invariant CellsShaped(cells, cardX, cardY)
        invariant forall x, y :: 0 <= x < cardX && 0 <= y < cardY ==>
            cells[x][y] == if Refinable(prev, s, x, y) then old(cells)[x][y].Resample(answers[x][y]) else old(cells)[x][y]
      {
        RefinableNext(prev, s);
        if Splittable(prev[s]) {
          SampleQuadrant(prev[s], answers);
        }
        s := s + 1;
      }
    }

    /** Records a cut in two. */
    method TakeTwo(s: nat, a: Quadrant, b: Quadrant) returns (pieces: seq<Quadrant>)
      modifies this`splitQuad, this`isTwoSeg, this`firstNew, this`secondNew, this`avgMin, this`avgMax
      ensures pieces == [a, b] && splitQuad == s && isTwoSeg && firstNew == a && secondNew == b
      ensures avgMin == MinMean(old(avgMin), pieces) && avgMax == MaxMean(old(avgMax), pieces)
    {
      FewMeans(avgMin, a, b, a, b);
      FewMeans(avgMax, a, b, a, b);
      pieces, splitQuad, isTwoSeg := [a, b], s, true;
      firstNew, secondNew := a, b;
      avgMax := Max(avgMax, Max(a.mean, b.mean));
      avgMin := Min(avgMin, Min(a.mean, b.mean));
    }

    /** Records a cut in four. */
    method TakeFour(s: nat, a: Quadrant, b: Quadrant, c: Quadrant, d: Quadrant) returns (pieces: seq<Quadrant>)
      modifies this`splitQuad, this`isTwoSeg, this`isOneCell, this`firstNew, this`secondNew, this`thirdNew,
               this`fourthNew, this`avgMin, this`avgMax
      ensures pieces == [a, b, c, d] && splitQuad == s && !isTwoSeg && !isOneCell
      ensures firstNew == a && secondNew == b && thirdNew == c && fourthNew == d
      ensures avgMin == MinMean(old(avgMin), pieces) && avgMax == MaxMean(old(avgMax), pieces)
    {
      FewMeans(avgMin, a, b, c, d);
      FewMeans(avgMax, a, b, c, d);
      pieces, splitQuad, isTwoSeg, isOneCell := [a, b, c, d], s, false, false;
      firstNew, secondNew, thirdNew, fourthNew := a, b, c, d;
      avgMax := Max(avgMax, Max(Max(a.mean, b.mean), Max(c.mean, d.mean)));
      avgMin := Min(avgMin, Min(Min(a.mean, b.mean), Min(c.mean, d.mean)));
    }

    /** The means of the upper right and lower left pieces of a rectangle cut at its corner. */
    method CornerMeans(q: Quadrant) returns (quad2: real, quad4: real)
      requires CellsShaped(cells, cardX, cardY) && Fits(q, cardX, cardY) && q.xs < q.xe && q.ys < q.ye
      ensures var grid := Averages(cells);
              && quad2 == RowSum(grid, q.xe, q.ys + 1, q.ye + 1) / (q.ye - q.ys) as real
              && quad4 == ColumnSum(grid, q.ys, q.xs, q.xe) / (q.xe - q.xs) as real
    {
      quad2, quad4 := 0.0, 0.0;
      var y := q.ys + 1;
      while y <= q.ye
        invariant q.ys + 1 <= y <= q.ye + 1
        invariant quad2 == RowSum(Averages(cells), q.xe, q.ys + 1, y)
      {
        quad2 := quad2 + cells[q.xe][y].avg;
        y := y + 1;
      }
      quad2 := quad2 / (q.ye - (q.ys + 1) + 1) as real;
      var x := q.xs;
      while x < q.xe
        invariant q.xs <= x <= q.xe
        invariant quad4 == ColumnSum(Averages(cells), q.ys, q.xs, x)
      {
        quad4 := quad4 + cells[x][q.ys].avg;
        x := x + 1;
      }
      quad4 := quad4 / (q.xe - 1 - q.xs + 1) as real;
    }

    /** The fallback branches: a corner cell is cut off. */
    method CutCorner(s: nat, q: Quadrant) returns (pieces: seq<Quadrant>)
      requires CellsShaped(cells, cardX, cardY) && Fits(q, cardX, cardY) && !isOneCell
      modifies this`splitQuad, this`isTwoSeg, this`isOneCell, this`firstNew, this`secondNew, this`thirdNew,
               this`fourthNew, this`avgMin, this`avgMax
      ensures pieces == Corner(Averages(cells), cardX, cardY, q)
      ensures Recorded(pieces, s)
      ensures Splittable(q) ==> avgMin == MinMean(old(avgMin), pieces) && avgMax == MaxMean(old(avgMax), pieces)
    {
      var avgTemp := cells[q.xe][q.ys].avg;
      if q.xe - q.xs == 0 {
        if q.ye - q.ys != 0 {
          var newAvg := MeanWithout(q.mean, q.ye - q.ys + 1, avgTemp);
          pieces := TakeTwo(s, Quadrant(q.xs, q.xe, q.ys + 1, q.ye, newAvg), Quadrant(q.xs, q.xe, q.ys, q.ys, avgTemp));
        } else {
          pieces, splitQuad, isTwoSeg, isOneCell := [q], s, false, true;
        }
      } else if q.ye - q.ys == 0 {
        var newAvg := MeanWithout(q.mean, q.xe - q.xs + 1, avgTemp);
        pieces := TakeTwo(s, Quadrant(q.xs, q.xe - 1, q.ys, q.ye, newAvg), Quadrant(q.xe, q.xe, q.ys, q.ye, avgTemp));
        isOneCell := false;
      } else {
        var quad2, quad4 := CornerMeans(q);
        pieces := TakeFour(s, Quadrant(q.xs, q.xe - 1, q.ys + 1, q.ye, q.mean - (quad2 + avgTemp + quad4)),
                           Quadrant(q.xe, q.xe, q.ys + 1, q.ye, quad2),
                           Quadrant(q.xe, q.xe, q.ys, q.ys, avgTemp),
                           Quadrant(q.xs, q.xe - 1, q.ys, q.ys, quad4));
      }
    }

    /** What the published fields say about a cut. */
    ghost predicate Recorded(pieces: seq<Quadrant>, s: nat)
      reads this
    {
      && splitQuad == s && isTwoSeg == (|pieces| == 2) && isOneCell == (|pieces| == 1)
      && (|pieces| == 1 || |pieces| == 2 || |pieces| == 4)
      && (|pieces| == 2 ==> pieces == [firstNew, secondNew])
      && (|pieces| == 4 ==> pieces == [firstNew, secondNew, thirdNew, fourthNew])
    }

    /** Cuts the chosen quadrant and records what is to be published. */
    method CutQuadrant(s: nat, q: Quadrant, b: Scored) returns (pieces: seq<Quadrant>)
      requires CellsShaped(cells, cardX, cardY) && Fits(q, cardX, cardY) && Quadrants.Holds(q, b.x, b.y)
      requires !isOneCell
      modifies this`splitQuad, this`isTwoSeg, this`isOneCell, this`firstNew, this`secondNew, this`thirdNew,
               this`fourthNew, this`avgMin, this`avgMax
      ensures pieces == Pieces(Averages(cells), cardX, cardY, q, b)
      ensures Recorded(pieces, s)
      ensures Splittable(q) ==> avgMin == MinMean(old(avgMin), pieces) && avgMax == MaxMean(old(avgMax), pieces)
    {
      var x: nat, y: nat := b.x, b.y;
      if x < q.xe {
        if y == q.ys {
          pieces := TakeTwo(s, Quadrant(q.xs, x, q.ys, q.ye, b.mean1), Quadrant(x + 1, q.xe, q.ys, q.ye, b.mean2));
        } else {
          pieces := TakeFour(s, Quadrant(q.xs, x, y, q.ye, b.mean1), Quadrant(x + 1, q.xe, y, q.ye, b.mean2),
                             Quadrant(x + 1, q.xe, q.ys, y - 1, b.mean3), Quadrant(q.xs, x, q.ys, y - 1, b.mean4));
        }
      } else if y == q.ys {
        pieces := CutCorner(s, q);
      } else {
        pieces := TakeTwo(s, Quadrant(q.xs, q.xe, y, q.ye, b.mean1), Quadrant(q.xs, q.xe, q.ys, y - 1, b.mean4));
        isOneCell := false;
      }
    }

    /** The first step: every cell is queried and one quadrant covers them all. */
    method FirstStep(i: nat, answers: seq<seq<Answer>>) returns (made: seq<Quadrant>)
      requires Valid() && firstIteration && Answerable(cells, answers, cardX, cardY)
      modifies this`cells, this`kBest, this`firstIteration, this`splitQuad, this`firstNew, this`avgMin, this`avgMax
      ensures Valid() && !firstIteration
      ensures AllResampled(old(cells), cells, answers, cardX, cardY)
      ensures made == [firstNew] && kBest == old(kBest)[i := made] && splitQuad == -1
      ensures firstNew == Quadrant(0, cardX - 1, 0, cardY - 1, firstNew.mean) && avgMin == avgMax == firstNew.mean
      ensures Partition(made, cardX, cardY)
      ensures IsExactMean(firstNew)
    {
      firstIteration := false;
      ghost var before := cells;
      SampleWhole(answers);
      var total := AnswerSum(answers, cardX, cardY);
      var mean := Average(total, cardX, cardY);
      firstNew := Quadrant(0, cardX - 1, 0, cardY - 1, mean);
      made := [firstNew];
      kBest := kBest[i := made];
      splitQuad, avgMin, avgMax := -1, mean, mean;
      WholeIsPartition(cardX, cardY, mean);
      FirstMean(before, cells, answers, cardX, cardY, firstNew, total);
    }

    method SampleWhole(answers: seq<seq<Answer>>)
      requires Answerable(cells, answers, cardX, cardY) && cardX > 0 && cardY > 0
      modifies this`cells
      ensures CellsShaped(cells, cardX, cardY) && AllResampled(old(cells), cells, answers, cardX, cardY)
    {
      SampleQuadrant(Quadrant(0, cardX - 1, 0, cardY - 1, 0.0), answers);
    }

    /** The mean of a region is the exact mean of its cells' averages. */
    ghost predicate IsExactMean(q: Quadrant)
      reads this
    {
      && CellsShaped(cells, cardX, cardY) && Fits(q, cardX, cardY)
      && var members := Cells(Averages(cells), cardX, cardY, q);
         members != [] && q.mean == Mean(members)
    }

    /** A later step: resample, choose, cut. */
    method NextStep(prev: seq<Quadrant>, answers: seq<seq<Answer>>) returns (made: seq<Quadrant>, ghost split: bool, ghost b: Scored)
      requires Valid() && !firstIteration && Answerable(cells, answers, cardX, cardY)
      requires prev == [] || Partition(prev, cardX, cardY)
      modifies this`cells, this`splitQuad, this`isTwoSeg, this`isOneCell, this`firstNew, this`secondNew, this`thirdNew,
               this`fourthNew, this`avgMin, this`avgMax
      ensures Valid() && RefinableResampled(old(cells), cells, prev, answers, cardX, cardY)
      ensures split <==> SomeLive(prev)
      ensures split ==> SplitDone(prev, made, b, old(avgMin), old(avgMax))
      ensures !split ==>
                && made == prev && splitQuad == old(splitQuad) && isTwoSeg == old(isTwoSeg)
                && firstNew == old(firstNew) && secondNew == old(secondNew)
                && thirdNew == old(thirdNew) && fourthNew == old(fourthNew)
                && avgMin == old(avgMin) && avgMax == old(avgMax)
    {
      SampleAll(prev, answers);
      var s, best := ChooseQuadrant(Averages(cells), cardX, cardY, LiveCells(cells), prev);
      ChosenIffLive(prev, s, best);
      b := best;
      split := s >= 0;
      made := prev;
      if s >= 0 {
        made := CutChosen(prev, s, best);
      }
    }

    lemma ChosenIffLive(prev: seq<Quadrant>, s: int, b: Scored)
      requires CellsShaped(cells, cardX, cardY) && AllFit(prev, cardX, cardY)
      requires ChosenAmong(Averages(cells), cardX, cardY, LiveCells(cells), prev, |prev|, s, b)
      requires s >= 0 ==> BestPointOf(Averages(cells), cardX, cardY, LiveCells(cells), prev[s], b)
      ensures s >= 0 <==> SomeLive(prev)
    {
      if s >= 0 {
        assert Refinable(prev, |prev|, b.x, b.y);
      }
    }

    lemma ChosenIsBestOfAll(prev: seq<Quadrant>, s: nat, b: Scored)
      requires CellsShaped(cells, cardX, cardY) && AllFit(prev, cardX, cardY) && s < |prev|
      requires ChosenAmong(Averages(cells), cardX, cardY, LiveCells(cells), prev, |prev|, s, b)
      requires BestPointOf(Averages(cells), cardX, cardY, LiveCells(cells), prev[s], b)
      ensures BestOfAll(prev, s, b)
    {
      forall k: nat, x: nat, y: nat | MayCut(prev, k, x, y)
        ensures Score(Averages(cells), cardX, cardY, prev[k], x, y) <= b.score
        ensures k < s ==> Score(Averages(cells), cardX, cardY, prev[k], x, y) < b.score
      {
        assert LiveCells(cells)(x, y);
        assert Capped(Averages(cells), cardX, cardY, LiveCells(cells), prev[k], b.score);
      }
    }

    /** Cuts the chosen quadrant and puts the pieces in its place. */
    method CutChosen(prev: seq<Quadrant>, s: nat, best: Scored) returns (made: seq<Quadrant>)
      requires CellsShaped(cells, cardX, cardY) && Partition(prev, cardX, cardY) && !isOneCell && s < |prev|
      requires ChosenAmong(Averages(cells), cardX, cardY, LiveCells(cells), prev, |prev|, s, best)
      requires BestPointOf(Averages(cells), cardX, cardY, LiveCells(cells), prev[s], best)
      modifies this`splitQuad, this`isTwoSeg, this`isOneCell, this`firstNew, this`secondNew, this`thirdNew,
               this`fourthNew, this`avgMin, this`avgMax
      ensures !isOneCell && SplitDone(prev, made, best, old(avgMin), old(avgMax))
    {
      PiecesCover(Averages(cells), cardX, cardY, prev[s], best);
      ChosenIsBestOfAll(prev, s, best);
      var pieces := CutQuadrant(s, prev[s], best);
      made := prev[..s] + pieces + prev[s + 1..];
      ReplaceKeepsPartition(prev, cardX, cardY, s, pieces);
    }

    /** One step; its partition is always kept. */
    method GenHeat(i: nat, answers: seq<seq<Answer>>) returns (made: seq<Quadrant>, ghost split: bool, ghost b: Scored)
      requires Valid() && i > 0 && Answerable(cells, answers, cardX, cardY)
      requires !firstIteration ==> Kept(i - 1) == [] || Partition(Kept(i - 1), cardX, cardY)
      modifies this
      ensures Valid() && !firstIteration && kBest == old(kBest)[i := made]
      ensures old(firstIteration) ==>
                && !split && made == [firstNew] && splitQuad == -1 && Partition(made, cardX, cardY)
                && firstNew == Quadrant(0, cardX - 1, 0, cardY - 1, firstNew.mean) && avgMin == avgMax == firstNew.mean
                && IsExactMean(firstNew) && AllResampled(old(cells), cells, answers, cardX, cardY)
                && isTwoSeg == old(isTwoSeg) && secondNew == old(secondNew)
                && thirdNew == old(thirdNew) && fourthNew == old(fourthNew)
      ensures !old(firstIteration) ==>
                && (split <==> SomeLive(old(Kept(i - 1))))
                && RefinableResampled(old(cells), cells, old(Kept(i - 1)), answers, cardX, cardY)
      ensures split ==> SplitDone(old(Kept(i - 1)), made, b, old(avgMin), old(avgMax))
      ensures !split && !old(firstIteration) ==>
                && made == old(Kept(i - 1)) && splitQuad == old(splitQuad) && isTwoSeg == old(isTwoSeg)
                && firstNew == old(firstNew) && secondNew == old(secondNew)
                && thirdNew == old(thirdNew) && fourthNew == old(fourthNew)
                && avgMin == old(avgMin) && avgMax == old(avgMax)
    {
      if firstIteration {
        made := FirstStep(i, answers);
        split, b := false, NO_POINT;
      } else {
        made, split, b := NextStep(Kept(i - 1), answers);
        kBest := kBest[i := made];
      }
    }

    /** Some cell that has not run out lies in a quadrant of more than one cell. */
    ghost predicate SomeLive(prev: seq<Quadrant>)
      reads this
    {
      AnyLive(cells, prev, cardX, cardY)
    }

    /** Cell (x, y) has not run out and its quadrant `k` can be split, so the cut may go through it. */
    ghost predicate MayCut(prev: seq<Quadrant>, k: nat, x: nat, y: nat)
      reads this
    {
      && k < |prev| && Splittable(prev[k]) && Quadrants.Holds(prev[k], x, y)
      && x < |cells| && y < |cells[x]| && !cells[x][y].exhausted
    }

    /** No point a cut may go through scores higher than the given one; the points of earlier
        quadrants score lower. */
    ghost predicate BestOfAll(prev: seq<Quadrant>, s: nat, b: Scored)
      reads this
    {
      && CellsShaped(cells, cardX, cardY) && AllFit(prev, cardX, cardY) && b.x >= 0 && b.y >= 0 && MayCut(prev, s, b.x, b.y)
      && b.score == Score(Averages(cells), cardX, cardY, prev[s], b.x, b.y)
      && forall k: nat, x: nat, y: nat :: MayCut(prev, k, x, y) ==>
           && Score(Averages(cells), cardX, cardY, prev[k], x, y) <= b.score
           && (k < s ==> Score(Averages(cells), cardX, cardY, prev[k], x, y) < b.score)
    }

    /** The outcome of a step that split: `b` is the best point of quadrant `splitQuad` among its
        live cells, no live point of any quadrant scores higher, and the partition stays exact. */
    ghost predicate SplitDone(prev: seq<Quadrant>, made: seq<Quadrant>, b: Scored, oldMin: real, oldMax: real)
      reads this
    {
      && 0 <= splitQuad < |prev| && AllFit(prev, cardX, cardY) && CellsShaped(cells, cardX, cardY)
      && Splittable(prev[splitQuad]) && Quadrants.Holds(prev[splitQuad], b.x, b.y)
      && BestOfAll(prev, splitQuad, b)
      && var grid := Averages(cells);
         var pieces := Pieces(grid, cardX, cardY, prev[splitQuad], b);
         && BestPointOf(grid, cardX, cardY, LiveCells(cells), prev[splitQuad], b)
         && ChosenAmong(grid, cardX, cardY, LiveCells(cells), prev, |prev|, splitQuad, b)
         && Recorded(pieces, splitQuad)
         && made == Replace(prev, splitQuad, pieces)
         && Partition(made, cardX, cardY)
         && (|made| == |prev| + 1 || |made| == |prev| + 3)
         && avgMin == MinMean(oldMin, pieces) && avgMax == MaxMean(oldMax, pieces)
    }
  }

  /** Every answer's average, nothing where no record was found. */
  function AnswerGrid(answers: seq<seq<Answer>>): Grid {
    seq(|answers|, x requires 0 <= x < |answers| =>
      seq(|answers[x]|, y requires 0 <= y < |answers[x]| =>
        if answers[x][y].Sampled? then answers[x][y].avg else 0.0))
  }

  method AnswerSum(answers: seq<seq<Answer>>, cx: nat, cy: nat) returns (total: real)
    requires |answers| == cx && forall x :: 0 <= x < cx ==> |answers[x]| == cy
    ensures total == Sum(Block(AnswerGrid(answers), 0, cx, 0, cy))
  {
    total := 0.0;
    ghost var grid := AnswerGrid(answers);
    for x := 0 to cx
      invariant total == Sum(Block(grid, 0, x, 0, cy))
    {
      ghost var before := total;
      for y := 0 to cy
        invariant total == before + Sum(grid[x][0..y])
      {
        if answers[x][y].Sampled? {
          total := total + answers[x][y].avg;
        }
        assert grid[x][0..y + 1][..y] == grid[x][0..y];
      }
      SumAppend(Block(grid, 0, x, 0, cy), grid[x][0..cy]);
    }
  }

  function Average(total: real, cx: nat, cy: nat): real
    requires cx > 0 && cy > 0
  {
    PositiveArea(cx, cy);
    total / (cx * cy) as real
  }

  /** The first mean is the mean of the cell averages; a cell without records counts as zero. */
  lemma FirstMean(before: CellState, cells: CellState, answers: seq<seq<Answer>>, cx: nat, cy: nat, whole: Quadrant, total: real)
    requires cx > 0 && cy > 0 && Answerable(before, answers, cx, cy) && CellsShaped(cells, cx, cy)
    requires Unsampled(before, cx, cy) && AllResampled(before, cells, answers, cx, cy)
    requires whole == Quadrant(0, cx - 1, 0, cy - 1, whole.mean)
    requires total == Sum(Block(AnswerGrid(answers), 0, cx, 0, cy)) && whole.mean == Average(total, cx, cy)
    ensures Cells(Averages(cells), cx, cy, whole) != [] && whole.mean == Mean(Cells(Averages(cells), cx, cy, whole))
  {
    AnsweredAverages(before, cells, answers, cx, cy);
    BlockSize(Averages(cells), cx, cy, 0, cx, 0, cy);
    PositiveArea(cx, cy);
  }

  ghost predicate Unsampled(cells: CellState, cx: nat, cy: nat)
    requires CellsShaped(cells, cx, cy)
  {
    forall x, y :: 0 <= x < cx && 0 <= y < cy ==> cells[x][y] == Group(0.0, 0, false)
  }

  /** Every cell has taken in its answer. */
  ghost predicate AllResampled(before: CellState, cells: CellState, answers: seq<seq<Answer>>, cx: nat, cy: nat)
    requires Answerable(before, answers, cx, cy) && CellsShaped(cells, cx, cy)
  {
    forall x, y :: 0 <= x < cx && 0 <= y < cy ==> cells[x][y] == before[x][y].Resample(answers[x][y])
  }

  lemma AnsweredAverages(before: CellState, cells: CellState, answers: seq<seq<Answer>>, cx: nat, cy: nat)
    requires Answerable(before, answers, cx, cy) && CellsShaped(cells, cx, cy)
    requires Unsampled(before, cx, cy) && AllResampled(before, cells, answers, cx, cy)
    ensures Averages(cells) == AnswerGrid(answers)
  {
    var grid, given := Averages(cells), AnswerGrid(answers);
    forall x, y | 0 <= x < cx && 0 <= y < cy
      ensures grid[x][y] == given[x][y]
    {
      assert before[x][y].Accepts(answers[x][y]);
      FirstAverage(before[x][y], answers[x][y]);
    }
    assert grid == given by {
      forall x | 0 <= x < cx ensures grid[x] == given[x] {
      }
    }
  }

  lemma WholeIsPartition(cx: nat, cy: nat, mean: real)
    requires cx > 0 && cy > 0
    ensures Partition([Quadrant(0, cx - 1, 0, cy - 1, mean)], cx, cy)
  {
    var q := Quadrant(0, cx - 1, 0, cy - 1, mean);
    CoversSelf(q, cx, cy);
    forall x, y | 0 <= x < cx && 0 <= y < cy
      ensures OwnedOnce([q], x, y)
    {
      assert Owners([q], x, y) == if Quadrants.Holds(q, x, y) then 1 else 0;
    }
  }

  lemma RefinableNext(quads: seq<Quadrant>, s: nat)
    requires s < |quads|
    ensures forall x, y :: Refinable(quads, s + 1, x, y) <==>
              Refinable(quads, s, x, y) || (Splittable(quads[s]) && Quadrants.Holds(quads[s], x, y))
  {
  }
}
