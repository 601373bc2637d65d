/** Partitions of a grid into quadrants, and the ways a step cuts one of them. */
module Quadrants {
  import opened Grids
  import opened SquaredError

  /** Columns xs to xe and rows ys to ye, both ends included. */
  datatype Quadrant = Quadrant(xs: nat, xe: nat, ys: nat, ye: nat, mean: real)

  predicate Holds(q: Quadrant, x: int, y: int) {
    q.xs <= x <= q.xe && q.ys <= y <= q.ye
  }

  predicate Fits(q: Quadrant, cx: nat, cy: nat) {
    q.xs <= q.xe < cx && q.ys <= q.ye < cy
  }

  /** More than one cell. */
  predicate Splittable(q: Quadrant) {
    q.xe > q.xs || q.ye > q.ys
  }

  function Area(q: Quadrant): nat
    requires q.xs <= q.xe && q.ys <= q.ye
  {
    (q.xe - q.xs + 1) * (q.ye - q.ys + 1)
  }

  // ---------- partitions ----------

  /** How many quadrants hold a cell. */
  ghost function Owners(quads: seq<Quadrant>, x: int, y: int): nat {
    if quads == [] then 0
    else Owners(quads[..|quads| - 1], x, y) + if Holds(quads[|quads| - 1], x, y) then 1 else 0
  }

  ghost predicate AllFit(quads: seq<Quadrant>, cx: nat, cy: nat) {
    forall k :: 0 <= k < |quads| ==> Fits(quads[k], cx, cy)
  }

  ghost predicate OwnedOnce(quads: seq<Quadrant>, x: int, y: int) {
    Owners(quads, x, y) == 1
  }

  /** Nonempty quadrants of the grid, each cell in exactly one of them. */
  ghost predicate Partition(quads: seq<Quadrant>, cx: nat, cy: nat) {
    && AllFit(quads, cx, cy)
    && (forall x, y :: 0 <= x < cx && 0 <= y < cy ==> OwnedOnce(quads, x, y))
    && TotalArea(quads, cx, cy) == cx * cy
  }

  ghost function TotalArea(quads: seq<Quadrant>, cx: nat, cy: nat): nat
    requires AllFit(quads, cx, cy)
  {
    if quads == [] then 0 else TotalArea(quads[..|quads| - 1], cx, cy) + Area(quads[|quads| - 1])
  }

  lemma {:induction false} OwnersAppend(a: seq<Quadrant>, b: seq<Quadrant>, x: int, y: int)
    ensures Owners(a + b, x, y) == Owners(a, x, y) + Owners(b, x, y)
  {
    if b == [] {
      assert a + b == a;
    } else {
      OwnersAppend(a, b[..|b| - 1], x, y);
      assert (a + b)[..|a + b| - 1] == a + b[..|b| - 1];
    }
  }

  lemma {:induction false} AreaAppend(a: seq<Quadrant>, b: seq<Quadrant>, cx: nat, cy: nat)
    requires AllFit(a, cx, cy) && AllFit(b, cx, cy)
    ensures AllFit(a + b, cx, cy) && TotalArea(a + b, cx, cy) == TotalArea(a, cx, cy) + TotalArea(b, cx, cy)
  {
    if b == [] {
      assert a + b == a;
    } else {
      AreaAppend(a, b[..|b| - 1], cx, cy);
      assert (a + b)[..|a + b| - 1] == a + b[..|b| - 1];
    }
  }

  lemma {:induction false} OwnersPositive(quads: seq<Quadrant>, k: nat, x: int, y: int)
    requires k < |quads| && Holds(quads[k], x, y)
    ensures Owners(quads, x, y) >= 1
    ensures forall j :: 0 <= j < |quads| && j != k && Holds(quads[j], x, y) ==> Owners(quads, x, y) >= 2
  {
    var p := quads[..|quads| - 1];
    if k < |quads| - 1 {
      OwnersPositive(p, k, x, y);
    }
    forall j | 0 <= j < |quads| && j != k && Holds(quads[j], x, y)
      ensures Owners(quads, x, y) >= 2
    {
      if j < |quads| - 1 && k == |quads| - 1 {
        OwnersPositive(p, j, x, y);
      } else if j < |quads| - 1 {
        assert p[j] == quads[j];
      }
    }
  }

  lemma {:induction false} OwnerExists(quads: seq<Quadrant>, x: int, y: int) returns (k: nat)
    requires Owners(quads, x, y) >= 1
    ensures k < |quads| && Holds(quads[k], x, y)
  {
    if Holds(quads[|quads| - 1], x, y) {
      k := |quads| - 1;
    } else {
      k := OwnerExists(quads[..|quads| - 1], x, y);
    }
  }

  ghost predicate Owned(quads: seq<Quadrant>, x: int, y: int) {
    exists k :: 0 <= k < |quads| && Holds(quads[k], x, y)
  }

  /** In plain terms: the quadrants cover the grid and do not overlap. */
  lemma PartitionCoversOnce(quads: seq<Quadrant>, cx: nat, cy: nat)
    requires Partition(quads, cx, cy)
    ensures forall x, y :: 0 <= x < cx && 0 <= y < cy ==> Owned(quads, x, y)
    ensures forall j, k, x, y :: 0 <= j < k < |quads| && Holds(quads[j], x, y) ==> !Holds(quads[k], x, y)
  {
    forall x, y | 0 <= x < cx && 0 <= y < cy
      ensures Owned(quads, x, y)
    {
      assert OwnedOnce(quads, x, y);
      var k := OwnerExists(quads, x, y);
    }
    forall j, k, x, y | 0 <= j < k < |quads| && Holds(quads[j], x, y)
      ensures !Holds(quads[k], x, y)
    {
      assert Fits(quads[j], cx, cy);
      assert OwnedOnce(quads, x, y);
      OwnersPositive(quads, j, x, y);
    }
  }

  lemma {:induction false} AtMostArea(quads: seq<Quadrant>, cx: nat, cy: nat)
    requires AllFit(quads, cx, cy)
    ensures |quads| <= TotalArea(quads, cx, cy)
    ensures |quads| == TotalArea(quads, cx, cy) <==> forall k :: 0 <= k < |quads| ==> !Splittable(quads[k])
  {
    if quads != [] {
      var q, p := quads[|quads| - 1], quads[..|quads| - 1];
      AtMostArea(p, cx, cy);
      AreaOfOne(q);
      if forall k :: 0 <= k < |p| ==> !Splittable(p[k]) {
        assert forall k :: 0 <= k < |p| ==> p[k] == quads[k];
      }
    }
  }

  lemma AreaOfOne(q: Quadrant)
    requires q.xs <= q.xe && q.ys <= q.ye
    ensures Area(q) >= 1 && (Area(q) == 1 <==> !Splittable(q))
  {
    var w, h := q.xe - q.xs + 1, q.ye - q.ys + 1;
    assert w * h == (w - 1) * h + h;
    assert (w - 1) * h >= 0;
    if w > 1 {
      assert (w - 1) * h >= h;
    }
  }

  // ---------- replacing a quadrant by pieces ----------

  /** The pieces take up exactly the cells of the quadrant. */
  ghost predicate Covers(pieces: seq<Quadrant>, q: Quadrant, cx: nat, cy: nat) {
    && pieces != [] && AllFit(pieces, cx, cy)
    && (forall x, y :: Owners(pieces, x, y) == if Holds(q, x, y) then 1 else 0)
    && q.xs <= q.xe && q.ys <= q.ye && TotalArea(pieces, cx, cy) == Area(q)
  }

  function Replace(quads: seq<Quadrant>, s: nat, pieces: seq<Quadrant>): seq<Quadrant>
    requires s < |quads|
  {
    quads[..s] + pieces + quads[s + 1..]
  }

  lemma ReplaceKeepsPartition(quads: seq<Quadrant>, cx: nat, cy: nat, s: nat, pieces: seq<Quadrant>)
    requires Partition(quads, cx, cy) && s < |quads| && Covers(pieces, quads[s], cx, cy)
    ensures Partition(Replace(quads, s, pieces), cx, cy)
    ensures |Replace(quads, s, pieces)| == |quads| + |pieces| - 1
  {
    var a, b := quads[..s], quads[s + 1..];
    assert quads == a + [quads[s]] + b;
    forall x, y | 0 <= x < cx && 0 <= y < cy
      ensures OwnedOnce(Replace(quads, s, pieces), x, y)
    {
      assert OwnedOnce(quads, x, y);
      OwnersAppend(a + [quads[s]], b, x, y);
      OwnersAppend(a, [quads[s]], x, y);
      OwnersAppend(a + pieces, b, x, y);
      OwnersAppend(a, pieces, x, y);
      OwnersOne(quads[s], x, y);
    }
    AreaAppend(a + [quads[s]], b, cx, cy);
    AreaAppend(a, [quads[s]], cx, cy);
    AreaAppend(a, pieces, cx, cy);
    AreaAppend(a + pieces, b, cx, cy);
    assert TotalArea([quads[s]], cx, cy) == TotalArea([], cx, cy) + Area(quads[s]);
  }

  lemma OwnersOne(q: Quadrant, x: int, y: int)
    ensures Owners([q], x, y) == if Holds(q, x, y) then 1 else 0
  {
    assert [q][..0] == [];
  }

  lemma PairMoments(a: Quadrant, b: Quadrant, cx: nat, cy: nat)
    requires Fits(a, cx, cy) && Fits(b, cx, cy)
    ensures TotalArea([a, b], cx, cy) == Area(a) + Area(b)
    ensures forall x, y :: Owners([a, b], x, y) == (if Holds(a, x, y) then 1 else 0) + if Holds(b, x, y) then 1 else 0
  {
    assert [a] + [b] == [a, b];
    AreaAppend([a], [b], cx, cy);
    assert TotalArea([a], cx, cy) == TotalArea([], cx, cy) + Area(a);
    assert TotalArea([b], cx, cy) == TotalArea([], cx, cy) + Area(b);
    forall x, y
      ensures Owners([a, b], x, y) == (if Holds(a, x, y) then 1 else 0) + if Holds(b, x, y) then 1 else 0
    {
      OwnersAppend([a], [b], x, y);
      OwnersOne(a, x, y);
      OwnersOne(b, x, y);
    }
  }

  lemma CoversTwo(a: Quadrant, b: Quadrant, q: Quadrant, cx: nat, cy: nat)
    requires Fits(a, cx, cy) && Fits(b, cx, cy) && Fits(q, cx, cy)
    requires forall x, y :: Holds(q, x, y) <==> Holds(a, x, y) || Holds(b, x, y)
    requires forall x, y :: !(Holds(a, x, y) && Holds(b, x, y))
    requires Area(q) == Area(a) + Area(b)
    ensures Covers([a, b], q, cx, cy)
  {
    PairMoments(a, b, cx, cy);
  }

  /** Cutting between columns. */
  lemma CoversColumns(q: Quadrant, x: nat, m1: real, m2: real, cx: nat, cy: nat)
    requires Fits(q, cx, cy) && q.xs <= x < q.xe
    ensures Covers([Quadrant(q.xs, x, q.ys, q.ye, m1), Quadrant(x + 1, q.xe, q.ys, q.ye, m2)], q, cx, cy)
  {
    var h := q.ye - q.ys + 1;
    assert (q.xe - q.xs + 1) * h == (x - q.xs + 1) * h + (q.xe - x) * h;
    CoversTwo(Quadrant(q.xs, x, q.ys, q.ye, m1), Quadrant(x + 1, q.xe, q.ys, q.ye, m2), q, cx, cy);
  }

  /** Cutting between rows; the upper part comes first. */
  lemma CoversRows(q: Quadrant, y: nat, m1: real, m2: real, cx: nat, cy: nat)
    requires Fits(q, cx, cy) && q.ys < y <= q.ye
    ensures Covers([Quadrant(q.xs, q.xe, y, q.ye, m1), Quadrant(q.xs, q.xe, q.ys, y - 1, m2)], q, cx, cy)
  {
    var w := q.xe - q.xs + 1;
    assert w * (q.ye - q.ys + 1) == w * (q.ye - y + 1) + w * (y - q.ys);
    CoversTwo(Quadrant(q.xs, q.xe, y, q.ye, m1), Quadrant(q.xs, q.xe, q.ys, y - 1, m2), q, cx, cy);
  }

  /** Cutting both ways: upper left, upper right, lower right, lower left. */
  lemma CoversFour(q: Quadrant, x: nat, y: nat, m1: real, m2: real, m3: real, m4: real, cx: nat, cy: nat)
    requires Fits(q, cx, cy) && q.xs <= x < q.xe && q.ys < y <= q.ye
    ensures Covers([Quadrant(q.xs, x, y, q.ye, m1), Quadrant(x + 1, q.xe, y, q.ye, m2),
                    Quadrant(x + 1, q.xe, q.ys, y - 1, m3), Quadrant(q.xs, x, q.ys, y - 1, m4)], q, cx, cy)
  {
    var t, u := Quadrant(q.xs, x, y, q.ye, m1), Quadrant(x + 1, q.xe, y, q.ye, m2);
    var v, w := Quadrant(x + 1, q.xe, q.ys, y - 1, m3), Quadrant(q.xs, x, q.ys, y - 1, m4);
    var upper, lower := Quadrant(q.xs, q.xe, y, q.ye, 0.0), Quadrant(q.xs, q.xe, q.ys, y - 1, 0.0);
    CoversRows(q, y, 0.0, 0.0, cx, cy);
    CoversColumns(upper, x, m1, m2, cx, cy);
    CoversColumns(lower, x, m4, m3, cx, cy);
    PairMoments(upper, lower, cx, cy);
    PairMoments(t, u, cx, cy);
    PairMoments(w, v, cx, cy);
    PairMoments(v, w, cx, cy);
    assert [t, u, v, w] == [t, u] + [v, w];
    AreaAppend([t, u], [v, w], cx, cy);
    forall x', y' ensures Owners([t, u, v, w], x', y') == if Holds(q, x', y') then 1 else 0 {
      OwnersAppend([t, u], [v, w], x', y');
      assert Owners([upper, lower], x', y') == if Holds(q, x', y') then 1 else 0;
      assert Owners([t, u], x', y') == if Holds(upper, x', y') then 1 else 0;
      assert Owners([w, v], x', y') == if Holds(lower, x', y') then 1 else 0;
    }
  }

  // ---------- errors and scores ----------

  /** The cells of a quadrant. */
  ghost function Cells(grid: Grid, cx: nat, cy: nat, q: Quadrant): seq<real>
    requires Shaped(grid, cx, cy) && Fits(q, cx, cy)
  {
    Block(grid, q.xs, q.xe + 1, q.ys, q.ye + 1)
  }

  /** The four parts a split point (x, y) makes; the last three may be empty. */
  datatype Parts = Parts(upperLeft: seq<real>, upperRight: seq<real>, lowerRight: seq<real>, lowerLeft: seq<real>)

  ghost function PartsAt(grid: Grid, cx: nat, cy: nat, q: Quadrant, x: nat, y: nat): Parts
    requires Shaped(grid, cx, cy) && Fits(q, cx, cy) && Holds(q, x, y)
  {
    Parts(Block(grid, q.xs, x + 1, y, q.ye + 1), Block(grid, x + 1, q.xe + 1, y, q.ye + 1),
          Block(grid, x + 1, q.xe + 1, q.ys, y), Block(grid, q.xs, x + 1, q.ys, y))
  }

  /** The score of a split point: the sum of size times squared mean over the parts. */
  ghost function Score(grid: Grid, cx: nat, cy: nat, q: Quadrant, x: nat, y: nat): real
    requires Shaped(grid, cx, cy) && Fits(q, cx, cy) && Holds(q, x, y)
  {
    var p := PartsAt(grid, cx, cy, q, x, y);
    Explained(p.upperLeft) + Explained(p.upperRight) + Explained(p.lowerRight) + Explained(p.lowerLeft)
  }

  /** The squared error of the parts around their own means. */
  ghost function SplitError(grid: Grid, cx: nat, cy: nat, q: Quadrant, x: nat, y: nat): real
    requires Shaped(grid, cx, cy) && Fits(q, cx, cy) && Holds(q, x, y)
  {
    var p := PartsAt(grid, cx, cy, q, x, y);
    Error(p.upperLeft) + Error(p.upperRight) + Error(p.lowerRight) + Error(p.lowerLeft)
  }

  lemma PartsAddUp(grid: Grid, cx: nat, cy: nat, q: Quadrant, x: nat, y: nat)
    requires Shaped(grid, cx, cy) && Fits(q, cx, cy) && Holds(q, x, y)
    ensures var p := PartsAt(grid, cx, cy, q, x, y);
            SameMoments(Cells(grid, cx, cy, q), (p.lowerLeft + p.lowerRight) + (p.upperLeft + p.upperRight))
  {
    BlockSplitY(grid, cx, cy, q.xs, q.xe + 1, q.ys, y, q.ye + 1);
    BlockSplitX(grid, cx, cy, q.xs, x + 1, q.xe + 1, q.ys, y);
    BlockSplitX(grid, cx, cy, q.xs, x + 1, q.xe + 1, y, q.ye + 1);
  }

  lemma FourMoments(s: seq<real>, a: seq<real>, b: seq<real>, c: seq<real>, d: seq<real>)
    requires SumOfSquares(s) == SumOfSquares((a + b) + (c + d))
    ensures SumOfSquares(s) == SumOfSquares(c) + SumOfSquares(d) + SumOfSquares(b) + SumOfSquares(a)
  {
    calc {
      SumOfSquares(s);
      SumOfSquares((a + b) + (c + d));
      { SquaresAppend(a + b, c + d); }
      SumOfSquares(a + b) + SumOfSquares(c + d);
      { SquaresAppend(a, b); }
      SumOfSquares(a) + SumOfSquares(b) + SumOfSquares(c + d);
      { SquaresAppend(c, d); }
      SumOfSquares(a) + SumOfSquares(b) + SumOfSquares(c) + SumOfSquares(d);
    }
  }

  /** A higher score is a lower squared error. */
  lemma ScoreIsErrorLeft(grid: Grid, cx: nat, cy: nat, q: Quadrant, x: nat, y: nat)
    requires Shaped(grid, cx, cy) && Fits(q, cx, cy) && Holds(q, x, y)
    ensures SplitError(grid, cx, cy, q, x, y)
         == SumOfSquares(Cells(grid, cx, cy, q)) - Score(grid, cx, cy, q, x, y)
  {
    var p := PartsAt(grid, cx, cy, q, x, y);
    PartsAddUp(grid, cx, cy, q, x, y);
    FourErrors(Cells(grid, cx, cy, q), p.lowerLeft, p.lowerRight, p.upperLeft, p.upperRight);
  }

  lemma FourErrors(s: seq<real>, a: seq<real>, b: seq<real>, c: seq<real>, d: seq<real>)
    requires SameMoments(s, (a + b) + (c + d))
    ensures Error(c) + Error(d) + Error(b) + Error(a)
         == SumOfSquares(s) - (Explained(c) + Explained(d) + Explained(b) + Explained(a))
  {
    FourMoments(s, a, b, c, d);
    ErrorIsUnexplained(a);
    ErrorIsUnexplained(b);
    ErrorIsUnexplained(c);
    ErrorIsUnexplained(d);
  }
}
