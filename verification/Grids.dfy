/** Rectangular blocks of a grid of cell averages and their sums. */
module Grids {
  import opened SquaredError
  import opened Sums

  /** Column by column: grid[x][y]. */
  type Grid = seq<seq<real>>

  ghost predicate Shaped(grid: Grid, cx: nat, cy: nat) {
    |grid| == cx && forall x :: 0 <= x < cx ==> |grid[x]| == cy
  }

  /** The cells with x0 <= x < x1 and y0 <= y < y1. */
  ghost function Block(grid: Grid, x0: nat, x1: nat, y0: nat, y1: nat): seq<real>
    requires x1 <= |grid| && (x0 < x1 ==> y0 <= y1) && forall x :: x0 <= x < x1 ==> y1 <= |grid[x]|
  {
    if x0 >= x1 then [] else Block(grid, x0, x1 - 1, y0, y1) + grid[x1 - 1][y0..y1]
  }

  lemma LastColumn(grid: Grid, cx: nat, cy: nat, x0: nat, x1: nat, y0: nat, y1: nat)
    requires Shaped(grid, cx, cy) && x0 < x1 <= cx && y0 <= y1 <= cy
    ensures Block(grid, x0, x1, y0, y1) == Block(grid, x0, x1 - 1, y0, y1) + grid[x1 - 1][y0..y1]
    ensures |grid[x1 - 1][y0..y1]| == y1 - y0
  {
  }

  lemma {:induction false} BlockSize(grid: Grid, cx: nat, cy: nat, x0: nat, x1: nat, y0: nat, y1: nat)
    requires Shaped(grid, cx, cy) && x0 <= x1 <= cx && y0 <= y1 <= cy
    ensures |Block(grid, x0, x1, y0, y1)| == (x1 - x0) * (y1 - y0)
  {
    if x0 < x1 {
      BlockSize(grid, cx, cy, x0, x1 - 1, y0, y1);
      LastColumn(grid, cx, cy, x0, x1, y0, y1);
      OneRowMore(x1 - 1 - x0, y1 - y0);
    }
  }

  lemma OneRowMore(w: nat, h: nat)
    ensures (w + 1) * h == w * h + h
  {
  }

  lemma Regroup(a: seq<real>, b: seq<real>, c: seq<real>)
    ensures a + (b + c) == (a + b) + c
  {
  }

  lemma {:induction false} BlockSplitX(grid: Grid, cx: nat, cy: nat, x0: nat, m: nat, x1: nat, y0: nat, y1: nat)
    requires Shaped(grid, cx, cy) && x0 <= m <= x1 <= cx && y0 <= y1 <= cy
    ensures Block(grid, x0, x1, y0, y1) == Block(grid, x0, m, y0, y1) + Block(grid, m, x1, y0, y1)
  {
    if m < x1 {
      BlockSplitX(grid, cx, cy, x0, m, x1 - 1, y0, y1);
      LastColumn(grid, cx, cy, x0, x1, y0, y1);
      LastColumn(grid, cx, cy, m, x1, y0, y1);
      Regroup(Block(grid, x0, m, y0, y1), Block(grid, m, x1 - 1, y0, y1), grid[x1 - 1][y0..y1]);
    }
  }

  /** Cutting a block across its columns reorders the cells but keeps their sums. */
  lemma {:induction false} BlockSplitY(grid: Grid, cx: nat, cy: nat, x0: nat, x1: nat, y0: nat, m: nat, y1: nat)
    requires Shaped(grid, cx, cy) && x0 <= x1 <= cx && y0 <= m <= y1 <= cy
    ensures SameMoments(Block(grid, x0, x1, y0, y1), Block(grid, x0, x1, y0, m) + Block(grid, x0, x1, m, y1))
  {
    if x0 < x1 {
      var lo, hi := grid[x1 - 1][y0..m], grid[x1 - 1][m..y1];
      BlockSplitY(grid, cx, cy, x0, x1 - 1, y0, m, y1);
      assert grid[x1 - 1][y0..y1] == lo + hi;
      SwapMiddle(Block(grid, x0, x1 - 1, y0, y1),
                 Block(grid, x0, x1 - 1, y0, m), lo, Block(grid, x0, x1 - 1, m, y1), hi);
    }
  }

  /** Equal size, sum and sum of squares: equal for everything a mean can tell. */
  ghost predicate SameMoments(s: seq<real>, t: seq<real>) {
    |s| == |t| && Sum(s) == Sum(t) && SumOfSquares(s) == SumOfSquares(t)
  }

  lemma SwapMiddle(s: seq<real>, a: seq<real>, lo: seq<real>, b: seq<real>, hi: seq<real>)
    requires SameMoments(s, a + b)
    ensures SameMoments(s + (lo + hi), (a + lo) + (b + hi))
  {
    SumAppend(a, b);
    SumAppend(s, lo + hi);
    SumAppend(lo, hi);
    SumAppend(a + lo, b + hi);
    SumAppend(a, lo);
    SumAppend(b, hi);
  }

  lemma SameMomentsExplain(s: seq<real>, t: seq<real>)
    requires SameMoments(s, t)
    ensures Explained(s) == Explained(t) && Error(s) == Error(t)
  {
    ErrorIsUnexplained(s);
    ErrorIsUnexplained(t);
  }

  /** Two parts together explain at least what the whole explains, and exactly that when
      their means agree. */
  lemma PartsExplainMore(s: seq<real>, a: seq<real>, b: seq<real>)
    requires SameMoments(s, a + b)
    ensures Explained(a) + Explained(b) >= Explained(s)
    ensures a != [] && b != [] ==>
              (Explained(a) + Explained(b) == Explained(s) <==> Mean(a) == Mean(b))
  {
    SameMomentsExplain(s, a + b);
    if a == [] {
      assert a + b == b;
    } else if b == [] {
      assert a + b == a;
    } else {
      SplitExplainsMore(a, b);
      ReductionNonnegative(|a| as real, Mean(a), |b| as real, Mean(b));
    }
  }

  lemma ExplainedWithinSquares(s: seq<real>)
    ensures 0.0 <= Explained(s) <= SumOfSquares(s)
  {
    ErrorIsUnexplained(s);
    if s != [] {
      SpreadNonnegative(s, Mean(s));
      WeightedNonnegative(|s| as real, Mean(s));
    }
  }

  lemma WeightedNonnegative(n: real, m: real)
    requires n >= 0.0
    ensures Weighted(n, m) >= 0.0
  {
    SquareNonnegative(m);
    ProductNonnegative(Sq(m), n);
  }

  lemma {:induction false} SpreadNonnegative(s: seq<real>, c: real)
    ensures Spread(s, c) >= 0.0
  {
    if s != [] {
      SpreadNonnegative(s[..|s| - 1], c);
      SquareNonnegative(s[|s| - 1] - c);
    }
  }

  /** A list of equal values has no error. */
  lemma {:induction false} ConstantList(s: seq<real>, c: real)
    requires forall i :: 0 <= i < |s| ==> s[i] == c
    ensures Sum(s) == c * |s| as real && SumOfSquares(s) == Weighted(|s| as real, c)
  {
    if s != [] {
      ConstantList(s[..|s| - 1], c);
      assert |s| as real == |s[..|s| - 1]| as real + 1.0;
      assert c * |s| as real == c * |s[..|s| - 1]| as real + c;
      WeightedStep(|s[..|s| - 1]| as real, c);
    }
  }

  lemma WeightedStep(n: real, c: real)
    ensures Weighted(n + 1.0, c) == Weighted(n, c) + Sq(c)
  {
  }

  lemma {:induction false} BlockCells(grid: Grid, cx: nat, cy: nat, x0: nat, x1: nat, y0: nat, y1: nat, c: real)
    requires Shaped(grid, cx, cy) && x0 <= x1 <= cx && y0 <= y1 <= cy
    requires forall x, y :: x0 <= x < x1 && y0 <= y < y1 ==> grid[x][y] == c
    ensures forall i :: 0 <= i < |Block(grid, x0, x1, y0, y1)| ==> Block(grid, x0, x1, y0, y1)[i] == c
  {
    if x0 < x1 {
      BlockCells(grid, cx, cy, x0, x1 - 1, y0, y1, c);
    }
  }
}
