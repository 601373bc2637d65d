/** Means and squared error of a list of cell averages. */
module SquaredError {
  import opened Sums

  function Sq(x: real): real {
    x * x
  }

  ghost function Sum(s: seq<real>): real {
    if s == [] then 0.0 else Sum(s[..|s| - 1]) + s[|s| - 1]
  }

  ghost function SumOfSquares(s: seq<real>): real {
    if s == [] then 0.0 else SumOfSquares(s[..|s| - 1]) + Sq(s[|s| - 1])
  }

  ghost function Mean(s: seq<real>): real
    requires s != []
  {
    Sum(s) / |s| as real
  }

  /** Squared distance of all members from `c`. */
  ghost function Spread(s: seq<real>, c: real): real {
    if s == [] then 0.0 else Spread(s[..|s| - 1], c) + Sq(s[|s| - 1] - c)
  }

  /** Squared distance of all members from their mean. */
  ghost function Error(s: seq<real>): real {
    if s == [] then 0.0 else Spread(s, Mean(s))
  }

  /** Size times squared mean, the part of the sum of squares that a mean explains. */
  ghost function Explained(s: seq<real>): real {
    if s == [] then 0.0 else Weighted(|s| as real, Mean(s))
  }

  function Weighted(n: real, m: real): real {
    m * m * n
  }

  lemma {:induction false} SumAppend(a: seq<real>, b: seq<real>)
    ensures Sum(a + b) == Sum(a) + Sum(b)
    ensures SumOfSquares(a + b) == SumOfSquares(a) + SumOfSquares(b)
  {
    if b == [] {
      assert a + b == a;
    } else {
      SumAppend(a, b[..|b| - 1]);
      assert (a + b)[..|a + b| - 1] == a + b[..|b| - 1];
    }
  }

  lemma SquaresAppend(a: seq<real>, b: seq<real>)
    ensures SumOfSquares(a + b) == SumOfSquares(a) + SumOfSquares(b)
  {
    SumAppend(a, b);
  }

  // ---------- the algebra, away from sequences ----------

  /** A sum of squared distances from `c`, from its moments. */
  function Moments(squares: real, sum: real, n: real, c: real): real {
    squares - 2.0 * c * sum + n * c * c
  }

  lemma MomentsStep(squares: real, sum: real, n: real, c: real, x: real)
    ensures Moments(squares + Sq(x), sum + x, n + 1.0, c) == Moments(squares, sum, n, c) + Sq(x - c)
  {
  }

  lemma MomentsAtMean(squares: real, sum: real, n: real, m: real)
    requires sum == m * n
    ensures Moments(squares, sum, n, m) == squares - Weighted(n, m)
  {
  }

  lemma MomentsElsewhere(squares: real, sum: real, n: real, m: real, c: real)
    requires sum == m * n && n >= 0.0
    ensures Moments(squares, sum, n, m) <= Moments(squares, sum, n, c)
  {
    SquareNonnegative(m - c);
    ProductNonnegative(n, Sq(m - c));
    assert Moments(squares, sum, n, c) - Moments(squares, sum, n, m) == n * Sq(m - c);
  }

  lemma SquareNonnegative(x: real)
    ensures Sq(x) >= 0.0
  {
  }

  lemma SquarePositive(x: real)
    requires x != 0.0
    ensures Sq(x) > 0.0
  {
    SquareNonnegative(x);
    if Sq(x) == 0.0 {
      ZeroFactor(x, x);
    }
  }

  lemma ZeroFactor(a: real, b: real)
    requires a * b == 0.0 && a != 0.0
    ensures b == 0.0
  {
  }

  /** The variance-reduction formula. */
  function Reduction(n1: real, m1: real, n2: real, m2: real): real
    requires n1 + n2 > 0.0
  {
    n1 * n2 * Sq(m1 - m2) / (n1 + n2)
  }

  lemma ReductionIdentity(n1: real, m1: real, n2: real, m2: real, m: real)
    requires n1 + n2 > 0.0 && m * (n1 + n2) == m1 * n1 + m2 * n2
    ensures Weighted(n1, m1) + Weighted(n2, m2) - Weighted(n1 + n2, m) == Reduction(n1, m1, n2, m2)
  {
    var n := n1 + n2;
    var lhs := Weighted(n1, m1) + Weighted(n2, m2) - Weighted(n, m);
    calc {
      lhs * n;
      (m1 * m1 * n1 + m2 * m2 * n2) * n - (m * n) * (m * n);
      (m1 * m1 * n1 + m2 * m2 * n2) * (n1 + n2) - (m1 * n1 + m2 * n2) * (m1 * n1 + m2 * n2);
      n1 * n2 * Sq(m1 - m2);
    }
    DivideBack(lhs, n, n1 * n2 * Sq(m1 - m2));
  }

  lemma DivideBack(x: real, n: real, y: real)
    requires n > 0.0 && x * n == y
    ensures x == y / n
  {
    assert (y / n) * n == y;
    assert (x - y / n) * n == 0.0;
  }

  lemma ScaleIsQuotient(n: real, x: real)
    requires n > 0.0
    ensures (1.0 / n) * x == x / n
  {
    assert ((1.0 / n) * x) * n == x * ((1.0 / n) * n) == x;
    DivideBack((1.0 / n) * x, n, x);
  }

  lemma PositiveProduct(a: real, b: real)
    requires a > 0.0 && b > 0.0
    ensures a * b > 0.0
  {
  }

  lemma QuotientSign(x: real, n: real)
    requires x >= 0.0 && n > 0.0
    ensures x / n >= 0.0 && (x / n == 0.0 <==> x == 0.0)
  {
    assert (x / n) * n == x;
  }

  lemma ReductionNonnegative(n1: real, m1: real, n2: real, m2: real)
    requires n1 >= 0.0 && n2 >= 0.0 && n1 + n2 > 0.0
    ensures Reduction(n1, m1, n2, m2) >= 0.0
    ensures n1 > 0.0 && n2 > 0.0 ==> (Reduction(n1, m1, n2, m2) == 0.0 <==> m1 == m2)
  {
    SquareNonnegative(m1 - m2);
    ProductNonnegative(n1, n2);
    ProductNonnegative(n1 * n2, Sq(m1 - m2));
    QuotientSign(n1 * n2 * Sq(m1 - m2), n1 + n2);
    if n1 > 0.0 && n2 > 0.0 && m1 != m2 {
      PositiveProduct(n1, n2);
      SquarePositive(m1 - m2);
      PositiveProduct(n1 * n2, Sq(m1 - m2));
    }
  }

  // ---------- the same facts about lists ----------

  lemma MeanTimesSize(s: seq<real>)
    requires s != []
    ensures Sum(s) == Mean(s) * |s| as real
  {
  }

  lemma {:induction false} SpreadExpands(s: seq<real>, c: real)
    ensures Spread(s, c) == Moments(SumOfSquares(s), Sum(s), |s| as real, c)
  {
    if s != [] {
      var p := s[..|s| - 1];
      SpreadExpands(p, c);
      MomentsStep(SumOfSquares(p), Sum(p), |p| as real, c, s[|s| - 1]);
      assert |s| as real == |p| as real + 1.0;
    }
  }

  lemma SpreadAt(s: seq<real>, m: real)
    requires Sum(s) == m * |s| as real
    ensures Spread(s, m) == SumOfSquares(s) - Weighted(|s| as real, m)
  {
    SpreadExpands(s, m);
    MomentsAtMean(SumOfSquares(s), Sum(s), |s| as real, m);
  }

  /** Error is what the mean leaves unexplained. */
  lemma ErrorIsUnexplained(s: seq<real>)
    ensures Error(s) == SumOfSquares(s) - Explained(s)
  {
    if s != [] {
      MeanTimesSize(s);
      SpreadAt(s, Mean(s));
    }
  }

  lemma SpreadElsewhere(s: seq<real>, m: real, c: real)
    requires Sum(s) == m * |s| as real
    ensures Spread(s, m) <= Spread(s, c)
  {
    SpreadExpands(s, m);
    SpreadExpands(s, c);
    MomentsElsewhere(SumOfSquares(s), Sum(s), |s| as real, m, c);
  }

  /** The mean is the constant with the least squared distance. */
  lemma MeanIsBestConstant(s: seq<real>, c: real)
    requires s != []
    ensures Error(s) <= Spread(s, c)
  {
    MeanTimesSize(s);
    SpreadElsewhere(s, Mean(s), c);
  }

  /** Splitting a list in two explains more by exactly the variance-reduction formula. */
  lemma SplitExplainsMore(a: seq<real>, b: seq<real>)
    requires a != [] && b != []
    ensures Explained(a) + Explained(b) - Explained(a + b)
         == Reduction(|a| as real, Mean(a), |b| as real, Mean(b))
  {
    SumAppend(a, b);
    MeanTimesSize(a);
    MeanTimesSize(b);
    MeanTimesSize(a + b);
    assert |a + b| as real == |a| as real + |b| as real;
    ReductionIdentity(|a| as real, Mean(a), |b| as real, Mean(b), Mean(a + b));
  }

  /** So it lowers the squared error by the same amount. */
  lemma SplitLowersError(a: seq<real>, b: seq<real>)
    requires a != [] && b != []
    ensures Error(a + b) - Error(a) - Error(b)
         == Reduction(|a| as real, Mean(a), |b| as real, Mean(b))
  {
    SplitExplainsMore(a, b);
    SumAppend(a, b);
    ErrorIsUnexplained(a);
    ErrorIsUnexplained(b);
    ErrorIsUnexplained(a + b);
  }
}
