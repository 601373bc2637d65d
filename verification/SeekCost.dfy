/** The disk-seek cost model of the block-selection engine (granularity one). */
module SeekCost {
  import opened Sums

  // Fetching a chain's first block when that block is the first candidate.
  const BLOCK_FETCH: nat := 364

  // Beyond this many columns a seek costs the same however far it goes.
  const COST_THRESHOLD: nat := 512

  const FAR_COST: nat := 4098

  function SeekCurve(x: real): real {
    -0.016 * (x * x) + 16.692 * x + 157.512
  }

  /** The cost of going from column `start` to column `end`, truncated to an unsigned integer. */
  function CalcCost(start: nat, end: nat): (cost: nat)
    requires start <= end
    ensures end - start >= COST_THRESHOLD ==> cost == FAR_COST
    ensures end - start < COST_THRESHOLD ==>
              cost as real <= SeekCurve((end - start) as real) < cost as real + 1.0
  {
    var x := end - start;
    if x < COST_THRESHOLD then
      CurveIsPositive(x);
      SeekCurve(x as real).Floor
    else 4098.2.Floor
  }

  // The curve is concave, so up to the threshold it lies above its chord.
  lemma CurveAboveChord(r: real)
    requires 0.0 <= r <= 512.0
    ensures SeekCurve(r) >= 8.5 * r + 157.512
  {
    ProductNonnegative(r, 512.0 - r);
    assert SeekCurve(r) - (8.5 * r + 157.512) == 0.016 * (r * (512.0 - r));
  }

  lemma CurveIsPositive(x: nat)
    requires x < COST_THRESHOLD
    ensures SeekCurve(x as real) >= 157.0
  {
    CurveAboveChord(x as real);
  }

  lemma CurveOfSum(a: nat, b: nat)
    ensures SeekCurve(a as real) + SeekCurve(b as real)
         == SeekCurve((a + b) as real) + 0.032 * (a as real * b as real) + 157.512
  {
    var p, q := a as real, b as real;
    assert (a + b) as real == p + q;
    assert (p + q) * (p + q) == p * p + 2.0 * (p * q) + q * q;
  }

  // Two seeks that together span at least the threshold cost at least one far seek.
  lemma CurveOfLongSum(a: nat, b: nat)
    requires a < COST_THRESHOLD && b < COST_THRESHOLD && a + b >= COST_THRESHOLD
    ensures SeekCurve(a as real) + SeekCurve(b as real) >= 4100.0
  {
    CurveAboveChord(a as real);
    CurveAboveChord(b as real);
    assert a as real + b as real >= 512.0;
  }

  /** Splitting a seek at an intermediate column never makes it cheaper, although the
      curve drops when it reaches the threshold. */
  lemma CostIsSubadditive(x: nat, y: nat, z: nat)
    requires x <= y <= z
    ensures CalcCost(x, z) <= CalcCost(x, y) + CalcCost(y, z)
  {
    var a, b := y - x, z - y;
    if a < COST_THRESHOLD && b < COST_THRESHOLD {
      if a + b < COST_THRESHOLD {
        CurveOfSum(a, b);
        assert a as real * b as real >= 0.0;
      } else {
        CurveOfLongSum(a, b);
      }
    }
  }

  /** The cost is not monotone: the last column before the threshold is dearer than any
      column beyond it, so a scan cannot stop at the first dearer column. */
  lemma CostIsNotMonotone()
    ensures CalcCost(0, 512) < CalcCost(0, 511)
  {
    assert SeekCurve(511.0) == 4509.188;
  }
}
