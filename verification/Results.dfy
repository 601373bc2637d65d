/** The running averages a query fills. */
module Results {
  import opened SquaredError

  lemma RunningMeanStep(mean: real, n: nat, sum: real, val: real)
    requires n > 0 && (n > 1 ==> mean * (n - 1) as real == sum) && (n == 1 ==> mean == 0.0 && sum == 0.0)
    ensures mean + (val - mean) / n as real == (sum + val) / n as real
  {
    var x := mean + (val - mean) / n as real;
    assert x * n as real == mean * n as real + (val - mean);
    DivideBack(x, n as real, sum + val);
  }

  class ResultSet {
    var numSamples: nat
    var avg: real
    ghost var seen: seq<real>

    /** The average is exact for the values seen; zero when there are none. */
    ghost predicate Valid()
      reads this
    {
      numSamples == |seen| && avg == if seen == [] then 0.0 else Mean(seen)
    }

    constructor ()
      ensures Valid() && seen == []
    {
      numSamples, avg, seen := 0, 0.0, [];
    }

    method Update(val: real)
      requires Valid()
      modifies this
      ensures Valid() && seen == old(seen) + [val]
    {
      numSamples := numSamples + 1;
      ghost var next := seen + [val];
      assert next[..|next| - 1] == seen;
      if seen != [] {
        MeanTimesSize(seen);
      }
      RunningMeanStep(avg, numSamples, Sum(seen), val);
      avg := avg + (val - avg) / numSamples as real;
      seen := next;
    }
  }
}
