/** Sums over the regions of a partition. */
module Totals {

  ghost function TotalBy<T(!new)>(err: T -> real, regions: seq<T>): real {
    if regions == [] then 0.0 else TotalBy(err, regions[..|regions| - 1]) + err(regions[|regions| - 1])
  }

  lemma {:induction false} TotalByAppend<T(!new)>(err: T -> real, a: seq<T>, b: seq<T>)
    ensures TotalBy(err, a + b) == TotalBy(err, a) + TotalBy(err, b)
  {
    if b == [] {
      assert a + b == a;
    } else {
      assert (a + b)[..|a + b| - 1] == a + b[..|b| - 1];
      TotalByAppend(err, a, b[..|b| - 1]);
    }
  }

  lemma TotalByMiddle<T(!new)>(err: T -> real, a: seq<T>, mid: seq<T>, b: seq<T>)
    ensures TotalBy(err, a + mid + b) == TotalBy(err, a) + TotalBy(err, mid) + TotalBy(err, b)
  {
    TotalByAppend(err, a + mid, b);
    TotalByAppend(err, a, mid);
  }

  lemma TotalByFew<T(!new)>(err: T -> real, l: T, r: T)
    ensures TotalBy(err, [l]) == err(l)
    ensures TotalBy(err, [l, r]) == err(l) + err(r)
  {
    assert [l][..0] == [] && [l, r][..1] == [l];
  }

  /** Replacing one region by others changes the total by the difference. */
  lemma TotalByReplace<T(!new)>(err: T -> real, regions: seq<T>, s: nat, pieces: seq<T>)
    requires s < |regions|
    ensures TotalBy(err, regions[..s] + pieces + regions[s + 1..])
         == TotalBy(err, regions) - err(regions[s]) + TotalBy(err, pieces)
  {
    assert regions == regions[..s] + [regions[s]] + regions[s + 1..];
    TotalByMiddle(err, regions[..s], [regions[s]], regions[s + 1..]);
    TotalByMiddle(err, regions[..s], pieces, regions[s + 1..]);
    TotalByFew(err, regions[s], regions[s]);
  }
}
