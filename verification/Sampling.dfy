/** Running a query: exact sampling, sampling by page with a check of every record, and the scan. */
module Sampling {
  import opened Bitmaps
  import opened Query
  import opened Records
  import opened Results

  lemma MeasuresNext(rows: seq<Row>, ids: seq<nat>, k: nat)
    requires (forall i :: 0 <= i < |ids| ==> ids[i] < |rows|) && k < |ids|
    ensures Measures(rows, ids[..k + 1]) == Measures(rows, ids[..k]) + [rows[ids[k]].measure]
  {
    assert ids[..k + 1][..k] == ids[..k];
  }

  /** Samples the set rows of an exact bitmap. There must be enough of them. */
  method SampleMean(m: FlatMap, rows: seq<Row>, num: nat, results: ResultSet)
    requires m.kind.Single? && |m.b| == |rows| && m.Delivered(0) && num <= |Ones(m.b, |m.b|)|
    requires results.Valid()
    modifies m`lastSampled, results
    ensures results.Valid() && results.seen == old(results.seen) + Measures(rows, Ones(m.b, |m.b|)[..num])
  {
    ghost var ones := Ones(m.b, |m.b|);
    for i := 0 to num
      invariant m.Delivered(i) && results.Valid()
      invariant results.seen == old(results.seen) + Measures(rows, ones[..i])
    {
      var row := m.SequentialSample(i);
      results.Update(rows[row].measure);
      MeasuresNext(rows, ones, i);
    }
  }

  ghost predicate Scanned(node: Node, rows: seq<Row>, idx: nat, before: seq<real>, now: seq<real>) {
    idx <= |rows| && now == before + Measures(rows, Matches(node, rows, idx))
  }

  lemma ScannedNext(node: Node, rows: seq<Row>, idx: nat, before: seq<real>, now: seq<real>)
    requires idx < |rows| && Scanned(node, rows, idx, before, now)
    ensures Scanned(node, rows, idx + 1, before, if Accepts(node, rows[idx]) then now + [rows[idx].measure] else now)
  {
    if Accepts(node, rows[idx]) {
      MatchStep(node, rows, idx);
      Snoc(before, Measures(rows, Matches(node, rows, idx)), rows[idx].measure);
    }
  }

  lemma Snoc(a: seq<real>, b: seq<real>, v: real)
    ensures a + (b + [v]) == (a + b) + [v]
  {
  }

  /** Checks every record of the table. */
  method FullScan(node: Node, rows: seq<Row>, results: ResultSet)
    requires results.Valid()
    modifies results
    ensures results.Valid() && results.seen == old(results.seen) + Measures(rows, Matches(node, rows, |rows|))
  {
    var idx := 0;
    while idx < |rows|
      invariant 0 <= idx <= |rows| && results.Valid()
      invariant Scanned(node, rows, idx, old(results.seen), results.seen)
    {
      var ok := VerifyRecord(node, rows[idx]);
      ScannedNext(node, rows, idx, old(results.seen), results.seen);
      if ok {
        results.Update(rows[idx].measure);
      }
      idx := idx + 1;
    }
  }

  lemma MatchStep(node: Node, rows: seq<Row>, idx: nat)
    requires idx < |rows| && Accepts(node, rows[idx])
    ensures Measures(rows, Matches(node, rows, idx + 1)) == Measures(rows, Matches(node, rows, idx)) + [rows[idx].measure]
  {
    var m := Matches(node, rows, idx + 1);
    assert m[..|m| - 1] == Matches(node, rows, idx);
  }

  // ---------- sampling by page ----------

  lemma {:induction false} MatchesGrow(node: Node, rows: seq<Row>, a: nat, b: nat)
    requires a <= b <= |rows|
    ensures |Matches(node, rows, a)| <= |Matches(node, rows, b)|
    ensures Matches(node, rows, b)[..|Matches(node, rows, a)|] == Matches(node, rows, a)
    ensures (forall r :: a <= r < b ==> !Accepts(node, rows[r])) ==> Matches(node, rows, b) == Matches(node, rows, a)
    decreases b
  {
    if a < b {
      MatchesGrow(node, rows, a, b - 1);
    }
  }

  /** The accepted rows of the first `n`, cut off after `num`. */
  ghost function FirstMatches(node: Node, rows: seq<Row>, n: nat, num: nat): (m: seq<nat>)
    requires n <= |rows|
    ensures forall k :: 0 <= k < |m| ==> m[k] < |rows|
  {
    var all := Matches(node, rows, n);
    if |all| <= num then all else all[..num]
  }

  ghost function Least(a: nat, b: nat): nat {
    if a < b then a else b
  }

  /** The page of a row is marked. */
  ghost predicate Marked(m: Bits, r: nat, recordsPerBuf: nat)
    requires recordsPerBuf > 0
  {
    r / recordsPerBuf < |m| && m[r / recordsPerBuf]
  }

  /** Every accepted row lies on a marked page. */
  ghost predicate PagesCover(m: Bits, node: Node, rows: seq<Row>, recordsPerBuf: nat)
    requires recordsPerBuf > 0
  {
    forall r :: 0 <= r < |rows| && Accepts(node, rows[r]) ==> Marked(m, r, recordsPerBuf)
  }

  /** Where the first `k` marked pages end, and where the next one starts. */
  ghost function PagesEnd(ones: seq<nat>, k: nat, rpb: nat, n: nat): nat
    requires k <= |ones|
  {
    if k == 0 then 0 else Least((ones[k - 1] + 1) * rpb, n)
  }

  ghost function NextStart(ones: seq<nat>, k: nat, rpb: nat, n: nat): nat {
    if k < |ones| then Least(ones[k] * rpb, n) else n
  }

  lemma StartAfterEnd(m: Bits, k: nat, rpb: nat, n: nat)
    requires k <= |Ones(m, |m|)|
    ensures PagesEnd(Ones(m, |m|), k, rpb, n) <= NextStart(Ones(m, |m|), k, rpb, n) <= n
  {
    var ones := Ones(m, |m|);
    if 0 < k < |ones| {
      OnesIncrease(m, |m|, k - 1, k);
      ScaleUp(ones[k - 1] + 1, ones[k], rpb);
    }
  }

  /** A row of a marked page does not lie between the k-th and the next marked page. */
  lemma NotBetween(m: Bits, k: nat, j: nat, rpb: nat, n: nat, r: nat)
    requires rpb > 0 && k <= |Ones(m, |m|)| && j < |Ones(m, |m|)| && r < n && Ones(m, |m|)[j] == r / rpb
    ensures !(PagesEnd(Ones(m, |m|), k, rpb, n) <= r < NextStart(Ones(m, |m|), k, rpb, n))
  {
    var ones := Ones(m, |m|);
    PageBounds(r, rpb);
    if j < k {
      if j < k - 1 {
        OnesIncrease(m, |m|, j, k - 1);
      }
      ScaleUp(ones[j] + 1, ones[k - 1] + 1, rpb);
    } else {
      if k < j {
        OnesIncrease(m, |m|, k, j);
      }
      ScaleUp(ones[k], ones[j], rpb);
    }
  }

  /** Rows up to the next marked page add nothing. */
  lemma NothingBetween(m: Bits, node: Node, rows: seq<Row>, rpb: nat, k: nat, from: nat, to: nat)
    requires rpb > 0 && PagesCover(m, node, rows, rpb) && k <= |Ones(m, |m|)|
    requires from == PagesEnd(Ones(m, |m|), k, rpb, |rows|) && to == NextStart(Ones(m, |m|), k, rpb, |rows|)
    ensures from <= to <= |rows| && Matches(node, rows, to) == Matches(node, rows, from)
  {
    StartAfterEnd(m, k, rpb, |rows|);
    forall r | from <= r < to ensures !Accepts(node, rows[r]) {
      if Accepts(node, rows[r]) {
        assert Marked(m, r, rpb);
        var j := RankOf(m, |m|, r / rpb);
        NotBetween(m, k, j, rpb, |rows|, r);
      }
    }
    MatchesGrow(node, rows, from, to);
  }

  lemma ScaleUp(a: nat, b: nat, n: nat)
    requires a <= b
    ensures a * n <= b * n
  {
  }

  lemma PageBounds(r: nat, rpb: nat)
    requires rpb > 0
    ensures r / rpb * rpb <= r < (r / rpb + 1) * rpb
  {
  }

  lemma {:induction false} OnesIncrease(b: Bits, n: nat, j: nat, k: nat)
    requires n <= |b| && j < k < |Ones(b, n)|
    ensures Ones(b, n)[j] < Ones(b, n)[k]
  {
    if k < |Ones(b, n - 1)| {
      OnesIncrease(b, n - 1, j, k);
    }
  }

  lemma {:induction false} RankOf(b: Bits, n: nat, p: nat) returns (j: nat)
    requires p < n <= |b| && b[p]
    ensures j < |Ones(b, n)| && Ones(b, n)[j] == p
  {
    if p == n - 1 {
      j := |Ones(b, n - 1)|;
    } else {
      j := RankOf(b, n - 1, p);
    }
  }

  /** The state of the page sampler: the first matches below `upTo`, up to `num` of them. */
  ghost predicate Sampled(node: Node, rows: seq<Row>, upTo: nat, num: nat, before: seq<real>, now: seq<real>, count: nat) {
    && upTo <= |rows|
    && count == Least(|Matches(node, rows, upTo)|, num)
    && now == before + Measures(rows, FirstMatches(node, rows, upTo, num))
  }

  lemma SampledNext(node: Node, rows: seq<Row>, r: nat, num: nat, before: seq<real>, now: seq<real>, count: nat)
    requires r < |rows| && Sampled(node, rows, r, num, before, now, count) && count < num
    ensures if Accepts(node, rows[r]) then Sampled(node, rows, r + 1, num, before, now + [rows[r].measure], count + 1)
            else Sampled(node, rows, r + 1, num, before, now, count)
  {
    assert FirstMatches(node, rows, r, num) == Matches(node, rows, r);
    assert FirstMatches(node, rows, r + 1, num) == Matches(node, rows, r + 1);
    if Accepts(node, rows[r]) {
      MatchStep(node, rows, r);
    }
  }

  lemma RowIsLeft(node: Node, rows: seq<Row>, r: nat, num: nat, before: seq<real>, now: seq<real>, count: nat)
    requires Sampled(node, rows, Least(r, |rows|), num, before, now, count)
    requires count < num <= |Matches(node, rows, |rows|)|
    ensures r < |rows|
  {
  }

  lemma SampledEnough(node: Node, rows: seq<Row>, r: nat, to: nat, num: nat, before: seq<real>, now: seq<real>, count: nat)
    requires r <= to <= |rows| && Sampled(node, rows, r, num, before, now, count) && count == num
    ensures Sampled(node, rows, to, num, before, now, count)
  {
    MatchesGrow(node, rows, r, to);
    assert FirstMatches(node, rows, to, num) == FirstMatches(node, rows, r, num);
  }

  /** The same for a position that may lie behind the last row. */
  ghost predicate SampledTo(node: Node, rows: seq<Row>, r: nat, num: nat, before: seq<real>, now: seq<real>, count: nat) {
    Sampled(node, rows, Least(r, |rows|), num, before, now, count)
  }

  lemma SampledEnoughTo(node: Node, rows: seq<Row>, r: nat, to: nat, num: nat, before: seq<real>, now: seq<real>, count: nat)
    requires r <= to && SampledTo(node, rows, r, num, before, now, count) && count >= num
    ensures SampledTo(node, rows, to, num, before, now, count)
  {
    SampledEnough(node, rows, Least(r, |rows|), Least(to, |rows|), num, before, now, count);
  }

  method ReadRecord(node: Node, rows: seq<Row>, r: nat, ghost at: nat, ghost next: nat, num: nat, results: ResultSet, count: nat,
                    ghost before: seq<real>)
    returns (now: nat)
    requires results.Valid() && count < num <= |Matches(node, rows, |rows|)|
    requires r == at && next == at + 1 && SampledTo(node, rows, at, num, before, results.seen, count)
    modifies results
    ensures results.Valid()
    ensures SampledTo(node, rows, next, num, before, results.seen, now)
  {
    now := count;
    RowIsLeft(node, rows, r, num, before, results.seen, count);
    var ok := VerifyRecord(node, rows[r]);
    SampledNextTo(node, rows, r, next, num, before, results.seen, now);
    if ok {
      results.Update(rows[r].measure);
      now := now + 1;
    }
  }

  lemma SampledNextTo(node: Node, rows: seq<Row>, r: nat, next: nat, num: nat, before: seq<real>, now: seq<real>, count: nat)
    requires r < |rows| && next == r + 1 && SampledTo(node, rows, r, num, before, now, count) && count < num
    ensures if Accepts(node, rows[r]) then SampledTo(node, rows, next, num, before, now + [rows[r].measure], count + 1)
            else SampledTo(node, rows, next, num, before, now, count)
  {
    SampledNext(node, rows, r, num, before, now, count);
  }

  /** Reads the page that starts at row `idx` and checks its records until enough were accepted. */
  method ReadPage(node: Node, rows: seq<Row>, idx: nat, rpb: nat, ghost end: nat, num: nat, results: ResultSet, count: nat,
                  ghost before: seq<real>)
    returns (now: nat)
    requires rpb > 0 && results.Valid() && num <= |Matches(node, rows, |rows|)| && end == idx + rpb
    requires SampledTo(node, rows, idx, num, before, results.seen, count)
    modifies results
    ensures results.Valid()
    ensures SampledTo(node, rows, end, num, before, results.seen, now)
  {
    now := count;
    var i := 0;
    ghost var at: nat := idx;
    while i < rpb
      invariant 0 <= i <= rpb && at == idx + i && results.Valid()
      invariant SampledTo(node, rows, at, num, before, results.seen, now)
    {
      if now >= num {
        SampledEnoughTo(node, rows, at, end, num, before, results.seen, now);
        return;
      }
      ghost var next: nat := at + 1;
      now := ReadRecord(node, rows, idx + i, at, next, num, results, now, before);
      at := next;
      i := i + 1;
    }
    SamePlace(node, rows, at, end, num, before, results.seen, now);
  }

  lemma SamePlace(node: Node, rows: seq<Row>, at: nat, end: nat, num: nat, before: seq<real>, now: seq<real>, count: nat)
    requires at == end && SampledTo(node, rows, at, num, before, now, count)
    ensures SampledTo(node, rows, end, num, before, now, count)
  {
  }

  /** The first `k` marked pages have been read. */
  ghost predicate Paging(m: Bits, node: Node, rows: seq<Row>, rpb: nat, k: nat, num: nat,
                         before: seq<real>, now: seq<real>, count: nat)
  {
    && k <= |Ones(m, |m|)|
    && Sampled(node, rows, PagesEnd(Ones(m, |m|), k, rpb, |rows|), num, before, now, count)
  }

  lemma StartPaging(m: Bits, node: Node, rows: seq<Row>, rpb: nat, num: nat, before: seq<real>)
    ensures Paging(m, node, rows, rpb, 0, num, before, before, 0)
  {
    assert FirstMatches(node, rows, 0, num) == [];
  }

  /** While matches are missing another marked page is left. */
  lemma PageLeft(m: Bits, node: Node, rows: seq<Row>, rpb: nat, k: nat, num: nat, before: seq<real>, now: seq<real>, count: nat)
    requires rpb > 0 && PagesCover(m, node, rows, rpb) && Paging(m, node, rows, rpb, k, num, before, now, count)
    requires count < num <= |Matches(node, rows, |rows|)|
    ensures k < |Ones(m, |m|)|
    ensures Sampled(node, rows, NextStart(Ones(m, |m|), k, rpb, |rows|), num, before, now, count)
  {
    var from := PagesEnd(Ones(m, |m|), k, rpb, |rows|);
    NothingBetween(m, node, rows, rpb, k, from, NextStart(Ones(m, |m|), k, rpb, |rows|));
  }

  lemma PageStarts(m: Bits, node: Node, rows: seq<Row>, rpb: nat, k: nat, idx: nat, num: nat,
                   before: seq<real>, now: seq<real>, count: nat)
    requires k < |Ones(m, |m|)| && idx == Ones(m, |m|)[k] * rpb
    requires Sampled(node, rows, NextStart(Ones(m, |m|), k, rpb, |rows|), num, before, now, count)
    ensures SampledTo(node, rows, idx, num, before, now, count)
  {
  }

  lemma PageEnds(m: Bits, node: Node, rows: seq<Row>, rpb: nat, k: nat, idx: nat, end: nat, num: nat,
                 before: seq<real>, now: seq<real>, count: nat)
    requires k < |Ones(m, |m|)| && idx == Ones(m, |m|)[k] * rpb && end == idx + rpb
    requires SampledTo(node, rows, end, num, before, now, count)
    ensures Paging(m, node, rows, rpb, k + 1, num, before, now, count)
  {
    assert (Ones(m, |m|)[k] + 1) * rpb == end;
  }

  /** Samples by page. If enough rows are accepted, the first `num` of them are delivered in
      order, even when the last page is not full. */
  method ApproxSampleMean(m: FlatMap, node: Node, rows: seq<Row>, num: nat, results: ResultSet)
    requires m.kind.Lossy? && m.kind.Valid() && m.Delivered(0) && results.Valid()
    requires PagesCover(m.b, node, rows, m.kind.recordsPerBuf) && num <= |Matches(node, rows, |rows|)|
    modifies m`lastSampled, results
    ensures results.Valid()
    ensures results.seen == old(results.seen) + Measures(rows, Matches(node, rows, |rows|)[..num])
  {
    var count: nat := 0;
    ghost var k: nat := 0;
    ghost var before := results.seen;
    StartPaging(m.b, node, rows, m.kind.recordsPerBuf, num, before);
    while count < num
      invariant m.Delivered(k) && results.Valid()
      invariant Paging(m.b, node, rows, m.kind.recordsPerBuf, k, num, before, results.seen, count)
      decreases |Ones(m.b, |m.b|)| - k
    {
      PageLeft(m.b, node, rows, m.kind.recordsPerBuf, k, num, before, results.seen, count);
      var idx := m.SequentialSample(k);
      ghost var end := idx + m.kind.recordsPerBuf;
      PageStarts(m.b, node, rows, m.kind.recordsPerBuf, k, idx, num, before, results.seen, count);
      count := ReadPage(node, rows, idx, m.kind.recordsPerBuf, end, num, results, count, before);
      PageEnds(m.b, node, rows, m.kind.recordsPerBuf, k, idx, end, num, before, results.seen, count);
      k := k + 1;
    }
    SampledAll(node, rows, PagesEnd(Ones(m.b, |m.b|), k, m.kind.recordsPerBuf, |rows|), num, before, results.seen, count);
  }

  lemma SampledAll(node: Node, rows: seq<Row>, upTo: nat, num: nat, before: seq<real>, now: seq<real>, count: nat)
    requires Sampled(node, rows, upTo, num, before, now, count) && num <= count && num <= |Matches(node, rows, |rows|)|
    ensures now == before + Measures(rows, Matches(node, rows, |rows|)[..num])
  {
    SampledEnough(node, rows, upTo, |rows|, num, before, now, count);
  }
}
