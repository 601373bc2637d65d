/** The index representations against the scan. */
module Agreement {
  import opened Bitmaps
  import opened Densities
  import opened Ewah
  import opened Query
  import opened Records
  import opened Results
  import opened Samples
  import opened Sampling
  import opened SquaredError
  import opened SwiftIndexes

  /** The set rows of an exact map are the rows the scan accepts. */
  lemma ExactMapIsScan(node: Node, attrs: seq<Attr>, rows: seq<Row>, b: Bits)
    requires WellTyped(attrs, rows) && Queryable(node, attrs) && AllDiscrete(node, attrs) && |b| == |rows|
    requires forall u :: 0 <= u < |b| ==> b[u] == UnitAccepts(node, attrs, rows, u, Single)
    ensures Ones(b, |b|) == Matches(node, rows, |rows|)
  {
    forall r | 0 <= r < |rows| ensures b[r] == Accepts(node, rows[r]) {
      BitsDecide(node, attrs, rows, r, Single);
    }
    OnesAreMatches(b, node, rows, |rows|);
  }

  /** No page with an accepted row is left out of a page map, however deep the query. */
  lemma PageMapCovers(node: Node, attrs: seq<Attr>, rows: seq<Row>, b: Bits, rpb: nat)
    requires WellTyped(attrs, rows) && Queryable(node, attrs) && rpb > 0 && |b| == Lossy(rpb).Units(|rows|)
    requires forall u :: 0 <= u < |b| ==> b[u] == UnitAccepts(node, attrs, rows, u, Lossy(rpb))
    ensures PagesCover(b, node, rows, rpb) && |b| < NPOS
  {
    forall r | 0 <= r < |rows| && Accepts(node, rows[r]) ensures Marked(b, r, rpb) {
      MarkedPage(node, attrs, rows, b, rpb, r);
    }
    FewBits(rows, b, rpb);
  }

  lemma FewBits(rows: seq<Row>, b: Bits, rpb: nat)
    requires rpb > 0 && |b| == Lossy(rpb).Units(|rows|) && |rows| + 1 < NPOS
    ensures |b| < NPOS
  {
    FewPages(|rows|, rpb);
  }

  lemma MarkedPage(node: Node, attrs: seq<Attr>, rows: seq<Row>, b: Bits, rpb: nat, r: nat)
    requires WellTyped(attrs, rows) && Queryable(node, attrs) && rpb > 0 && |b| == Lossy(rpb).Units(|rows|)
    requires forall u :: 0 <= u < |b| ==> b[u] == UnitAccepts(node, attrs, rows, u, Lossy(rpb))
    requires r < |rows| && Accepts(node, rows[r])
    ensures Marked(b, r, rpb)
  {
    BitsDecide(node, attrs, rows, r, Lossy(rpb));
    Lossy(rpb).UnitInRange(r, |rows|);
    assert Lossy(rpb).UnitOf(r) == r / rpb;
  }

  lemma FewPages(n: nat, rpb: nat)
    requires rpb > 0
    ensures n / rpb <= n
  {
    var q := n / rpb;
    PageBounds(n, rpb);
    AtLeast(q, rpb);
  }

  lemma AtLeast(q: nat, n: nat)
    requires n > 0
    ensures q <= q * n
  {
  }

  /** Runs one query on an exact index. */
  method RunExact(attrs: seq<Attr>, rows: seq<Row>, node: Node, num: nat) returns (ok: bool, results: ResultSet)
    requires WellTyped(attrs, rows) && Queryable(node, attrs) && AllDiscrete(node, attrs)
    requires num <= |Matches(node, rows, |rows|)|
    ensures results.Valid() && (ok <==> Held(node, attrs, rows))
    ensures ok ==> results.seen == Measures(rows, Matches(node, rows, |rows|)[..num])
  {
    results := new ResultSet();
    var index := new SwiftIndex(attrs, rows, Single);
    index.Read();
    var m := index.BuildMap(node);
    ok := m.Some?;
    if ok {
      ExactMapIsScan(node, attrs, rows, m.value.b);
      SampleMean(m.value, rows, num, results);
      m.value.Clear();
    }
  }

  /** Runs one query on an index by page. */
  method RunLossy(attrs: seq<Attr>, rows: seq<Row>, node: Node, rpb: nat, num: nat) returns (ok: bool, results: ResultSet)
    requires WellTyped(attrs, rows) && Queryable(node, attrs) && rpb > 0
    requires num <= |Matches(node, rows, |rows|)|
    ensures results.Valid() && (ok <==> Held(node, attrs, rows))
    ensures ok ==> results.seen == Measures(rows, Matches(node, rows, |rows|)[..num])
  {
    results := new ResultSet();
    var index := new SwiftIndex(attrs, rows, Lossy(rpb));
    index.Read();
    var m := index.BuildMap(node);
    ok := m.Some?;
    if ok {
      PageMapCovers(node, attrs, rows, m.value.b, rpb);
      ApproxSampleMean(m.value, node, rows, num, results);
      m.value.Clear();
    }
  }

  /** Runs one query on a compressed index. */
  method RunEwah(attrs: seq<Attr>, rows: seq<Row>, node: Node, num: nat) returns (ok: bool, answer: Answer)
    requires WellTyped(attrs, rows) && Queryable(node, attrs) && AllDiscrete(node, attrs)
    requires 0 < num <= |Matches(Raw(node), rows, |rows|)|
    ensures ok <==> Held(node, attrs, rows)
    ensures ok ==> answer == Sampled(Mean(Measures(rows, Matches(Raw(node), rows, |rows|)[..num])), num)
  {
    answer := NoRecords;
    var index := new SwiftIndex(attrs, rows, Single);
    index.Read();
    var m := BuildEwah(index, node);
    ok := m.Some?;
    if ok {
      ghost var ones := Matches(Raw(node), rows, |rows|);
      answer := Ewah.RunQuery(m.value, rows, num, ones);
      assert ones[0..num] == ones[..num];
    }
  }

  /** One query, all representations: whenever enough rows match, they deliver the first rows the
      scan accepts and compute the same mean; the compressed maps when they answer right on the rows.
      All of them fail alike when a constant of the query occurs in no row. */
  method RunAll(attrs: seq<Attr>, rows: seq<Row>, node: Node, rpb: nat, num: nat)
    returns (ok: bool, exact: ResultSet, paged: ResultSet, scanned: ResultSet, answer: Answer)
    requires WellTyped(attrs, rows) && Queryable(node, attrs) && AllDiscrete(node, attrs) && rpb > 0
    requires 0 < num <= |Matches(node, rows, |rows|)|
    ensures ok <==> Held(node, attrs, rows)
    ensures exact.Valid() && paged.Valid() && scanned.Valid()
    ensures scanned.seen == Measures(rows, Matches(node, rows, |rows|))
    ensures ok ==> exact.seen == paged.seen == scanned.seen[..num] && exact.avg == paged.avg == Mean(exact.seen)
    ensures ok && RightOn(node, rows) ==> answer == Sampled(exact.avg, num)
  {
    scanned := new ResultSet();
    FullScan(node, rows, scanned);
    ok, exact := RunExact(attrs, rows, node, num);
    var okPaged;
    okPaged, paged := RunLossy(attrs, rows, node, rpb, num);
    answer := NoRecords;
    if RightOn(node, rows) {
      DeliversMatchesIff(node, rows);
      var okEwah;
      okEwah, answer := RunEwah(attrs, rows, node, num);
    }
    FirstMeasures(rows, Matches(node, rows, |rows|), num);
  }

  lemma FirstMeasures(rows: seq<Row>, ids: seq<nat>, num: nat)
    requires (forall k :: 0 <= k < |ids| ==> ids[k] < |rows|) && num <= |ids|
    ensures Measures(rows, ids[..num]) == Measures(rows, ids)[..num]
  {
  }
}
