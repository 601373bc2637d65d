/** Building the density map of one key. */
module BaseDensity {
  import opened Densities
  import opened SquaredError
  import opened ThresholdScan

  /** How many of the rows fall into block `b`. */
  ghost function RowsIn(rows: seq<nat>, b: nat, recordsPerBuf: nat): nat
    requires recordsPerBuf > 0
  {
    if rows == [] then 0
    else RowsIn(rows[..|rows| - 1], b, recordsPerBuf) + if rows[|rows| - 1] / recordsPerBuf == b then 1 else 0
  }

  lemma OneMore(count: nat, recordsPerBuf: nat)
    requires recordsPerBuf > 0
    ensures count as real / recordsPerBuf as real + 1.0 / recordsPerBuf as real == (count + 1) as real / recordsPerBuf as real
  {
    var n := recordsPerBuf as real;
    assert (count as real / n + 1.0 / n) * n == count as real + 1.0;
    DivideBack(count as real / n + 1.0 / n, n, count as real + 1.0);
  }

  lemma ShareIsPositive(count: nat, recordsPerBuf: nat)
    requires recordsPerBuf > 0
    ensures count as real / recordsPerBuf as real >= 0.0
    ensures count as real / recordsPerBuf as real == 0.0 <==> count == 0
  {
    QuotientSign(count as real, recordsPerBuf as real);
  }

  /** A block's density is its share of rows; it counts as present once it has a row. */
  ghost predicate BlockOk(rows: seq<nat>, recordsPerBuf: nat, d: Density, present: bool, b: nat)
    requires recordsPerBuf > 0
  {
    && d.freq == RowsIn(rows, b, recordsPerBuf) as real / recordsPerBuf as real
    && (present <==> RowsIn(rows, b, recordsPerBuf) > 0)
    && (present ==> d.idx == b)
  }

  /** A density times the block size is the number of rows in the block. */
  ghost predicate CountsRows(freq: real, rows: seq<nat>, recordsPerBuf: nat, b: nat)
    requires recordsPerBuf > 0
  {
    freq * recordsPerBuf as real == RowsIn(rows, b, recordsPerBuf) as real
  }

  /** A block with one more row. */
  function Counted(d: Density, id: nat, recordsPerBuf: nat): Density
    requires recordsPerBuf > 0
  {
    Density(id, d.freq + 1.0 / recordsPerBuf as real)
  }

  lemma BlockAfterSet(rows: seq<nat>, row: nat, recordsPerBuf: nat, d: Density, present: bool, b: nat)
    requires recordsPerBuf > 0 && BlockOk(rows, recordsPerBuf, d, present, b)
    ensures var id := row / recordsPerBuf;
            BlockOk(rows + [row], recordsPerBuf, if b == id then Counted(d, id, recordsPerBuf) else d, b == id || present, b)
  {
    var more := rows + [row];
    assert more[..|more| - 1] == rows;
    OneMore(RowsIn(rows, b, recordsPerBuf), recordsPerBuf);
  }

  ghost predicate Present(v: seq<Density>, valid: seq<bool>, d: Density, n: nat)
    requires n <= |v| == |valid|
  {
    d.idx < n && valid[d.idx] && v[d.idx] == d
  }

  /** The present blocks among the first `n`, each once. */
  ghost predicate Lists(list: seq<Density>, v: seq<Density>, valid: seq<bool>, n: nat)
    requires n <= |v| == |valid|
  {
    DistinctBlocks(list) && forall d :: d in list <==> Present(v, valid, d, n)
  }

  lemma ListsNext(list: seq<Density>, v: seq<Density>, valid: seq<bool>, n: nat)
    requires n < |v| == |valid| && Lists(list, v, valid, n) && (valid[n] ==> v[n].idx == n)
    ensures Lists(if valid[n] then list + [v[n]] else list, v, valid, n + 1)
  {
    var next := if valid[n] then list + [v[n]] else list;
    forall d ensures d in next <==> Present(v, valid, d, n + 1) {
      assert d in list <==> Present(v, valid, d, n);
    }
    forall i, j | 0 <= i < j < |next| ensures next[i].idx != next[j].idx {
      assert next[i] in list;
      if j == |list| {
        assert Present(v, valid, next[i], n);
      }
    }
  }

  function Freqs(v: seq<Density>): (f: seq<real>)
    ensures |f| == |v| && forall b :: 0 <= b < |v| ==> f[b] == v[b].freq
  {
    seq(|v|, b requires 0 <= b < |v| => v[b].freq)
  }

  function Ids(list: seq<Density>): (ids: seq<nat>)
    ensures |ids| == |list| && forall p :: 0 <= p < |list| ==> ids[p] == list[p].idx
  {
    if list == [] then [] else Ids(list[..|list| - 1]) + [list[|list| - 1].idx]
  }

  class BlockMap {
    const numBlocks: nat
    const recordsPerBuf: nat
    var v: seq<Density>
    var valid: seq<bool>
    var ordered: seq<Density>
    var orderedDone: bool
    ghost var rows: seq<nat>

    ghost predicate Valid()
      reads this
    {
      && recordsPerBuf > 0 && numBlocks < NPOS
      && |v| == |valid| == numBlocks
      && (forall b :: 0 <= b < numBlocks ==> BlockOk(rows, recordsPerBuf, v[b], valid[b], b))
    }

    constructor (numBlocks: nat, recordsPerBuf: nat)
      requires recordsPerBuf > 0 && numBlocks < NPOS
      ensures Valid() && this.numBlocks == numBlocks && this.recordsPerBuf == recordsPerBuf
      ensures rows == [] && ordered == [] && !orderedDone
    {
      this.numBlocks, this.recordsPerBuf := numBlocks, recordsPerBuf;
      v, valid := seq(numBlocks, _ => Density(0, 0.0)), seq(numBlocks, _ => false);
      ordered, orderedDone, rows := [], false, [];
    }

    method Set(row: nat)
      requires Valid() && row / recordsPerBuf < numBlocks
      modifies this`v, this`valid, this`rows
      ensures Valid() && rows == old(rows) + [row]
    {
      var id := row / recordsPerBuf;
      forall b | 0 <= b < numBlocks
        ensures BlockOk(rows + [row], recordsPerBuf, if b == id then Counted(v[b], id, recordsPerBuf) else v[b],
                        b == id || valid[b], b)
      {
        BlockAfterSet(rows, row, recordsPerBuf, v[b], valid[b], b);
      }
      v := v[id := Counted(v[id], id, recordsPerBuf)];
      valid := valid[id := true];
      rows := rows + [row];
    }

    /** Lists the blocks that hold rows, densest first. */
    method PostSet()
      requires Valid() && ordered == []
      modifies this`ordered, this`orderedDone
      ensures Valid() && orderedDone && ByDensity(ordered) && Lists(ordered, v, valid, numBlocks)
      ensures AsBase().Valid(numBlocks)
      ensures forall b :: 0 <= b < numBlocks ==> CountsRows(AsBase().freq[b], rows, recordsPerBuf, b)
    {
      var i := 0;
      while i < numBlocks
        invariant 0 <= i <= numBlocks && Valid()
        invariant Lists(ordered, v, valid, i)
      {
        assert BlockOk(rows, recordsPerBuf, v[i], valid[i], i);
        ListsNext(ordered, v, valid, i);
        if valid[i] {
          ordered := ordered + [v[i]];
        }
        i := i + 1;
      }
      ghost var listed := ordered;
      ordered := SortByDensity(ordered);
      PermutationKeepsMembers(listed, ordered);
      PermutationKeepsDistinct(listed, ordered);
      orderedDone := true;
      BuiltIsValid(v, valid, ordered, rows, recordsPerBuf);
    }

    /** The finished map as the searches use it. */
    function AsBase(): BaseMap
      reads this
    {
      BaseMap(Freqs(v), Ids(ordered))
    }
  }

  /** What the searches require of a base map is what building one establishes, and density
      times block size is the number of rows set in the block. */
  lemma BuiltIsValid(v: seq<Density>, valid: seq<bool>, ordered: seq<Density>, rows: seq<nat>, recordsPerBuf: nat)
    requires recordsPerBuf > 0 && |v| == |valid|
    requires forall b :: 0 <= b < |v| ==> BlockOk(rows, recordsPerBuf, v[b], valid[b], b)
    requires ByDensity(ordered) && Lists(ordered, v, valid, |v|)
    ensures BaseMap(Freqs(v), Ids(ordered)).Valid(|v|)
    ensures forall b :: 0 <= b < |v| ==>
              && CountsRows(Freqs(v)[b], rows, recordsPerBuf, b)
              && (b in Ids(ordered) <==> RowsIn(rows, b, recordsPerBuf) > 0)
  {
    forall b | 0 <= b < |v|
      ensures v[b].freq >= 0.0 && CountsRows(Freqs(v)[b], rows, recordsPerBuf, b)
      ensures b in Ids(ordered) <==> RowsIn(rows, b, recordsPerBuf) > 0
      ensures b !in Ids(ordered) ==> v[b].freq == 0.0
    {
      assert BlockOk(rows, recordsPerBuf, v[b], valid[b], b);
      BlockShare(rows, recordsPerBuf, v[b], valid[b], b);
      ListedIffPresent(v, valid, ordered, b);
    }
    IsBaseMap(v, valid, ordered);
  }

  lemma BlockShare(rows: seq<nat>, recordsPerBuf: nat, d: Density, present: bool, b: nat)
    requires recordsPerBuf > 0 && BlockOk(rows, recordsPerBuf, d, present, b)
    ensures d.freq >= 0.0 && (d.freq == 0.0 <==> !present)
    ensures CountsRows(d.freq, rows, recordsPerBuf, b)
  {
    ShareIsPositive(RowsIn(rows, b, recordsPerBuf), recordsPerBuf);
  }

  lemma IsBaseMap(v: seq<Density>, valid: seq<bool>, ordered: seq<Density>)
    requires |v| == |valid| && ByDensity(ordered) && Lists(ordered, v, valid, |v|)
    requires forall b :: 0 <= b < |v| ==> v[b].freq >= 0.0 && (b !in Ids(ordered) ==> v[b].freq == 0.0)
    ensures BaseMap(Freqs(v), Ids(ordered)).Valid(|v|)
  {
    forall p | 0 <= p < |ordered| ensures ordered[p].idx < |v| && v[ordered[p].idx] == ordered[p] {
      assert Present(v, valid, ordered[p], |v|);
    }
  }

  lemma ListedIffPresent(v: seq<Density>, valid: seq<bool>, ordered: seq<Density>, b: nat)
    requires b < |v| == |valid| && Lists(ordered, v, valid, |v|) && (valid[b] ==> v[b].idx == b)
    ensures b in Ids(ordered) <==> valid[b]
  {
    if valid[b] {
      assert Present(v, valid, v[b], |v|);
      var p :| 0 <= p < |ordered| && ordered[p] == v[b];
      assert Ids(ordered)[p] == b;
    }
    if b in Ids(ordered) {
      var p :| 0 <= p < |ordered| && Ids(ordered)[p] == b;
      assert Present(v, valid, ordered[p], |v|);
    }
  }
}
