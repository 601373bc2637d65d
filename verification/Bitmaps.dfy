/** Flat bitmaps over rows and the samplers that walk their set bits. */
module Bitmaps {
  import opened Densities

  type Bits = seq<bool>

  /** The set positions among the first `n`, in order. */
  ghost function Ones(b: Bits, n: nat): (m: seq<nat>)
    requires n <= |b|
    ensures forall k :: 0 <= k < |m| ==> m[k] < n && b[m[k]]
  {
    if n == 0 then [] else Ones(b, n - 1) + if b[n - 1] then [n - 1] else []
  }

  /** The first set position from `i` on. */
  function FindFrom(b: Bits, i: nat): nat
    decreases |b| - i
  {
    if i >= |b| then NPOS else if b[i] then i else FindFrom(b, i + 1)
  }

  lemma {:induction false} OnesGrow(b: Bits, i: nat, n: nat)
    requires i <= n <= |b|
    ensures |Ones(b, i)| <= |Ones(b, n)| && Ones(b, n)[..|Ones(b, i)|] == Ones(b, i)
    ensures n > i && b[i] ==> |Ones(b, i)| < |Ones(b, n)| && Ones(b, n)[|Ones(b, i)|] == i
    decreases n
  {
    if i < n {
      OnesGrow(b, i, n - 1);
    }
  }

  /** Searching from `i` finds the next of the set positions, or none when all lie below `i`. */
  lemma {:induction false} FindFromIsNext(b: Bits, i: nat)
    requires i <= |b|
    ensures |Ones(b, i)| <= |Ones(b, |b|)|
    ensures FindFrom(b, i) == if |Ones(b, i)| < |Ones(b, |b|)| then Ones(b, |b|)[|Ones(b, i)|] else NPOS
    decreases |b| - i
  {
    OnesGrow(b, i, |b|);
    if i < |b| {
      if !b[i] {
        FindFromIsNext(b, i + 1);
        assert Ones(b, i + 1) == Ones(b, i);
      }
    }
  }

  /** After the k-th set position there are k + 1 set positions behind the search. */
  lemma {:induction false} RankOfOne(b: Bits, n: nat, k: nat)
    requires n <= |b| && k < |Ones(b, n)|
    ensures Ones(b, n)[k] < n && |Ones(b, Ones(b, n)[k] + 1)| == k + 1
    decreases n
  {
    if k < |Ones(b, n - 1)| {
      RankOfOne(b, n - 1, k);
      assert Ones(b, n)[k] == Ones(b, n - 1)[k];
    }
  }

  function AllBits(n: nat, on: bool): (b: Bits)
    ensures |b| == n && forall r :: 0 <= r < n ==> b[r] == on
  {
    seq(n, _ => on)
  }

  function And(a: Bits, b: Bits): (c: Bits)
    requires |a| == |b|
    ensures |c| == |a| && forall r :: 0 <= r < |a| ==> c[r] == (a[r] && b[r])
  {
    seq(|a|, r requires 0 <= r < |a| => a[r] && b[r])
  }

  function Or(a: Bits, b: Bits): (c: Bits)
    requires |a| == |b|
    ensures |c| == |a| && forall r :: 0 <= r < |a| ==> c[r] == (a[r] || b[r])
  {
    seq(|a|, r requires 0 <= r < |a| => a[r] || b[r])
  }

  /** One bit for each row, or one for each page of records. */
  datatype Kind = Single | Lossy(recordsPerBuf: nat) {
    predicate Valid() {
      Lossy? ==> recordsPerBuf > 0
    }

    /** The bit a row belongs to. */
    function UnitOf(row: nat): nat
      requires Valid()
    {
      if Single? then row else row / recordsPerBuf
    }

    function Units(numRecords: nat): nat
      requires Valid()
    {
      if Single? then numRecords else numRecords / recordsPerBuf + 1
    }

    /** The first row a bit stands for. */
    function FirstRow(unit: nat): nat {
      if Single? then unit else unit * recordsPerBuf
    }

    lemma UnitInRange(row: nat, numRecords: nat)
      requires Valid() && row < numRecords
      ensures UnitOf(row) < Units(numRecords)
    {
      if Lossy? {
        PageInRange(row, numRecords, recordsPerBuf);
      }
    }
  }

  lemma PageInRange(row: nat, n: nat, k: nat)
    requires row <= n && k > 0
    ensures row / k <= n / k
  {
    assert row == k * (row / k) + row % k;
    assert n == k * (n / k) + n % k;
    FactorOrder(k, row / k, n / k);
  }

  lemma FactorOrder(k: nat, a: nat, b: nat)
    requires k > 0 && k * a < k * b + k
    ensures a <= b
  {
    if a >= b + 1 {
      FactorMonotone(k, b + 1, a);
    }
  }

  lemma FactorMonotone(k: nat, a: nat, b: nat)
    requires 0 < a <= b
    ensures k * a <= k * b && k * a == k * (a - 1) + k
  {
    assert k * b == k * a + k * (b - a);
  }

  /** A flat bitmap, exact or by page, and the position sampled last. */
  class FlatMap {
    const kind: Kind
    var b: Bits
    var lastSampled: nat

    constructor (kind: Kind, numRecords: nat, on: bool)
      requires kind.Valid()
      ensures this.kind == kind && |b| == kind.Units(numRecords) && lastSampled == NPOS
      ensures forall u :: 0 <= u < |b| ==> b[u] == on
    {
      this.kind, b, lastSampled := kind, AllBits(kind.Units(numRecords), on), NPOS;
    }

    method AndCombine(m: Bits)
      requires |m| == |b|
      modifies this`b
      ensures |b| == |m| && forall u :: 0 <= u < |b| ==> b[u] == (old(b)[u] && m[u])
    {
      b := And(b, m);
    }

    method OrCombine(m: Bits)
      requires |m| == |b|
      modifies this`b
      ensures |b| == |m| && forall u :: 0 <= u < |b| ==> b[u] == (old(b)[u] || m[u])
    {
      b := Or(b, m);
    }

    /** The sampler has delivered the first `k` set positions. */
    ghost predicate Delivered(k: nat)
      reads this
    {
      && |b| < NPOS && k <= |Ones(b, |b|)|
      && lastSampled == if k == 0 then NPOS else Ones(b, |b|)[k - 1]
    }

    /** The next set position; after the last one it reports none and starts over. A page is
        reported by its first row. */
    method SequentialSample(ghost k: nat) returns (row: nat)
      requires Delivered(k)
      modifies this`lastSampled
      ensures k < |Ones(b, |b|)| ==> row == kind.FirstRow(Ones(b, |b|)[k]) && Delivered(k + 1)
      ensures k == |Ones(b, |b|)| ==> lastSampled == NPOS && Delivered(0)
    {
      Advance(k);
      row := kind.FirstRow(lastSampled);
    }

    /** After a query the next one starts over. */
    method Clear()
      requires kind.Valid() && |b| < NPOS
      modifies this`lastSampled
      ensures lastSampled == NPOS && Delivered(0)
    {
      lastSampled := NPOS;
    }

    method Advance(ghost k: nat)
      requires Delivered(k)
      modifies this`lastSampled
      ensures k < |Ones(b, |b|)| ==> lastSampled == Ones(b, |b|)[k] && Delivered(k + 1)
      ensures k == |Ones(b, |b|)| ==> lastSampled == NPOS && Delivered(0)
    {
      if lastSampled != NPOS {
        RankOfOne(b, |b|, k - 1);
        FindFromIsNext(b, lastSampled + 1);
        lastSampled := FindFrom(b, lastSampled + 1);
      } else {
        assert k == 0;
        FindFromIsNext(b, 0);
        lastSampled := FindFrom(b, 0);
      }
    }
  }
}
