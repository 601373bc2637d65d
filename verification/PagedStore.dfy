/** The record file: pages of records with padding, written in batches and read page by page. */
module PagedStore {

  type Byte = x: int | 0 <= x < 256
  type Bytes = seq<Byte>

  function Zeros(n: nat): (z: Bytes)
    ensures |z| == n && forall k :: 0 <= k < n ==> z[k] == 0
  {
    seq(n, _ => 0)
  }

  /** Page size, record size. */
  datatype Format = Format(pageSize: nat, recordSize: nat) {
    predicate Valid() {
      0 < recordSize <= pageSize
    }

    function PerPage(): (n: nat)
      requires Valid()
      ensures n > 0
    {
      PagePositive(pageSize, recordSize);
      pageSize / recordSize
    }

    /** What is left of a page after its records. */
    function Slack(): nat
      requires Valid()
    {
      SlackIs(pageSize, recordSize);
      pageSize - PerPage() * recordSize
    }

    /** The writer pads with whole 4-byte integers. */
    function Padding(): nat
      requires Valid()
    {
      Slack() / 4 * 4
    }
  }

  lemma PagePositive(p: nat, r: nat)
    requires 0 < r <= p
    ensures p / r > 0
  {
    assert p == r * (p / r) + p % r;
  }

  lemma SlackIs(p: nat, r: nat)
    requires 0 < r <= p
    ensures p / r * r <= p && p - p / r * r == p % r
  {
  }

  /** A page takes as many records as fit; what is left over is padded as far as whole 4-byte
      integers go. */
  lemma PageIsFilled(f: Format)
    requires f.Valid()
    ensures f.PerPage() * f.recordSize + f.Slack() == f.pageSize && f.Slack() < f.recordSize
    ensures f.Padding() % 4 == 0 && f.Padding() <= f.Slack() < f.Padding() + 4
  {
    SlackIs(f.pageSize, f.recordSize);
  }

  // ---------- writing ----------

  /** The file for a list of records. */
  ghost function Layout(f: Format, records: seq<Bytes>): Bytes
    requires f.Valid()
  {
    if records == [] then []
    else
      Layout(f, records[..|records| - 1]) + records[|records| - 1]
      + if |records| % f.PerPage() == 0 then Zeros(f.Padding()) else []
  }

  ghost predicate Sized(f: Format, records: seq<Bytes>) {
    forall k :: 0 <= k < |records| ==> |records[k]| == f.recordSize
  }

  class Writer {
    const format: Format
    var file: Bytes
    var pageIdx: nat
    ghost var records: seq<Bytes>

    ghost predicate Valid()
      reads this
    {
      && format.Valid() && Sized(format, records)
      && file == Layout(format, records) && pageIdx == |records| % format.PerPage()
    }

    constructor (format: Format)
      requires format.Valid()
      ensures Valid() && this.format == format && records == []
    {
      this.format, file, pageIdx, records := format, [], 0, [];
    }

    /** Appends a batch; where pages end depends on all records written so far, not on batches. */
    method Write(batch: seq<Bytes>)
      requires Valid() && Sized(format, batch)
      modifies this
      ensures Valid() && records == old(records) + batch
    {
      var buf := [];
      ghost var start, before := file, records;
      var k := 0;
      while k < |batch|
        invariant 0 <= k <= |batch| && file == start
        invariant records == before + batch[..k] && Sized(format, records)
        invariant file + buf == Layout(format, records) && pageIdx == |records| % format.PerPage()
      {
        buf := buf + batch[k];
        NextIndex(|records|, format.PerPage());
        pageIdx := (pageIdx + 1) % format.PerPage();
        ghost var more := records + [batch[k]];
        assert more[..|more| - 1] == records;
        if pageIdx == 0 {
          var padSize := format.Slack();
          var numPads := padSize / 4;
          buf := buf + Zeros(numPads * 4);
        }
        records := more;
        assert batch[..k + 1] == batch[..k] + [batch[k]];
        k := k + 1;
      }
      file := file + buf;
      assert batch[..|batch|] == batch;
    }
  }

  lemma NextIndex(n: nat, p: nat)
    requires p > 0
    ensures (n % p + 1) % p == (n + 1) % p
  {
    Successor(n, p);
    if n % p + 1 < p {
      ModUnique(n % p + 1, p, 0, n % p + 1);
    } else {
      ModUnique(p, p, 1, 0);
    }
  }

  lemma Successor(n: nat, p: nat)
    requires p > 0
    ensures n % p < p
    ensures (n + 1) / p == n / p + (if n % p + 1 == p then 1 else 0)
    ensures (n + 1) % p == if n % p + 1 == p then 0 else n % p + 1
  {
    var q, r := SplitBy(n, p);
    if r + 1 == p {
      StepOver(n, p, q, r);
      ModUnique(n + 1, p, q + 1, 0);
    } else {
      ModUnique(n + 1, p, q, r + 1);
    }
  }

  lemma SplitBy(n: nat, p: nat) returns (q: nat, r: nat)
    requires p > 0
    ensures q == n / p && r == n % p && r < p && n == p * q + r
  {
    q, r := n / p, n % p;
  }

  lemma StepOver(n: nat, p: nat, q: nat, r: nat)
    requires n == p * q + r && r + 1 == p
    ensures n + 1 == p * (q + 1) + 0
  {
  }

  lemma ModUnique(n: nat, p: nat, q: nat, r: nat)
    requires p > 0 && n == p * q + r && r < p
    ensures n / p == q && n % p == r
  {
    SplitUnique(p, q, r, n / p, n % p);
  }

  lemma SplitUnique(p: nat, q: nat, r: nat, j: nat, m: nat)
    requires r < p && m < p && p * q + r == p * j + m
    ensures q == j && r == m
  {
    if j > q {
      Times(p, q + 1, j);
    } else if j < q {
      Times(p, j + 1, q);
    }
  }

  lemma Times(p: nat, a: nat, b: nat)
    requires a <= b
    ensures p * a <= p * b
    ensures a > 0 ==> p * a == p * (a - 1) + p
  {
    assert p * b == p * a + p * (b - a);
  }

  lemma ModOfMultiple(q: nat, p: nat)
    requires p > 0
    ensures (p * q) % p == 0 && (p * q) / p == q
  {
    ModUnique(p * q, p, q, 0);
  }

  /** Where record `r` starts in the file. */
  ghost function Offset(f: Format, r: nat): nat
    requires f.Valid()
  {
    r * f.recordSize + r / f.PerPage() * f.Padding()
  }

  lemma NextPage(n: nat, p: nat)
    requires p > 0
    ensures (n + 1) / p == n / p + if (n + 1) % p == 0 then 1 else 0
  {
    Successor(n, p);
  }

  lemma NextOffset(f: Format, n: nat)
    requires f.Valid()
    ensures Offset(f, n + 1) == Offset(f, n) + f.recordSize + if (n + 1) % f.PerPage() == 0 then f.Padding() else 0
  {
    NextPage(n, f.PerPage());
    Distribute(n, 1, f.recordSize);
    Distribute(n / f.PerPage(), 1, f.Padding());
  }

  lemma Distribute(a: nat, b: nat, c: nat)
    ensures (a + b) * c == a * c + b * c
  {
  }

  /** Every record stands at its offset. */
  lemma {:induction false} RecordsAreLaidOut(f: Format, records: seq<Bytes>, r: nat)
    requires f.Valid() && Sized(f, records)
    ensures |Layout(f, records)| == Offset(f, |records|)
    ensures r < |records| ==>
              && Offset(f, r) + f.recordSize <= |Layout(f, records)|
              && Layout(f, records)[Offset(f, r)..Offset(f, r) + f.recordSize] == records[r]
  {
    if records == [] {
      assert Offset(f, 0) == 0;
    } else {
      var p, n := records[..|records| - 1], |records| - 1;
      RecordsAreLaidOut(f, p, r);
      NextOffset(f, n);
      if r < n {
        assert p[r] == records[r];
        Prefixed(Layout(f, p), Layout(f, records), Offset(f, r), f.recordSize);
      }
    }
  }

  lemma Prefixed(a: Bytes, b: Bytes, at: nat, n: nat)
    requires a <= b && at + n <= |a|
    ensures b[at..at + n] == a[at..at + n]
  {
  }

  // ---------- reading ----------

  /** Where the reader looks for record `r`. */
  ghost function Slot(f: Format, r: nat): nat
    requires f.Valid()
  {
    r / f.PerPage() * f.pageSize + r % f.PerPage() * f.recordSize
  }

  /** What the reader finds there is the given record. */
  ghost predicate ReadsBack(f: Format, file: Bytes, r: nat, record: Bytes)
    requires f.Valid()
  {
    Slot(f, r) + f.recordSize <= |file| && file[Slot(f, r)..Slot(f, r) + f.recordSize] == record
  }

  lemma SlotInPage(f: Format, r: nat)
    requires f.Valid()
    ensures r % f.PerPage() * f.recordSize + f.recordSize <= f.PerPage() * f.recordSize <= f.pageSize
  {
    Distribute(r % f.PerPage(), 1, f.recordSize);
    Scale(r % f.PerPage() + 1, f.PerPage(), f.recordSize);
    SlackIs(f.pageSize, f.recordSize);
  }

  lemma Scale(a: nat, b: nat, c: nat)
    requires a <= b
    ensures a * c <= b * c
  {
  }

  class Reader {
    const format: Format
    const file: Bytes
    var buf: Bytes
    var bufIdx: int
    var position: nat
    var blockFetchCount: nat

    /** The file position follows the buffered page, unless no page is buffered. */
    ghost predicate Valid()
      reads this
    {
      && format.Valid() && |buf| == format.pageSize
      && (bufIdx != -2 ==> bufIdx >= 0 && Buffered(format, file, buf, bufIdx, position))
    }

    constructor (format: Format, file: Bytes)
      requires format.Valid()
      ensures Valid() && this.format == format && this.file == file && bufIdx == -2 && blockFetchCount == 0
    {
      this.format, this.file := format, file;
      buf, bufIdx, position, blockFetchCount := Zeros(format.pageSize), -2, 0, 0;
    }

    /** Forgets the buffered page; the file position stays where it is. */
    method Clear()
      requires Valid()
      modifies this
      ensures Valid() && bufIdx == -2 && blockFetchCount == 0
    {
      bufIdx, blockFetchCount := -2, 0;
    }

    /** Reads from the current position; a short read leaves the rest of the buffer as it was. */
    method ReadPage()
      requires format.Valid() && |buf| == format.pageSize && position <= |file|
      modifies this`buf, this`position
      ensures |buf| == format.pageSize
      ensures var n := if |file| - old(position) < format.pageSize then |file| - old(position) else format.pageSize;
              position == old(position) + n && buf[..n] == file[old(position)..position]
    {
      var n := if |file| - position < format.pageSize then |file| - position else format.pageSize;
      buf := file[position..position + n] + buf[n..];
      position := position + n;
    }

    /** The record with the given number. The seek is left out when the page is the next one. */
    method GetRecord(recordIdx: nat) returns (record: Bytes)
      requires Valid() && Slot(format, recordIdx) + format.recordSize <= |file|
      modifies this
      ensures Valid() && bufIdx == recordIdx / format.PerPage()
      ensures record == file[Slot(format, recordIdx)..Slot(format, recordIdx) + format.recordSize]
      ensures blockFetchCount == old(blockFetchCount) + if old(bufIdx) == bufIdx then 0 else 1
    {
      var recordsPerBuf := format.PerPage();
      var newIdx := recordIdx / recordsPerBuf;
      SlotInPage(format, recordIdx);
      if newIdx != bufIdx {
        FetchPage(newIdx);
        blockFetchCount := blockFetchCount + 1;
      }
      var at := recordIdx % recordsPerBuf * format.recordSize;
      InBuffer(format, file, buf, bufIdx, position, at);
      record := buf[at..at + format.recordSize];
    }

    /** Brings a page into the buffer. */
    method FetchPage(newIdx: nat)
      requires Valid() && newIdx * format.pageSize < |file|
      modifies this`buf, this`bufIdx, this`position
      ensures Valid() && bufIdx == newIdx
    {
      if newIdx != bufIdx + 1 {
        position := newIdx * format.pageSize;
      } else {
        AtNextPage(format, file, buf, bufIdx, position, newIdx);
      }
      ghost var start := position;
      ReadPage();
      bufIdx := newIdx;
      IsBuffered(format, file, buf, newIdx, start, position);
    }
  }

  /** The buffer holds page `p` as far as the file goes, and the position is behind it. */
  ghost predicate Buffered(f: Format, file: Bytes, buf: Bytes, p: nat, position: nat)
    requires f.Valid() && |buf| == f.pageSize
  {
    var start := p * f.pageSize;
    && start <= position <= |file| && position - start <= f.pageSize
    && (position - start == f.pageSize || position == |file|)
    && buf[..position - start] == file[start..position]
  }

  lemma IsBuffered(f: Format, file: Bytes, buf: Bytes, p: nat, start: nat, position: nat)
    requires f.Valid() && |buf| == f.pageSize && start == p * f.pageSize && start <= |file|
    requires position == start + if |file| - start < f.pageSize then |file| - start else f.pageSize
    requires buf[..position - start] == file[start..position]
    ensures Buffered(f, file, buf, p, position)
  {
  }

  lemma AtNextPage(f: Format, file: Bytes, buf: Bytes, p: nat, position: nat, next: nat)
    requires f.Valid() && |buf| == f.pageSize && Buffered(f, file, buf, p, position) && next == p + 1
    requires next * f.pageSize < |file|
    ensures position == next * f.pageSize
  {
    Distribute(p, 1, f.pageSize);
  }

  lemma InBuffer(f: Format, file: Bytes, buf: Bytes, p: nat, position: nat, at: nat)
    requires f.Valid() && |buf| == f.pageSize && Buffered(f, file, buf, p, position)
    requires at + f.recordSize <= f.pageSize && p * f.pageSize + at + f.recordSize <= |file|
    ensures buf[at..at + f.recordSize] == file[p * f.pageSize + at..p * f.pageSize + at + f.recordSize]
  {
    var start := p * f.pageSize;
    var n := position - start;
    assert at + f.recordSize <= n;
    assert buf[at..at + f.recordSize] == buf[..n][at..at + f.recordSize];
    SliceOfSlice(file, start, position, at, f.recordSize);
  }

  lemma SliceOfSlice(b: Bytes, lo: nat, hi: nat, at: nat, n: nat)
    requires lo <= hi <= |b| && at + n <= hi - lo
    ensures b[lo..hi][at..at + n] == b[lo + at..lo + at + n]
  {
    var s, t := b[lo..hi][at..at + n], b[lo + at..lo + at + n];
    assert |s| == |t| && forall k :: 0 <= k < n ==> s[k] == t[k];
  }

  // ---------- the round trip ----------

  /** Slots and offsets differ by what the padding falls short of on the pages before. */
  lemma SlotIsOffset(f: Format, r: nat)
    requires f.Valid()
    ensures Slot(f, r) == Offset(f, r) + r / f.PerPage() * (f.Slack() - f.Padding())
  {
    var q, m := r / f.PerPage(), r % f.PerPage();
    var n, s, c, d := f.PerPage(), f.recordSize, f.Slack(), f.Padding();
    assert r == q * n + m;
    calc {
      Slot(f, r);
      q * (n * s + c) + m * s;
      q * (n * s) + q * c + m * s;
      { Associate(q, n, s); Distribute(q * n, m, s); }
      (q * n + m) * s + q * c;
      r * s + q * d + q * (c - d);
    }
  }

  lemma Associate(a: nat, b: nat, c: nat)
    ensures a * (b * c) == (a * b) * c
  {
  }

  /** With padding that fills the page, any record of any store reads back. */
  lemma FullPaddingReadsBack(f: Format, records: seq<Bytes>, r: nat)
    requires f.Valid() && Sized(f, records) && r < |records| && f.Slack() % 4 == 0
    ensures ReadsBack(f, Layout(f, records), r, records[r])
  {
    RecordsAreLaidOut(f, records, r);
    WholePadding(f, r);
  }

  lemma WholePadding(f: Format, r: nat)
    requires f.Valid() && f.Slack() % 4 == 0
    ensures Slot(f, r) == Offset(f, r)
  {
    SlotIsOffset(f, r);
    assert f.Padding() == f.Slack();
  }

  ghost predicate AlwaysReadsBack(f: Format)
    requires f.Valid()
  {
    forall records: seq<Bytes>, r: nat :: Sized(f, records) && r < |records| ==> ReadsBack(f, Layout(f, records), r, records[r])
  }

  /** A record that starts with one and holds zeros otherwise. */
  function Marker(n: nat): (m: Bytes)
    requires n > 0
    ensures |m| == n && m[0] == 1 && forall k :: 0 < k < n ==> m[k] == 0
  {
    seq(n, k => if k == 0 then 1 else 0)
  }

  function Copies(m: Bytes, n: nat): (s: seq<Bytes>)
    ensures |s| == n && forall k :: 0 <= k < n ==> s[k] == m
  {
    seq(n, _ => m)
  }

  /** The first record of the second page is looked for behind its start. */
  lemma ShortPaddingShifts(f: Format)
    requires f.Valid() && f.recordSize > 3 && f.Slack() % 4 != 0
    ensures !AlwaysReadsBack(f)
  {
    var r := f.PerPage();
    var records := Copies(Marker(f.recordSize), r + 1);
    RecordsAreLaidOut(f, records, r);
    FirstOfSecondPage(f);
    var file, at, d := Layout(f, records), Offset(f, r), f.Slack() - f.Padding();
    if Slot(f, r) + f.recordSize <= |file| {
      ShiftedMarker(file, at, f.recordSize, d);
    }
    assert !ReadsBack(f, file, r, records[r]);
  }

  lemma ShiftedMarker(file: Bytes, at: nat, n: nat, d: nat)
    requires 0 < d < n && at + d + n <= |file| && file[at..at + n] == Marker(n)
    ensures file[at + d..at + d + n] != Marker(n)
  {
    assert file[at + d..at + d + n][0] == file[at..at + n][d];
  }

  lemma FirstOfSecondPage(f: Format)
    requires f.Valid() && f.Slack() % 4 != 0
    ensures 0 < f.Slack() - f.Padding() < 4
    ensures Slot(f, f.PerPage()) == Offset(f, f.PerPage()) + (f.Slack() - f.Padding())
  {
    ModOfMultiple(1, f.PerPage());
    SlotIsOffset(f, f.PerPage());
  }

  /** The writer's files read back for all stores exactly when the slack of a page is a whole
      number of 4-byte integers. */
  lemma ReadsBackIffWholePadding(f: Format)
    requires f.Valid() && f.recordSize > 3
    ensures AlwaysReadsBack(f) <==> f.Slack() % 4 == 0
  {
    if f.Slack() % 4 == 0 {
      forall records: seq<Bytes>, r: nat | Sized(f, records) && r < |records|
        ensures ReadsBack(f, Layout(f, records), r, records[r])
      {
        FullPaddingReadsBack(f, records, r);
      }
    } else {
      ShortPaddingShifts(f);
    }
  }

  datatype Request = Fetch(r: nat) | Forget

  method WriteAll(f: Format, batches: seq<seq<Bytes>>) returns (w: Writer)
    requires f.Valid() && forall b :: 0 <= b < |batches| ==> Sized(f, batches[b])
    ensures w.Valid() && w.format == f && w.records == Joined(batches)
  {
    w := new Writer(f);
    var b := 0;
    while b < |batches|
      invariant 0 <= b <= |batches| && w.Valid() && w.format == f && fresh(w)
      invariant w.records == Joined(batches[..b])
    {
      w.Write(batches[b]);
      assert batches[..b + 1][..b] == batches[..b];
      b := b + 1;
    }
    assert batches[..|batches|] == batches;
  }

  method Answer(reader: Reader, request: Request, ghost records: seq<Bytes>) returns (answer: Bytes)
    requires reader.Valid() && reader.format.Slack() % 4 == 0 && Sized(reader.format, records)
    requires reader.file == Layout(reader.format, records) && (request.Fetch? ==> request.r < |records|)
    modifies reader
    ensures reader.Valid()
    ensures request.Fetch? ==> answer == records[request.r]
  {
    match request {
      case Fetch(r) =>
        FullPaddingReadsBack(reader.format, records, r);
        answer := reader.GetRecord(r);
      case Forget =>
        reader.Clear();
        answer := [];
    }
  }

  /** Whatever the batches written and whatever the requests before, a request for record r
      returns the r-th record written. */
  method RoundTrip(f: Format, batches: seq<seq<Bytes>>, requests: seq<Request>) returns (answers: seq<Bytes>)
    requires f.Valid() && f.Slack() % 4 == 0 && forall b :: 0 <= b < |batches| ==> Sized(f, batches[b])
    requires forall q :: 0 <= q < |requests| && requests[q].Fetch? ==> requests[q].r < |Joined(batches)|
    ensures |answers| == |requests|
    ensures forall q :: 0 <= q < |requests| && requests[q].Fetch? ==> answers[q] == Joined(batches)[requests[q].r]
  {
    var w := WriteAll(f, batches);
    ghost var records := w.records;
    var reader := new Reader(f, w.file);
    answers := [];
    while |answers| < |requests|
      invariant |answers| <= |requests| && reader.Valid() && fresh(reader)
      invariant reader.format == f && reader.file == Layout(f, records)
      invariant forall k :: 0 <= k < |answers| && requests[k].Fetch? ==> answers[k] == records[requests[k].r]
    {
      var answer := Answer(reader, requests[|answers|], records);
      answers := answers + [answer];
    }
  }

  ghost function Joined(batches: seq<seq<Bytes>>): seq<Bytes> {
    if batches == [] then [] else Joined(batches[..|batches| - 1]) + batches[|batches| - 1]
  }
}
