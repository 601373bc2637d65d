/** Compressed bitmaps that are combined when the first sample is drawn, and sampling sessions
    over a cached one. */
module Ewah {
  import opened Bitmaps
  import opened Query
  import opened Records
  import opened Results
  import opened Samples
  import opened SquaredError
  import opened SwiftIndexes

  /** All set positions in order. */
  method ToArray(b: Bits) returns (a: seq<nat>)
    ensures a == Ones(b, |b|)
  {
    a := [];
    for i := 0 to |b|
      invariant a == Ones(b, i)
    {
      if b[i] {
        a := a + [i];
      }
    }
  }

  /** Children are kept aside; of a child only its own bits are ever read. */
  class EwahMap {
    var b: Bits
    var andMaps: seq<Bits>
    var orMaps: seq<Bits>
    var samples: seq<nat>
    var sampledSoFar: nat
    var isSamplesEmpty: bool

    constructor (numRecords: nat, on: bool)
      ensures |b| == numRecords && (forall r :: 0 <= r < numRecords ==> b[r] == on)
      ensures andMaps == [] && orMaps == [] && samples == [] && sampledSoFar == 0 && !isSamplesEmpty
    {
      b := AllBits(numRecords, on);
      andMaps, orMaps, samples, sampledSoFar, isSamplesEmpty := [], [], [], 0, false;
    }

    ghost predicate Valid()
      reads this
    {
      && (andMaps == [] || orMaps == [])
      && (forall i :: 0 <= i < |andMaps| ==> |andMaps[i]| == |b|)
      && (forall i :: 0 <= i < |orMaps| ==> |orMaps[i]| == |b|)
    }

    method AndCombine(m: Bits)
      requires Valid() && |m| == |b| && orMaps == []
      modifies this`andMaps
      ensures Valid() && andMaps == old(andMaps) + [m]
    {
      andMaps := andMaps + [m];
    }

    method OrCombine(m: Bits)
      requires Valid() && |m| == |b| && andMaps == []
      modifies this`orMaps
      ensures Valid() && orMaps == old(orMaps) + [m]
    {
      orMaps := orMaps + [m];
    }

    /** The bits after the children are combined: AND starts from the own bits, OR ignores them. */
    ghost function Combined(r: nat): bool
      requires Valid() && r < |b|
      reads this
    {
      if andMaps != [] then b[r] && forall i :: 0 <= i < |andMaps| ==> andMaps[i][r]
      else if orMaps != [] then exists i :: 0 <= i < |orMaps| && orMaps[i][r]
      else b[r]
    }

    method Combine()
      requires Valid()
      modifies this`b
      ensures |b| == |old(b)| && forall r :: 0 <= r < |b| ==> b[r] == old(Combined(r))
    {
      if |andMaps| > 0 {
        var i := 0;
        while i < |andMaps|
          invariant 0 <= i <= |andMaps| && |b| == |old(b)|
          invariant forall r :: 0 <= r < |b| ==> (b[r] <==> old(b)[r] && forall j :: 0 <= j < i ==> andMaps[j][r])
        {
          b := And(b, andMaps[i]);
          i := i + 1;
        }
      } else if |orMaps| > 0 {
        b := AllBits(|b|, false);
        var i := 0;
        while i < |orMaps|
          invariant 0 <= i <= |orMaps| && |b| == |old(b)|
          invariant forall r :: 0 <= r < |b| ==> (b[r] <==> exists j :: 0 <= j < i && orMaps[j][r])
        {
          b := Or(b, orMaps[i]);
          i := i + 1;
        }
      }
    }

    /** The map has delivered the first `sampledSoFar` of its rows; at the start they are still
        to be listed. */
    ghost predicate Delivering(ones: seq<nat>)
      reads this
    {
      && Valid() && sampledSoFar <= |ones|
      && (if sampledSoFar == 0 then exists c: Bits :: WillBe(c) && ones == Ones(c, |c|) else samples == ones)
    }

    ghost predicate WillBe(c: Bits)
      reads this
    {
      Valid() && |c| == |b| && forall r :: 0 <= r < |c| ==> c[r] == Combined(r)
    }

    /** Combines the children and lists the rows. */
    method Prepare(ghost ones: seq<nat>)
      requires Delivering(ones) && sampledSoFar == 0
      modifies this`b, this`samples
      ensures Delivering(ones) && samples == ones
    {
      ghost var c: Bits :| WillBe(c) && ones == Ones(c, |c|);
      Combine();
      assert b == c;
      samples := ToArray(b);
      assert WillBe(c);
    }

    /** The next row; at the start the children are combined and the rows listed. Past the last
        row the source reads beyond its list, so a caller must not ask for more. */
    method SequentialSample(ghost ones: seq<nat>) returns (row: nat)
      requires Delivering(ones) && (ones != [] ==> sampledSoFar < |ones|)
      modifies this`b, this`samples, this`sampledSoFar, this`isSamplesEmpty
      ensures isSamplesEmpty <==> ones == []
      ensures ones == [] ==> Delivering(ones) && sampledSoFar == 0
      ensures ones != [] ==> Delivering(ones) && sampledSoFar == old(sampledSoFar) + 1 && row == ones[old(sampledSoFar)]
    {
      if sampledSoFar == 0 {
        Prepare(ones);
      }
      if |samples| == 0 {
        isSamplesEmpty := true;
        return 0;
      }
      isSamplesEmpty := false;
      row := samples[sampledSoFar];
      sampledSoFar := sampledSoFar + 1;
    }
  }

  // ---------- what such a map answers ----------

  /** The query with every operator child replaced by its neutral element. */
  function Raw(node: Node): Node {
    match node
    case Singleton(_, _) => node
    case Operator(isAnd, children) => Operator(isAnd, RawChildren(children))
  }

  function RawChildren(children: seq<Node>): (raw: seq<Node>)
    ensures |raw| == |children|
    ensures forall i :: 0 <= i < |children| ==>
              raw[i] == if children[i].Singleton? then children[i] else Operator(children[i].isAnd, [])
  {
    if children == [] then []
    else
      var last := children[|children| - 1];
      RawChildren(children[..|children| - 1]) + [if last.Singleton? then last else Operator(last.isAnd, [])]
  }

  /** Operators do not nest. */
  predicate DepthOne(node: Node) {
    node.Operator? ==> forall i :: 0 <= i < |node.children| ==> node.children[i].Singleton?
  }

  lemma DepthOneIsRaw(node: Node)
    requires DepthOne(node)
    ensures Raw(node) == node
    ensures forall rows :: RightOn(node, rows)
  {
    if node.Operator? {
      assert RawChildren(node.children) == node.children;
    }
  }

  /** Some operator below the root is of the other kind, so its neutral element settles the root. */
  predicate MixesOperators(root: Node)
    requires root.Operator?
  {
    exists i :: 0 <= i < |root.children| && root.children[i].Operator? && root.children[i].isAnd != root.isAnd
  }

  /** What the constants directly below the root decide. */
  predicate ConstantsDecide(root: Node, row: Row)
    requires root.Operator?
  {
    if root.isAnd then forall i :: 0 <= i < |root.children| && root.children[i].Singleton? ==> Accepts(root.children[i], row)
    else exists i :: 0 <= i < |root.children| && root.children[i].Singleton? && Accepts(root.children[i], row)
  }

  /** The operators below the root change nothing: an AND adds no condition, an OR no row. */
  predicate NestedAddNothing(root: Node, row: Row)
    requires root.Operator?
  {
    ConstantsDecide(root, row) == root.isAnd ==>
      forall i :: 0 <= i < |root.children| && root.children[i].Operator? ==> Accepts(root.children[i], row) == root.isAnd
  }

  /** What the map of any query with an operator really answers. */
  lemma RawAnswer(root: Node, row: Row)
    requires root.Operator?
    ensures Accepts(Raw(root), row) == if MixesOperators(root) then !root.isAnd else ConstantsDecide(root, row)
  {
    var raw := Raw(root);
    if MixesOperators(root) {
      var i :| 0 <= i < |root.children| && root.children[i].Operator? && root.children[i].isAnd != root.isAnd;
      assert raw.children[i] == Operator(!root.isAnd, []);
      assert Accepts(raw.children[i], row) == !root.isAnd;
    } else {
      forall i | 0 <= i < |root.children|
        ensures Accepts(raw.children[i], row)
             == if root.children[i].Singleton? then Accepts(root.children[i], row) else root.isAnd
      {
      }
    }
  }

  /** When the map answers for every row what the query means. */
  predicate RightOn(root: Node, rows: seq<Row>) {
    root.Operator? ==>
      if MixesOperators(root) then forall r :: 0 <= r < |rows| ==> Accepts(root, rows[r]) == !root.isAnd
      else forall r :: 0 <= r < |rows| ==> NestedAddNothing(root, rows[r])
  }

  lemma RowIsRightIff(root: Node, row: Row)
    requires root.Operator? && !MixesOperators(root)
    ensures ConstantsDecide(root, row) == Accepts(root, row) <==> NestedAddNothing(root, row)
  {
  }

  /** A compressed map delivers the matches of its query exactly when operators of both kinds meet
      below the root and every row has the answer forced by that, or when the operators below the
      root add nothing to its constants. */
  lemma DeliversMatchesIff(root: Node, rows: seq<Row>)
    ensures Matches(Raw(root), rows, |rows|) == Matches(root, rows, |rows|) <==> RightOn(root, rows)
  {
    SameMatchesIff(Raw(root), root, rows, |rows|);
    if root.Operator? {
      forall r | 0 <= r < |rows|
        ensures Accepts(Raw(root), rows[r]) == Accepts(root, rows[r]) <==>
                if MixesOperators(root) then Accepts(root, rows[r]) == !root.isAnd else NestedAddNothing(root, rows[r])
      {
        RawAnswer(root, rows[r]);
        if !MixesOperators(root) {
          RowIsRightIff(root, rows[r]);
        }
      }
    }
  }

  /** Two queries have the same matches exactly when they agree on every row. */
  lemma {:induction false} SameMatchesIff(a: Node, b: Node, rows: seq<Row>, n: nat)
    requires n <= |rows|
    ensures Matches(a, rows, n) == Matches(b, rows, n) <==>
            forall r :: 0 <= r < n ==> Accepts(a, rows[r]) == Accepts(b, rows[r])
  {
    MatchesAre(a, rows, n);
    MatchesAre(b, rows, n);
    if Matches(a, rows, n) == Matches(b, rows, n) {
      forall r | 0 <= r < n ensures Accepts(a, rows[r]) == Accepts(b, rows[r]) {
        InMatches(a, rows, n, r);
        InMatches(b, rows, n, r);
      }
    } else if n > 0 {
      SameMatchesIff(a, b, rows, n - 1);
    }
  }

  /** Builds the map of a query the way the index does: an operator child becomes a map of its
      own, whose children are never consulted. */
  method BuildEwah(index: SwiftIndex, root: Node) returns (m: Option<EwahMap>)
    requires index.Built() && index.kind.Single? && Queryable(root, index.attrs) && AllDiscrete(root, index.attrs)
    ensures m.Some? <==> Held(root, index.attrs, index.rows)
    ensures m.Some? ==> fresh(m.value) && m.value.sampledSoFar == 0
                        && m.value.Delivering(Matches(Raw(root), index.rows, |index.rows|))
    decreases index, root, 1
  {
    var rows := index.rows;
    var e := new EwahMap(|rows|, root.Operator? && root.isAnd);
    if root.Singleton? {
      var bits := index.Lookup(root.attr, root.val);
      if bits.None? {
        return None;
      }
      e.b := bits.value;
      LeafAnswers(index.attrs, rows, root, bits.value);
      assert e.WillBe(bits.value);
      return Some(e);
    }
    var ok := AttachChildren(index, root, e);
    if !ok {
      return None;
    }
    ghost var c := RootBits(Raw(root), rows);
    forall r | 0 <= r < |rows| ensures c[r] == e.Combined(r) {
      RawJoins(root, rows, r, if root.isAnd then e.andMaps else e.orMaps);
    }
    assert e.WillBe(c);
    OnesAreMatches(c, Raw(root), rows, |rows|);
    m := Some(e);
  }

  ghost predicate Attached(maps: seq<Bits>, root: Node, rows: seq<Row>, n: nat)
    requires root.Operator? && n <= |root.children|
  {
    |maps| == n && forall k :: 0 <= k < n ==> RawBits(maps[k], root.children[k], rows)
  }

  method AttachChildren(index: SwiftIndex, root: Node, e: EwahMap) returns (ok: bool)
    requires index.Built() && index.kind.Single? && Queryable(root, index.attrs) && AllDiscrete(root, index.attrs)
    requires root.Operator? && e.Valid() && e.andMaps == [] && e.orMaps == [] && |e.b| == |index.rows|
    modifies e`andMaps, e`orMaps
    ensures ok <==> Held(root, index.attrs, index.rows)
    ensures e.Valid() && (if root.isAnd then e.orMaps == [] else e.andMaps == [])
    ensures ok ==> Attached(if root.isAnd then e.andMaps else e.orMaps, root, index.rows, |root.children|)
    decreases index, root, 0
  {
    var i := 0;
    while i < |root.children|
      invariant 0 <= i <= |root.children| && e.Valid()
      invariant forall k :: 0 <= k < i ==> Held(root.children[k], index.attrs, index.rows)
      invariant if root.isAnd then e.orMaps == [] else e.andMaps == []
      invariant Attached(if root.isAnd then e.andMaps else e.orMaps, root, index.rows, i)
    {
      var bits := ChildBits(index, root, root.children[i]);
      if bits.None? {
        return false;
      }
      if root.isAnd {
        e.AndCombine(bits.value);
      } else {
        e.OrCombine(bits.value);
      }
      i := i + 1;
    }
    ok := true;
  }

  ghost function RootBits(node: Node, rows: seq<Row>): (c: Bits)
    ensures |c| == |rows| && forall r :: 0 <= r < |rows| ==> c[r] == Accepts(node, rows[r])
  {
    seq(|rows|, r requires 0 <= r < |rows| => Accepts(node, rows[r]))
  }

  /** The own bits of a child. */
  ghost predicate RawBits(bits: Bits, child: Node, rows: seq<Row>) {
    |bits| == |rows| &&
    forall r :: 0 <= r < |rows| ==> bits[r] == if child.Singleton? then Accepts(child, rows[r]) else child.isAnd
  }

  lemma RawJoins(root: Node, rows: seq<Row>, r: nat, maps: seq<Bits>)
    requires root.Operator? && r < |rows| && |maps| == |root.children|
    requires forall k :: 0 <= k < |maps| ==> |maps[k]| == |rows| && RawBits(maps[k], root.children[k], rows)
    ensures Accepts(Raw(root), rows[r])
         == if root.isAnd then forall k :: 0 <= k < |maps| ==> maps[k][r] else exists k :: 0 <= k < |maps| && maps[k][r]
  {
    var raw := Raw(root);
    forall k | 0 <= k < |maps| ensures Accepts(raw.children[k], rows[r]) == maps[k][r] {
      assert RawBits(maps[k], root.children[k], rows);
    }
  }

  lemma LeafAnswers(attrs: seq<Attr>, rows: seq<Row>, leaf: Node, bits: Bits)
    requires leaf.Singleton? && WellTyped(attrs, rows) && Queryable(leaf, attrs) && AllDiscrete(leaf, attrs)
    requires |bits| == |rows|
    requires forall u :: 0 <= u < |bits| ==> bits[u] == UnitAccepts(leaf, attrs, rows, u, Single)
    ensures RawBits(bits, leaf, rows) && Ones(bits, |bits|) == Matches(leaf, rows, |rows|)
  {
    forall r | 0 <= r < |rows| ensures bits[r] == Accepts(leaf, rows[r]) {
      BitsDecide(leaf, attrs, rows, r, Single);
    }
    OnesAreMatches(bits, leaf, rows, |rows|);
  }

  lemma {:induction false} OnesAreMatches(bits: Bits, node: Node, rows: seq<Row>, n: nat)
    requires |bits| == |rows| && n <= |rows| && forall r :: 0 <= r < |rows| ==> bits[r] == Accepts(node, rows[r])
    ensures Ones(bits, n) == Matches(node, rows, n)
  {
    if n > 0 {
      OnesAreMatches(bits, node, rows, n - 1);
    }
  }

  method ChildBits(index: SwiftIndex, root: Node, child: Node) returns (m: Option<Bits>)
    requires index.Built() && index.kind.Single? && Queryable(child, index.attrs) && AllDiscrete(child, index.attrs)
    requires root.Operator? && child in root.children
    ensures m.Some? <==> Held(child, index.attrs, index.rows)
    ensures m.Some? ==> RawBits(m.value, child, index.rows)
    decreases index, child, 2
  {
    match child
    case Singleton(name, val) =>
      m := index.Lookup(name, val);
      if m.Some? {
        LeafAnswers(index.attrs, index.rows, child, m.value);
      }
    case Operator(isAnd, children) =>
      var below := BuildEwah(index, child);
      m := if below.None? then None else Some(AllBits(|index.rows|, isAnd));
  }

  // ---------- a sampling session ----------

  ghost predicate InTable(ones: seq<nat>, rows: seq<Row>) {
    forall k :: 0 <= k < |ones| ==> ones[k] < |rows|
  }

  /** The measures of the rows delivered from one point of the list to another. */
  ghost function Slice(rows: seq<Row>, ones: seq<nat>, from: nat, to: nat): (s: seq<real>)
    requires InTable(ones, rows) && from <= to <= |ones|
    ensures |s| == to - from
  {
    Measures(rows, ones[from..to])
  }

  lemma SliceNext(rows: seq<Row>, ones: seq<nat>, from: nat, to: nat)
    requires InTable(ones, rows) && from <= to < |ones|
    ensures Slice(rows, ones, from, to + 1) == Slice(rows, ones, from, to) + [rows[ones[to]].measure]
  {
    assert ones[from..to + 1][..to - from] == ones[from..to];
  }

  lemma SlicesJoin(rows: seq<Row>, ones: seq<nat>, from: nat, to: nat)
    requires InTable(ones, rows) && from <= to <= |ones|
    ensures Slice(rows, ones, 0, to) == Slice(rows, ones, 0, from) + Slice(rows, ones, from, to)
  {
  }

  /** One query on the cached map: `num` new rows go into fresh results, unless there are none. */
  method RunQuery(m: EwahMap, rows: seq<Row>, num: nat, ghost ones: seq<nat>) returns (answer: Answer)
    requires m.Delivering(ones) && InTable(ones, rows)
    requires num > 0 && (ones != [] ==> m.sampledSoFar + num <= |ones|)
    modifies m`b, m`samples, m`sampledSoFar, m`isSamplesEmpty
    ensures m.Delivering(ones)
    ensures ones == [] ==> answer == NoRecords && m.sampledSoFar == 0
    ensures ones != [] ==>
              && m.sampledSoFar == old(m.sampledSoFar) + num
              && answer == Sampled(Mean(Slice(rows, ones, old(m.sampledSoFar), m.sampledSoFar)), num)
  {
    var results := new ResultSet();
    ghost var start := m.sampledSoFar;
    StartQuery(m, rows, ones, start);
    var i := 0;
    while i < num
      invariant 0 <= i <= num && results.Valid() && fresh(results)
      invariant ones == [] ==> i == 0
      invariant InQuery(m, rows, ones, start, i, results.seen)
    {
      ghost var next: nat := i + 1;
      var empty := DrawOne(m, rows, results, ones, start, i, next);
      if empty {
        return NoRecords;
      }
      i := i + 1;
    }
    answer := Sampled(results.avg, num);
    EndQuery(m, rows, ones, start, num, results);
  }

  lemma StartQuery(m: EwahMap, rows: seq<Row>, ones: seq<nat>, start: nat)
    requires m.Delivering(ones) && InTable(ones, rows) && start == m.sampledSoFar
    ensures InQuery(m, rows, ones, start, 0, [])
  {
    if ones != [] {
      assert ones[start..start] == [];
    }
  }

  lemma EndQuery(m: EwahMap, rows: seq<Row>, ones: seq<nat>, start: nat, num: nat, results: ResultSet)
    requires InQuery(m, rows, ones, start, num, results.seen) && results.Valid() && num > 0
    ensures ones != [] ==> m.sampledSoFar == start + num
    ensures ones != [] ==> results.avg == Mean(Slice(rows, ones, start, m.sampledSoFar))
  {
  }

  /** `i` samples of a query that began at position `start` have been drawn. */
  ghost predicate InQuery(m: EwahMap, rows: seq<Row>, ones: seq<nat>, start: nat, i: nat, seen: seq<real>)
    reads m
  {
    && m.Delivering(ones) && InTable(ones, rows)
    && (if ones == [] then m.sampledSoFar == 0
        else m.sampledSoFar == start + i <= |ones| && seen == Slice(rows, ones, start, start + i))
  }

  method DrawOne(m: EwahMap, rows: seq<Row>, results: ResultSet, ghost ones: seq<nat>, ghost start: nat, ghost i: nat,
                 ghost next: nat)
    returns (empty: bool)
    requires InQuery(m, rows, ones, start, i, results.seen) && results.Valid() && next == i + 1
    requires ones != [] ==> start + i < |ones|
    modifies m`b, m`samples, m`sampledSoFar, m`isSamplesEmpty, results
    ensures empty <==> ones == []
    ensures results.Valid() && InQuery(m, rows, ones, start, next, results.seen)
  {
    var row := m.SequentialSample(ones);
    empty := m.isSamplesEmpty;
    if !empty {
      SliceNext(rows, ones, start, start + i);
      results.Update(rows[row].measure);
    }
  }

  ghost function Demand(counts: seq<nat>): nat {
    if counts == [] then 0 else Demand(counts[..|counts| - 1]) + counts[|counts| - 1]
  }

  lemma {:induction false} DemandGrows(counts: seq<nat>, i: nat)
    requires i < |counts|
    ensures Demand(counts[..i + 1]) == Demand(counts[..i]) + counts[i] <= Demand(counts)
    decreases |counts| - i
  {
    assert counts[..i + 1][..i] == counts[..i];
    if i + 1 < |counts| {
      DemandGrows(counts, i + 1);
    } else {
      assert counts[..i + 1] == counts;
    }
  }

  /** A session over one cached map whose demand can be met: the queries deliver consecutive
      slices of the matches, and the group's average is the exact mean of everything delivered. */
  method Session(m: EwahMap, rows: seq<Row>, counts: seq<nat>, ghost ones: seq<nat>) returns (g: Group)
    requires m.Delivering(ones) && m.sampledSoFar == 0 && InTable(ones, rows)
    requires (forall i :: 0 <= i < |counts| ==> counts[i] > 0)
    requires ones != [] && Demand(counts) <= |ones|
    modifies m`b, m`samples, m`sampledSoFar, m`isSamplesEmpty
    ensures m.Delivering(ones) && m.sampledSoFar == Demand(counts) == g.num && !g.exhausted
    ensures counts != [] ==> g.num > 0 && g.avg == Mean(Slice(rows, ones, 0, g.num))
  {
    g := Group(0.0, 0, false);
    var i := 0;
    while i < |counts|
      invariant 0 <= i <= |counts| && m.Delivering(ones)
      invariant m.sampledSoFar == Demand(counts[..i]) == g.num <= |ones| && !g.exhausted
      invariant i > 0 ==> g.num > 0
      invariant g.num > 0 ==> g.avg == Mean(Slice(rows, ones, 0, g.num))
    {
      DemandGrows(counts, i);
      ghost var from := m.sampledSoFar;
      var answer := RunQuery(m, rows, counts[i], ones);
      SliceMeans(rows, ones, from, m.sampledSoFar, g);
      g := g.Resample(answer);
      i := i + 1;
    }
    assert counts[..|counts|] == counts;
  }

  lemma SliceMeans(rows: seq<Row>, ones: seq<nat>, from: nat, to: nat, g: Group)
    requires InTable(ones, rows) && from < to <= |ones|
    requires g.num == from && !g.exhausted && (from > 0 ==> g.avg == Mean(Slice(rows, ones, 0, from)))
    ensures var h := g.Resample(Sampled(Mean(Slice(rows, ones, from, to)), to - from));
            h.num == to && !h.exhausted && h.avg == Mean(Slice(rows, ones, 0, to))
  {
    SlicesJoin(rows, ones, from, to);
    ResampleIsExactMean(g, Slice(rows, ones, 0, from), Slice(rows, ones, from, to));
  }
}
