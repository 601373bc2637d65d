/** The index of a table: one bitmap for every key of every indexed attribute. */
module SwiftIndexes {
  import opened Bitmaps
  import opened Densities
  import opened Query
  import opened Records

  /** Attributes of cardinality zero are not indexed. */
  datatype Attr = Attr(name: string, bin: Binning, cardinality: nat) {
    ghost predicate Valid() {
      bin.Continuous? ==> bin.min < bin.max && bin.card > 0
    }
  }

  /** Names are distinct, bins make sense, and every value of an indexed attribute has a key. */
  ghost predicate WellTyped(attrs: seq<Attr>, rows: seq<Row>) {
    && (forall c :: 0 <= c < |attrs| ==> attrs[c].Valid())
    && (forall c, d :: 0 <= c < d < |attrs| ==> attrs[c].name != attrs[d].name)
    && (forall c, r :: 0 <= c < |attrs| && 0 <= r < |rows| ==> GetKey(attrs[c].bin, rows[r].Val(attrs[c].name)).Some?)
    && |rows| + 1 < NPOS
  }

  type KeyMaps = map<nat, Bits>

  type Counts = map<int, nat>

  /** The counts are kept under the key narrowed to a signed integer of 32 bits, which is widened
      again without confusing two of them. */
  function GroupVal(key: nat): int {
    var low := key % 0x1_0000_0000;
    if low < 0x8000_0000 then low else low - 0x1_0000_0000
  }

  function MapsOf(index: map<string, KeyMaps>, name: string): KeyMaps {
    if name in index then index[name] else map[]
  }

  function CountsOf(counts: map<string, Counts>, name: string): Counts {
    if name in counts then counts[name] else map[]
  }

  function Incremented(counts: Counts, g: int): Counts {
    counts[g := if g in counts then counts[g] + 1 else 1]
  }

  // ---------- what the index means ----------

  ghost predicate HasKey(attr: Attr, rows: seq<Row>, r: nat, key: nat)
    requires attr.Valid() && r < |rows|
  {
    GetKey(attr.bin, rows[r].Val(attr.name)) == Some(key)
  }

  ghost predicate KeySeen(attr: Attr, rows: seq<Row>, key: nat, n: nat)
    requires attr.Valid() && n <= |rows|
  {
    exists r :: 0 <= r < n && HasKey(attr, rows, r, key)
  }

  /** The key of a row narrows to this group value. */
  ghost predicate HasGroup(attr: Attr, rows: seq<Row>, r: nat, g: int)
    requires attr.Valid() && r < |rows|
  {
    GetKey(attr.bin, rows[r].Val(attr.name)).Some? && GroupVal(GetKey(attr.bin, rows[r].Val(attr.name)).value) == g
  }

  ghost predicate GroupSeen(attr: Attr, rows: seq<Row>, g: int, n: nat)
    requires attr.Valid() && n <= |rows|
  {
    exists r :: 0 <= r < n && HasGroup(attr, rows, r, g)
  }

  ghost function GroupCount(attr: Attr, rows: seq<Row>, g: int, n: nat): nat
    requires attr.Valid() && n <= |rows|
  {
    if n == 0 then 0 else GroupCount(attr, rows, g, n - 1) + if HasGroup(attr, rows, n - 1, g) then 1 else 0
  }

  /** Some row among the first `n` that belongs to bit `u` has the key. */
  ghost predicate UnitHas(attr: Attr, rows: seq<Row>, u: nat, key: nat, n: nat, kind: Kind)
    requires attr.Valid() && n <= |rows| && kind.Valid()
  {
    exists r :: 0 <= r < n && kind.UnitOf(r) == u && HasKey(attr, rows, r, key)
  }

  /** The bitmap of a key marks the rows, or pages, that have it. */
  ghost predicate BitsOk(bits: Bits, attr: Attr, rows: seq<Row>, key: nat, n: nat, kind: Kind)
    requires attr.Valid() && n <= |rows| && kind.Valid()
  {
    && |bits| == kind.Units(|rows|)
    && forall u :: 0 <= u < |bits| ==> (bits[u] <==> UnitHas(attr, rows, u, key, n, kind))
  }

  ghost predicate MapsOk(maps: KeyMaps, attr: Attr, rows: seq<Row>, n: nat, kind: Kind)
    requires attr.Valid() && n <= |rows| && kind.Valid()
  {
    && (forall key: nat :: key in maps <==> KeySeen(attr, rows, key, n))
    && (forall key :: key in maps ==> BitsOk(maps[key], attr, rows, key, n, kind))
  }

  ghost predicate CountsOk(counts: Counts, attr: Attr, rows: seq<Row>, n: nat)
    requires attr.Valid() && n <= |rows|
  {
    && (forall g :: g in counts <==> GroupSeen(attr, rows, g, n))
    && (forall g :: g in counts ==> counts[g] == GroupCount(attr, rows, g, n))
  }

  ghost predicate AttrOk(maps: KeyMaps, counts: Counts, attr: Attr, rows: seq<Row>, n: nat, kind: Kind)
    requires attr.Valid() && n <= |rows| && kind.Valid()
  {
    MapsOk(maps, attr, rows, n, kind) && CountsOk(counts, attr, rows, n)
  }

  lemma GroupStays(attr: Attr, rows: seq<Row>, g: int, n: nat)
    requires attr.Valid() && n < |rows|
    ensures GroupSeen(attr, rows, g, n) || HasGroup(attr, rows, n, g) ==> GroupSeen(attr, rows, g, n + 1)
  {
  }

  lemma {:induction false} CountOfUnseen(attr: Attr, rows: seq<Row>, g: int, n: nat)
    requires attr.Valid() && n <= |rows| && !GroupSeen(attr, rows, g, n)
    ensures GroupCount(attr, rows, g, n) == 0
  {
    if n > 0 {
      GroupStays(attr, rows, g, n - 1);
      CountOfUnseen(attr, rows, g, n - 1);
    }
  }

  /** The count kept for a key is the population of its exact bitmap exactly when no row has another
      key with the same group value; otherwise it is larger. */
  lemma {:induction false} CountIsPopulationIff(bits: Bits, attr: Attr, rows: seq<Row>, key: nat, n: nat, m: nat)
    requires attr.Valid() && m <= n <= |rows| && BitsOk(bits, attr, rows, key, n, Single)
    ensures |Ones(bits, m)| <= GroupCount(attr, rows, GroupVal(key), m)
    ensures |Ones(bits, m)| == GroupCount(attr, rows, GroupVal(key), m) <==>
            forall r :: 0 <= r < m && HasGroup(attr, rows, r, GroupVal(key)) ==> HasKey(attr, rows, r, key)
  {
    if m > 0 {
      CountIsPopulationIff(bits, attr, rows, key, n, m - 1);
      assert bits[m - 1] <==> UnitHas(attr, rows, m - 1, key, n, Single);
      assert HasKey(attr, rows, m - 1, key) ==> HasGroup(attr, rows, m - 1, GroupVal(key));
    }
  }

  /** Narrowing keeps the last 32 bits and reads them as a signed number, so a key below 2^31 is
      kept as it is: its count is found under the key itself. */
  lemma NarrowedKey(key: nat)
    ensures -0x8000_0000 <= GroupVal(key) < 0x8000_0000
    ensures (key - GroupVal(key)) % 0x1_0000_0000 == 0
    ensures GroupVal(key) == key <==> key < 0x8000_0000
  {
    var q := key / 0x1_0000_0000;
    assert key == q * 0x1_0000_0000 + key % 0x1_0000_0000;
    assert (q * 0x1_0000_0000) % 0x1_0000_0000 == 0 && ((q + 1) * 0x1_0000_0000) % 0x1_0000_0000 == 0;
  }

  /** Keys below 2^31 are never confused. */
  lemma SmallKeysAreApart(k: nat, l: nat)
    requires k < 0x8000_0000 && l < 0x8000_0000
    ensures GroupVal(k) == GroupVal(l) <==> k == l
  {
  }

  /** The exact bitmaps of an attribute partition the rows. */
  lemma RowHasOneKey(maps: KeyMaps, attr: Attr, rows: seq<Row>, r: nat) returns (key: nat)
    requires attr.Valid() && MapsOk(maps, attr, rows, |rows|, Single)
    requires r < |rows| && GetKey(attr.bin, rows[r].Val(attr.name)).Some?
    ensures key in maps && |maps[key]| == |rows| && maps[key][r]
    ensures forall k :: k in maps && k != key ==> |maps[k]| == |rows| && !maps[k][r]
  {
    key := GetKey(attr.bin, rows[r].Val(attr.name)).value;
    assert HasKey(attr, rows, r, key);
    assert KeySeen(attr, rows, key, |rows|);
    assert UnitHas(attr, rows, r, key, |rows|, Single);
    forall k | k in maps && k != key ensures |maps[k]| == |rows| && !maps[k][r] {
      assert BitsOk(maps[k], attr, rows, k, |rows|, Single);
    }
  }

  lemma NextMaps(maps: KeyMaps, attr: Attr, rows: seq<Row>, n: nat, key: nat, bits: Bits, kind: Kind)
    requires attr.Valid() && n < |rows| && kind.Valid() && MapsOk(maps, attr, rows, n, kind) && HasKey(attr, rows, n, key)
    requires |bits| == kind.Units(|rows|) && kind.UnitOf(n) < |bits|
    requires if key in maps then bits == maps[key] else forall u :: 0 <= u < |bits| ==> !bits[u]
    ensures MapsOk(maps[key := bits[kind.UnitOf(n) := true]], attr, rows, n + 1, kind)
  {
    var maps' := maps[key := bits[kind.UnitOf(n) := true]];
    forall k: nat ensures KeySeen(attr, rows, k, n + 1) <==> k in maps' {
      SeenNext(attr, rows, n, key, k);
    }
    NextBits(bits, attr, rows, n, key, key in maps, kind);
    forall k | k in maps' && k != key ensures BitsOk(maps'[k], attr, rows, k, n + 1, kind) {
      assert BitsOk(maps[k], attr, rows, k, n, kind);
      OtherBits(maps[k], attr, rows, n, key, k, kind);
    }
  }

  lemma NextCounts(counts: Counts, attr: Attr, rows: seq<Row>, n: nat, key: nat)
    requires attr.Valid() && n < |rows| && CountsOk(counts, attr, rows, n) && HasKey(attr, rows, n, key)
    ensures CountsOk(Incremented(counts, GroupVal(key)), attr, rows, n + 1)
  {
    var g := GroupVal(key);
    if g !in counts {
      CountOfUnseen(attr, rows, g, n);
    }
    forall k: int ensures GroupSeen(attr, rows, k, n + 1) <==> GroupSeen(attr, rows, k, n) || k == g {
      GroupNext(attr, rows, n, g, k);
    }
  }

  lemma GroupNext(attr: Attr, rows: seq<Row>, n: nat, g: int, k: int)
    requires attr.Valid() && n < |rows| && HasGroup(attr, rows, n, g)
    ensures GroupSeen(attr, rows, k, n + 1) <==> GroupSeen(attr, rows, k, n) || k == g
  {
    if GroupSeen(attr, rows, k, n) {
      var r :| 0 <= r < n && HasGroup(attr, rows, r, k);
      assert GroupSeen(attr, rows, k, n + 1);
    }
  }

  lemma SeenNext(attr: Attr, rows: seq<Row>, n: nat, key: nat, k: nat)
    requires attr.Valid() && n < |rows| && HasKey(attr, rows, n, key)
    ensures KeySeen(attr, rows, k, n + 1) <==> KeySeen(attr, rows, k, n) || k == key
  {
    if KeySeen(attr, rows, k, n) {
      var r :| 0 <= r < n && HasKey(attr, rows, r, k);
      assert KeySeen(attr, rows, k, n + 1);
    }
  }

  lemma UnitNext(attr: Attr, rows: seq<Row>, n: nat, key: nat, k: nat, u: nat, kind: Kind)
    requires attr.Valid() && n < |rows| && HasKey(attr, rows, n, key) && kind.Valid()
    ensures UnitHas(attr, rows, u, k, n + 1, kind) <==>
            UnitHas(attr, rows, u, k, n, kind) || (k == key && u == kind.UnitOf(n))
  {
    if UnitHas(attr, rows, u, k, n, kind) {
      var r :| 0 <= r < n && kind.UnitOf(r) == u && HasKey(attr, rows, r, k);
      assert UnitHas(attr, rows, u, k, n + 1, kind);
    }
  }

  lemma OtherBits(bits: Bits, attr: Attr, rows: seq<Row>, n: nat, key: nat, k: nat, kind: Kind)
    requires attr.Valid() && n < |rows| && HasKey(attr, rows, n, key) && k != key && kind.Valid()
    requires BitsOk(bits, attr, rows, k, n, kind)
    ensures BitsOk(bits, attr, rows, k, n + 1, kind)
  {
    forall u | 0 <= u < |bits| ensures bits[u] <==> UnitHas(attr, rows, u, k, n + 1, kind) {
      UnitNext(attr, rows, n, key, k, u, kind);
    }
  }

  lemma UnitIsSeen(attr: Attr, rows: seq<Row>, u: nat, key: nat, n: nat, kind: Kind)
    requires attr.Valid() && n <= |rows| && kind.Valid()
    ensures UnitHas(attr, rows, u, key, n, kind) ==> KeySeen(attr, rows, key, n)
  {
  }

  lemma NextBits(bits: Bits, attr: Attr, rows: seq<Row>, n: nat, key: nat, known: bool, kind: Kind)
    requires attr.Valid() && n < |rows| && HasKey(attr, rows, n, key) && kind.Valid()
    requires |bits| == kind.Units(|rows|) && kind.UnitOf(n) < |bits|
    requires if known then BitsOk(bits, attr, rows, key, n, kind)
             else !KeySeen(attr, rows, key, n) && forall u :: 0 <= u < |bits| ==> !bits[u]
    ensures BitsOk(bits[kind.UnitOf(n) := true], attr, rows, key, n + 1, kind)
  {
    var after, next := bits[kind.UnitOf(n) := true], n + 1;
    forall u | 0 <= u < |bits|
      ensures after[u] <==> UnitHas(attr, rows, u, key, next, kind)
    {
      UnitNext(attr, rows, n, key, key, u, kind);
      UnitIsSeen(attr, rows, u, key, n, kind);
    }
  }

  // ---------- what a query means to the index ----------

  function SchemaAttr(attrs: seq<Attr>, name: string): (a: Option<Attr>)
    ensures a.Some? ==> a.value in attrs && a.value.name == name
    ensures a.None? ==> forall c :: 0 <= c < |attrs| ==> attrs[c].name != name
  {
    if attrs == [] then None
    else if attrs[0].name == name then Some(attrs[0]) else SchemaAttr(attrs[1..], name)
  }

  /** Every attribute named by the query is in the schema and its constant can be binned. */
  ghost predicate Queryable(node: Node, attrs: seq<Attr>) {
    match node
    case Singleton(name, val) =>
      && SchemaAttr(attrs, name).Some? && SchemaAttr(attrs, name).value.Valid()
      && GetKey(SchemaAttr(attrs, name).value.bin, val).Some?
    case Operator(isAnd, children) => forall i :: 0 <= i < |children| ==> Queryable(children[i], attrs)
  }

  /** Every constant of the query has a bitmap: some row has its key. */
  ghost predicate Held(node: Node, attrs: seq<Attr>, rows: seq<Row>)
    requires Queryable(node, attrs)
  {
    match node
    case Singleton(name, val) =>
      var a := SchemaAttr(attrs, name).value;
      a.cardinality > 0 && KeySeen(a, rows, GetKey(a.bin, val).value, |rows|)
    case Operator(isAnd, children) => forall i :: 0 <= i < |children| ==> Held(children[i], attrs, rows)
  }

  /** The query at the level of bits: keys in place of values, and pages in place of rows. */
  ghost predicate UnitAccepts(node: Node, attrs: seq<Attr>, rows: seq<Row>, u: nat, kind: Kind)
    requires Queryable(node, attrs) && kind.Valid()
  {
    match node
    case Singleton(name, val) =>
      var a := SchemaAttr(attrs, name).value;
      UnitHas(a, rows, u, GetKey(a.bin, val).value, |rows|, kind)
    case Operator(isAnd, children) =>
      if isAnd then forall i :: 0 <= i < |children| ==> UnitAccepts(children[i], attrs, rows, u, kind)
      else exists i :: 0 <= i < |children| && UnitAccepts(children[i], attrs, rows, u, kind)
  }

  ghost predicate AllDiscrete(node: Node, attrs: seq<Attr>)
    requires Queryable(node, attrs)
  {
    match node
    case Singleton(name, val) => SchemaAttr(attrs, name).value.bin.Discrete?
    case Operator(isAnd, children) => forall i :: 0 <= i < |children| ==> AllDiscrete(children[i], attrs)
  }

  /** No accepted row is missed, whatever the bins and pages; exact bitmaps over discrete
      attributes decide every row exactly. */
  lemma {:induction false} BitsDecide(node: Node, attrs: seq<Attr>, rows: seq<Row>, r: nat, kind: Kind)
    requires Queryable(node, attrs) && WellTyped(attrs, rows) && r < |rows| && kind.Valid()
    ensures Accepts(node, rows[r]) ==> UnitAccepts(node, attrs, rows, kind.UnitOf(r), kind)
    ensures AllDiscrete(node, attrs) && kind.Single? ==>
              (UnitAccepts(node, attrs, rows, r, kind) <==> Accepts(node, rows[r]))
  {
    match node
    case Singleton(name, val) =>
      var a := SchemaAttr(attrs, name).value;
      var c :| 0 <= c < |attrs| && attrs[c] == a;
      assert GetKey(a.bin, rows[r].Val(name)).Some?;
      if Accepts(node, rows[r]) {
        assert HasKey(a, rows, r, GetKey(a.bin, val).value);
      }
    case Operator(isAnd, children) =>
      forall i | 0 <= i < |children|
        ensures Accepts(children[i], rows[r]) ==> UnitAccepts(children[i], attrs, rows, kind.UnitOf(r), kind)
        ensures AllDiscrete(children[i], attrs) && kind.Single? ==>
                  (UnitAccepts(children[i], attrs, rows, r, kind) <==> Accepts(children[i], rows[r]))
      {
        BitsDecide(children[i], attrs, rows, r, kind);
      }
  }

  class SwiftIndex {
    const rows: seq<Row>
    const attrs: seq<Attr>
    const kind: Kind
    var index: map<string, KeyMaps>
    var perGroupValCount: map<string, Counts>

    ghost predicate Built()
      reads this
    {
      WellTyped(attrs, rows) && kind.Valid() && UpTo(index, perGroupValCount, attrs, rows, |rows|, 0, kind)
    }

    constructor (attrs: seq<Attr>, rows: seq<Row>, kind: Kind)
      ensures this.kind == kind && this.attrs == attrs && this.rows == rows && index == map[] && perGroupValCount == map[]
    {
      this.attrs, this.rows, this.kind, index, perGroupValCount := attrs, rows, kind, map[], map[];
    }

    /** Indexes all rows. */
    method Read()
      requires WellTyped(attrs, rows) && kind.Valid() && index == map[] && perGroupValCount == map[]
      modifies this
      ensures Built()
    {
      var row := 0;
      NothingRead(attrs, rows, kind);
      while row < |rows|
        invariant 0 <= row <= |rows|
        invariant UpTo(index, perGroupValCount, attrs, rows, row, 0, kind)
      {
        var col := 0;
        while col < |attrs|
          invariant 0 <= col <= |attrs|
          invariant UpTo(index, perGroupValCount, attrs, rows, row, col, kind)
        {
          if attrs[col].cardinality != 0 {
            ReadValue(row, col);
          } else {
            Skipped(index, perGroupValCount, attrs, rows, row, col, kind);
          }
          col := col + 1;
        }
        RowDone(index, perGroupValCount, attrs, rows, row, kind);
        row := row + 1;
      }
    }

    method ReadValue(row: nat, col: nat)
      requires WellTyped(attrs, rows) && kind.Valid() && row < |rows| && col < |attrs| && attrs[col].cardinality != 0
      requires UpTo(index, perGroupValCount, attrs, rows, row, col, kind)
      modifies this
      ensures UpTo(index, perGroupValCount, attrs, rows, row, col + 1, kind)
    {
      var attr := attrs[col];
      ghost var before, counted := index, perGroupValCount;
      assert ColumnOk(before, counted, attrs, rows, row, col, col, kind);
      var key := GetKey(attr.bin, rows[row].Val(attr.name)).value;
      IndexValue(attr, row, key);
      CountValue(attr.name, key);
      NextCounts(CountsOf(counted, attr.name), attr, rows, row, key);
      OthersKept(before, counted, index, perGroupValCount, attrs, rows, row, col, kind);
    }

    method IndexValue(attr: Attr, row: nat, key: nat)
      requires attr.Valid() && row < |rows| && kind.Valid() && HasKey(attr, rows, row, key)
      requires MapsOk(MapsOf(index, attr.name), attr, rows, row, kind)
      modifies this`index
      ensures MapsOk(MapsOf(index, attr.name), attr, rows, row + 1, kind)
      ensures index == old(index)[attr.name := MapsOf(index, attr.name)]
    {
      var maps: KeyMaps := MapsOf(index, attr.name);
      var bits := if key in maps then maps[key] else AllBits(kind.Units(|rows|), false);
      if key in maps {
        assert BitsOk(maps[key], attr, rows, key, row, kind);
      }
      kind.UnitInRange(row, |rows|);
      NextMaps(maps, attr, rows, row, key, bits, kind);
      maps := maps[key := bits[kind.UnitOf(row) := true]];
      index := index[attr.name := maps];
    }

    method CountValue(name: string, key: nat)
      modifies this`perGroupValCount
      ensures perGroupValCount == old(perGroupValCount)[name := Incremented(CountsOf(old(perGroupValCount), name), GroupVal(key))]
    {
      var groupVal := GroupVal(key);
      var counts: Counts := CountsOf(perGroupValCount, name);
      if name !in perGroupValCount {
        counts := map[groupVal := 1];
      } else if groupVal !in counts {
        counts := counts[groupVal := 1];
      } else {
        var count := counts[groupVal];
        count := count + 1;
        counts := counts[groupVal := count];
      }
      perGroupValCount := perGroupValCount[name := counts];
    }

    /** Looks up the bitmap of a query constant. */
    method Lookup(name: string, val: Value) returns (m: Option<Bits>)
      requires Built() && Queryable(Singleton(name, val), attrs)
      ensures m.Some? <==> Held(Singleton(name, val), attrs, rows)
      ensures m.Some? ==> |m.value| == kind.Units(|rows|)
      ensures m.Some? ==> forall u :: 0 <= u < |m.value| ==> m.value[u] == UnitAccepts(Singleton(name, val), attrs, rows, u, kind)
    {
      var a := SchemaAttr(attrs, name).value;
      ghost var c :| 0 <= c < |attrs| && attrs[c] == a;
      assert ColumnOk(index, perGroupValCount, attrs, rows, |rows|, 0, c, kind);
      var key := GetKey(a.bin, val).value;
      if name !in index || key !in index[name] {
        m := None;
      } else {
        m := Some(index[name][key]);
        assert BitsOk(index[name][key], a, rows, key, |rows|, kind);
      }
    }

    /** Combines the bitmaps of all children into `base`; a constant without a bitmap is an error. */
    method CombineMaps(node: Node, base: FlatMap) returns (ok: bool)
      requires Built() && node.Operator? && Queryable(node, attrs) && |base.b| == kind.Units(|rows|)
      modifies base`b
      ensures |base.b| == kind.Units(|rows|)
      ensures ok <==> Held(node, attrs, rows)
      ensures ok ==> forall u :: 0 <= u < |base.b| ==>
                base.b[u] == Joined(node, attrs, rows, u, kind, |node.children|, old(base.b)[u])
      decreases node
    {
      var children := node.children;
      var i := 0;
      while i < |children|
        invariant 0 <= i <= |children| && |base.b| == kind.Units(|rows|)
        invariant forall k :: 0 <= k < i ==> Held(children[k], attrs, rows)
        invariant forall u :: 0 <= u < |base.b| ==> base.b[u] == Joined(node, attrs, rows, u, kind, i, old(base.b)[u])
      {
        var m := MapOfChild(node, children[i]);
        if m.None? {
          return false;
        }
        if node.isAnd {
          base.AndCombine(m.value);
        } else {
          base.OrCombine(m.value);
        }
        i := i + 1;
      }
      ok := true;
    }

    method MapOfChild(node: Node, child: Node) returns (m: Option<Bits>)
      requires Built() && Queryable(child, attrs) && node.Operator? && child in node.children
      ensures m.Some? <==> Held(child, attrs, rows)
      ensures m.Some? ==> |m.value| == kind.Units(|rows|)
      ensures m.Some? ==> forall u :: 0 <= u < |m.value| ==> m.value[u] == UnitAccepts(child, attrs, rows, u, kind)
      decreases node, 0
    {
      match child
      case Singleton(name, val) =>
        m := Lookup(name, val);
      case Operator(isAnd, _) =>
        var newBase := new FlatMap(kind, |rows|, isAnd);
        var ok := CombineMaps(child, newBase);
        if !ok {
          return None;
        }
        m := Some(newBase.b);
        forall u | 0 <= u < |m.value| ensures m.value[u] == UnitAccepts(child, attrs, rows, u, kind) {
          JoinedAll(child, attrs, rows, u, kind, |child.children|);
        }
    }

    /** The map of a whole query. */
    method BuildMap(root: Node) returns (m: Option<FlatMap>)
      requires Built() && Queryable(root, attrs)
      ensures m.Some? <==> Held(root, attrs, rows)
      ensures m.Some? ==> fresh(m.value) && m.value.kind == kind && |m.value.b| == kind.Units(|rows|) && m.value.lastSampled == NPOS
      ensures m.Some? ==> forall u :: 0 <= u < |m.value.b| ==> m.value.b[u] == UnitAccepts(root, attrs, rows, u, kind)
    {
      var combined := new FlatMap(kind, |rows|, root.Operator? && root.isAnd);
      if root.Singleton? {
        var bits := Lookup(root.attr, root.val);
        if bits.None? {
          return None;
        }
        combined.b := bits.value;
      } else {
        var ok := CombineMaps(root, combined);
        if !ok {
          return None;
        }
        forall u | 0 <= u < |combined.b| ensures combined.b[u] == UnitAccepts(root, attrs, rows, u, kind) {
          JoinedAll(root, attrs, rows, u, kind, |root.children|);
        }
      }
      m := Some(combined);
    }
  }

  /** What the first `n` children make of a starting bit. */
  ghost function Joined(node: Node, attrs: seq<Attr>, rows: seq<Row>, u: nat, kind: Kind, n: nat, start: bool): bool
    requires node.Operator? && Queryable(node, attrs) && kind.Valid() && n <= |node.children|
  {
    if n == 0 then start
    else
      var rest := Joined(node, attrs, rows, u, kind, n - 1, start);
      var here := UnitAccepts(node.children[n - 1], attrs, rows, u, kind);
      if node.isAnd then rest && here else rest || here
  }

  lemma {:induction false} JoinedIs(node: Node, attrs: seq<Attr>, rows: seq<Row>, u: nat, kind: Kind, n: nat)
    requires node.Operator? && Queryable(node, attrs) && kind.Valid() && n <= |node.children|
    ensures Joined(node, attrs, rows, u, kind, n, node.isAnd)
         == if node.isAnd then forall i :: 0 <= i < n ==> UnitAccepts(node.children[i], attrs, rows, u, kind)
            else exists i :: 0 <= i < n && UnitAccepts(node.children[i], attrs, rows, u, kind)
  {
    if n > 0 {
      JoinedIs(node, attrs, rows, u, kind, n - 1);
    }
  }

  lemma JoinedAll(node: Node, attrs: seq<Attr>, rows: seq<Row>, u: nat, kind: Kind, n: nat)
    requires node.Operator? && Queryable(node, attrs) && kind.Valid() && n == |node.children|
    ensures Joined(node, attrs, rows, u, kind, n, node.isAnd) == UnitAccepts(node, attrs, rows, u, kind)
  {
    JoinedIs(node, attrs, rows, u, kind, n);
  }

  /** One attribute's part of the index covers the rows it should. */
  ghost predicate ColumnOk(index: map<string, KeyMaps>, counts: map<string, Counts>, attrs: seq<Attr>, rows: seq<Row>,
                           row: nat, col: nat, c: nat, kind: Kind)
    requires kind.Valid() && c < |attrs| && attrs[c].Valid() && row <= |rows| && (c < col ==> row < |rows|)
  {
    if attrs[c].cardinality == 0 then attrs[c].name !in index
    else AttrOk(MapsOf(index, attrs[c].name), CountsOf(counts, attrs[c].name), attrs[c], rows, if c < col then row + 1 else row, kind)
  }

  /** All attributes cover the first `row` rows, and those before `col` one more. */
  ghost predicate UpTo(index: map<string, KeyMaps>, counts: map<string, Counts>, attrs: seq<Attr>, rows: seq<Row>,
                       row: nat, col: nat, kind: Kind)
    requires kind.Valid() && (forall c :: 0 <= c < |attrs| ==> attrs[c].Valid()) && row <= |rows| && (col > 0 ==> row < |rows|)
  {
    forall c :: 0 <= c < |attrs| ==> ColumnOk(index, counts, attrs, rows, row, col, c, kind)
  }

  lemma NothingRead(attrs: seq<Attr>, rows: seq<Row>, kind: Kind)
    requires WellTyped(attrs, rows) && kind.Valid()
    ensures UpTo(map[], map[], attrs, rows, 0, 0, kind)
  {
  }

  lemma RowDone(index: map<string, KeyMaps>, counts: map<string, Counts>, attrs: seq<Attr>, rows: seq<Row>, row: nat, kind: Kind)
    requires WellTyped(attrs, rows) && kind.Valid() && row < |rows| && UpTo(index, counts, attrs, rows, row, |attrs|, kind)
    ensures UpTo(index, counts, attrs, rows, row + 1, 0, kind)
  {
    var next := row + 1;
    forall c | 0 <= c < |attrs| ensures ColumnOk(index, counts, attrs, rows, next, 0, c, kind) {
      assert ColumnOk(index, counts, attrs, rows, row, |attrs|, c, kind);
    }
  }

  lemma Skipped(index: map<string, KeyMaps>, counts: map<string, Counts>, attrs: seq<Attr>, rows: seq<Row>,
                row: nat, col: nat, kind: Kind)
    requires WellTyped(attrs, rows) && kind.Valid() && row < |rows| && col < |attrs| && attrs[col].cardinality == 0
    requires UpTo(index, counts, attrs, rows, row, col, kind)
    ensures UpTo(index, counts, attrs, rows, row, col + 1, kind)
  {
    var next := col + 1;
    forall c | 0 <= c < |attrs| ensures ColumnOk(index, counts, attrs, rows, row, next, c, kind) {
      assert ColumnOk(index, counts, attrs, rows, row, col, c, kind);
    }
  }

  lemma OthersKept(index: map<string, KeyMaps>, counts: map<string, Counts>,
                   index': map<string, KeyMaps>, counts': map<string, Counts>,
                   attrs: seq<Attr>, rows: seq<Row>, row: nat, col: nat, kind: Kind)
    requires WellTyped(attrs, rows) && kind.Valid() && row < |rows| && col < |attrs| && attrs[col].cardinality != 0
    requires UpTo(index, counts, attrs, rows, row, col, kind)
    requires index' == index[attrs[col].name := MapsOf(index', attrs[col].name)]
    requires counts' == counts[attrs[col].name := CountsOf(counts', attrs[col].name)]
    requires AttrOk(MapsOf(index', attrs[col].name), CountsOf(counts', attrs[col].name), attrs[col], rows, row + 1, kind)
    ensures UpTo(index', counts', attrs, rows, row, col + 1, kind)
  {
    var next := col + 1;
    forall c | 0 <= c < |attrs| ensures ColumnOk(index', counts', attrs, rows, row, next, c, kind) {
      if c != col {
        assert ColumnOk(index, counts, attrs, rows, row, col, c, kind);
        assert attrs[c].name != attrs[col].name;
      }
    }
  }
}
