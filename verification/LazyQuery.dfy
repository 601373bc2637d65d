/** Queries over lazy maps, from the rows of a table alone. */
module LazyQueries {
  import opened Bitmaps
  import opened Densities
  import opened LazyBitmaps
  import opened LazyIndexes
  import opened Query
  import opened Records
  import opened SwiftIndexes

  /** A map marks exactly the rows a query accepts. */
  ghost predicate Answers(f: seq<Bits>, split: nat, node: Node, rows: seq<Row>)
    requires split > 0
  {
    forall u: nat :: BitAt(f, split, u) <==> u < |rows| && Accepts(node, rows[u])
  }

  /** Every constant of the query occurs in some row of block `i`. */
  ghost predicate Backed(node: Node, attrs: seq<Attr>, rows: seq<Row>, split: nat, i: nat)
    requires Queryable(node, attrs) && split > 0
  {
    match node
    case Singleton(_, _) => exists r :: 0 <= r < |rows| && r / split == i && Accepts(node, rows[r])
    case Operator(_, children) => forall k :: 0 <= k < |children| ==> Backed(children[k], attrs, rows, split, i)
  }

  ghost predicate OperatorsHaveChildren(node: Node) {
    node.Operator? ==> node.children != [] && forall k :: 0 <= k < |node.children| ==> OperatorsHaveChildren(node.children[k])
  }

  /** A map built for a query: what it marks, and which blocks it can look at. */
  ghost predicate BuiltFor(mean: Meaning, m: nat, splits: nat, split: nat, node: Node, attrs: seq<Attr>, rows: seq<Row>)
    requires split > 0 && Queryable(node, attrs)
  {
    && m < |mean.flat| && m < |mean.solid| && |mean.solid[m]| == splits
    && Answers(mean.flat[m], split, node, rows)
    && forall i :: 0 <= i < splits ==> mean.solid[m][i] == Backed(node, attrs, rows, split, i)
  }

  lemma BuiltStays(a: Meaning, b: Meaning, m: nat, splits: nat, split: nat, node: Node, attrs: seq<Attr>, rows: seq<Row>)
    requires split > 0 && Extends(a, b) && Queryable(node, attrs) && BuiltFor(a, m, splits, split, node, attrs, rows)
    ensures BuiltFor(b, m, splits, split, node, attrs, rows)
  {
    assert b.flat[..|a.flat|][m] == a.flat[m] && b.solid[..|a.solid|][m] == a.solid[m];
  }

  lemma ExtendsThenExtends(a: Meaning, b: Meaning, c: Meaning)
    requires Extends(a, b) && Extends(b, c)
    ensures Extends(a, c)
  {
    assert c.flat[..|b.flat|][..|a.flat|] == c.flat[..|a.flat|];
    assert c.solid[..|b.solid|][..|a.solid|] == c.solid[..|a.solid|];
  }

  /** Over a discrete attribute, a row has a constant's key exactly when the constant accepts it. */
  lemma KeyIsAcceptance(leaf: Node, a: Attr, attrs: seq<Attr>, rows: seq<Row>, key: nat, r: nat)
    requires leaf.Singleton? && WellTyped(attrs, rows) && Queryable(leaf, attrs) && AllDiscrete(leaf, attrs) && r < |rows|
    requires a == SchemaAttr(attrs, leaf.attr).value && GetKey(a.bin, leaf.val) == Some(key)
    ensures HasKey(a, rows, r, key) <==> Accepts(leaf, rows[r])
  {
    BitsDecide(leaf, attrs, rows, r, Single);
  }

  /** The leaf of a constant over a discrete attribute. */
  lemma LeafIsBuilt(mean: Meaning, id: nat, splits: nat, split: nat, leaf: Node, a: Attr, attrs: seq<Attr>, rows: seq<Row>, key: nat)
    requires leaf.Singleton? && WellTyped(attrs, rows) && Queryable(leaf, attrs) && AllDiscrete(leaf, attrs) && split > 0
    requires a == SchemaAttr(attrs, leaf.attr).value && GetKey(a.bin, leaf.val) == Some(key)
    requires id < |mean.flat| && id < |mean.solid| && |mean.solid[id]| == splits
    requires LeafMarks(mean.flat[id], mean.solid[id], split, a, rows, key, |rows|)
    ensures BuiltFor(mean, id, splits, split, leaf, attrs, rows)
  {
    forall r | 0 <= r < |rows| ensures HasKey(a, rows, r, key) <==> Accepts(leaf, rows[r]) {
      KeyIsAcceptance(leaf, a, attrs, rows, key, r);
    }
    forall i | 0 <= i < splits ensures mean.solid[id][i] == Backed(leaf, attrs, rows, split, i) {
      BlockIsBacked(leaf, a, attrs, rows, key, split, i);
    }
    forall u: nat ensures BitAt(mean.flat[id], split, u) <==> u < |rows| && Accepts(leaf, rows[u]) {
      assert BitAt(mean.flat[id], split, u) <==> u < |rows| && HasKey(a, rows, u, key);
    }
  }

  lemma BlockIsBacked(leaf: Node, a: Attr, attrs: seq<Attr>, rows: seq<Row>, key: nat, split: nat, i: nat)
    requires leaf.Singleton? && Queryable(leaf, attrs) && split > 0 && a.Valid()
    requires forall r :: 0 <= r < |rows| ==> (HasKey(a, rows, r, key) <==> Accepts(leaf, rows[r]))
    ensures UnitHas(a, rows, i, key, |rows|, Lossy(split)) == Backed(leaf, attrs, rows, split, i)
  {
    if UnitHas(a, rows, i, key, |rows|, Lossy(split)) {
      var r :| 0 <= r < |rows| && Lossy(split).UnitOf(r) == i && HasKey(a, rows, r, key);
      assert r / split == i && Accepts(leaf, rows[r]);
    }
    if r :| 0 <= r < |rows| && r / split == i && Accepts(leaf, rows[r]) {
      assert Lossy(split).UnitOf(r) == i && HasKey(a, rows, r, key);
    }
  }

  /** Looks up the leaf of a constant; it exists exactly when some row has the constant. */
  method Lookup(ix: LazyIndex, leaf: Node) returns (m: Option<nat>)
    requires ix.Built() && leaf.Singleton? && Queryable(leaf, ix.attrs) && AllDiscrete(leaf, ix.attrs)
    ensures m.Some? <==> Held(leaf, ix.attrs, ix.rows)
    ensures m.Some? ==>
              && m.value < |ix.arena.maps| && !ix.arena.maps[m.value].HasChildren()
              && BuiltFor(ix.arena.mean, m.value, ix.arena.splits, ix.arena.split, leaf, ix.attrs, ix.rows)
  {
    var a := SchemaAttr(ix.attrs, leaf.attr).value;
    ghost var c :| 0 <= c < |ix.attrs| && ix.attrs[c] == a;
    assert ColumnLeaves(ix.index, ix.arena.maps, ix.arena.mean, ix.tags, ix.arena.split, ix.attrs, ix.rows, |ix.rows|, 0, c);
    var key := GetKey(a.bin, leaf.val).value;
    if leaf.attr !in ix.index || key !in ix.index[leaf.attr] {
      m := None;
    } else {
      var id := ix.index[leaf.attr][key];
      m := Some(id);
      assert LeafOk(id, ix.arena.maps, ix.arena.mean, ix.arena.split, a, ix.rows, key, |ix.rows|);
      LeafIsBuilt(ix.arena.mean, id, ix.arena.splits, ix.arena.split, leaf, a, ix.attrs, ix.rows, key);
    }
  }

  lemma StaysBuilt(ix: LazyIndex, maps: seq<MapNode>, mean: Meaning)
    requires WellTyped(ix.attrs, ix.rows) && ix.arena.Valid() && |ix.rows| <= ix.arena.splits * ix.arena.split
    requires LeavesUpTo(ix.index, maps, mean, ix.tags, ix.arena.split, ix.attrs, ix.rows, |ix.rows|, 0)
    requires |maps| <= |ix.arena.maps| && ix.arena.maps[..|maps|] == maps && Extends(mean, ix.arena.mean)
    ensures ix.Built()
  {
    AllStay(ix.index, maps, ix.arena.maps, mean, ix.arena.mean, ix.tags, ix.arena.split, ix.attrs, ix.rows, |ix.rows|, 0);
  }

  /** Builds the map of a query: operators become maps over maps. A constant without a leaf is an
      error. */
  method BuildLazy(ix: LazyIndex, node: Node) returns (m: Option<nat>)
    requires ix.Built() && Queryable(node, ix.attrs) && AllDiscrete(node, ix.attrs) && OperatorsHaveChildren(node)
    modifies ix.arena`maps, ix.arena`mean
    ensures ix.Built() && |old(ix.arena.maps)| <= |ix.arena.maps| && ix.arena.maps[..|old(ix.arena.maps)|] == old(ix.arena.maps)
    ensures Extends(old(ix.arena.mean), ix.arena.mean)
    ensures m.Some? <==> Held(node, ix.attrs, ix.rows)
    ensures m.Some? ==>
              && m.value < |ix.arena.maps| && ix.arena.maps[m.value].HasChildren() == node.Operator?
              && BuiltFor(ix.arena.mean, m.value, ix.arena.splits, ix.arena.split, node, ix.attrs, ix.rows)
    decreases node, 1
  {
    if node.Singleton? {
      m := Lookup(ix, node);
      return;
    }
    var ids := BuildChildren(ix, node);
    if ids.None? {
      return None;
    }
    m := Join(ix, node, ids.value);
    assert Extends(old(ix.arena.mean), ix.arena.mean);
  }

  /** The map of an operator over the maps of its children. */
  method Join(ix: LazyIndex, node: Node, ids: seq<nat>) returns (m: Option<nat>)
    requires ix.Built() && Queryable(node, ix.attrs) && node.Operator? && node.children != []
    requires ChildrenBuilt(ix.arena.mean, |ix.arena.maps|, ids, |node.children|, ix.arena.splits, ix.arena.split, node, ix.attrs, ix.rows)
    modifies ix.arena`maps, ix.arena`mean
    ensures ix.Built() && |old(ix.arena.maps)| <= |ix.arena.maps| && ix.arena.maps[..|old(ix.arena.maps)|] == old(ix.arena.maps)
    ensures Extends(old(ix.arena.mean), ix.arena.mean)
    ensures m.Some? && m.value < |ix.arena.maps| && ix.arena.maps[m.value].HasChildren()
    ensures BuiltFor(ix.arena.mean, m.value, ix.arena.splits, ix.arena.split, node, ix.attrs, ix.rows)
  {
    ghost var maps, mean := ix.arena.maps, ix.arena.mean;
    var id := ix.arena.AddMap(node.isAnd, if node.isAnd then ids else [], if node.isAnd then [] else ids);
    StaysBuilt(ix, maps, mean);
    ChildrenStay(mean, |maps|, ix.arena.mean, |ix.arena.maps|, ids, |ids|, ix.arena.splits, ix.arena.split, node, ix.attrs, ix.rows);
    OperatorIsBuilt(ix.arena, id, ids, node, ix.attrs, ix.rows);
    m := Some(id);
  }

  method BuildChildren(ix: LazyIndex, node: Node) returns (ids: Option<seq<nat>>)
    requires ix.Built() && Queryable(node, ix.attrs) && AllDiscrete(node, ix.attrs) && OperatorsHaveChildren(node) && node.Operator?
    modifies ix.arena`maps, ix.arena`mean
    ensures ix.Built() && |old(ix.arena.maps)| <= |ix.arena.maps| && ix.arena.maps[..|old(ix.arena.maps)|] == old(ix.arena.maps)
    ensures Extends(old(ix.arena.mean), ix.arena.mean)
    ensures ids.Some? <==> Held(node, ix.attrs, ix.rows)
    ensures ids.Some? ==>
              ChildrenBuilt(ix.arena.mean, |ix.arena.maps|, ids.value, |node.children|, ix.arena.splits, ix.arena.split, node, ix.attrs, ix.rows)
    decreases node, 0
  {
    var made: seq<nat> := [];
    var k := 0;
    while k < |node.children|
      invariant 0 <= k <= |node.children| && ix.Built()
      invariant |old(ix.arena.maps)| <= |ix.arena.maps| && ix.arena.maps[..|old(ix.arena.maps)|] == old(ix.arena.maps)
      invariant Extends(old(ix.arena.mean), ix.arena.mean)
      invariant forall j :: 0 <= j < k ==> Held(node.children[j], ix.attrs, ix.rows)
      invariant ChildrenBuilt(ix.arena.mean, |ix.arena.maps|, made, k, ix.arena.splits, ix.arena.split, node, ix.attrs, ix.rows)
    {
      ghost var before, n := ix.arena.mean, |ix.arena.maps|;
      var child := BuildLazy(ix, node.children[k]);
      ExtendsThenExtends(old(ix.arena.mean), before, ix.arena.mean);
      if child.None? {
        return None;
      }
      ChildrenStay(before, n, ix.arena.mean, |ix.arena.maps|, made, k, ix.arena.splits, ix.arena.split, node, ix.attrs, ix.rows);
      made := made + [child.value];
      k := k + 1;
    }
    ids := Some(made);
  }

  ghost predicate ChildrenBuilt(mean: Meaning, n: nat, ids: seq<nat>, k: nat, splits: nat, split: nat,
                                node: Node, attrs: seq<Attr>, rows: seq<Row>)
    requires split > 0 && Queryable(node, attrs)
  {
    && node.Operator? && |ids| == k <= |node.children|
    && forall j :: 0 <= j < k ==> ids[j] < n && BuiltFor(mean, ids[j], splits, split, node.children[j], attrs, rows)
  }

  lemma ChildrenStay(a: Meaning, n: nat, b: Meaning, n': nat, ids: seq<nat>, k: nat, splits: nat, split: nat,
                     node: Node, attrs: seq<Attr>, rows: seq<Row>)
    requires split > 0 && Queryable(node, attrs) && Extends(a, b) && n <= n'
    requires ChildrenBuilt(a, n, ids, k, splits, split, node, attrs, rows)
    ensures ChildrenBuilt(b, n', ids, k, splits, split, node, attrs, rows)
  {
    forall j | 0 <= j < k ensures BuiltFor(b, ids[j], splits, split, node.children[j], attrs, rows) {
      BuiltStays(a, b, ids[j], splits, split, node.children[j], attrs, rows);
    }
  }

  lemma OperatorIsBuilt(a: Arena, m: nat, ids: seq<nat>, node: Node, attrs: seq<Attr>, rows: seq<Row>)
    requires a.Valid() && m < |a.maps| && Queryable(node, attrs) && node.Operator? && node.children != []
    requires a.maps[m].setDefault == node.isAnd && |rows| <= a.splits * a.split
    requires a.maps[m].ands == (if node.isAnd then ids else []) && a.maps[m].ors == if node.isAnd then [] else ids
    requires ChildrenBuilt(a.mean, |a.maps|, ids, |node.children|, a.splits, a.split, node, attrs, rows)
    ensures BuiltFor(a.mean, m, a.splits, a.split, node, attrs, rows)
  {
    var mn, flat := a.maps[m], a.mean.flat;
    forall i | 0 <= i < a.splits
      ensures DerivedAt(flat[m][i], mn, flat, i) && a.mean.solid[m][i] == Backed(node, attrs, rows, a.split, i)
    {
      assert NodeOk(mn, a.mean, m, i, a.blocks);
    }
    forall u: nat ensures BitAt(flat[m], a.split, u) <==> u < |rows| && Accepts(node, rows[u]) {
      OperatorBit(mn, a.mean, m, a.splits, a.split, ids, node, attrs, rows, u);
    }
  }

  ghost predicate DerivedAt(b: Bits, mn: MapNode, flat: seq<seq<Bits>>, i: nat) {
    forall o :: 0 <= o < |b| ==> b[o] == Derived(mn, flat, i, o)
  }

  lemma OperatorBit(mn: MapNode, mean: Meaning, m: nat, splits: nat, split: nat, ids: seq<nat>,
                    node: Node, attrs: seq<Attr>, rows: seq<Row>, u: nat)
    requires m < |mean.flat| && Regular(mean.flat[m], splits, split) && |rows| <= splits * split
    requires forall i :: 0 <= i < splits ==> DerivedAt(mean.flat[m][i], mn, mean.flat, i)
    requires node.Operator? && node.children != [] && |ids| == |node.children| && mn.setDefault == node.isAnd
    requires mn.ands == (if node.isAnd then ids else []) && mn.ors == if node.isAnd then [] else ids
    requires Queryable(node, attrs)
    requires forall j :: 0 <= j < |ids| ==>
               BuiltFor(mean, ids[j], splits, split, node.children[j], attrs, rows) && Regular(mean.flat[ids[j]], splits, split)
    ensures BitAt(mean.flat[m], split, u) <==> u < |rows| && Accepts(node, rows[u])
  {
    var i, o := u / split, u % split;
    DivMod(u, split);
    if u < |rows| {
      InRange(u, splits, split);
    }
    if i < splits {
      assert DerivedAt(mean.flat[m][i], mn, mean.flat, i);
      forall j | 0 <= j < |ids|
        ensures ChildBit(mean.flat, ids[j], i, o, u < |rows| && Accepts(node.children[j], rows[u]))
      {
        ChildSays(mean, ids[j], splits, split, node.children[j], attrs, rows, u);
      }
      JoinBits(mn, mean.flat, ids, i, o, node, rows, u);
    }
  }

  ghost predicate ChildBit(flat: seq<seq<Bits>>, id: nat, i: nat, o: nat, bit: bool) {
    id < |flat| && i < |flat[id]| && o < |flat[id][i]| && flat[id][i][o] == bit
  }

  lemma ChildSays(mean: Meaning, id: nat, splits: nat, split: nat, child: Node, attrs: seq<Attr>, rows: seq<Row>, u: nat)
    requires split > 0 && Queryable(child, attrs) && BuiltFor(mean, id, splits, split, child, attrs, rows)
    requires u / split < |mean.flat[id]| && u % split < |mean.flat[id][u / split]|
    ensures ChildBit(mean.flat, id, u / split, u % split, u < |rows| && Accepts(child, rows[u]))
  {
    assert BitAt(mean.flat[id], split, u) <==> u < |rows| && Accepts(child, rows[u]);
  }

  lemma JoinBits(mn: MapNode, flat: seq<seq<Bits>>, ids: seq<nat>, i: nat, o: nat, node: Node, rows: seq<Row>, u: nat)
    requires node.Operator? && node.children != [] && |ids| == |node.children| && mn.setDefault == node.isAnd
    requires mn.ands == (if node.isAnd then ids else []) && mn.ors == if node.isAnd then [] else ids
    requires forall j :: 0 <= j < |ids| ==> ChildBit(flat, ids[j], i, o, u < |rows| && Accepts(node.children[j], rows[u]))
    ensures Derived(mn, flat, i, o) <==> u < |rows| && Accepts(node, rows[u])
  {
    if node.isAnd {
      assert AllSet(flat, ids, |ids|, i, o) <==> forall j :: 0 <= j < |ids| ==> flat[ids[j]][i][o];
      assert ChildBit(flat, ids[0], i, o, u < |rows| && Accepts(node.children[0], rows[u]));
    } else {
      assert SomeSet(flat, ids, |ids|, i, o) <==> exists j :: 0 <= j < |ids| && flat[ids[j]][i][o];
    }
  }

  lemma SortedSame(s: seq<nat>, t: seq<nat>)
    requires Rising(s) && Rising(t) && forall u: nat :: u in s <==> u in t
    ensures s == t
  {
    assert s != [] ==> s[|s| - 1] in s;
    assert t != [] ==> t[|t| - 1] in t;
    if s != [] {
      LastSame(s, t);
      var s', t' := s[..|s| - 1], t[..|t| - 1];
      forall u: nat ensures u in s' <==> u in t' {
        Shorter(s, u);
        Shorter(t, u);
      }
      SortedSame(s', t');
    }
  }

  lemma LastSame(s: seq<nat>, t: seq<nat>)
    requires Rising(s) && Rising(t) && s != [] && t != [] && s[|s| - 1] in t && t[|t| - 1] in s
    ensures s[|s| - 1] == t[|t| - 1]
  {
  }

  lemma Shorter(s: seq<nat>, u: nat)
    requires s != [] && Rising(s)
    ensures u in s[..|s| - 1] <==> u in s && u != s[|s| - 1]
  {
  }

  /** How a query over lazy maps ends: a constant without rows throws, a block that does not exist
      crashes, and otherwise rows are met. */
  datatype Outcome = Thrown | Crashed | Met(rows: seq<nat>)

  /** Some block of the table lacks a constant of the query. */
  ghost predicate LacksBlock(node: Node, attrs: seq<Attr>, rows: seq<Row>, splits: nat, split: nat)
    requires Queryable(node, attrs) && split > 0
  {
    exists i :: 0 <= i < splits && !Backed(node, attrs, rows, split, i)
  }

  lemma SameLeaves(ix: LazyIndex, maps: seq<MapNode>)
    requires WellTyped(ix.attrs, ix.rows) && ix.arena.Valid() && |ix.rows| <= ix.arena.splits * ix.arena.split
    requires LeavesUpTo(ix.index, maps, ix.arena.mean, ix.tags, ix.arena.split, ix.attrs, ix.rows, |ix.rows|, 0)
    requires SameLinks(maps, ix.arena.maps)
    ensures ix.Built()
  {
    forall c | 0 <= c < |ix.attrs|
      ensures ColumnLeaves(ix.index, ix.arena.maps, ix.arena.mean, ix.tags, ix.arena.split, ix.attrs, ix.rows, |ix.rows|, 0, c)
    {
      assert ColumnLeaves(ix.index, maps, ix.arena.mean, ix.tags, ix.arena.split, ix.attrs, ix.rows, |ix.rows|, 0, c);
      if ix.attrs[c].cardinality != 0 {
        var ids := IdsOf(ix.index, ix.attrs[c].name);
        forall key | key in ids
          ensures LeafOk(ids[key], ix.arena.maps, ix.arena.mean, ix.arena.split, ix.attrs[c], ix.rows, key, |ix.rows|)
        {
          assert LeafOk(ids[key], maps, ix.arena.mean, ix.arena.split, ix.attrs[c], ix.rows, key, |ix.rows|);
        }
      }
    }
  }

  /** A combined map misses a block exactly where the query lacks a constant. */
  lemma MissingIffLacking(mean: Meaning, m: nat, splits: nat, split: nat, node: Node, attrs: seq<Attr>, rows: seq<Row>)
    requires split > 0 && Queryable(node, attrs) && BuiltFor(mean, m, splits, split, node, attrs, rows)
    ensures AnyMissing(node.Operator?, mean.solid[m]) <==> node.Operator? && LacksBlock(node, attrs, rows, splits, split)
  {
    if AnyMissing(node.Operator?, mean.solid[m]) {
      var i :| 0 <= i < |mean.solid[m]| && MissingIn(node.Operator?, mean.solid[m], i);
      assert !Backed(node, attrs, rows, split, i);
    }
    if node.Operator? && LacksBlock(node, attrs, rows, splits, split) {
      var i :| 0 <= i < splits && !Backed(node, attrs, rows, split, i);
      assert MissingIn(node.Operator?, mean.solid[m], i);
    }
  }

  /** One query; the index can be used again whatever its outcome, with all blocks combined so far. */
  method RunQuery(ix: LazyIndex, node: Node) returns (r: Outcome)
    requires ix.Built() && Queryable(node, ix.attrs) && AllDiscrete(node, ix.attrs) && OperatorsHaveChildren(node)
    modifies ix.arena
    ensures ix.Built()
    ensures r.Thrown? <==> !Held(node, ix.attrs, ix.rows)
    ensures r.Crashed? <==> Held(node, ix.attrs, ix.rows) && node.Operator?
                            && LacksBlock(node, ix.attrs, ix.rows, ix.arena.splits, ix.arena.split)
    ensures r.Met? ==> r.rows == Matches(node, ix.rows, |ix.rows|)
  {
    var m := BuildLazy(ix, node);
    if m.None? {
      return Thrown;
    }
    ghost var maps := ix.arena.maps;
    var crashed, met := ix.arena.Enumerate(m.value);
    SameLeaves(ix, maps);
    MissingIffLacking(ix.arena.mean, m.value, ix.arena.splits, ix.arena.split, node, ix.attrs, ix.rows);
    if crashed {
      return Crashed;
    }
    MetAreMatches(ix.arena.Flat(m.value), ix.arena.split, node, ix.rows, met);
    r := Met(met);
  }

  lemma MetAreMatches(f: seq<Bits>, split: nat, node: Node, rows: seq<Row>, met: seq<nat>)
    requires split > 0 && Lists(met, f, split) && Answers(f, split, node, rows)
    ensures met == Matches(node, rows, |rows|)
  {
    MatchesAre(node, rows, |rows|);
    var t := Matches(node, rows, |rows|);
    forall u: nat ensures u in met <==> u in t {
      InMatches(node, rows, |rows|, u);
      assert u in met <==> BitAt(f, split, u);
    }
    SortedSame(met, t);
  }

  // ---------- from a table ----------

  /** Blocks needed for so many rows, as the source rounds up. */
  function UpDiv(n: nat, split: nat): nat
    requires split > 0
  {
    (n + split - 1) / split
  }

  lemma UpDivCovers(n: nat, split: nat)
    requires split > 0
    ensures n <= UpDiv(n, split) * split < n + split
  {
    DivMod(n + split - 1, split);
  }

  /** Indexes a table and runs queries on it one after another. Each of them throws exactly when one
      of its constants occurs in no row, crashes exactly when it has an operator and one of its
      constants occurs in no row of some block, and otherwise meets exactly the rows the scan
      accepts, whatever was combined and kept for the queries before. */
  method RunTable(attrs: seq<Attr>, rows: seq<Row>, nodes: seq<Node>, split: nat, poolSize: nat) returns (r: seq<Outcome>)
    requires WellTyped(attrs, rows) && split > 0 && poolSize > 0 && |rows| + split < NPOS
    requires forall q :: 0 <= q < |nodes| ==>
               Queryable(nodes[q], attrs) && AllDiscrete(nodes[q], attrs) && OperatorsHaveChildren(nodes[q])
    ensures |r| == |nodes| && forall q :: 0 <= q < |nodes| ==> EndsAs(r[q], nodes[q], attrs, rows, split)
  {
    UpDivCovers(|rows|, split);
    var ix := new LazyIndex(attrs, rows, UpDiv(|rows|, split), split, poolSize);
    ix.Read();
    r := [];
    while |r| < |nodes|
      invariant |r| <= |nodes| && ix.Built() && fresh(ix) && fresh(ix.arena)
      invariant ix.attrs == attrs && ix.rows == rows && ix.arena.splits == UpDiv(|rows|, split) && ix.arena.split == split
      invariant forall q :: 0 <= q < |r| ==> EndsAs(r[q], nodes[q], attrs, rows, split)
    {
      var one := RunQuery(ix, nodes[|r|]);
      r := r + [one];
    }
  }

  ghost predicate EndsAs(r: Outcome, node: Node, attrs: seq<Attr>, rows: seq<Row>, split: nat)
    requires Queryable(node, attrs) && split > 0
  {
    if !Held(node, attrs, rows) then r == Thrown
    else if node.Operator? && LacksBlock(node, attrs, rows, UpDiv(|rows|, split), split) then r == Crashed
    else r == Met(Matches(node, rows, |rows|))
  }

  /** Two rows in two blocks and a query that accepts both: it crashes, because neither constant
      occurs in both blocks. */
  method CrashingTable() returns (r: seq<Outcome>, ghost rows: seq<Row>, ghost node: Node)
    ensures r == [Crashed] && Matches(node, rows, |rows|) == [0, 1]
  {
    var attrs := [Attr("a", Discrete, 2)];
    var table := [Row(map["a" := ULong(0)], 1.0), Row(map["a" := ULong(1)], 2.0)];
    var query := Operator(false, [Singleton("a", ULong(0)), Singleton("a", ULong(1))]);
    rows, node := table, query;
    CrashingFacts(attrs, table, query);
    r := RunTable(attrs, table, [query], 1, 1);
    assert EndsAs(r[0], query, attrs, table, 1);
  }

  lemma CrashingFacts(attrs: seq<Attr>, rows: seq<Row>, node: Node)
    requires attrs == [Attr("a", Discrete, 2)]
    requires rows == [Row(map["a" := ULong(0)], 1.0), Row(map["a" := ULong(1)], 2.0)]
    requires node == Operator(false, [Singleton("a", ULong(0)), Singleton("a", ULong(1))])
    ensures WellTyped(attrs, rows) && Queryable(node, attrs) && AllDiscrete(node, attrs) && OperatorsHaveChildren(node)
    ensures Held(node, attrs, rows) && LacksBlock(node, attrs, rows, UpDiv(|rows|, 1), 1)
    ensures Matches(node, rows, |rows|) == [0, 1]
  {
    assert SchemaAttr(attrs, "a") == Some(attrs[0]);
    assert rows[0].Val("a") == ULong(0) && rows[1].Val("a") == ULong(1);
    assert HasKey(attrs[0], rows, 0, 0) && HasKey(attrs[0], rows, 1, 1);
    assert KeySeen(attrs[0], rows, 0, 2) && KeySeen(attrs[0], rows, 1, 2);
    assert Accepts(node.children[0], rows[0]) && Accepts(node.children[1], rows[1]);
    assert !Backed(node.children[1], attrs, rows, 1, 0);
    assert !Backed(node, attrs, rows, 1, 0);
    assert Matches(node, rows, 0) == [] && Matches(node, rows, 1) == [0];
  }
}
