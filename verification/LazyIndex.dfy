/** The index of a table as lazy maps: one leaf for every key of every indexed attribute. */
module LazyIndexes {
  import opened Bitmaps
  import opened Densities
  import opened LazyBitmaps
  import opened Records
  import opened SwiftIndexes

  type KeyIds = map<nat, nat>

  function IdsOf(index: map<string, KeyIds>, name: string): KeyIds {
    if name in index then index[name] else map[]
  }

  // ---------- what a leaf means ----------

  /** Among the first `n` rows a leaf marks exactly those with the key, and it has a block exactly
      where one of them lies. */
  ghost predicate LeafMarks(f: seq<Bits>, solid: seq<bool>, split: nat, attr: Attr, rows: seq<Row>, key: nat, n: nat)
    requires attr.Valid() && n <= |rows| && split > 0
  {
    && (forall u: nat :: BitAt(f, split, u) <==> u < n && HasKey(attr, rows, u, key))
    && (forall i :: 0 <= i < |solid| ==> solid[i] == UnitHas(attr, rows, i, key, n, Lossy(split)))
  }

  ghost predicate LeafOk(id: nat, maps: seq<MapNode>, mean: Meaning, split: nat, attr: Attr, rows: seq<Row>, key: nat, n: nat)
    requires attr.Valid() && n <= |rows| && split > 0
  {
    && id < |maps| && id < |mean.flat| && id < |mean.solid| && !maps[id].HasChildren()
    && LeafMarks(mean.flat[id], mean.solid[id], split, attr, rows, key, n)
  }

  ghost predicate LeavesOk(ids: KeyIds, maps: seq<MapNode>, mean: Meaning, split: nat, attr: Attr, rows: seq<Row>, n: nat)
    requires attr.Valid() && n <= |rows| && split > 0
  {
    && (forall key: nat :: key in ids <==> KeySeen(attr, rows, key, n))
    && (forall key :: key in ids ==> LeafOk(ids[key], maps, mean, split, attr, rows, key, n))
  }

  /** Every leaf belongs to one attribute and key. */
  ghost predicate Tagged(ids: KeyIds, tags: seq<(string, nat)>, name: string) {
    forall key :: key in ids ==> ids[key] < |tags| && tags[ids[key]] == (name, key)
  }

  /** A row without the key changes nothing. */
  lemma OtherLeaf(f: seq<Bits>, solid: seq<bool>, split: nat, attr: Attr, rows: seq<Row>, key: nat, n: nat, k: nat)
    requires attr.Valid() && n < |rows| && split > 0 && HasKey(attr, rows, n, key) && k != key
    requires LeafMarks(f, solid, split, attr, rows, k, n)
    ensures LeafMarks(f, solid, split, attr, rows, k, n + 1)
  {
    var next := n + 1;
    forall i | 0 <= i < |solid| ensures solid[i] == UnitHas(attr, rows, i, k, next, Lossy(split)) {
      UnitNext(attr, rows, n, key, k, i, Lossy(split));
    }
    forall u: nat ensures BitAt(f, split, u) <==> u < next && HasKey(attr, rows, u, k) {
      assert u < next ==> u < n || u == n;
    }
  }

  /** A block that no row has the key in holds no bit. */
  lemma NoBlockNoBits(f: seq<Bits>, solid: seq<bool>, splits: nat, split: nat, attr: Attr, rows: seq<Row>, key: nat, n: nat, i: nat)
    requires attr.Valid() && n <= |rows| && split > 0 && LeafMarks(f, solid, split, attr, rows, key, n)
    requires Regular(f, splits, split) && |solid| == splits && i < splits && !solid[i]
    ensures f[i] == AllBits(split, false)
  {
    forall o | 0 <= o < split ensures !f[i][o] {
      Position(i, o, split);
      var u := i * split + o;
      if f[i][o] {
        assert BitAt(f, split, u);
        assert UnitHas(attr, rows, i, key, n, Lossy(split));
      }
    }
  }

  /** Setting a row that has the key. */
  lemma SetLeaf(f: seq<Bits>, solid: seq<bool>, splits: nat, split: nat, attr: Attr, rows: seq<Row>, key: nat, row: nat,
                i: nat, o: nat, f': seq<Bits>, solid': seq<bool>)
    requires attr.Valid() && split > 0 && row < |rows| && HasKey(attr, rows, row, key)
    requires LeafMarks(f, solid, split, attr, rows, key, row)
    requires Regular(f, splits, split) && |solid| == splits && i == row / split < splits && o == row % split < split
    requires f' == f[i := f[i][o := true]] && solid' == solid[i := true]
    ensures LeafMarks(f', solid', split, attr, rows, key, row + 1)
  {
    var next := row + 1;
    forall u: nat ensures BitAt(f', split, u) <==> u < next && HasKey(attr, rows, u, key) {
      BitSet(f, splits, split, row, i, o, f', u);
      assert BitAt(f, split, u) <==> u < row && HasKey(attr, rows, u, key);
    }
    forall k | 0 <= k < |solid'| ensures solid'[k] == UnitHas(attr, rows, k, key, next, Lossy(split)) {
      UnitNext(attr, rows, row, key, key, k, Lossy(split));
    }
  }

  lemma BitSet(f: seq<Bits>, splits: nat, split: nat, row: nat, i: nat, o: nat, f': seq<Bits>, u: nat)
    requires Regular(f, splits, split) && i == row / split < splits && o == row % split < split
    requires f' == f[i := f[i][o := true]]
    ensures BitAt(f', split, u) <==> BitAt(f, split, u) || u == row
  {
    SamePosition(u, row, split);
    CellSet(f, splits, split, i, o, f', u / split, u % split);
  }

  lemma CellSet(f: seq<Bits>, splits: nat, split: nat, i: nat, o: nat, f': seq<Bits>, p: nat, q: nat)
    requires Regular(f, splits, split) && i < splits && o < split && f' == f[i := f[i][o := true]]
    ensures p < |f'| && q < |f'[p]| && f'[p][q] <==> (p == i && q == o) || (p < |f| && q < |f[p]| && f[p][q])
  {
  }

  lemma SamePosition(u: nat, v: nat, split: nat)
    requires split > 0
    ensures u / split == v / split && u % split == v % split <==> u == v
  {
    DivMod(u, split);
    DivMod(v, split);
  }

  /** The leaf after its row was set. */
  lemma RowIsSet(id: nat, a: seq<MapNode>, am: Meaning, b: seq<MapNode>, bm: Meaning, splits: nat, split: nat, attr: Attr,
                 rows: seq<Row>, row: nat, key: nat)
    requires attr.Valid() && row < |rows| <= splits * split && split > 0 && HasKey(attr, rows, row, key)
    requires LeafOk(id, a, am, split, attr, rows, key, row) && !a[id].setDefault && OnlyNode(a, b, id) && OnlyAt(am, bm, id)
    requires Regular(am.flat[id], splits, split) && |am.solid[id]| == splits && row / split < splits
    requires var i := row / split;
             var was := if am.solid[id][i] then am.flat[id][i] else AllBits(split, false);
             && bm.flat[id] == am.flat[id][i := was[row % split := true]]
             && bm.solid[id] == am.solid[id][i := true]
    ensures LeafOk(id, b, bm, split, attr, rows, key, row + 1)
  {
    var i, o := row / split, row % split;
    DivMod(row, split);
    if !am.solid[id][i] {
      NoBlockNoBits(am.flat[id], am.solid[id], splits, split, attr, rows, key, row, i);
    }
    SetLeaf(am.flat[id], am.solid[id], splits, split, attr, rows, key, row, i, o, bm.flat[id], bm.solid[id]);
  }

  /** A leaf without rows. */
  lemma EmptyLeaf(f: seq<Bits>, solid: seq<bool>, splits: nat, split: nat, attr: Attr, rows: seq<Row>, key: nat, n: nat)
    requires attr.Valid() && n <= |rows| && !KeySeen(attr, rows, key, n) && Regular(f, splits, split) && |solid| == splits
    requires (forall i :: 0 <= i < splits ==> !solid[i]) && forall i :: 0 <= i < splits ==> NoneSet(f[i], 0)
    ensures LeafMarks(f, solid, split, attr, rows, key, n)
  {
    forall i | 0 <= i < |solid| ensures solid[i] == UnitHas(attr, rows, i, key, n, Lossy(split)) {
      UnitIsSeen(attr, rows, i, key, n, Lossy(split));
    }
    forall u: nat ensures BitAt(f, split, u) <==> u < n && HasKey(attr, rows, u, key) {
      NoBit(f, splits, split, u);
      assert u < n && HasKey(attr, rows, u, key) ==> KeySeen(attr, rows, key, n);
    }
  }

  lemma NoBit(f: seq<Bits>, splits: nat, split: nat, u: nat)
    requires Regular(f, splits, split) && forall i :: 0 <= i < splits ==> NoneSet(f[i], 0)
    ensures !BitAt(f, split, u)
  {
  }

  // ---------- steps ----------

  /** Leaves keep their meaning when maps are added. */
  lemma LeavesStay(ids: KeyIds, a: seq<MapNode>, b: seq<MapNode>, am: Meaning, bm: Meaning, split: nat, attr: Attr, rows: seq<Row>, n: nat)
    requires attr.Valid() && n <= |rows| && split > 0 && LeavesOk(ids, a, am, split, attr, rows, n)
    requires |a| <= |b| && b[..|a|] == a && Extends(am, bm)
    ensures LeavesOk(ids, b, bm, split, attr, rows, n)
  {
    forall key | key in ids ensures LeafOk(ids[key], b, bm, split, attr, rows, key, n) {
      LeafStays(ids[key], a, b, am, bm, split, attr, rows, key, n);
    }
  }

  lemma LeafStays(id: nat, a: seq<MapNode>, b: seq<MapNode>, am: Meaning, bm: Meaning, split: nat, attr: Attr, rows: seq<Row>, key: nat, n: nat)
    requires attr.Valid() && n <= |rows| && split > 0 && LeafOk(id, a, am, split, attr, rows, key, n)
    requires |a| <= |b| && b[..|a|] == a && Extends(am, bm)
    ensures LeafOk(id, b, bm, split, attr, rows, key, n)
  {
    assert b[..|a|][id] == a[id] && bm.flat[..|am.flat|][id] == am.flat[id] && bm.solid[..|am.solid|][id] == am.solid[id];
  }

  /** Setting a row of one leaf leaves those of another attribute as they are. */
  lemma LeavesApart(ids: KeyIds, a: seq<MapNode>, b: seq<MapNode>, am: Meaning, bm: Meaning, split: nat, attr: Attr, rows: seq<Row>,
                    n: nat, tags: seq<(string, nat)>, m: nat, name: string)
    requires attr.Valid() && n <= |rows| && split > 0 && LeavesOk(ids, a, am, split, attr, rows, n)
    requires Tagged(ids, tags, attr.name) && m < |tags| && tags[m].0 == name && name != attr.name
    requires OnlyNode(a, b, m) && OnlyAt(am, bm, m)
    ensures LeavesOk(ids, b, bm, split, attr, rows, n)
  {
    forall key | key in ids ensures LeafOk(ids[key], b, bm, split, attr, rows, key, n) {
      assert LeafOk(ids[key], a, am, split, attr, rows, key, n);
      assert ids[key] != m;
    }
  }

  /** The leaves of an attribute before a row is set that has the key: the key's leaf is there. */
  ghost predicate Prepared(ids: KeyIds, maps: seq<MapNode>, mean: Meaning, tags: seq<(string, nat)>, split: nat,
                           attr: Attr, rows: seq<Row>, row: nat, key: nat)
    requires attr.Valid() && row <= |rows| && split > 0
  {
    && key in ids && Tagged(ids, tags, attr.name)
    && (forall k: nat :: k in ids <==> KeySeen(attr, rows, k, row) || k == key)
    && (forall k :: k in ids ==> LeafOk(ids[k], maps, mean, split, attr, rows, k, row))
  }

  /** The leaves of one attribute after one more row. */
  lemma NextLeaves(ids: KeyIds, a: seq<MapNode>, b: seq<MapNode>, am: Meaning, bm: Meaning, tags: seq<(string, nat)>, split: nat,
                   attr: Attr, rows: seq<Row>, row: nat, key: nat)
    requires attr.Valid() && row < |rows| && split > 0 && HasKey(attr, rows, row, key)
    requires Prepared(ids, a, am, tags, split, attr, rows, row, key) && OnlyNode(a, b, ids[key]) && OnlyAt(am, bm, ids[key])
    requires LeafOk(ids[key], b, bm, split, attr, rows, key, row + 1)
    ensures LeavesOk(ids, b, bm, split, attr, rows, row + 1)
  {
    forall k: nat ensures k in ids <==> KeySeen(attr, rows, k, row + 1) {
      SeenNext(attr, rows, row, key, k);
    }
    forall k | k in ids && k != key ensures LeafOk(ids[k], b, bm, split, attr, rows, k, row + 1) {
      assert LeafOk(ids[k], a, am, split, attr, rows, k, row);
      assert ids[k] != ids[key];
      OtherLeaf(am.flat[ids[k]], am.solid[ids[k]], split, attr, rows, key, row, k);
    }
  }

  // ---------- how far the index has been read ----------

  ghost predicate ColumnLeaves(index: map<string, KeyIds>, maps: seq<MapNode>, mean: Meaning, tags: seq<(string, nat)>, split: nat,
                               attrs: seq<Attr>, rows: seq<Row>, row: nat, col: nat, c: nat)
    requires split > 0 && c < |attrs| && attrs[c].Valid() && row <= |rows| && (c < col ==> row < |rows|)
  {
    if attrs[c].cardinality == 0 then attrs[c].name !in index
    else
      && LeavesOk(IdsOf(index, attrs[c].name), maps, mean, split, attrs[c], rows, if c < col then row + 1 else row)
      && Tagged(IdsOf(index, attrs[c].name), tags, attrs[c].name)
  }

  ghost predicate LeavesUpTo(index: map<string, KeyIds>, maps: seq<MapNode>, mean: Meaning, tags: seq<(string, nat)>, split: nat,
                             attrs: seq<Attr>, rows: seq<Row>, row: nat, col: nat)
    requires split > 0 && (forall c :: 0 <= c < |attrs| ==> attrs[c].Valid()) && row <= |rows| && (col > 0 ==> row < |rows|)
  {
    forall c :: 0 <= c < |attrs| ==> ColumnLeaves(index, maps, mean, tags, split, attrs, rows, row, col, c)
  }

  lemma RowRead(index: map<string, KeyIds>, maps: seq<MapNode>, mean: Meaning, tags: seq<(string, nat)>, split: nat,
                attrs: seq<Attr>, rows: seq<Row>, row: nat, next: nat)
    requires split > 0 && WellTyped(attrs, rows) && row < |rows| && next == row + 1
    requires LeavesUpTo(index, maps, mean, tags, split, attrs, rows, row, |attrs|)
    ensures LeavesUpTo(index, maps, mean, tags, split, attrs, rows, next, 0)
  {
    forall c | 0 <= c < |attrs| ensures ColumnLeaves(index, maps, mean, tags, split, attrs, rows, next, 0, c) {
      assert ColumnLeaves(index, maps, mean, tags, split, attrs, rows, row, |attrs|, c);
    }
  }

  lemma ColumnSkipped(index: map<string, KeyIds>, maps: seq<MapNode>, mean: Meaning, tags: seq<(string, nat)>, split: nat,
                      attrs: seq<Attr>, rows: seq<Row>, row: nat, col: nat, next: nat)
    requires split > 0 && WellTyped(attrs, rows) && row < |rows| && col < |attrs| && attrs[col].cardinality == 0 && next == col + 1
    requires LeavesUpTo(index, maps, mean, tags, split, attrs, rows, row, col)
    ensures LeavesUpTo(index, maps, mean, tags, split, attrs, rows, row, next)
  {
    forall c | 0 <= c < |attrs| ensures ColumnLeaves(index, maps, mean, tags, split, attrs, rows, row, next, c) {
      assert ColumnLeaves(index, maps, mean, tags, split, attrs, rows, row, col, c);
    }
  }

  lemma AllStay(index: map<string, KeyIds>, a: seq<MapNode>, b: seq<MapNode>, am: Meaning, bm: Meaning, tags: seq<(string, nat)>, split: nat,
                attrs: seq<Attr>, rows: seq<Row>, row: nat, col: nat)
    requires split > 0 && (forall c :: 0 <= c < |attrs| ==> attrs[c].Valid()) && row <= |rows| && (col > 0 ==> row < |rows|)
    requires LeavesUpTo(index, a, am, tags, split, attrs, rows, row, col)
    requires |a| <= |b| && b[..|a|] == a && Extends(am, bm)
    ensures LeavesUpTo(index, b, bm, tags, split, attrs, rows, row, col)
  {
    forall c | 0 <= c < |attrs| ensures ColumnLeaves(index, b, bm, tags, split, attrs, rows, row, col, c) {
      assert ColumnLeaves(index, a, am, tags, split, attrs, rows, row, col, c);
      if attrs[c].cardinality != 0 {
        LeavesStay(IdsOf(index, attrs[c].name), a, b, am, bm, split, attrs[c], rows, if c < col then row + 1 else row);
      }
    }
  }

  ghost predicate OthersOk(index: map<string, KeyIds>, maps: seq<MapNode>, mean: Meaning, tags: seq<(string, nat)>, split: nat,
                           attrs: seq<Attr>, rows: seq<Row>, row: nat, col: nat)
    requires split > 0 && (forall c :: 0 <= c < |attrs| ==> attrs[c].Valid()) && row < |rows|
  {
    forall c :: 0 <= c < |attrs| && c != col ==> ColumnLeaves(index, maps, mean, tags, split, attrs, rows, row, col, c)
  }

  /** One attribute took a value of the row; the others keep their leaves. */
  lemma ColumnRead(index: map<string, KeyIds>, a: seq<MapNode>, am: Meaning, b: seq<MapNode>, bm: Meaning, tags: seq<(string, nat)>,
                   m: nat, split: nat, attrs: seq<Attr>, rows: seq<Row>, row: nat, col: nat, next: nat)
    requires split > 0 && WellTyped(attrs, rows) && row < |rows| && col < |attrs| && attrs[col].cardinality != 0 && next == col + 1
    requires OthersOk(index, a, am, tags, split, attrs, rows, row, col)
    requires m < |tags| && tags[m].0 == attrs[col].name && OnlyNode(a, b, m) && OnlyAt(am, bm, m)
    requires LeavesOk(IdsOf(index, attrs[col].name), b, bm, split, attrs[col], rows, row + 1)
    requires Tagged(IdsOf(index, attrs[col].name), tags, attrs[col].name)
    ensures LeavesUpTo(index, b, bm, tags, split, attrs, rows, row, next)
  {
    forall c | 0 <= c < |attrs| ensures ColumnLeaves(index, b, bm, tags, split, attrs, rows, row, next, c) {
      if c != col {
        assert ColumnLeaves(index, a, am, tags, split, attrs, rows, row, col, c);
        assert attrs[c].name != attrs[col].name;
        if attrs[c].cardinality != 0 {
          LeavesApart(IdsOf(index, attrs[c].name), a, b, am, bm, split, attrs[c], rows, if c < col then row + 1 else row,
                      tags, m, attrs[col].name);
        }
      }
    }
  }

  /** A leaf was added for a key that came up first. */
  lemma LeafAdded(index: map<string, KeyIds>, a: seq<MapNode>, am: Meaning, b: seq<MapNode>, bm: Meaning, tags: seq<(string, nat)>,
                  splits: nat, split: nat, attrs: seq<Attr>, rows: seq<Row>, row: nat, col: nat, key: nat, id: nat)
    requires split > 0 && WellTyped(attrs, rows) && row < |rows| && col < |attrs| && attrs[col].cardinality != 0
    requires LeavesUpTo(index, a, am, tags, split, attrs, rows, row, col) && key !in IdsOf(index, attrs[col].name)
    requires |tags| == |a| == id < |b| && b[..|a|] == a && Extends(am, bm) && !b[id].HasChildren()
    requires id < |bm.flat| && id < |bm.solid| && Regular(bm.flat[id], splits, split) && |bm.solid[id]| == splits
    requires forall i :: 0 <= i < splits ==> !bm.solid[id][i]
    requires forall i :: 0 <= i < splits ==> NoneSet(bm.flat[id][i], 0)
    ensures var ids := IdsOf(index, attrs[col].name)[key := id];
            var tags' := tags + [(attrs[col].name, key)];
            && OthersOk(index[attrs[col].name := ids], b, bm, tags', split, attrs, rows, row, col)
            && Prepared(ids, b, bm, tags', split, attrs[col], rows, row, key)
  {
    var ids := IdsOf(index, attrs[col].name)[key := id];
    var tags' := tags + [(attrs[col].name, key)];
    var index' := index[attrs[col].name := ids];
    AllStay(index, a, b, am, bm, tags, split, attrs, rows, row, col);
    assert ColumnLeaves(index, b, bm, tags, split, attrs, rows, row, col, col);
    EmptyLeaf(bm.flat[id], bm.solid[id], splits, split, attrs[col], rows, key, row);
    forall c | 0 <= c < |attrs| && c != col
      ensures ColumnLeaves(index', b, bm, tags', split, attrs, rows, row, col, c)
    {
      assert ColumnLeaves(index, b, bm, tags, split, attrs, rows, row, col, c);
      assert attrs[c].name != attrs[col].name;
    }
  }

  /** No map combines another one while the index is read. */
  ghost predicate AllLeaves(maps: seq<MapNode>) {
    forall n :: 0 <= n < |maps| ==> maps[n].ands == [] && maps[n].ors == [] && !maps[n].setDefault
  }

  class LazyIndex {
    const arena: Arena
    const attrs: seq<Attr>
    const rows: seq<Row>
    var index: map<string, KeyIds>
    ghost var tags: seq<(string, nat)>

    /** The whole table has been read; combined maps may have been added since. */
    ghost predicate Built()
      reads this, arena
    {
      && WellTyped(attrs, rows) && arena.Valid() && |rows| <= arena.splits * arena.split
      && LeavesUpTo(index, arena.maps, arena.mean, tags, arena.split, attrs, rows, |rows|, 0)
    }

    ghost predicate Reading(row: nat, col: nat)
      requires row <= |rows| && (col > 0 ==> row < |rows|)
      reads this, arena
    {
      && WellTyped(attrs, rows) && arena.Valid() && |rows| <= arena.splits * arena.split
      && |tags| == |arena.maps| && AllLeaves(arena.maps)
      && LeavesUpTo(index, arena.maps, arena.mean, tags, arena.split, attrs, rows, row, col)
    }

    constructor (attrs: seq<Attr>, rows: seq<Row>, splits: nat, split: nat, poolSize: nat)
      requires WellTyped(attrs, rows) && poolSize > 0 && split > 0 && |rows| <= splits * split < NPOS
      ensures Reading(0, 0) && fresh(arena) && this.attrs == attrs && this.rows == rows
      ensures arena.splits == splits && arena.split == split
    {
      arena := new Arena(splits, split, poolSize);
      this.attrs, this.rows, index, tags := attrs, rows, map[], [];
    }

    /** Indexes all rows. */
    method Read()
      requires Reading(0, 0)
      modifies this, arena
      ensures Built()
    {
      var row := 0;
      while row < |rows|
        invariant 0 <= row <= |rows| && Reading(row, 0)
      {
        var col := 0;
        while col < |attrs|
          invariant 0 <= col <= |attrs| && Reading(row, col)
        {
          ghost var next := col + 1;
          if attrs[col].cardinality != 0 {
            ReadValue(row, col, next);
          } else {
            ColumnSkipped(index, arena.maps, arena.mean, tags, arena.split, attrs, rows, row, col, next);
          }
          col := col + 1;
        }
        RowRead(index, arena.maps, arena.mean, tags, arena.split, attrs, rows, row, row + 1);
        row := row + 1;
      }
    }

    /** Sets the row in the leaf of its key. */
    method ReadValue(row: nat, col: nat, ghost next: nat)
      requires row < |rows| && col < |attrs| && attrs[col].cardinality != 0 && next == col + 1 && Reading(row, col)
      modifies this, arena
      ensures Reading(row, next)
    {
      var attr := attrs[col];
      assert ColumnLeaves(index, arena.maps, arena.mean, tags, arena.split, attrs, rows, row, col, col);
      var key := GetKey(attr.bin, rows[row].Val(attr.name)).value;
      var id := LeafFor(row, col, key);
      ghost var maps0, mean0 := arena.maps, arena.mean;
      assert LeafOk(id, maps0, mean0, arena.split, attr, rows, key, row);
      arena.Set(id, row);
      RowIsSet(id, maps0, mean0, arena.maps, arena.mean, arena.splits, arena.split, attr, rows, row, key);
      NextLeaves(IdsOf(index, attr.name), maps0, arena.maps, mean0, arena.mean, tags, arena.split, attr, rows, row, key);
      ColumnRead(index, maps0, mean0, arena.maps, arena.mean, tags, id, arena.split, attrs, rows, row, col, next);
    }

    /** The leaf of a key; it is made when the key comes up first. */
    method LeafFor(row: nat, col: nat, key: nat) returns (id: nat)
      requires row < |rows| && col < |attrs| && attrs[col].cardinality != 0 && Reading(row, col)
      modifies this, arena`maps, arena`mean
      ensures arena.Valid() && |tags| == |arena.maps| && AllLeaves(arena.maps)
      ensures OthersOk(index, arena.maps, arena.mean, tags, arena.split, attrs, rows, row, col)
      ensures Prepared(IdsOf(index, attrs[col].name), arena.maps, arena.mean, tags, arena.split, attrs[col], rows, row, key)
      ensures IdsOf(index, attrs[col].name)[key] == id
    {
      var name := attrs[col].name;
      var ids: KeyIds := IdsOf(index, name);
      assert ColumnLeaves(index, arena.maps, arena.mean, tags, arena.split, attrs, rows, row, col, col);
      if key in ids {
        id := ids[key];
      } else {
        ghost var maps0, mean0 := arena.maps, arena.mean;
        id := arena.AddMap(false, [], []);
        forall i | 0 <= i < arena.splits ensures !arena.mean.solid[id][i] && NoneSet(arena.mean.flat[id][i], 0) {
          assert !arena.Solid(id, i);
        }
        LeafAdded(index, maps0, mean0, arena.maps, arena.mean, tags, arena.splits, arena.split, attrs, rows, row, col, key, id);
        index := index[name := ids[key := id]];
        tags := tags + [(name, key)];
      }
    }
  }
}
