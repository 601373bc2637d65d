/** Lazy bitmaps: blocks are combined when they are first looked at, kept, and drawn from a
    pool that finished maps give their blocks back to. */
module LazyBitmaps {
  import opened Bitmaps
  import opened Densities
  import opened Records

  /** A map: its blocks as far as they exist, and the maps it combines. */
  datatype MapNode = MapNode(setDefault: bool, v: seq<Option<nat>>, ands: seq<nat>, ors: seq<nat>) {
    predicate HasChildren() {
      ands != [] || ors != []
    }
  }

  /** What looking at a block gives: nothing for a block of a leaf that was never set. */
  datatype Found = Crash | Null | Block(id: nat)

  // ---------- meaning ----------

  /** The bits of every map, block by block; which blocks can be looked at; and a level for every
      map above the levels of its children. All three stay the same while blocks are looked at. */
  datatype Meaning = Meaning(flat: seq<seq<Bits>>, solid: seq<seq<bool>>, level: seq<nat>)

  ghost predicate Shaped(mean: Meaning, n: nat, splits: nat, split: nat) {
    && |mean.flat| == |mean.solid| == |mean.level| == n
    && (forall m :: 0 <= m < n ==> |mean.flat[m]| == |mean.solid[m]| == splits)
    && (forall m, i :: 0 <= m < n && 0 <= i < splits ==> |mean.flat[m][i]| == split)
  }

  ghost predicate ChildrenBelow(node: MapNode, level: seq<nat>, m: nat)
    requires m < |level|
  {
    && (forall k :: 0 <= k < |node.ands| ==> node.ands[k] < |level| && level[node.ands[k]] < level[m])
    && (forall k :: 0 <= k < |node.ors| ==> node.ors[k] < |level| && level[node.ors[k]] < level[m])
  }

  ghost predicate AllSet(flat: seq<seq<Bits>>, ids: seq<nat>, n: nat, i: nat, o: nat) {
    n <= |ids| && forall k :: 0 <= k < n ==> ids[k] < |flat| && i < |flat[ids[k]]| && o < |flat[ids[k]][i]| && flat[ids[k]][i][o]
  }

  ghost predicate SomeSet(flat: seq<seq<Bits>>, ids: seq<nat>, n: nat, i: nat, o: nat) {
    n <= |ids| && exists k :: 0 <= k < n && ids[k] < |flat| && i < |flat[ids[k]]| && o < |flat[ids[k]][i]| && flat[ids[k]][i][o]
  }

  /** A bit of a combined block. */
  ghost predicate Derived(node: MapNode, flat: seq<seq<Bits>>, i: nat, o: nat) {
    PartlyDerived(node, flat, i, o, |node.ands|, |node.ors|)
  }

  /** The same when only some of the children have been combined. */
  ghost predicate PartlyDerived(node: MapNode, flat: seq<seq<Bits>>, i: nat, o: nat, ands: nat, ors: nat) {
    (node.setDefault && AllSet(flat, node.ands, ands, i, o)) || SomeSet(flat, node.ors, ors, i, o)
  }

  ghost predicate AllSolid(solid: seq<seq<bool>>, ids: seq<nat>, n: nat, i: nat) {
    n <= |ids| && forall k :: 0 <= k < n ==> ids[k] < |solid| && i < |solid[ids[k]]| && solid[ids[k]][i]
  }

  ghost predicate NodeOk(node: MapNode, mean: Meaning, m: nat, i: nat, blocks: seq<Bits>)
    requires m < |mean.flat| && m < |mean.solid| && i < |mean.flat[m]| && i < |mean.solid[m]| && i < |node.v|
  {
    && (node.v[i].Some? ==>
          node.v[i].value < |blocks| && blocks[node.v[i].value] == mean.flat[m][i] && mean.solid[m][i])
    && (node.v[i].None? && !node.HasChildren() ==>
          !mean.solid[m][i] && forall o :: 0 <= o < |mean.flat[m][i]| ==> !mean.flat[m][i][o])
    && (node.HasChildren() ==>
          && mean.solid[m][i] == (AllSolid(mean.solid, node.ands, |node.ands|, i) && AllSolid(mean.solid, node.ors, |node.ors|, i))
          && forall o :: 0 <= o < |mean.flat[m][i]| ==> mean.flat[m][i][o] == Derived(node, mean.flat, i, o))
  }

  /** Who holds a block: the pool, a place in a map, or a combination that is under way. */
  datatype Owner = Pooled | At(m: nat, i: nat) | Loose

  /** Maps never share a block, and no map's block is in the pool. */
  ghost predicate OwnersOk(maps: seq<MapNode>, pool: seq<nat>, owner: seq<Owner>) {
    && (forall m, i :: 0 <= m < |maps| && 0 <= i < |maps[m].v| ==> PlaceOk(maps[m], m, i, owner))
    && (forall k :: 0 <= k < |pool| ==> pool[k] < |owner| && owner[pool[k]].Pooled?)
    && (forall j, k :: 0 <= j < k < |pool| ==> pool[j] != pool[k])
  }

  ghost predicate PlaceOk(node: MapNode, m: nat, i: nat, owner: seq<Owner>)
    requires i < |node.v|
  {
    node.v[i].Some? ==> node.v[i].value < |owner| && owner[node.v[i].value] == At(m, i)
  }

  ghost predicate MapsOk(maps: seq<MapNode>, mean: Meaning, blocks: seq<Bits>, splits: nat, split: nat) {
    && Shaped(mean, |maps|, splits, split)
    && (forall x :: 0 <= x < |blocks| ==> |blocks[x]| == split)
    && (forall m :: 0 <= m < |maps| ==> |maps[m].v| == splits && ChildrenBelow(maps[m], mean.level, m))
    && (forall m, i :: 0 <= m < |maps| && 0 <= i < splits ==> NodeOk(maps[m], mean, m, i, blocks))
  }

  ghost predicate IsPart(b: Bits, node: MapNode, flat: seq<seq<Bits>>, i: nat, ands: nat, ors: nat) {
    forall o :: 0 <= o < |b| ==> (b[o] <==> PartlyDerived(node, flat, i, o, ands, ors))
  }

  lemma AndNext(was: Bits, now: Bits, node: MapNode, flat: seq<seq<Bits>>, i: nat, k: nat)
    requires IsPart(was, node, flat, i, k, 0) && |now| == |was| && k < |node.ands|
    requires node.ands[k] < |flat| && i < |flat[node.ands[k]]| && |flat[node.ands[k]][i]| == |was|
    requires forall o :: 0 <= o < |was| ==> (now[o] <==> was[o] && flat[node.ands[k]][i][o])
    ensures IsPart(now, node, flat, i, k + 1, 0)
  {
    forall o | 0 <= o < |now| ensures now[o] <==> PartlyDerived(node, flat, i, o, k + 1, 0) {
      assert was[o] <==> PartlyDerived(node, flat, i, o, k, 0);
    }
  }

  lemma OrNext(was: Bits, now: Bits, node: MapNode, flat: seq<seq<Bits>>, i: nat, k: nat)
    requires IsPart(was, node, flat, i, |node.ands|, k) && |now| == |was| && k < |node.ors|
    requires node.ors[k] < |flat| && i < |flat[node.ors[k]]| && |flat[node.ors[k]][i]| == |was|
    requires forall o :: 0 <= o < |was| ==> (now[o] <==> was[o] || flat[node.ors[k]][i][o])
    ensures IsPart(now, node, flat, i, |node.ands|, k + 1)
  {
    forall o | 0 <= o < |now| ensures now[o] <==> PartlyDerived(node, flat, i, o, |node.ands|, k + 1) {
      assert was[o] <==> PartlyDerived(node, flat, i, o, |node.ands|, k);
    }
  }

  // ---------- what a step may change ----------

  /** Blocks outside the pool, but for block `b`, stay as they are. */
  ghost predicate Kept(blocks: seq<Bits>, owner: seq<Owner>, blocks': seq<Bits>, owner': seq<Owner>, b: int) {
    && |blocks| == |owner| <= |owner'| == |blocks'|
    && forall x :: 0 <= x < |owner| && !owner[x].Pooled? ==>
         owner'[x] == owner[x] && (x != b ==> blocks'[x] == blocks[x])
  }

  ghost predicate SameShape(a: MapNode, b: MapNode) {
    && a.setDefault == b.setDefault && a.ands == b.ands && a.ors == b.ors && |a.v| == |b.v|
    && forall i :: 0 <= i < |a.v| && a.v[i].Some? ==> b.v[i] == a.v[i]
  }

  /** Maps only gain blocks, and only maps below the bound do. */
  ghost predicate Gained(maps: seq<MapNode>, maps': seq<MapNode>, level: seq<nat>, bound: nat) {
    && |maps| == |maps'| == |level|
    && forall m :: 0 <= m < |maps| ==>
         SameShape(maps[m], maps'[m]) && (level[m] >= bound ==> maps'[m] == maps[m])
  }

  /** The same maps combine the same children. */
  ghost predicate SameLinks(a: seq<MapNode>, b: seq<MapNode>) {
    |a| == |b| && forall m :: 0 <= m < |a| ==> a[m].ands == b[m].ands && a[m].ors == b[m].ors
  }

  lemma KeptThenKept(blocks0: seq<Bits>, owner0: seq<Owner>, blocks1: seq<Bits>, owner1: seq<Owner>,
                     blocks2: seq<Bits>, owner2: seq<Owner>, b: int)
    requires Kept(blocks0, owner0, blocks1, owner1, b) && Kept(blocks1, owner1, blocks2, owner2, b)
    ensures Kept(blocks0, owner0, blocks2, owner2, b)
  {
  }

  lemma GainedThenGained(maps0: seq<MapNode>, maps1: seq<MapNode>, maps2: seq<MapNode>, level: seq<nat>, bound: nat)
    requires Gained(maps0, maps1, level, bound) && Gained(maps1, maps2, level, bound)
    ensures Gained(maps0, maps2, level, bound)
  {
  }

  /** The maps keep their meaning while blocks that are not theirs change. */
  lemma MapsStayOk(maps: seq<MapNode>, mean: Meaning, pool: seq<nat>, splits: nat, split: nat,
                   blocks: seq<Bits>, owner: seq<Owner>, blocks': seq<Bits>, owner': seq<Owner>, b: nat)
    requires MapsOk(maps, mean, blocks, splits, split) && OwnersOk(maps, pool, owner)
    requires Kept(blocks, owner, blocks', owner', b) && b < |owner'| && (b < |owner| ==> !owner[b].At?)
    requires forall x :: 0 <= x < |blocks'| ==> |blocks'[x]| == split
    ensures MapsOk(maps, mean, blocks', splits, split)
    ensures forall m, i :: 0 <= m < |maps| && 0 <= i < |maps[m].v| ==> PlaceOk(maps[m], m, i, owner')
  {
    forall m, i | 0 <= m < |maps| && 0 <= i < splits
      ensures NodeOk(maps[m], mean, m, i, blocks') && PlaceOk(maps[m], m, i, owner')
    {
      assert NodeOk(maps[m], mean, m, i, blocks) && PlaceOk(maps[m], m, i, owner);
    }
  }

  // ---------- a new map ----------

  ghost predicate Extends(a: Meaning, b: Meaning) {
    && |a.flat| <= |b.flat| && b.flat[..|a.flat|] == a.flat
    && |a.solid| <= |b.solid| && b.solid[..|a.solid|] == a.solid
  }

  ghost function Highest(level: seq<nat>, ids: seq<nat>): (h: nat)
    requires forall k :: 0 <= k < |ids| ==> ids[k] < |level|
    ensures forall k :: 0 <= k < |ids| ==> level[ids[k]] <= h
  {
    if ids == [] then 0
    else
      var rest := Highest(level, ids[..|ids| - 1]);
      if level[ids[|ids| - 1]] > rest then level[ids[|ids| - 1]] else rest
  }

  ghost function Grown(mean: Meaning, node: MapNode, splits: nat, split: nat): (g: Meaning)
    requires forall k :: 0 <= k < |node.ands| ==> node.ands[k] < |mean.level|
    requires forall k :: 0 <= k < |node.ors| ==> node.ors[k] < |mean.level|
    ensures Extends(mean, g) && |g.flat| == |mean.flat| + 1 && |g.solid| == |mean.solid| + 1 && |g.level| == |mean.level| + 1
  {
    var bits := seq(splits, i requires 0 <= i < splits =>
                  seq(split, o requires 0 <= o < split => node.HasChildren() && Derived(node, mean.flat, i, o)));
    var solid := seq(splits, i requires 0 <= i < splits =>
                   node.HasChildren() && AllSolid(mean.solid, node.ands, |node.ands|, i)
                   && AllSolid(mean.solid, node.ors, |node.ors|, i));
    Meaning(mean.flat + [bits], mean.solid + [solid],
            mean.level + [Highest(mean.level, node.ands) + Highest(mean.level, node.ors) + 1])
  }

  lemma ExtendsAgrees(a: Meaning, b: Meaning, ids: seq<nat>, n: nat, i: nat)
    requires Extends(a, b) && n <= |ids| && |a.flat| == |a.solid| && forall k :: 0 <= k < |ids| ==> ids[k] < |a.flat|
    ensures AllSolid(a.solid, ids, n, i) == AllSolid(b.solid, ids, n, i)
    ensures forall o: nat :: AllSet(a.flat, ids, n, i, o) == AllSet(b.flat, ids, n, i, o)
    ensures forall o: nat :: SomeSet(a.flat, ids, n, i, o) == SomeSet(b.flat, ids, n, i, o)
  {
    forall k | 0 <= k < n ensures b.flat[ids[k]] == a.flat[ids[k]] && b.solid[ids[k]] == a.solid[ids[k]] {
      assert b.flat[..|a.flat|][ids[k]] == a.flat[ids[k]];
      assert b.solid[..|a.solid|][ids[k]] == a.solid[ids[k]];
    }
  }

  lemma NodeStaysOk(node: MapNode, a: Meaning, b: Meaning, m: nat, i: nat, blocks: seq<Bits>)
    requires Extends(a, b) && |a.flat| == |a.solid| == |a.level| && m < |a.flat|
    requires i < |a.flat[m]| && i < |a.solid[m]| && i < |node.v|
    requires ChildrenBelow(node, a.level, m) && NodeOk(node, a, m, i, blocks)
    ensures b.flat[m] == a.flat[m] && b.solid[m] == a.solid[m] && NodeOk(node, b, m, i, blocks)
  {
    assert b.flat[..|a.flat|][m] == a.flat[m] && b.solid[..|a.solid|][m] == a.solid[m];
    ExtendsAgrees(a, b, node.ands, |node.ands|, i);
    ExtendsAgrees(a, b, node.ors, |node.ors|, i);
  }

  lemma GrownKeeps(maps: seq<MapNode>, mean: Meaning, node: MapNode, blocks: seq<Bits>, splits: nat, split: nat)
    requires MapsOk(maps, mean, blocks, splits, split) && |node.v| == splits
    requires forall i :: 0 <= i < splits ==> node.v[i].None?
    requires forall k :: 0 <= k < |node.ands| ==> node.ands[k] < |maps|
    requires forall k :: 0 <= k < |node.ors| ==> node.ors[k] < |maps|
    ensures var g := Grown(mean, node, splits, split);
            MapsOk(maps + [node], g, blocks, splits, split)
  {
    var g := Grown(mean, node, splits, split);
    var all := maps + [node];
    forall m, i | 0 <= m < |all| && 0 <= i < splits
      ensures NodeOk(all[m], g, m, i, blocks)
    {
      if m < |maps| {
        assert NodeOk(maps[m], mean, m, i, blocks) && ChildrenBelow(maps[m], mean.level, m);
        NodeStaysOk(maps[m], mean, g, m, i, blocks);
      } else {
        ExtendsAgrees(mean, g, node.ands, |node.ands|, i);
        ExtendsAgrees(mean, g, node.ors, |node.ors|, i);
      }
    }
    forall m | 0 <= m < |all| ensures |all[m].v| == splits && ChildrenBelow(all[m], g.level, m) {
      if m < |maps| {
        assert ChildrenBelow(maps[m], mean.level, m);
      }
    }
  }

  // ---------- changing one map ----------

  /** No map combines map m. */
  ghost predicate Orphan(maps: seq<MapNode>, m: nat) {
    forall n :: 0 <= n < |maps| ==> m !in maps[n].ands && m !in maps[n].ors
  }

  /** Only map m means something else. */
  ghost predicate OnlyAt(a: Meaning, b: Meaning, m: nat) {
    && |a.flat| == |b.flat| && |a.solid| == |b.solid| && a.level == b.level
    && (forall n :: 0 <= n < |a.flat| && n != m ==> a.flat[n] == b.flat[n])
    && (forall n :: 0 <= n < |a.solid| && n != m ==> a.solid[n] == b.solid[n])
  }

  /** Only map m is different, and it combines the same maps as before. */
  ghost predicate OnlyNode(a: seq<MapNode>, b: seq<MapNode>, m: nat) {
    && |a| == |b| && (forall n :: 0 <= n < |a| && n != m ==> b[n] == a[n])
    && (m < |a| ==> b[m].setDefault == a[m].setDefault && b[m].ands == a[m].ands && b[m].ors == a[m].ors)
  }

  ghost function Written(mean: Meaning, m: nat, i: nat, bits: Bits): (w: Meaning)
    requires m < |mean.flat| == |mean.solid| && i < |mean.flat[m]| == |mean.solid[m]|
    ensures OnlyAt(mean, w, m)
  {
    Meaning(mean.flat[m := mean.flat[m][i := bits]], mean.solid[m := mean.solid[m][i := true]], mean.level)
  }

  ghost function Emptied(mean: Meaning, m: nat, splits: nat, split: nat): (e: Meaning)
    requires m < |mean.flat| == |mean.solid|
    ensures OnlyAt(mean, e, m)
  {
    Meaning(mean.flat[m := seq(splits, _ => AllBits(split, false))], mean.solid[m := seq(splits, _ => false)], mean.level)
  }

  lemma OtherStaysOk(maps: seq<MapNode>, a: Meaning, b: Meaning, m: nat, n: nat, i: nat, blocks: seq<Bits>)
    requires Orphan(maps, m) && OnlyAt(a, b, m) && n < |maps| && n != m
    requires n < |a.flat| == |a.solid| && i < |a.flat[n]| && i < |a.solid[n]| && i < |maps[n].v|
    requires NodeOk(maps[n], a, n, i, blocks)
    ensures NodeOk(maps[n], b, n, i, blocks)
  {
    assert forall k :: 0 <= k < |maps[n].ands| ==> maps[n].ands[k] in maps[n].ands;
    assert forall k :: 0 <= k < |maps[n].ors| ==> maps[n].ors[k] in maps[n].ors;
    OnlyAtAgrees(a, b, m, maps[n].ands, i);
    OnlyAtAgrees(a, b, m, maps[n].ors, i);
  }

  lemma OnlyAtAgrees(a: Meaning, b: Meaning, m: nat, ids: seq<nat>, i: nat)
    requires OnlyAt(a, b, m) && |a.flat| == |a.solid| && forall k :: 0 <= k < |ids| ==> ids[k] != m
    ensures AllSolid(a.solid, ids, |ids|, i) == AllSolid(b.solid, ids, |ids|, i)
    ensures forall o: nat :: AllSet(a.flat, ids, |ids|, i, o) == AllSet(b.flat, ids, |ids|, i, o)
    ensures forall o: nat :: SomeSet(a.flat, ids, |ids|, i, o) == SomeSet(b.flat, ids, |ids|, i, o)
  {
  }

  /** The pool with the blocks of map m before block `i` in front of it, each once. */
  ghost predicate Releasing(p: seq<nat>, pool: seq<nat>, owner: seq<Owner>, m: nat, i: nat) {
    && (forall k :: 0 <= k < |p| ==> p[k] < |owner| && ReleasedFrom(owner[p[k]], m, i))
    && (forall j, k :: 0 <= j < k < |p| ==> p[j] != p[k])
    && |p| >= |pool| && p[|p| - |pool|..] == pool
  }

  ghost predicate ReleasedFrom(o: Owner, m: nat, i: nat) {
    o.Pooled? || (o.At? && o.m == m && o.i < i)
  }

  lemma ReleaseOne(p: seq<nat>, pool: seq<nat>, owner: seq<Owner>, m: nat, i: nat, b: nat)
    requires Releasing(p, pool, owner, m, i) && b < |owner| && owner[b] == At(m, i)
    ensures Releasing([b] + p, pool, owner, m, i + 1)
  {
    var next := [b] + p;
    assert next[|next| - |pool|..] == p[|p| - |pool|..];
    forall k | 0 <= k < |p| ensures p[k] != b {
      assert ReleasedFrom(owner[p[k]], m, i);
    }
  }

  class Arena {
    const splits: nat
    const split: nat
    const poolSize: nat
    var blocks: seq<Bits>
    var pool: seq<nat>
    var maps: seq<MapNode>
    ghost var owner: seq<Owner>
    ghost var mean: Meaning

    ghost predicate Valid()
      reads this
    {
      && poolSize > 0 && split > 0 && splits * split < NPOS
      && |owner| == |blocks|
      && MapsOk(maps, mean, blocks, splits, split)
      && OwnersOk(maps, pool, owner)
    }

    ghost predicate Solid(m: nat, i: nat)
      reads this
    {
      m < |mean.solid| && i < |mean.solid[m]| && mean.solid[m][i]
    }

    /** An empty arena whose pool is filled. */
    constructor (splits: nat, split: nat, poolSize: nat)
      requires poolSize > 0 && split > 0 && splits * split < NPOS
      ensures Valid() && maps == [] && this.splits == splits && this.split == split
    {
      this.splits, this.split, this.poolSize := splits, split, poolSize;
      blocks, pool, maps, owner, mean := [], [], [], [], Meaning([], [], []);
      new;
      FillPool();
    }

    method FillPool()
      requires Valid() && pool == []
      modifies this`blocks, this`pool, this`owner
      ensures Valid() && pool != [] && Kept(old(blocks), old(owner), blocks, owner, -1)
    {
      var n := 0;
      while n < poolSize
        invariant 0 <= n <= poolSize && (n > 0 ==> pool != [])
        invariant Valid() && Kept(old(blocks), old(owner), blocks, owner, -1)
      {
        ghost var blocks0, owner0 := blocks, owner;
        pool := pool + [|blocks|];
        blocks := blocks + [AllBits(split, false)];
        owner := owner + [Pooled];
        MapsStayOk(maps, mean, [], splits, split, blocks0, owner0, blocks, owner, |blocks0|);
        n := n + 1;
      }
    }

    /** Takes a block from the pool and clears or sets all of it, whatever it held before. */
    method NewBitmap(on: bool) returns (b: nat)
      requires Valid()
      modifies this`blocks, this`pool, this`owner
      ensures Valid() && b < |blocks| && owner[b] == Loose && blocks[b] == AllBits(split, on)
      ensures b < |old(owner)| ==> old(owner)[b].Pooled?
      ensures Kept(old(blocks), old(owner), blocks, owner, -1)
    {
      if pool == [] {
        FillPool();
      }
      ghost var blocks0, owner0, pool0 := blocks, owner, pool;
      b := pool[0];
      pool := pool[1..];
      owner := owner[b := Loose];
      blocks := blocks[b := AllBits(split, on)];
      MapsStayOk(maps, mean, pool0, splits, split, blocks0, owner0, blocks, owner, b);
    }

    /** Changes a block no map holds yet. */
    method SetBlock(b: nat, bits: Bits)
      requires Valid() && b < |blocks| && owner[b] == Loose && |bits| == split
      modifies this`blocks
      ensures Valid() && blocks == old(blocks)[b := bits] && Kept(old(blocks), owner, blocks, owner, b)
    {
      ghost var blocks0 := blocks;
      blocks := blocks[b := bits];
      MapsStayOk(maps, mean, pool, splits, split, blocks0, owner, blocks, owner, b);
    }

    /** The block of a map, combined now if it was never looked at. Fails exactly when a child's
        block does not exist; a leaf whose block was never set has none. */
    method EvalBitmap(m: nat, i: nat) returns (r: Found)
      requires Valid() && m < |maps| && i < splits
      modifies this`blocks, this`pool, this`maps, this`owner
      ensures Valid() && Kept(old(blocks), old(owner), blocks, owner, -1)
      ensures Gained(old(maps), maps, mean.level, mean.level[m] + 1)
      ensures r.Block? <==> Solid(m, i)
      ensures r.Null? <==> !Solid(m, i) && !maps[m].HasChildren()
      ensures r.Block? ==> r.id < |blocks| && owner[r.id] == At(m, i) && blocks[r.id] == mean.flat[m][i]
      decreases mean.level[m], 1
    {
      var node := maps[m];
      assert NodeOk(node, mean, m, i, blocks) && PlaceOk(node, m, i, owner);
      if node.v[i].Some? {
        return Block(node.v[i].value);
      }
      if !node.HasChildren() {
        return Null;
      }
      var b := NewBitmap(node.setDefault);
      ghost var blocks1, owner1 := blocks, owner;
      var ok := CombineAll(m, i, b);
      KeptBut(old(blocks), old(owner), blocks1, owner1, blocks, owner, b, At(m, i));
      if !ok {
        return Crash;
      }
      Place(m, i, b);
      r := Block(b);
    }

    /** Keeps a combined block in its map. */
    method Place(m: nat, i: nat, b: nat)
      requires Valid() && m < |maps| && i < splits && maps[m].v[i].None? && maps[m].HasChildren() && Solid(m, i)
      requires b < |blocks| && owner[b] == Loose && blocks[b] == mean.flat[m][i]
      modifies this`maps, this`owner
      ensures Valid() && owner == old(owner)[b := At(m, i)] && maps == old(maps)[m := maps[m]]
      ensures Gained(old(maps), maps, mean.level, mean.level[m] + 1)
    {
      ghost var maps0, owner0 := maps, owner;
      maps := maps[m := maps[m].(v := maps[m].v[i := Some(b)])];
      owner := owner[b := At(m, i)];
      forall n, j | 0 <= n < |maps| && 0 <= j < splits
        ensures NodeOk(maps[n], mean, n, j, blocks) && PlaceOk(maps[n], n, j, owner)
      {
        assert NodeOk(maps0[n], mean, n, j, blocks) && PlaceOk(maps0[n], n, j, owner0);
      }
    }

    /** Combines the blocks of all children of a map into block `b`. */
    method CombineAll(m: nat, i: nat, b: nat) returns (ok: bool)
      requires Valid() && m < |maps| && i < splits && maps[m].HasChildren() && b < |blocks| && owner[b] == Loose
      requires blocks[b] == AllBits(split, maps[m].setDefault)
      modifies this`blocks, this`pool, this`maps, this`owner
      ensures Valid() && Kept(old(blocks), old(owner), blocks, owner, b)
      ensures Gained(old(maps), maps, mean.level, mean.level[m])
      ensures ok <==> Solid(m, i)
      ensures b < |owner| && owner[b] == Loose && (ok ==> blocks[b] == mean.flat[m][i])
      decreases mean.level[m], 0, 1
    {
      ghost var blocks0, owner0, maps0 := blocks, owner, maps;
      var node := maps[m];
      assert NodeOk(node, mean, m, i, blocks) && ChildrenBelow(node, mean.level, m);
      ok := CombineAnds(node, m, i, b, blocks0, owner0, maps0);
      if ok {
        ok := CombineOrs(node, m, i, b, blocks0, owner0, maps0);
      }
      assert NodeOk(node, mean, m, i, blocks0);
      if ok {
        assert blocks[b] == mean.flat[m][i];
      }
    }

    ghost predicate Combining(node: MapNode, m: nat, i: nat, b: nat, ands: nat, ors: nat,
                              blocks0: seq<Bits>, owner0: seq<Owner>, maps0: seq<MapNode>)
      reads this
    {
      && Valid() && m < |maps| && i < splits && b < |blocks| && owner[b] == Loose
      && Kept(blocks0, owner0, blocks, owner, b) && Gained(maps0, maps, mean.level, mean.level[m])
      && ChildrenBelow(node, mean.level, m)
      && AllSolid(mean.solid, node.ands, ands, i) && AllSolid(mean.solid, node.ors, ors, i)
      && IsPart(blocks[b], node, mean.flat, i, ands, ors)
    }

    method CombineAnds(node: MapNode, m: nat, i: nat, b: nat,
                       ghost blocks0: seq<Bits>, ghost owner0: seq<Owner>, ghost maps0: seq<MapNode>)
      returns (ok: bool)
      requires Combining(node, m, i, b, 0, 0, blocks0, owner0, maps0)
      modifies this`blocks, this`pool, this`maps, this`owner
      ensures ok ==> Combining(node, m, i, b, |node.ands|, 0, blocks0, owner0, maps0)
      ensures !ok ==> Failed(node.ands, m, i, b, blocks0, owner0, maps0)
      decreases mean.level[m], 0, 0
    {
      var k := 0;
      while k < |node.ands|
        invariant 0 <= k <= |node.ands| && Combining(node, m, i, b, k, 0, blocks0, owner0, maps0)
      {
        ghost var was := blocks[b];
        ok := CombineChild(b, node.ands[k], i, true, mean.level[m], blocks0, owner0, maps0);
        if !ok {
          return;
        }
        AndNext(was, blocks[b], node, mean.flat, i, k);
        k := k + 1;
      }
      ok := true;
    }

    method CombineOrs(node: MapNode, m: nat, i: nat, b: nat,
                      ghost blocks0: seq<Bits>, ghost owner0: seq<Owner>, ghost maps0: seq<MapNode>)
      returns (ok: bool)
      requires Combining(node, m, i, b, |node.ands|, 0, blocks0, owner0, maps0)
      modifies this`blocks, this`pool, this`maps, this`owner
      ensures ok ==> Combining(node, m, i, b, |node.ands|, |node.ors|, blocks0, owner0, maps0)
      ensures !ok ==> Failed(node.ors, m, i, b, blocks0, owner0, maps0)
      decreases mean.level[m], 0, 0
    {
      var k := 0;
      while k < |node.ors|
        invariant 0 <= k <= |node.ors| && Combining(node, m, i, b, |node.ands|, k, blocks0, owner0, maps0)
      {
        ghost var was := blocks[b];
        ok := CombineChild(b, node.ors[k], i, false, mean.level[m], blocks0, owner0, maps0);
        if !ok {
          return;
        }
        OrNext(was, blocks[b], node, mean.flat, i, k);
        k := k + 1;
      }
      ok := true;
    }

    /** A child had no block: the combination stops, and nothing that counts has changed. */
    ghost predicate Failed(ids: seq<nat>, m: nat, i: nat, b: nat,
                           blocks0: seq<Bits>, owner0: seq<Owner>, maps0: seq<MapNode>)
      reads this
    {
      && Valid() && m < |maps| && b < |blocks| && owner[b] == Loose
      && Kept(blocks0, owner0, blocks, owner, b) && Gained(maps0, maps, mean.level, mean.level[m])
      && !AllSolid(mean.solid, ids, |ids|, i)
    }

    /** Combines one child's block into block `b`. */
    method CombineChild(b: nat, child: nat, i: nat, isAnd: bool, ghost bound: nat,
                        ghost blocks0: seq<Bits>, ghost owner0: seq<Owner>, ghost maps0: seq<MapNode>)
      returns (ok: bool)
      requires Valid() && b < |blocks| && owner[b] == Loose && child < |maps| && i < splits && mean.level[child] < bound
      requires Kept(blocks0, owner0, blocks, owner, b) && Gained(maps0, maps, mean.level, bound)
      modifies this`blocks, this`pool, this`maps, this`owner
      ensures Valid() && b < |blocks| && owner[b] == Loose
      ensures Kept(blocks0, owner0, blocks, owner, b) && Gained(maps0, maps, mean.level, bound)
      ensures ok <==> Solid(child, i)
      ensures ok ==> forall o :: 0 <= o < split ==>
                (blocks[b][o] <==> if isAnd then old(blocks)[b][o] && mean.flat[child][i][o]
                                   else old(blocks)[b][o] || mean.flat[child][i][o])
      decreases mean.level[child], 2
    {
      ghost var blocks1, owner1, maps1 := blocks, owner, maps;
      var r := EvalBitmap(child, i);
      KeptThenKept(blocks0, owner0, blocks1, owner1, blocks, owner, b);
      GainedThenGained(maps0, maps1, maps, mean.level, bound);
      ok := r.Block?;
      if ok {
        ghost var blocks2 := blocks;
        SetBlock(b, if isAnd then And(blocks[b], blocks[r.id]) else Or(blocks[b], blocks[r.id]));
        KeptThenKept(blocks0, owner0, blocks2, owner, blocks, owner, b);
      }
    }

    // ---------- making and giving up maps ----------

    /** A new map over existing ones; without children it is an empty leaf. */
    method AddMap(setDefault: bool, ands: seq<nat>, ors: seq<nat>) returns (m: nat)
      requires Valid()
      requires (forall k :: 0 <= k < |ands| ==> ands[k] < |maps|) && (forall k :: 0 <= k < |ors| ==> ors[k] < |maps|)
      modifies this`maps, this`mean
      ensures Valid() && m == |old(maps)| && |maps| == m + 1 && maps[..m] == old(maps)
      ensures maps[m].ands == ands && maps[m].ors == ors && maps[m].setDefault == setDefault
      ensures Extends(old(mean), mean)
      ensures forall i :: 0 <= i < splits ==> !maps[m].HasChildren() ==> !Solid(m, i) && NoneSet(mean.flat[m][i], 0)
    {
      m := |maps|;
      var node := MapNode(setDefault, seq(splits, _ => None), ands, ors);
      ghost var before := mean;
      maps := maps + [node];
      mean := Grown(before, node, splits, split);
      GrownKeeps(maps[..m], before, node, blocks, splits, split);
      forall n, i | 0 <= n < |maps| && 0 <= i < splits
        ensures PlaceOk(maps[n], n, i, owner)
      {
        if n < m {
          assert PlaceOk(maps[..m][n], n, i, owner);
        }
      }
    }

    /** Sets a row of a leaf; its block is made when the first of its rows is set. */
    method Set(m: nat, row: nat)
      requires Valid() && m < |maps| && !maps[m].HasChildren() && Orphan(maps, m) && row < splits * split
      modifies this`blocks, this`pool, this`maps, this`owner, this`mean
      ensures Valid() && |maps| == |old(maps)| && !maps[m].HasChildren() && row / split < splits
      ensures OnlyNode(old(maps), maps, m) && OnlyAt(old(mean), mean, m)
      ensures var i := row / split;
              var was := if old(Solid(m, i)) then old(mean).flat[m][i] else AllBits(split, maps[m].setDefault);
              && mean.flat[m] == old(mean).flat[m][i := was[row % split := true]]
              && mean.solid[m] == old(mean).solid[m][i := true]
    {
      var i := row / split;
      InRange(row, splits, split);
      DivMod(row, split);
      assert NodeOk(maps[m], mean, m, i, blocks) && PlaceOk(maps[m], m, i, owner);
      ghost var was := if Solid(m, i) then mean.flat[m][i] else AllBits(split, maps[m].setDefault);
      var b: nat;
      if maps[m].v[i].None? {
        b := NewBitmap(maps[m].setDefault);
      } else {
        b := maps[m].v[i].value;
      }
      assert blocks[b] == was;
      WriteBlock(m, i, b, row % split);
    }

    method WriteBlock(m: nat, i: nat, b: nat, o: nat)
      requires Valid() && m < |maps| && !maps[m].HasChildren() && Orphan(maps, m) && i < splits && o < split
      requires b < |blocks| && (owner[b] == Loose || owner[b] == At(m, i)) && (maps[m].v[i].Some? ==> maps[m].v[i].value == b)
      modifies this`blocks, this`maps, this`owner, this`mean
      ensures Valid() && |maps| == |old(maps)| && !maps[m].HasChildren()
      ensures OnlyNode(old(maps), maps, m)
      ensures mean == Written(old(mean), m, i, old(blocks)[b][o := true])
    {
      ghost var blocks0, maps0, mean0, owner0 := blocks, maps, mean, owner;
      maps := maps[m := maps[m].(v := maps[m].v[i := Some(b)])];
      blocks := blocks[b := blocks[b][o := true]];
      owner := owner[b := At(m, i)];
      mean := Written(mean, m, i, blocks[b]);
      forall n, j | 0 <= n < |maps| && 0 <= j < splits
        ensures NodeOk(maps[n], mean, n, j, blocks) && PlaceOk(maps[n], n, j, owner)
      {
        assert NodeOk(maps0[n], mean0, n, j, blocks0) && PlaceOk(maps0[n], n, j, owner0);
        if n != m {
          OtherStaysOk(maps0, mean0, mean, m, n, j, blocks0);
        }
      }
      forall n | 0 <= n < |maps| ensures ChildrenBelow(maps[n], mean.level, n) {
        assert ChildrenBelow(maps0[n], mean0.level, n);
      }
    }

    /** Gives up a map: its blocks go back to the pool as they are, and no other map notices. */
    method Destroy(m: nat)
      requires Valid() && m < |maps| && Orphan(maps, m)
      modifies this`pool, this`maps, this`owner, this`mean
      ensures Valid() && |maps| == |old(maps)| && (forall n :: 0 <= n < |maps| && n != m ==> maps[n] == old(maps)[n])
      ensures OnlyAt(old(mean), mean, m)
    {
      ghost var maps0, mean0, owner0, pool0 := maps, mean, owner, pool;
      pool := ReleaseTo(m);
      maps := maps[m := MapNode(maps[m].setDefault, seq(splits, _ => None), [], [])];
      owner := seq(|owner0|, x requires 0 <= x < |owner0| => if owner0[x].At? && owner0[x].m == m then Pooled else owner0[x]);
      mean := Emptied(mean, m, splits, split);
      forall n, j | 0 <= n < |maps| && 0 <= j < splits
        ensures NodeOk(maps[n], mean, n, j, blocks) && PlaceOk(maps[n], n, j, owner)
      {
        assert NodeOk(maps0[n], mean0, n, j, blocks) && PlaceOk(maps0[n], n, j, owner0);
        if n != m {
          OtherStaysOk(maps0, mean0, mean, m, n, j, blocks);
        }
      }
      forall n | 0 <= n < |maps| ensures ChildrenBelow(maps[n], mean.level, n) {
        assert ChildrenBelow(maps0[n], mean0.level, n);
      }
    }

    /** The pool with the blocks of a map in front. */
    method ReleaseTo(m: nat) returns (p: seq<nat>)
      requires Valid() && m < |maps|
      ensures Releasing(p, pool, owner, m, splits)
    {
      p := pool;
      var i := 0;
      while i < splits
        invariant 0 <= i <= splits && Releasing(p, pool, owner, m, i)
      {
        assert PlaceOk(maps[m], m, i, owner) && NodeOk(maps[m], mean, m, i, blocks);
        if maps[m].v[i].Some? {
          ReleaseOne(p, pool, owner, m, i, maps[m].v[i].value);
          p := [maps[m].v[i].value] + p;
        }
        i := i + 1;
      }
    }

    ghost function Flat(m: nat): seq<Bits>
      requires m < |mean.flat|
      reads this
    {
      mean.flat[m]
    }

    ghost predicate Missing(m: nat, i: nat)
      requires m < |maps| && m < |mean.solid|
      reads this
    {
      MissingIn(maps[m].HasChildren(), mean.solid[m], i)
    }

    /** The first set bit of one block from `from` on. A block that does not exist is skipped if
        the map is a leaf and `skip` is set, and fails otherwise. */
    method FindInBlock(m: nat, i: nat, from: nat, skip: bool) returns (crashed: bool, o: nat)
      requires Valid() && m < |maps| && i < splits && from <= split
      modifies this`blocks, this`pool, this`maps, this`owner
      ensures Valid() && SameLinks(old(maps), maps)
      ensures crashed <==> if skip then Missing(m, i) else !Solid(m, i)
      ensures !crashed ==> FirstIn(Flat(m)[i], from, o)
    {
      assert NodeOk(maps[m], mean, m, i, blocks);
      var r := EvalBitmap(m, i);
      assert NodeOk(maps[m], mean, m, i, blocks);
      crashed, o := r.Crash? || (r.Null? && !skip), NPOS;
      if r.Block? {
        o := FindFrom(blocks[r.id], from);
        BlockFits(splits, split);
        FindFromSpec(blocks[r.id], from);
      }
    }

    /** Looks for a set row in the blocks from `start` on. */
    method FindInBlocks(m: nat, start: nat) returns (crashed: bool, pos: nat)
      requires Valid() && m < |maps| && start <= splits
      modifies this`blocks, this`pool, this`maps, this`owner
      ensures Valid() && SameLinks(old(maps), maps)
      ensures crashed <==> StopsAtMissing(maps[m].HasChildren(), mean.solid[m], Flat(m), start)
      ensures !crashed ==> NextAfterBlocks(Flat(m), split, start, pos)
    {
      var i := start;
      while i < splits
        invariant start <= i <= splits && Valid() && SameLinks(old(maps), maps)
        invariant Passed(maps[m].HasChildren(), mean.solid[m], Flat(m), start, i)
      {
        var o;
        crashed, o := FindInBlock(m, i, 0, true);
        if crashed {
          StopHere(maps[m].HasChildren(), mean.solid[m], Flat(m), start, i);
          return true, NPOS;
        }
        if o != NPOS {
          BlockStart(i + 1, splits, split);
          FoundHere(maps[m].HasChildren(), mean.solid[m], Flat(m), splits, split, start, i, o);
          return false, i * split + o;
        }
        i := i + 1;
      }
      PassedAll(maps[m].HasChildren(), mean.solid[m], Flat(m), split, start);
      crashed, pos := false, NPOS;
    }

    method FindFirst(m: nat) returns (crashed: bool, pos: nat)
      requires Valid() && m < |maps|
      modifies this`blocks, this`pool, this`maps, this`owner
      ensures Valid() && SameLinks(old(maps), maps)
      ensures crashed <==> StopsAtMissing(maps[m].HasChildren(), mean.solid[m], Flat(m), 0)
      ensures !crashed ==> NextFrom(Flat(m), split, 0, pos)
    {
      crashed, pos := FindInBlocks(m, 0);
      if !crashed {
        BlocksIsNext(Flat(m), splits, split, 0, 0, pos);
      }
    }

    /** The next set row; the block of the current row must exist. */
    method FindNext(m: nat, at: nat) returns (crashed: bool, pos: nat)
      requires Valid() && m < |maps| && at < splits * split
      modifies this`blocks, this`pool, this`maps, this`owner
      ensures Valid() && SameLinks(old(maps), maps)
      ensures at / split < splits
      ensures crashed <==> !Solid(m, at / split) ||
                           (NoneSet(Flat(m)[at / split], at % split + 1)
                            && StopsAtMissing(maps[m].HasChildren(), mean.solid[m], Flat(m), at / split + 1))
      ensures !crashed ==> NextFrom(Flat(m), split, at + 1, pos)
    {
      var idx := at / split;
      InRange(at, splits, split);
      DivMod(at, split);
      var o;
      crashed, o := FindInBlock(m, idx, at % split + 1, false);
      if crashed {
        return true, NPOS;
      }
      if o != NPOS {
        HitIsNext(Flat(m), splits, split, at, o);
        return false, idx * split + o;
      }
      crashed, pos := FindInBlocks(m, idx + 1);
      if !crashed {
        LaterIsNext(Flat(m), splits, split, at, idx + 1, pos);
      }
    }

    /** A walk has met exactly the set rows before `pos`, and no block up to there is missing. */
    ghost predicate Walking(m: nat, rows: seq<nat>, pos: nat)
      reads this
    {
      && Valid() && m < |maps|
      && ListsBefore(rows, Flat(m), split, pos)
      && Clear(maps[m].HasChildren(), mean.solid[m], if pos == NPOS then splits else pos / split + 1)
      && (pos != NPOS ==> BitAt(Flat(m), split, pos) && pos < splits * split)
    }

    method WalkOn(m: nat, at: nat, ghost before: seq<nat>) returns (crashed: bool, pos: nat)
      requires Walking(m, before, at) && at != NPOS
      modifies this`blocks, this`pool, this`maps, this`owner
      ensures Valid() && SameLinks(old(maps), maps)
      ensures crashed ==> AnyMissing(maps[m].HasChildren(), mean.solid[m])
      ensures !crashed ==> Walking(m, before + [at], pos) && pos > at
    {
      SetIsSolid(m, at);
      assert Solid(m, at / split);
      crashed, pos := FindNext(m, at);
      if crashed {
        WhyStopped(maps[m].HasChildren(), mean.solid[m], Flat(m), at / split + 1);
      } else {
        WalkStep(maps[m].HasChildren(), mean.solid[m], Flat(m), splits, split, before, at, at / split, at % split, pos);
      }
    }

    method WalkFirst(m: nat) returns (crashed: bool, pos: nat)
      requires Valid() && m < |maps|
      modifies this`blocks, this`pool, this`maps, this`owner
      ensures Valid() && SameLinks(old(maps), maps)
      ensures crashed ==> AnyMissing(maps[m].HasChildren(), mean.solid[m])
      ensures !crashed ==> Walking(m, [], pos)
    {
      crashed, pos := FindFirst(m);
      if crashed {
        WhyStopped(maps[m].HasChildren(), mean.solid[m], Flat(m), 0);
      } else {
        NothingYet(Flat(m), split, pos);
        FirstClear(maps[m].HasChildren(), mean.solid[m], Flat(m), splits, split, pos);
        if pos != NPOS {
          BitInRange(Flat(m), splits, split, pos);
        }
      }
    }

    /** Walks a map from row to row. It fails exactly when a block is missing, and otherwise meets
        exactly the set rows, in strictly increasing order. */
    method Enumerate(m: nat) returns (crashed: bool, rows: seq<nat>)
      requires Valid() && m < |maps|
      modifies this`blocks, this`pool, this`maps, this`owner
      ensures Valid() && SameLinks(old(maps), maps)
      ensures crashed <==> AnyMissing(maps[m].HasChildren(), mean.solid[m])
      ensures !crashed ==> Lists(rows, Flat(m), split)
    {
      rows := [];
      var pos;
      crashed, pos := WalkFirst(m);
      if crashed {
        return;
      }
      while pos != NPOS
        invariant Walking(m, rows, pos) && SameLinks(old(maps), maps)
        decreases if pos == NPOS then 0 else NPOS + splits * split - pos
      {
        var at := pos;
        crashed, pos := WalkOn(m, at, rows);
        if crashed {
          return;
        }
        rows := rows + [at];
      }
    }

    /** The block of a set row is never missing in a map that misses none. */
    lemma SetIsSolid(m: nat, pos: nat)
      requires Valid() && m < |maps| && BitAt(Flat(m), split, pos)
      ensures pos / split < splits && (!Missing(m, pos / split) ==> Solid(m, pos / split))
    {
      assert NodeOk(maps[m], mean, m, pos / split, blocks);
    }
  }

  /** A block drawn from the pool counts as nobody's block. */
  lemma KeptBut(blocks0: seq<Bits>, owner0: seq<Owner>, blocks1: seq<Bits>, owner1: seq<Owner>,
                blocks2: seq<Bits>, owner2: seq<Owner>, b: nat, o: Owner)
    requires Kept(blocks0, owner0, blocks1, owner1, -1) && Kept(blocks1, owner1, blocks2, owner2, b)
    requires b < |owner0| ==> owner0[b].Pooled?
    ensures Kept(blocks0, owner0, blocks2, owner2, -1)
    ensures b < |owner2| ==> Kept(blocks0, owner0, blocks2, owner2[b := o], -1)
  {
  }

  // ---------- positions ----------

  /** A combined map whose block cannot be looked at. */
  ghost predicate MissingIn(hasChildren: bool, solid: seq<bool>, i: nat) {
    hasChildren && i < |solid| && !solid[i]
  }

  /** Before any set row, from block `start` on, there is a block that cannot be looked at. */
  ghost predicate StopsAtMissing(hasChildren: bool, solid: seq<bool>, f: seq<Bits>, start: nat) {
    exists i :: start <= i < |f| && MissingIn(hasChildren, solid, i) && forall j :: start <= j < i ==> NoneSet(f[j], 0)
  }

  ghost predicate Passed(hasChildren: bool, solid: seq<bool>, f: seq<Bits>, start: nat, i: nat) {
    i <= |f| && forall j :: start <= j < i ==> NoneSet(f[j], 0) && !MissingIn(hasChildren, solid, j)
  }

  ghost predicate AnyMissing(hasChildren: bool, solid: seq<bool>) {
    exists i :: 0 <= i < |solid| && MissingIn(hasChildren, solid, i)
  }

  ghost predicate Clear(hasChildren: bool, solid: seq<bool>, n: nat) {
    forall i :: 0 <= i < n ==> !MissingIn(hasChildren, solid, i)
  }

  /** A search passes over blocks without set rows only. */
  lemma NextSkips(f: seq<Bits>, splits: nat, split: nat, from: nat, pos: nat, j: nat)
    requires Regular(f, splits, split) && NextFrom(f, split, from, pos) && j < splits && from <= j * split
    requires pos == NPOS || j < pos / split
    ensures NoneSet(f[j], 0)
  {
    forall o | 0 <= o < split ensures !f[j][o] {
      Position(j, o, split);
      if pos != NPOS {
        BlockOf(pos, j + 1, split);
        BlockEnd(j, split);
      }
      var u := j * split + o;
      assert BitAt(f, split, u) <==> f[j][o];
      assert !BitAt(f, split, u);
    }
  }

  lemma FirstClear(hasChildren: bool, solid: seq<bool>, f: seq<Bits>, splits: nat, split: nat, pos: nat)
    requires Regular(f, splits, split) && |solid| == splits && NextFrom(f, split, 0, pos)
    requires !StopsAtMissing(hasChildren, solid, f, 0)
    ensures Clear(hasChildren, solid, if pos == NPOS then splits else pos / split + 1)
  {
    var n := if pos == NPOS then splits else pos / split;
    forall j | 0 <= j < n ensures NoneSet(f[j], 0) {
      NextSkips(f, splits, split, 0, pos, j);
    }
  }

  lemma ClearOn(hasChildren: bool, solid: seq<bool>, f: seq<Bits>, splits: nat, split: nat,
                i: nat, k: nat, start: nat, from: nat, pos: nat, n: nat)
    requires Regular(f, splits, split) && |solid| == splits && i < splits && k < split && start == i + 1
    requires from == i * split + k + 1 && NextFrom(f, split, from, pos) && Clear(hasChildren, solid, start)
    requires NoneSet(f[i], k + 1) ==> !StopsAtMissing(hasChildren, solid, f, start)
    requires n == if pos == NPOS then splits else pos / split
    ensures Clear(hasChildren, solid, if pos == NPOS then n else n + 1)
  {
    if pos == NPOS || n >= start {
      if pos != NPOS {
        BlockOf(pos, start, split);
      }
      RestOfBlock(f, splits, split, i, k, from, pos);
      forall j | start <= j < n ensures NoneSet(f[j], 0) {
        AfterBlock(i, k, j, split);
        NextSkips(f, splits, split, from, pos, j);
      }
    }
  }

  lemma AfterBlock(i: nat, k: nat, j: nat, split: nat)
    requires k < split && j > i
    ensures i * split + k + 1 <= j * split
  {
    BlockEnd(i, split);
    BlockStart(i + 1, j, split);
  }

  /** Between a row at offset k of block i and a later set row outside that block, the rest of
      the block holds no set row. */
  lemma RestOfBlock(f: seq<Bits>, splits: nat, split: nat, i: nat, k: nat, from: nat, pos: nat)
    requires Regular(f, splits, split) && i < splits && from == i * split + k + 1 && NextFrom(f, split, from, pos)
    requires pos == NPOS || (i + 1) * split <= pos
    ensures NoneSet(f[i], k + 1)
  {
    BlockEnd(i, split);
    forall o | k + 1 <= o < split ensures !f[i][o] {
      Position(i, o, split);
      assert !BitAt(f, split, i * split + o);
    }
  }

  lemma WalkStep(hasChildren: bool, solid: seq<bool>, f: seq<Bits>, splits: nat, split: nat, before: seq<nat>, at: nat,
                 i: nat, k: nat, pos: nat)
    requires Regular(f, splits, split) && |solid| == splits && i < splits && i == at / split && k == at % split
    requires NextFrom(f, split, at + 1, pos) && Clear(hasChildren, solid, i + 1)
    requires NoneSet(f[i], k + 1) ==> !StopsAtMissing(hasChildren, solid, f, i + 1)
    requires at < NPOS && ListsBefore(before, f, split, at) && BitAt(f, split, at)
    ensures ListsBefore(before + [at], f, split, pos)
    ensures Clear(hasChildren, solid, if pos == NPOS then splits else pos / split + 1)
    ensures pos > at && (pos != NPOS ==> BitAt(f, split, pos) && pos < splits * split)
  {
    ListsOneMore(before, f, split, at, pos);
    ClearNext(hasChildren, solid, f, splits, split, at, i, k, at + 1, pos);
    if pos != NPOS {
      BitInRange(f, splits, split, pos);
    }
  }

  lemma ClearNext(hasChildren: bool, solid: seq<bool>, f: seq<Bits>, splits: nat, split: nat, at: nat, i: nat, k: nat,
                  from: nat, pos: nat)
    requires Regular(f, splits, split) && |solid| == splits && i < splits && i == at / split && k == at % split && from == at + 1
    requires NextFrom(f, split, from, pos) && Clear(hasChildren, solid, i + 1)
    requires NoneSet(f[i], k + 1) ==> !StopsAtMissing(hasChildren, solid, f, i + 1)
    ensures Clear(hasChildren, solid, if pos == NPOS then splits else pos / split + 1)
  {
    DivMod(at, split);
    ClearOn(hasChildren, solid, f, splits, split, i, k, i + 1, from, pos, if pos == NPOS then splits else pos / split);
  }

  lemma WhyStopped(hasChildren: bool, solid: seq<bool>, f: seq<Bits>, start: nat)
    ensures StopsAtMissing(hasChildren, solid, f, start) ==> AnyMissing(hasChildren, solid)
  {
  }

  lemma StopHere(hasChildren: bool, solid: seq<bool>, f: seq<Bits>, start: nat, i: nat)
    requires Passed(hasChildren, solid, f, start, i) && start <= i < |f| && MissingIn(hasChildren, solid, i)
    ensures StopsAtMissing(hasChildren, solid, f, start)
  {
  }

  lemma FoundHere(hasChildren: bool, solid: seq<bool>, f: seq<Bits>, splits: nat, split: nat, start: nat, i: nat, o: nat)
    requires Regular(f, splits, split) && splits * split < NPOS
    requires Passed(hasChildren, solid, f, start, i) && start <= i < |f| && !MissingIn(hasChildren, solid, i)
    requires o != NPOS && FirstIn(f[i], 0, o)
    ensures !StopsAtMissing(hasChildren, solid, f, start)
    ensures i * split + o < NPOS && NextAfterBlocks(f, split, start, i * split + o)
  {
    BlockEnd(i, split);
    BlockStart(i + 1, splits, split);
    assert HitAt(f, split, start, i, o, i * split + o);
  }

  lemma PassedAll(hasChildren: bool, solid: seq<bool>, f: seq<Bits>, split: nat, start: nat)
    requires start <= |f| && Passed(hasChildren, solid, f, start, |f|)
    ensures !StopsAtMissing(hasChildren, solid, f, start) && NextAfterBlocks(f, split, start, NPOS)
  {
  }

  /** `o` is the first set bit of a block from `from` on, or there is none. */
  ghost predicate FirstIn(b: Bits, from: nat, o: nat) {
    if o == NPOS then NoneSet(b, from) else from <= o < |b| && b[o] && forall k :: from <= k < o ==> !b[k]
  }

  ghost predicate NoneSet(b: Bits, from: nat) {
    forall o :: from <= o < |b| ==> !b[o]
  }

  ghost predicate BitAt(f: seq<Bits>, split: nat, u: nat)
    requires split > 0
  {
    u / split < |f| && u % split < |f[u / split]| && f[u / split][u % split]
  }

  /** The first set row from a position on, or none. */
  ghost predicate NextFrom(f: seq<Bits>, split: nat, from: nat, pos: nat)
    requires split > 0
  {
    if pos == NPOS then forall u: nat :: from <= u ==> !BitAt(f, split, u)
    else from <= pos && BitAt(f, split, pos) && forall u :: from <= u < pos ==> !BitAt(f, split, u)
  }

  /** The first set row from a block on, or none. */
  ghost predicate NextAfterBlocks(f: seq<Bits>, split: nat, start: nat, pos: nat) {
    if pos == NPOS then forall j :: start <= j < |f| ==> NoneSet(f[j], 0)
    else exists i, o :: start <= i < |f| && HitAt(f, split, start, i, o, pos)
  }

  ghost predicate HitAt(f: seq<Bits>, split: nat, start: nat, i: nat, o: nat, pos: nat)
    requires i < |f|
  {
    && o < |f[i]| && f[i][o] && pos == i * split + o
    && (forall k :: 0 <= k < o ==> !f[i][k]) && (forall j :: start <= j < i ==> NoneSet(f[j], 0))
  }

  lemma {:induction false} FindFromSpec(b: Bits, i: nat)
    requires i <= |b| < NPOS
    ensures var r := FindFrom(b, i);
            if r == NPOS then NoneSet(b, i) else i <= r < |b| && b[r] && forall k :: i <= k < r ==> !b[k]
    decreases |b| - i
  {
    if i < |b| && !b[i] {
      FindFromSpec(b, i + 1);
    }
  }

  lemma BlockFits(splits: nat, split: nat)
    requires splits > 0 && splits * split < NPOS
    ensures split < NPOS
  {
    assert (splits - 1) * split >= 0;
  }

  lemma BlockStart(start: nat, i: nat, split: nat)
    requires start <= i
    ensures start * split <= i * split
  {
  }

  lemma BlockEnd(i: nat, split: nat)
    ensures (i + 1) * split == i * split + split
  {
  }

  lemma DivMod(u: nat, split: nat)
    requires split > 0
    ensures u == u / split * split + u % split && u % split < split
  {
  }

  /** A position lies in block i exactly when it lies between that block's ends. */
  lemma BlockOf(u: nat, i: nat, split: nat)
    requires split > 0
    ensures i * split <= u ==> i <= u / split
    ensures u < i * split ==> u / split < i
  {
    var j := u / split;
    DivMod(u, split);
    BlockEnd(j, split);
    if j < i {
      BlockStart(j + 1, i, split);
    } else {
      BlockStart(i, j, split);
    }
  }

  lemma Position(i: nat, o: nat, split: nat)
    requires o < split
    ensures (i * split + o) / split == i && (i * split + o) % split == o
  {
    var u := i * split + o;
    BlockEnd(i, split);
    BlockOf(u, i, split);
    BlockOf(u, i + 1, split);
    DivMod(u, split);
  }

  lemma Below(u: nat, i: nat, o: nat, split: nat)
    requires split > 0 && u < i * split + o && o < split
    ensures u / split < i || (u / split == i && u % split < o)
  {
    BlockEnd(i, split);
    BlockOf(u, i + 1, split);
    DivMod(u, split);
  }

  lemma InRange(u: nat, splits: nat, split: nat)
    requires split > 0 && u < splits * split
    ensures u / split < splits
  {
    BlockOf(u, splits, split);
  }

  ghost predicate Regular(f: seq<Bits>, splits: nat, split: nat) {
    |f| == splits && split > 0 && forall j :: 0 <= j < splits ==> |f[j]| == split
  }

  lemma BlocksIsNext(f: seq<Bits>, splits: nat, split: nat, start: nat, from: nat, pos: nat)
    requires Regular(f, splits, split) && from == start * split && NextAfterBlocks(f, split, start, pos)
    ensures NextFrom(f, split, from, pos)
  {
    if pos == NPOS {
      forall u: nat | from <= u ensures !BitAt(f, split, u) {
        BlockOf(u, start, split);
      }
    } else {
      var i, o :| start <= i < |f| && HitAt(f, split, start, i, o, pos);
      Position(i, o, split);
      BlockStart(start, i, split);
      forall u | from <= u < pos ensures !BitAt(f, split, u) {
        BlockOf(u, start, split);
        Below(u, i, o, split);
      }
    }
  }

  lemma HitIsNext(f: seq<Bits>, splits: nat, split: nat, at: nat, o: nat)
    requires Regular(f, splits, split) && at / split < splits && at % split < o < split && f[at / split][o]
    requires forall k :: at % split + 1 <= k < o ==> !f[at / split][k]
    requires splits * split < NPOS
    ensures NextFrom(f, split, at + 1, at / split * split + o)
  {
    var i := at / split;
    var pos := i * split + o;
    Position(i, o, split);
    DivMod(at, split);
    BlockEnd(i, split);
    BlockStart(i + 1, splits, split);
    forall u | at + 1 <= u < pos ensures !BitAt(f, split, u) {
      BlockOf(u, i, split);
      Below(u, i, o, split);
      SameBlock(at, u, split);
    }
  }

  lemma SameBlock(at: nat, u: nat, split: nat)
    requires split > 0 && at < u
    ensures u / split == at / split ==> at % split < u % split
    ensures at / split <= u / split
  {
    DivMod(at, split);
    DivMod(u, split);
    BlockOf(u, at / split, split);
  }

  lemma LaterIsNext(f: seq<Bits>, splits: nat, split: nat, at: nat, start: nat, pos: nat)
    requires Regular(f, splits, split) && start == at / split + 1 <= splits && NoneSet(f[at / split], at % split + 1)
    requires NextAfterBlocks(f, split, start, pos)
    ensures NextFrom(f, split, at + 1, pos)
  {
    var from := start * split;
    BlocksIsNext(f, splits, split, start, from, pos);
    DivMod(at, split);
    BlockEnd(at / split, split);
    forall u: nat | at + 1 <= u < from ensures !BitAt(f, split, u) {
      BlockOf(u, start, split);
      SameBlock(at, u, split);
    }
  }

  lemma BitInRange(f: seq<Bits>, splits: nat, split: nat, u: nat)
    requires Regular(f, splits, split) && BitAt(f, split, u)
    ensures u < splits * split
  {
    DivMod(u, split);
    BlockEnd(u / split, split);
    BlockStart(u / split + 1, splits, split);
  }

  // ---------- the walk ----------

  ghost predicate Rising(rows: seq<nat>) {
    forall j, k :: 0 <= j < k < |rows| ==> rows[j] < rows[k]
  }

  /** Exactly the set rows, in order. */
  ghost predicate Lists(rows: seq<nat>, f: seq<Bits>, split: nat)
    requires split > 0
  {
    Rising(rows) && forall u: nat :: u in rows <==> BitAt(f, split, u)
  }

  ghost predicate ListsBefore(rows: seq<nat>, f: seq<Bits>, split: nat, pos: nat)
    requires split > 0
  {
    Rising(rows) && forall u: nat :: u in rows <==> BitAt(f, split, u) && (pos == NPOS || u < pos)
  }

  lemma NothingYet(f: seq<Bits>, split: nat, pos: nat)
    requires split > 0 && NextFrom(f, split, 0, pos)
    ensures ListsBefore([], f, split, pos)
  {
  }

  lemma ListsOneMore(rows: seq<nat>, f: seq<Bits>, split: nat, at: nat, pos: nat)
    requires split > 0 && at < NPOS && ListsBefore(rows, f, split, at) && BitAt(f, split, at) && NextFrom(f, split, at + 1, pos)
    ensures ListsBefore(rows + [at], f, split, pos)
  {
    var next := rows + [at];
    forall j, k | 0 <= j < k < |next| ensures next[j] < next[k] {
      assert next[j] in rows;
    }
    forall u: nat ensures u in next <==> BitAt(f, split, u) && (pos == NPOS || u < pos) {
      assert u in next <==> u in rows || u == at;
    }
  }
}
