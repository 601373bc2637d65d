/** The windowed dynamic program that picks the cheapest chain of blocks to fetch.
    Columns are the candidate blocks, rows are sample counts; `supply[c]` is the estimated
    number of samples in candidate `c`, at least one. */
module ForwardOptimal {
  import opened SeekCost
  import opened Sums

  /** An unsigned cost whose largest value stands for "cannot be reached". */
  datatype Cost = Max | Fin(cost: nat)

  predicate Less(a: Cost, b: Cost) {
    a.Fin? && (b.Max? || a.cost < b.cost)
  }

  function Min(a: Cost, b: Cost): Cost {
    if Less(a, b) then a else b
  }

  function Plus(a: Cost, step: nat): Cost {
    if a.Max? then Max else Fin(a.cost + step)
  }

  // ---------- chains of blocks, the meaning of the tables ----------

  ghost predicate Increasing(ch: seq<nat>) {
    forall i, j :: 0 <= i < j < |ch| ==> ch[i] < ch[j]
  }

  /** A nonempty increasing selection among the first `n` candidates. */
  ghost predicate IsChain(ch: seq<nat>, n: nat) {
    && |ch| > 0
    && (forall i :: 0 <= i < |ch| ==> ch[i] < n)
    && Increasing(ch)
  }

  function StartCost(c: nat): nat {
    if c == 0 then BLOCK_FETCH else CalcCost(0, c)
  }

  ghost function PathCost(ch: seq<nat>): nat
    requires Increasing(ch)
  {
    if |ch| <= 1 then 0 else CalcCost(ch[0], ch[1]) + PathCost(ch[1..])
  }

  ghost function ChainCost(ch: seq<nat>): nat
    requires |ch| > 0 && Increasing(ch)
  {
    StartCost(ch[0]) + PathCost(ch)
  }

  ghost function ChainSupply(supply: seq<nat>, ch: seq<nat>): nat
    requires forall i :: 0 <= i < |ch| ==> ch[i] < |supply|
  {
    if ch == [] then 0 else supply[ch[0]] + ChainSupply(supply, ch[1..])
  }

  /** What the block selection is for: enough estimated samples, at the least cost. */
  ghost predicate CheapestChain(supply: seq<nat>, wanted: nat, ch: seq<nat>) {
    && IsChain(ch, |supply|)
    && ChainSupply(supply, ch) >= wanted
    && forall other :: IsChain(other, |supply|) && ChainSupply(supply, other) >= wanted ==>
                         ChainCost(ch) <= ChainCost(other)
  }

  lemma {:induction false} PathCostSnoc(ch: seq<nat>)
    requires |ch| >= 2 && Increasing(ch)
    ensures PathCost(ch) == PathCost(ch[..|ch| - 1]) + CalcCost(ch[|ch| - 2], ch[|ch| - 1])
  {
    if |ch| > 2 {
      PathCostSnoc(ch[1..]);
      assert ch[1..][..|ch| - 2] == ch[..|ch| - 1][1..];
    }
  }

  lemma {:induction false} ChainSupplySnoc(supply: seq<nat>, ch: seq<nat>)
    requires |ch| > 0 && forall i :: 0 <= i < |ch| ==> ch[i] < |supply|
    ensures ChainSupply(supply, ch)
         == ChainSupply(supply, ch[..|ch| - 1]) + supply[ch[|ch| - 1]]
  {
    if |ch| > 1 {
      ChainSupplySnoc(supply, ch[1..]);
      assert ch[1..][..|ch| - 2] == ch[..|ch| - 1][1..];
    }
  }

  // ---------- the tables, without the window ----------

  /** Least cost of a chain that ends exactly at `c` and supplies at least `j` samples. */
  function Record(supply: seq<nat>, c: nat, j: nat): Cost
    requires c < |supply|
    decreases c, 1
  {
    if j <= supply[c] then Fin(StartCost(c))
    else MinPred(supply, j - supply[c], 0, c, c)
  }

  /** The least `Record` in columns `lo..m`, each extended by a seek to column `c`. */
  function MinPred(supply: seq<nat>, k: nat, lo: nat, m: nat, c: nat): Cost
    requires m <= c < |supply|
    decreases m, 0
  {
    if m <= lo then Max
    else Min(Plus(Record(supply, m - 1, k), CalcCost(m - 1, c)), MinPred(supply, k, lo, m - 1, c))
  }

  /** Least cost of a chain that ends at or before `c`. */
  function Best(supply: seq<nat>, c: nat, j: nat): Cost
    requires c < |supply|
  {
    if c == 0 then Record(supply, 0, j) else Min(Best(supply, c - 1, j), Record(supply, c, j))
  }

  lemma {:induction false} MinPredBelow(supply: seq<nat>, k: nat, m: nat, c: nat, n: nat)
    requires n < m <= c < |supply|
    ensures !Less(Plus(Record(supply, n, k), CalcCost(n, c)), MinPred(supply, k, 0, m, c))
  {
    if n < m - 1 {
      MinPredBelow(supply, k, m - 1, c, n);
    }
  }

  lemma {:induction false} MinPredAttained(supply: seq<nat>, k: nat, m: nat, c: nat) returns (n: nat)
    requires m <= c < |supply| && MinPred(supply, k, 0, m, c).Fin?
    ensures n < m && MinPred(supply, k, 0, m, c) == Plus(Record(supply, n, k), CalcCost(n, c))
  {
    if Less(Plus(Record(supply, m - 1, k), CalcCost(m - 1, c)), MinPred(supply, k, 0, m - 1, c)) {
      n := m - 1;
    } else {
      n := MinPredAttained(supply, k, m - 1, c);
    }
  }

  /** Dropping every earlier block never makes reaching the last one dearer: this is where
      subadditivity of the seek cost is needed. */
  lemma {:induction false} DirectIsCheapest(ch: seq<nat>)
    requires |ch| > 0 && Increasing(ch)
    ensures StartCost(ch[|ch| - 1]) <= ChainCost(ch)
  {
    if |ch| > 1 {
      var p := ch[..|ch| - 1];
      DirectIsCheapest(p);
      PathCostSnoc(ch);
      CostIsSubadditive(0, p[|p| - 1], ch[|ch| - 1]);
    }
  }

  /** No chain that ends at its last block beats the table entry. */
  lemma {:induction false} RecordIsLowerBound(supply: seq<nat>, ch: seq<nat>, j: nat)
    requires IsChain(ch, |supply|) && ChainSupply(supply, ch) >= j
    ensures Record(supply, ch[|ch| - 1], j).Fin?
    ensures Record(supply, ch[|ch| - 1], j).cost <= ChainCost(ch)
    decreases |ch|
  {
    var c := ch[|ch| - 1];
    ChainSupplySnoc(supply, ch);
    if j <= supply[c] {
      DirectIsCheapest(ch);
    } else {
      var p := ch[..|ch| - 1];
      RecordIsLowerBound(supply, p, j - supply[c]);
      PathCostSnoc(ch);
      MinPredBelow(supply, j - supply[c], c, c, p[|p| - 1]);
    }
  }

  /** Every finite table entry is the cost of some chain. */
  lemma {:induction false} RecordIsAttained(supply: seq<nat>, c: nat, j: nat) returns (ch: seq<nat>)
    requires c < |supply| && Record(supply, c, j).Fin?
    ensures IsChain(ch, |supply|) && ch[|ch| - 1] == c && ChainSupply(supply, ch) >= j
    ensures ChainCost(ch) == Record(supply, c, j).cost
    decreases c
  {
    if j <= supply[c] {
      ch := [c];
    } else {
      var n := MinPredAttained(supply, j - supply[c], c, c);
      var p := RecordIsAttained(supply, n, j - supply[c]);
      ch := p + [c];
      assert ch[..|ch| - 1] == p;
      PathCostSnoc(ch);
      ChainSupplySnoc(supply, ch);
    }
  }

  lemma {:induction false} BestIsLowerBound(supply: seq<nat>, c: nat, ch: seq<nat>, j: nat)
    requires c < |supply| && IsChain(ch, c + 1) && ChainSupply(supply, ch) >= j
    ensures Best(supply, c, j).Fin? && Best(supply, c, j).cost <= ChainCost(ch)
  {
    if ch[|ch| - 1] == c {
      RecordIsLowerBound(supply, ch, j);
    } else {
      assert forall i :: 0 <= i < |ch| - 1 ==> ch[i] < ch[|ch| - 1];
      BestIsLowerBound(supply, c - 1, ch, j);
    }
  }

  // ---------- feasibility ----------

  lemma {:induction false} WholeChain(supply: seq<nat>, n: nat) returns (ch: seq<nat>)
    requires 0 < n <= |supply|
    ensures IsChain(ch, n) && ChainSupply(supply, ch) == SumRange(supply, 0, n)
  {
    if n == 1 {
      ch := [0];
    } else {
      var p := WholeChain(supply, n - 1);
      ch := p + [n - 1];
      assert ch[..|ch| - 1] == p;
      ChainSupplySnoc(supply, ch);
    }
  }

  lemma {:induction false} ChainWithinTotal(supply: seq<nat>, ch: seq<nat>, n: nat)
    requires n <= |supply| && (ch == [] || IsChain(ch, n))
    ensures ChainSupply(supply, ch) <= SumRange(supply, 0, n)
    decreases n
  {
    if n > 0 {
        if ch != [] && ch[|ch| - 1] == n - 1 {
        ChainSupplySnoc(supply, ch);
        assert forall i :: 0 <= i < |ch| - 1 ==> ch[i] < ch[|ch| - 1];
        ChainWithinTotal(supply, ch[..|ch| - 1], n - 1);
      } else {
        assert forall i :: 0 <= i < |ch| - 1 ==> ch[i] < ch[|ch| - 1];
        ChainWithinTotal(supply, ch, n - 1);
      }
    }
  }

  /** The target can be met exactly when all candidates together meet it. */
  lemma FeasibleIffTotal(supply: seq<nat>, wanted: nat)
    requires |supply| > 0
    ensures Best(supply, |supply| - 1, wanted).Fin? <==> Total(supply) >= wanted
  {
    if Total(supply) >= wanted {
      var ch := WholeChain(supply, |supply|);
      BestIsLowerBound(supply, |supply| - 1, ch, wanted);
    }
    if Best(supply, |supply| - 1, wanted).Fin? {
      var c := BestColumn(supply, |supply| - 1, wanted);
      var ch := RecordIsAttained(supply, c, wanted);
      ChainWithinTotal(supply, ch, |supply|);
    }
  }

  lemma {:induction false} BestColumn(supply: seq<nat>, c: nat, j: nat) returns (e: nat)
    requires c < |supply|
    ensures e <= c && Best(supply, c, j) == Record(supply, e, j)
  {
    if c > 0 && Less(Best(supply, c - 1, j), Record(supply, c, j)) {
      e := BestColumn(supply, c - 1, j);
    } else {
      e := c;
    }
  }

  // ---------- the window loses nothing ----------

  lemma {:induction false} MinPredSplit(supply: seq<nat>, k: nat, mid: nat, m: nat, c: nat)
    requires mid <= m <= c < |supply|
    ensures MinPred(supply, k, 0, m, c)
         == Min(MinPred(supply, k, mid, m, c), MinPred(supply, k, 0, mid, c))
  {
    if mid < m {
      MinPredSplit(supply, k, mid, m - 1, c);
    }
  }

  /** All columns further back than the threshold cost the same to leave, so one prefix
      minimum stands for all of them. */
  lemma {:induction false} FarColumnsAreBest(supply: seq<nat>, k: nat, m: nat, c: nat)
    requires 0 < m && m - 1 + COST_THRESHOLD <= c < |supply|
    ensures MinPred(supply, k, 0, m, c) == Plus(Best(supply, m - 1, k), FAR_COST)
  {
    if m > 1 {
      FarColumnsAreBest(supply, k, m - 1, c);
    } else {
      assert MinPred(supply, k, 0, 0, c) == Max;
    }
  }

  // ---------- parent pointers ----------

  datatype Cell = Nowhere | At(col: nat, row: nat)

  datatype Parent = Parent(cell: Cell, fromBest: bool)

  /** What a record's parent pointer promises. */
  ghost predicate RecordParentOk(supply: seq<nat>, c: nat, j: nat, p: Parent)
    requires c < |supply|
  {
    match p.cell
    case Nowhere =>
      !p.fromBest && (j <= supply[c] || Record(supply, c, j).Max?)
    case At(n, k) =>
      && j > supply[c] && k == j - supply[c] && n < c
      && Record(supply, c, j).Fin?
      && if p.fromBest
         then n + COST_THRESHOLD <= c && Record(supply, c, j) == Plus(Best(supply, n, k), FAR_COST)
         else Record(supply, c, j) == Plus(Record(supply, n, k), CalcCost(n, c))
  }

  ghost predicate BestParentOk(supply: seq<nat>, c: nat, j: nat, p: Parent)
    requires c < |supply|
  {
    || (c > 0 && p == Parent(At(c - 1, j), true)
        && Best(supply, c, j).Fin? && Best(supply, c, j) == Best(supply, c - 1, j))
    || (RecordParentOk(supply, c, j, p) && Best(supply, c, j) == Record(supply, c, j))
  }

  /** The four tables, one entry for each column and row. */
  datatype Entry = Entry(record: Cost, best: Cost, recordParent: Parent, bestParent: Parent)

  type Column = seq<Entry>

  ghost predicate EntryOk(supply: seq<nat>, c: nat, j: nat, e: Entry)
    requires c < |supply|
  {
    && e.record == Record(supply, c, j)
    && e.best == Best(supply, c, j)
    && RecordParentOk(supply, c, j, e.recordParent)
    && BestParentOk(supply, c, j, e.bestParent)
  }

  /** Rows `0..rows` of column `c` hold what their names promise. */
  ghost predicate ColumnOk(supply: seq<nat>, c: nat, rows: nat, t: Column)
    requires c < |supply|
  {
    |t| == rows && forall j :: 0 <= j < rows ==> EntryOk(supply, c, j, t[j])
  }

  ghost predicate ColumnsOk(supply: seq<nat>, rows: nat, table: seq<Column>)
  {
    && |table| <= |supply|
    && forall c :: 0 <= c < |table| ==> ColumnOk(supply, c, rows, table[c])
  }

  // ---------- filling the tables ----------

  /** The least extension of an earlier column, looking only at the last 512 columns and
      at one prefix minimum before them. */
  method BestPredecessor(supply: seq<nat>, wanted: nat, table: seq<Column>, k: nat)
    returns (cost: Cost, parent: Parent)
    requires |table| < |supply| && k <= wanted
    requires ColumnsOk(supply, wanted + 1, table)
    ensures cost == MinPred(supply, k, 0, |table|, |table|)
    ensures cost.Max? ==> parent == Parent(Nowhere, false)
    ensures cost.Fin? ==> parent.cell.At? && parent.cell.row == k && parent.cell.col < |table|
    ensures cost.Fin? && parent.fromBest ==>
              && parent.cell.col + COST_THRESHOLD <= |table|
              && cost == Plus(Best(supply, parent.cell.col, k), FAR_COST)
    ensures cost.Fin? && !parent.fromBest ==>
              cost == Plus(Record(supply, parent.cell.col, k), CalcCost(parent.cell.col, |table|))
  {
    var c := |table|;
    var startCol := if c < COST_THRESHOLD then 0 else c - COST_THRESHOLD;
    cost, parent := Max, Parent(Nowhere, false);
    var n := startCol;
    while n < c
      invariant startCol <= n <= c
      invariant cost == MinPred(supply, k, startCol, n, c)
      invariant cost.Max? ==> parent == Parent(Nowhere, false)
      invariant cost.Fin? ==> parent.cell.At? && parent.cell.row == k && parent.cell.col < n
      invariant cost.Fin? ==>
          !parent.fromBest && cost == Plus(Record(supply, parent.cell.col, k), CalcCost(parent.cell.col, c))
    {
      assert EntryOk(supply, n, k, table[n][k]);
      if table[n][k].record != Max {
        var currCost := Plus(table[n][k].record, CalcCost(n, c));
        if Less(currCost, cost) {
          cost, parent := currCost, Parent(At(n, k), false);
        }
      }
      n := n + 1;
    }
    MinPredSplit(supply, k, startCol, c, c);
    if startCol >= 1 {
      FarColumnsAreBest(supply, k, startCol, c);
      assert EntryOk(supply, startCol - 1, k, table[startCol - 1][k]);
      if table[startCol - 1][k].best != Max {
        var currCost := Plus(table[startCol - 1][k].best, CalcCost(startCol - 1, c));
        if Less(currCost, cost) {
          cost, parent := currCost, Parent(At(startCol - 1, k), true);
        }
      }
    }
  }

  /** One cell of both tables and of both parent tables. */
  method FillCell(supply: seq<nat>, wanted: nat, table: seq<Column>, j: nat) returns (e: Entry)
    requires |table| < |supply| && j <= wanted
    requires ColumnsOk(supply, wanted + 1, table)
    ensures EntryOk(supply, |table|, j, e)
  {
    var c := |table|;
    var currRow := if supply[c] > wanted then wanted else supply[c];
    var cost, parent;
    if j <= currRow {
      cost, parent := Fin(if c == 0 then BLOCK_FETCH else CalcCost(0, c)), Parent(Nowhere, false);
    } else {
      cost, parent := BestPredecessor(supply, wanted, table, j - currRow);
    }
    e := Entry(cost, cost, parent, parent);
    if c > 0 {
      assert EntryOk(supply, c - 1, j, table[c - 1][j]);
      if Less(table[c - 1][j].best, cost) {
        e := Entry(cost, table[c - 1][j].best, parent, Parent(At(c - 1, j), true));
      }
    }
  }

  method FillColumn(supply: seq<nat>, wanted: nat, table: seq<Column>) returns (t: Column)
    requires |table| < |supply|
    requires ColumnsOk(supply, wanted + 1, table)
    ensures ColumnOk(supply, |table|, wanted + 1, t)
  {
    t := [];
    var j := 0;
    while j <= wanted
      invariant 0 <= j <= wanted + 1
      invariant ColumnOk(supply, |table|, j, t)
    {
      var e := FillCell(supply, wanted, table, j);
      t := t + [e];
      j := j + 1;
    }
  }

  // ---------- backtracking ----------

  ghost function LinkCost(c: nat, ch: seq<nat>): nat
    requires Increasing(ch) && (ch != [] ==> c < ch[0])
  {
    if ch == [] then 0 else CalcCost(c, ch[0]) + PathCost(ch)
  }

  /** The backtracking invariant for a feasible target: what is still to be found at `at`,
      joined to the blocks already picked, costs `goal` and supplies enough. A pointer into
      the `best` table leaves open where the chain really ends, so it must be far away. */
  ghost predicate OnPath(supply: seq<nat>, wanted: nat, goal: nat, at: Cell, fromBest: bool, picked: seq<nat>)
  {
    && (forall i :: 0 <= i < |picked| ==> picked[i] < |supply|)
    && Increasing(picked)
    && match at
       case Nowhere =>
         picked != [] && ChainCost(picked) == goal && ChainSupply(supply, picked) >= wanted
       case At(c, j) =>
         && c < |supply|
         && (picked != [] ==> c < picked[0])
         && (fromBest && picked != [] ==> c + COST_THRESHOLD <= picked[0])
         && ChainSupply(supply, picked) + j >= wanted
         && var v := if fromBest then Best(supply, c, j) else Record(supply, c, j);
            v.Fin? && v.cost + LinkCost(c, picked) == goal
  }

  lemma PickKeepsPath(supply: seq<nat>, wanted: nat, goal: nat, at: Cell, fromBest: bool,
                      picked: seq<nat>, p: Parent)
    requires at.At? && OnPath(supply, wanted, goal, at, fromBest, picked)
    requires RecordParentOk(supply, at.col, at.row, p)
    requires fromBest ==> Best(supply, at.col, at.row) == Record(supply, at.col, at.row)
    ensures OnPath(supply, wanted, goal, p.cell, p.fromBest, [at.col] + picked)
  {
    var next := [at.col] + picked;
    assert next[1..] == picked;
    assert Increasing(next);
    assert PathCost(next) == LinkCost(at.col, picked);
    assert ChainSupply(supply, next) == supply[at.col] + ChainSupply(supply, picked);
  }

  /** The loop invariant of the backtracking, for feasible and infeasible targets. */
  ghost predicate Tracking(supply: seq<nat>, wanted: nat, at: Cell, fromBest: bool, picked: seq<nat>)
    requires |supply| > 0
  {
    var goal := Best(supply, |supply| - 1, wanted);
    && (at.At? ==> at.col < |supply| && at.row <= wanted)
    && (goal.Fin? ==> OnPath(supply, wanted, goal.cost, at, fromBest, picked))
    && (goal.Max? ==>
          if at.At? then picked == [] && at == At(|supply| - 1, wanted) && !fromBest
          else picked == [|supply| - 1])
  }

  lemma TrackingContinues(supply: seq<nat>, wanted: nat, at: Cell, fromBest: bool, picked: seq<nat>, p: Parent)
    requires |supply| > 0 && (forall c :: 0 <= c < |supply| ==> supply[c] >= 1)
    requires Tracking(supply, wanted, at, fromBest, picked) && at.At?
    requires if fromBest then BestParentOk(supply, at.col, at.row, p) else RecordParentOk(supply, at.col, at.row, p)
    ensures p.cell.At? ==> p.cell.col < at.col
    ensures var pushed := p.cell.Nowhere? || p.cell.row != at.row;
            Tracking(supply, wanted, p.cell, p.fromBest, if pushed then [at.col] + picked else picked)
  {
    var goal := Best(supply, |supply| - 1, wanted);
    if goal.Fin? && (p.cell.Nowhere? || p.cell.row != at.row) {
      PickKeepsPath(supply, wanted, goal.cost, at, fromBest, picked, p);
    }
  }

  /** Follows parent pointers from the last column; the blocks come out in increasing order. */
  method Backtrack(supply: seq<nat>, wanted: nat, table: seq<Column>) returns (picked: seq<nat>)
    requires |supply| > 0 && wanted > 0
    requires forall c :: 0 <= c < |supply| ==> supply[c] >= 1
    requires |table| == |supply| && ColumnsOk(supply, wanted + 1, table)
    ensures Tracking(supply, wanted, Nowhere, false, picked)
  {
    picked := [];
    var at := At(|supply| - 1, wanted);
    assert EntryOk(supply, |supply| - 1, wanted, table[|supply| - 1][wanted]);
    var fromBest := table[|supply| - 1][wanted].bestParent.fromBest;
    while at.At?
      invariant Tracking(supply, wanted, at, fromBest, picked)
      decreases if at.At? then at.col + 1 else 0
    {
      assert EntryOk(supply, at.col, at.row, table[at.col][at.row]);
      var parent := if fromBest then table[at.col][at.row].bestParent else table[at.col][at.row].recordParent;
      TrackingContinues(supply, wanted, at, fromBest, picked, parent);
      if parent.cell.Nowhere? || parent.cell.row != at.row {
        picked := [at.col] + picked;
      }
      fromBest, at := parent.fromBest, parent.cell;
    }
  }

  /** The whole program. A feasible target gets the cheapest chain of all; when even all
      candidates together fall short, only the last candidate is chosen. */
  method SelectBlocks(supply: seq<nat>, wanted: nat) returns (picked: seq<nat>)
    requires |supply| > 0 && wanted > 0
    requires forall c :: 0 <= c < |supply| ==> supply[c] >= 1
    ensures Total(supply) >= wanted ==> CheapestChain(supply, wanted, picked)
    ensures Total(supply) < wanted ==> picked == [|supply| - 1]
  {
    var table := [];
    while |table| < |supply|
      invariant |table| <= |supply|
      invariant ColumnsOk(supply, wanted + 1, table)
    {
      var t := FillColumn(supply, wanted, table);
      table := table + [t];
    }
    picked := Backtrack(supply, wanted, table);
    FeasibleIffTotal(supply, wanted);
    forall other | IsChain(other, |supply|) && ChainSupply(supply, other) >= wanted
      ensures Best(supply, |supply| - 1, wanted).Fin?
      ensures Best(supply, |supply| - 1, wanted).cost <= ChainCost(other)
    {
      BestIsLowerBound(supply, |supply| - 1, other, wanted);
    }
  }

  /** The two tables mean what the design says: least costs over chains, both directions. */
  lemma TablesAreLeastCosts(supply: seq<nat>, c: nat, j: nat)
    requires c < |supply|
    ensures forall ch :: IsChain(ch, |supply|) && ch[|ch| - 1] == c && ChainSupply(supply, ch) >= j ==>
              Record(supply, c, j).Fin? && Record(supply, c, j).cost <= ChainCost(ch)
    ensures Record(supply, c, j).Fin? ==>
              exists ch :: IsChain(ch, |supply|) && ch[|ch| - 1] == c
                           && ChainSupply(supply, ch) >= j && ChainCost(ch) == Record(supply, c, j).cost
    ensures forall ch :: IsChain(ch, c + 1) && ChainSupply(supply, ch) >= j ==>
              Best(supply, c, j).Fin? && Best(supply, c, j).cost <= ChainCost(ch)
    ensures Best(supply, c, j).Fin? ==>
              exists ch :: IsChain(ch, |supply|) && ch[|ch| - 1] <= c
                           && ChainSupply(supply, ch) >= j && ChainCost(ch) == Best(supply, c, j).cost
  {
    forall ch | IsChain(ch, |supply|) && ch[|ch| - 1] == c && ChainSupply(supply, ch) >= j
      ensures Record(supply, c, j).Fin? && Record(supply, c, j).cost <= ChainCost(ch)
    {
      RecordIsLowerBound(supply, ch, j);
    }
    forall ch | IsChain(ch, c + 1) && ChainSupply(supply, ch) >= j
      ensures Best(supply, c, j).Fin? && Best(supply, c, j).cost <= ChainCost(ch)
    {
      BestIsLowerBound(supply, c, ch, j);
    }
    if Record(supply, c, j).Fin? {
      var ch := RecordIsAttained(supply, c, j);
    }
    if Best(supply, c, j).Fin? {
      var e := BestColumn(supply, c, j);
      var ch := RecordIsAttained(supply, e, j);
    }
  }
}
