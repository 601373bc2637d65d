/** And/or queries over records, and what they accept. */
module Query {
  import opened Records

  datatype Node = Singleton(attr: string, val: Value) | Operator(isAnd: bool, children: seq<Node>)

  /** A record satisfies the query. */
  predicate Accepts(node: Node, row: Row) {
    match node
    case Singleton(attr, val) => row.Val(attr) == val
    case Operator(isAnd, children) =>
      if isAnd then forall i :: 0 <= i < |children| ==> Accepts(children[i], row)
      else exists i :: 0 <= i < |children| && Accepts(children[i], row)
  }

  /** The check the scans apply to every record they fetch; it stops at the first child that
      settles the answer. */
  method VerifyRecord(node: Node, row: Row) returns (ok: bool)
    ensures ok == Accepts(node, row)
    decreases node
  {
    match node
    case Singleton(attr, val) => ok := row.Val(attr) == val;
    case Operator(isAnd, children) =>
      var i := 0;
      while i < |children|
        invariant 0 <= i <= |children|
        invariant forall k :: 0 <= k < i ==> Accepts(children[k], row) == isAnd
      {
        var here := VerifyRecord(children[i], row);
        if !here && isAnd {
          return false;
        } else if here && !isAnd {
          return true;
        }
        i := i + 1;
      }
      ok := isAnd;
  }

  /** The accepted rows among the first `n`, in order. */
  ghost function Matches(node: Node, rows: seq<Row>, n: nat): (m: seq<nat>)
    requires n <= |rows|
    ensures forall k :: 0 <= k < |m| ==> m[k] < n
  {
    if n == 0 then []
    else Matches(node, rows, n - 1) + if Accepts(node, rows[n - 1]) then [n - 1] else []
  }

  /** In plain terms: exactly the accepted rows, in increasing order. */
  lemma {:induction false} MatchesAre(node: Node, rows: seq<Row>, n: nat)
    requires n <= |rows|
    ensures var m := Matches(node, rows, n);
            && (forall k :: 0 <= k < |m| ==> m[k] < n && Accepts(node, rows[m[k]]))
            && (forall j, k :: 0 <= j < k < |m| ==> m[j] < m[k])
            && (forall r :: 0 <= r < n && Accepts(node, rows[r]) ==> r in m)
  {
    if n > 0 {
      MatchesAre(node, rows, n - 1);
      var p, m := Matches(node, rows, n - 1), Matches(node, rows, n);
      forall r | 0 <= r < n && Accepts(node, rows[r]) ensures r in m {
        if r == n - 1 {
          assert m[|p|] == r;
        } else {
          assert r in p;
        }
      }
    }
  }

  lemma InMatches(node: Node, rows: seq<Row>, n: nat, u: nat)
    requires n <= |rows|
    ensures u in Matches(node, rows, n) <==> u < n && Accepts(node, rows[u])
  {
    MatchesAre(node, rows, n);
    var m := Matches(node, rows, n);
    if u in m {
      var k :| 0 <= k < |m| && m[k] == u;
    }
  }

  /** The measures of the given rows. */
  ghost function Measures(rows: seq<Row>, ids: seq<nat>): (v: seq<real>)
    requires forall k :: 0 <= k < |ids| ==> ids[k] < |rows|
    ensures |v| == |ids| && forall k :: 0 <= k < |ids| ==> v[k] == rows[ids[k]].measure
  {
    if ids == [] then [] else Measures(rows, ids[..|ids| - 1]) + [rows[ids[|ids| - 1]].measure]
  }
}
