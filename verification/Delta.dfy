/** Published deltas and the view a client rebuilds from them. */
module Delta {

  /** One published region and the position it belongs at. */
  datatype Entry<T> = Entry(n: nat, item: T)

  /** The array splice of the client: positions beyond the end count as the end. */
  function Splice<T>(view: seq<T>, n: nat, del: nat, item: T): seq<T> {
    var at := if n > |view| then |view| else n;
    var gone := if del > |view| - at then |view| - at else del;
    view[..at] + [item] + view[at + gone..]
  }

  function Items<T>(delta: seq<Entry<T>>): seq<T> {
    seq(|delta|, i requires 0 <= i < |delta| => delta[i].item)
  }

  /** Entries are numbered consecutively from `n`. */
  ghost predicate Numbered<T>(delta: seq<Entry<T>>, n: nat) {
    forall i :: 0 <= i < |delta| ==> delta[i].n == n + i
  }

  /** The client replaces the entry at the first region's position and inserts the others
      after it, so the whole delta takes the place of one entry. */
  method Replay<T>(view: seq<T>, delta: seq<Entry<T>>) returns (next: seq<T>)
    requires delta != [] && Numbered(delta, delta[0].n)
    ensures delta[0].n < |view| ==> next == view[..delta[0].n] + Items(delta) + view[delta[0].n + 1..]
    ensures view == [] && delta[0].n == 0 ==> next == Items(delta)
  {
    next := view;
    var i := 0;
    while i < |delta|
      invariant 0 <= i <= |delta|
      invariant i == 0 ==> next == view
      invariant i > 0 && delta[0].n < |view| ==>
          next == view[..delta[0].n] + Items(delta)[..i] + view[delta[0].n + 1..]
      invariant i > 0 && view == [] && delta[0].n == 0 ==> next == Items(delta)[..i]
    {
      next := Splice(next, delta[i].n, if i == 0 then 1 else 0, delta[i].item);
      assert Items(delta)[..i + 1] == Items(delta)[..i] + [delta[i].item];
      i := i + 1;
    }
    assert Items(delta)[..|delta|] == Items(delta);
  }
}
