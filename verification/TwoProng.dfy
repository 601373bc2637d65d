/** The two-pointer search for a short run of candidate blocks whose estimated samples reach
    the wanted number. `est[i]` is the estimate of candidate `i`. */
module TwoProng {
  import opened Sums

  /** `e` is where the search extends a run that starts at `s`: the first end that reaches
      the wanted number, or the end of the list. */
  ghost predicate EndOfRun(est: seq<nat>, wanted: nat, s: nat, e: nat) {
    && s < e <= |est|
    && TooShort(est, wanted, s, e)
    && (e < |est| ==> SumRange(est, s, e) >= wanted)
  }

  ghost predicate TooShort(est: seq<nat>, wanted: nat, s: nat, e: nat)
    requires s <= e <= |est|
  {
    forall d: nat :: s <= d < e ==> SumRange(est, s, d) < wanted
  }

  /** Starting at `s`, the candidates before the last one are enough. */
  ghost predicate SparesLast(est: seq<nat>, wanted: nat, s: nat)
    requires s < |est|
  {
    SumRange(est, s, |est| - 1) >= wanted
  }

  /** `stop` is the first start from which the run needs the last candidate. */
  ghost predicate StopsAt(est: seq<nat>, wanted: nat, stop: nat) {
    && stop < |est|
    && !SparesLast(est, wanted, stop)
    && forall s: nat :: s < stop ==> SparesLast(est, wanted, s)
  }

  /** The leftmost shortest run among the starts the search tries. */
  ghost predicate IsChosenWindow(est: seq<nat>, wanted: nat, lo: nat, hi: nat) {
    exists stop: nat ::
      && StopsAt(est, wanted, stop)
      && lo <= stop && EndOfRun(est, wanted, lo, hi + 1)
      && (forall s: nat, e: nat :: s <= stop && EndOfRun(est, wanted, s, e) ==>
                           hi + 1 - lo <= e - s && (s < lo ==> hi + 1 - lo < e - s))
  }

  ghost predicate Shortest(est: seq<nat>, wanted: nat, len: nat, limit: nat)
    requires limit <= |est|
  {
    forall s: nat, e: nat :: s <= e <= limit && SumRange(est, s, e) >= wanted ==> len <= e - s
  }

  /** What the search knows once it has tried every start before `start`. */
  ghost predicate Tried(est: seq<nat>, wanted: nat, start: nat, end: nat, lo: nat, hi: nat)
  {
    && 0 < start <= end <= |est|
    && lo < start && lo <= hi < |est|
    && EndOfRun(est, wanted, start - 1, end)
    && EndOfRun(est, wanted, lo, hi + 1)
    && (forall s: nat :: s < start - 1 ==> SparesLast(est, wanted, s))
    && (forall s: nat, e: nat :: s < start && EndOfRun(est, wanted, s, e) ==>
                           hi + 1 - lo <= e - s && (s < lo ==> hi + 1 - lo < e - s))
  }

  lemma TryStart(est: seq<nat>, wanted: nat, start: nat, prevEnd: nat, end: nat, lo: nat, hi: nat)
    requires start > 0 ==> Tried(est, wanted, start, prevEnd, lo, hi) && prevEnd < |est|
    requires EndOfRun(est, wanted, start, end)
    ensures if start == 0 || end - start < hi + 1 - lo then Tried(est, wanted, start + 1, end, start, end - 1)
            else Tried(est, wanted, start + 1, end, lo, hi)
  {
    EndIsUnique(est, wanted, start, end);
    if start > 0 {
      SumWithin(est, start - 1, start - 1, prevEnd, |est| - 1);
    }
  }

  /** The search itself; `negValue` carries a debt that, as the invariant shows, never arises. */
  method SmallestWindow(est: seq<nat>, wanted: nat) returns (minStart: nat, minEnd: nat)
    requires |est| > 0 && wanted > 0
    ensures minStart <= minEnd < |est|
    ensures IsChosenWindow(est, wanted, minStart, minEnd)
  {
    var n := |est|;
    var currSamples, currStart, currEnd, negValue := 0, 0, 0, 0;
    var minLen := n + 1;
    minStart, minEnd := 0, 0;
    while currEnd < n
      invariant currStart <= currEnd <= n
      invariant negValue == 0
      invariant currSamples == SumRange(est, currStart, currEnd)
      invariant currStart == 0 ==> currEnd == 0 && minLen == n + 1
      invariant currStart > 0 ==>
          Tried(est, wanted, currStart, currEnd, minStart, minEnd) && minLen == minEnd + 1 - minStart
      decreases n - currEnd, n - currStart
    {
      ghost var prevEnd := currEnd;
      if currStart > 0 {
        RunsOnlyShrink(est, wanted, currStart - 1, currStart, currEnd);
      }
      while currSamples < wanted + negValue && currEnd < n
        invariant currStart <= currEnd <= n
        invariant negValue == 0
        invariant currSamples == SumRange(est, currStart, currEnd)
        invariant TooShort(est, wanted, currStart, currEnd)
      {
        currSamples := currSamples + est[currEnd];
        if negValue > 0 {
          if currSamples >= negValue {
            currSamples, negValue := currSamples - negValue, 0;
          } else {
            currSamples, negValue := 0, negValue - currSamples;
          }
        }
        currEnd := currEnd + 1;
      }
      TryStart(est, wanted, currStart, prevEnd, currEnd, minStart, minEnd);
      if currEnd - currStart < minLen {
        minLen, minStart, minEnd := currEnd - currStart, currStart, currEnd - 1;
      }
      SumSplit(est, currStart, currStart + 1, currEnd);
      var numSamples := est[currStart];
      if currSamples >= numSamples + negValue {
        currSamples, negValue := currSamples - numSamples - negValue, 0;
      } else {
        negValue := negValue + (numSamples - currSamples);
        currSamples := 0;
      }
      currStart := currStart + 1;
    }
    SearchEnds(est, wanted, currStart, minStart, minEnd);
  }

  lemma SearchEnds(est: seq<nat>, wanted: nat, start: nat, lo: nat, hi: nat)
    requires Tried(est, wanted, start, |est|, lo, hi)
    ensures IsChosenWindow(est, wanted, lo, hi)
  {
    assert StopsAt(est, wanted, start - 1);
  }

  lemma EndIsUnique(est: seq<nat>, wanted: nat, s: nat, e: nat)
    requires EndOfRun(est, wanted, s, e)
    ensures forall d: nat :: EndOfRun(est, wanted, s, d) ==> d == e
  {
  }

  // Moving the start right cannot make an earlier end sufficient.
  lemma RunsOnlyShrink(est: seq<nat>, wanted: nat, s: nat, t: nat, e: nat)
    requires EndOfRun(est, wanted, s, e) && s < t <= e
    ensures TooShort(est, wanted, t, e)
  {
    forall d: nat | t <= d < e
      ensures SumRange(est, t, d) < wanted
    {
      SumWithin(est, s, t, d, d);
    }
  }

  lemma {:induction false} FindEnd(est: seq<nat>, wanted: nat, s: nat, d: nat) returns (e: nat)
    requires s <= d <= |est| && TooShort(est, wanted, s, d) && s < |est| && wanted > 0
    ensures EndOfRun(est, wanted, s, e)
    decreases |est| - d
  {
    if s < d && (d == |est| || SumRange(est, s, d) >= wanted) {
      e := d;
    } else {
      e := FindEnd(est, wanted, s, d + 1);
    }
  }

  /** What the chosen window is worth. It reaches the wanted number whenever the whole list
      does, and otherwise it is the whole list; no window that ends before the last candidate
      is shorter; and it is the shortest of all exactly when the last `len - 1` candidates
      together fall short, because windows that end at the last candidate are not shrunk. */
  lemma ChosenWindowIsGood(est: seq<nat>, wanted: nat, lo: nat, hi: nat)
    requires wanted > 0 && lo <= hi < |est| && IsChosenWindow(est, wanted, lo, hi)
    ensures Total(est) < wanted ==> lo == 0 && hi == |est| - 1
    ensures Total(est) >= wanted ==> SumRange(est, lo, hi + 1) >= wanted
    ensures Shortest(est, wanted, hi + 1 - lo, |est| - 1)
    ensures Total(est) >= wanted ==>
              (Shortest(est, wanted, hi + 1 - lo, |est|) <==>
               SumRange(est, |est| - (hi - lo), |est|) < wanted)
  {
    var n, len := |est|, hi + 1 - lo;
    var stop: nat :|
      && StopsAt(est, wanted, stop)
      && lo <= stop && EndOfRun(est, wanted, lo, hi + 1)
      && (forall s: nat, e: nat :: s <= stop && EndOfRun(est, wanted, s, e) ==>
                           hi + 1 - lo <= e - s && (s < lo ==> hi + 1 - lo < e - s));
    if Total(est) < wanted {
      SumWithin(est, 0, 0, n - 1, n);
      assert !SparesLast(est, wanted, 0);
      SumWithin(est, 0, lo, hi + 1, n);
    } else if lo > 0 {
      assert SparesLast(est, wanted, lo - 1);
      var e := FindEnd(est, wanted, lo - 1, lo - 1);
    }
    forall s: nat, e: nat | s <= e <= n - 1 && SumRange(est, s, e) >= wanted
      ensures len <= e - s
    {
      if s >= stop {
        SumWithin(est, stop, s, e, n - 1);
      }
      var d := FindEnd(est, wanted, s, s);
    }
    if SumRange(est, n - (len - 1), n) < wanted {
      forall s: nat, e: nat | s <= e <= n && SumRange(est, s, e) >= wanted
        ensures len <= e - s
      {
        if e == n && n - s < len {
          SumWithin(est, n - (len - 1), s, n, n);
        }
      }
    }
  }

  /** Some window that reaches the wanted number ends before the last candidate, and one candidate
      fewer at the end of the list falls short. */
  ghost predicate BeatsFinalWindows(est: seq<nat>, wanted: nat, s: nat, e: nat) {
    s < e < |est| && SumRange(est, s, e) >= wanted && SumRange(est, |est| - (e - s) + 1, |est|) < wanted
  }

  /** From the candidates alone: when the chosen window is the shortest of all. `stop` is the
      first start from which the last candidate is needed. */
  lemma ShortestIff(est: seq<nat>, wanted: nat, stop: nat, lo: nat, hi: nat)
    requires wanted > 0 && lo <= hi < |est| && IsChosenWindow(est, wanted, lo, hi)
    requires StopsAt(est, wanted, stop) && Total(est) >= wanted
    ensures Shortest(est, wanted, hi + 1 - lo, |est|)
       <==> SumRange(est, stop + 1, |est|) < wanted || exists s: nat, e: nat :: BeatsFinalWindows(est, wanted, s, e)
  {
    var n, len := |est|, hi + 1 - lo;
    ChosenWindowIsGood(est, wanted, lo, hi);
    StopIsUnique(est, wanted, stop, lo, hi);
    var e := FindEnd(est, wanted, stop, stop);
    RunFromStop(est, wanted, stop, e);
    if SumRange(est, stop + 1, n) < wanted {
      SumWithin(est, stop + 1, n - (len - 1), n, n);
    }
    if s: nat, d: nat :| BeatsFinalWindows(est, wanted, s, d) {
      assert len <= d - s;
      SumWithin(est, n - (d - s) + 1, n - (len - 1), n, n);
    }
    if SumRange(est, n - (len - 1), n) < wanted {
      if hi + 1 < n {
        assert BeatsFinalWindows(est, wanted, lo, hi + 1);
      } else {
        assert len <= n - stop;
        assert lo == stop;
      }
    }
  }

  lemma StopIsUnique(est: seq<nat>, wanted: nat, stop: nat, lo: nat, hi: nat)
    requires lo <= hi && IsChosenWindow(est, wanted, lo, hi) && StopsAt(est, wanted, stop)
    ensures lo <= stop
    ensures forall s: nat, e: nat :: s <= stop && EndOfRun(est, wanted, s, e) ==> hi + 1 - lo <= e - s
  {
    var stop': nat :|
      && StopsAt(est, wanted, stop')
      && lo <= stop' && EndOfRun(est, wanted, lo, hi + 1)
      && (forall s: nat, e: nat :: s <= stop' && EndOfRun(est, wanted, s, e) ==>
                           hi + 1 - lo <= e - s && (s < lo ==> hi + 1 - lo < e - s));
    NoEarlierStop(est, wanted, stop, stop');
    NoEarlierStop(est, wanted, stop', stop);
  }

  lemma NoEarlierStop(est: seq<nat>, wanted: nat, a: nat, b: nat)
    requires StopsAt(est, wanted, a) && StopsAt(est, wanted, b)
    ensures a <= b
  {
  }

  lemma RunFromStop(est: seq<nat>, wanted: nat, stop: nat, e: nat)
    requires StopsAt(est, wanted, stop) && EndOfRun(est, wanted, stop, e)
    ensures e == |est|
  {
    if e < |est| {
      SumWithin(est, stop, stop, e, |est| - 1);
    }
  }

  /** A list on which the search misses the shortest window, a single final candidate. */
  method MissesFinalWindow() returns (minStart: nat, minEnd: nat)
    ensures minStart == 0 && minEnd == 1
    ensures SumRange([1, 1, 2], 2, 3) >= 2
    ensures !Shortest([1, 1, 2], 2, minEnd + 1 - minStart, 3)
  {
    var est := [1, 1, 2];
    assert SumRange(est, 0, 1) == 1 && SumRange(est, 1, 2) == 1 && SumRange(est, 2, 3) == 2;
    assert SumRange(est, 0, 2) == 2 && SumRange(est, 1, 3) == 3;
    minStart, minEnd := SmallestWindow(est, 2);
    assert SparesLast(est, 2, 0) && !SparesLast(est, 2, 1);
    assert EndOfRun(est, 2, 0, 2);
  }
}
