/** Running sample means of the groups behind a chart. */
module Samples {
  import opened SquaredError

  /** What one sampling query returns: no record at all, or the mean of `count` new samples. */
  datatype Answer = NoRecords | Sampled(avg: real, count: nat)

  /** A group's running average, the number of samples behind it, and whether its records ran out. */
  datatype Group = Group(avg: real, num: nat, exhausted: bool) {

    predicate Accepts(a: Answer) {
      !exhausted && a.Sampled? ==> num + a.count > 0
    }

    function Resample(a: Answer): Group
      requires Accepts(a)
    {
      if exhausted then this
      else match a
        case NoRecords => Group(avg, num, true)
        case Sampled(m, n) =>
          Group((avg * num as real + m * n as real) / (num + n) as real, num + n, false)
    }
  }

  /** The running average is the exact mean of all samples behind it. */
  lemma ResampleIsExactMean(g: Group, seen: seq<real>, batch: seq<real>)
    requires !g.exhausted && g.num == |seen| && batch != []
    requires seen != [] ==> g.avg == Mean(seen)
    ensures var h := g.Resample(Sampled(Mean(batch), |batch|));
            h.num == |seen + batch| && h.avg == Mean(seen + batch)
  {
    WeightIsSum(g.avg, seen);
    WeightIsSum(Mean(batch), batch);
    SumAppend(seen, batch);
  }

  /** A mean times the number of samples behind it is their sum. */
  lemma WeightIsSum(avg: real, seen: seq<real>)
    requires seen != [] ==> avg == Mean(seen)
    ensures avg * |seen| as real == Sum(seen)
  {
    if seen != [] {
      MeanTimesSize(seen);
    } else {
      assert avg * 0.0 == 0.0;
    }
  }

  /** After its first query a group's average is the answer's, zero without records. */
  lemma FirstAverage(g: Group, a: Answer)
    requires g == Group(0.0, 0, false) && g.Accepts(a)
    ensures g.Resample(a).avg == if a.Sampled? then a.avg else 0.0
  {
    if a.Sampled? {
      ScaleIsQuotient(a.count as real, a.avg * a.count as real);
      DivideBack(a.avg, a.count as real, a.avg * a.count as real);
    }
  }

  // ---------- a group over all its queries ----------

  /** What a query that draws these values answers. */
  ghost function AnswerOf(batch: seq<real>): (a: Answer)
    ensures a.Sampled? ==> a.count > 0
  {
    if batch == [] then NoRecords else Sampled(Mean(batch), |batch|)
  }

  /** A group after the queries that draw these batches; an empty one finds no record. */
  ghost function After(batches: seq<seq<real>>): Group {
    if batches == [] then Group(0.0, 0, false)
    else After(batches[..|batches| - 1]).Resample(AnswerOf(batches[|batches| - 1]))
  }

  /** The values drawn before a query first found no record. */
  ghost function Drawn(batches: seq<seq<real>>): seq<real> {
    if batches == [] then []
    else Drawn(batches[..|batches| - 1]) + if [] in batches then [] else batches[|batches| - 1]
  }

  /** The group that has drawn these values and knows whether its records ran out. */
  ghost function Knows(seen: seq<real>, out: bool): Group {
    Group(if seen == [] then 0.0 else Mean(seen), |seen|, out)
  }

  lemma OneMoreBatch(seen: seq<real>, out: bool, batch: seq<real>)
    ensures Knows(seen, out).Resample(AnswerOf(batch))
         == Knows(if out || batch == [] then seen else seen + batch, out || batch == [])
  {
    if !out && batch != [] {
      ResampleIsExactMean(Knows(seen, out), seen, batch);
    }
  }

  lemma DrawnNext(p: seq<seq<real>>, last: seq<real>)
    ensures After(p + [last]) == After(p).Resample(AnswerOf(last))
    ensures Drawn(p + [last]) == if [] in p || last == [] then Drawn(p) else Drawn(p) + last
    ensures [] in p + [last] <==> [] in p || last == []
  {
    var batches := p + [last];
    assert batches[..|batches| - 1] == p && batches[|p|] == last;
  }

  /** Whatever the queries, the group has run out exactly when one of them found no record, and its
      average and count are those of all values drawn before the first of these. */
  lemma {:induction false} AfterIsMeanOfDrawn(batches: seq<seq<real>>)
    ensures After(batches) == Knows(Drawn(batches), [] in batches)
  {
    if batches != [] {
      var p, last := batches[..|batches| - 1], batches[|batches| - 1];
      assert batches == p + [last];
      AfterIsMeanOfDrawn(p);
      DrawnNext(p, last);
      OneMoreBatch(Drawn(p), [] in p, last);
    }
  }

  function Min(x: real, y: real): (m: real)
    ensures m <= x && m <= y && (m == x || m == y)
  {
    if y < x then y else x
  }

  function Max(x: real, y: real): (m: real)
    ensures m >= x && m >= y && (m == x || m == y)
  {
    if x < y then y else x
  }
}
