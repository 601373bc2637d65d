/** Records, attribute values and the keys they are indexed under. */
module Records {
  import opened SquaredError

  datatype Option<T> = None | Some(value: T)

  datatype Value = ULong(n: nat) | Double(x: real)

  datatype Row = Row(vals: map<string, Value>, measure: real) {
    function Val(attr: string): (v: Value)
      ensures attr in vals ==> v == vals[attr]
    {
      if attr in vals then vals[attr] else ULong(0)
    }
  }

  datatype Binning = Discrete | Continuous(min: real, max: real, card: nat)

  function ToDouble(v: Value): real {
    match v
    case ULong(n) => n as real
    case Double(x) => x
  }

  /** The key of a value; discrete binning of anything but an unsigned integer is an error. */
  function GetKey(bin: Binning, v: Value): Option<nat>
    requires bin.Continuous? ==> bin.min < bin.max && bin.card > 0
  {
    match bin
    case Discrete => if v.ULong? then Some(v.n) else None
    case Continuous(min, max, card) =>
      WidthPositive(min, max, card);
      var binWidth := (max - min) / card as real;
      var key := (ToDouble(v) - min) / binWidth;
      if key < 0.0 then Some(0)
      else if key > (card - 1) as real then Some(card - 1)
      else Some(key.Floor)
  }

  lemma WidthPositive(min: real, max: real, card: nat)
    requires min < max && card > 0
    ensures (max - min) / card as real > 0.0
  {
    QuotientSign(max - min, card as real);
  }

  lemma QuotientMonotone(x: real, y: real, n: real)
    requires x <= y && n > 0.0
    ensures x / n <= y / n
  {
    QuotientSign(y - x, n);
    DivideBack(y / n - x / n, n, y - x);
  }

  /** Continuous keys are in range and follow the order of the values. */
  lemma ContinuousKeysAreMonotone(bin: Binning, v: Value, w: Value)
    requires bin.Continuous? && bin.min < bin.max && bin.card > 0 && ToDouble(v) <= ToDouble(w)
    ensures GetKey(bin, v).Some? && GetKey(bin, w).Some?
    ensures GetKey(bin, v).value <= GetKey(bin, w).value < bin.card
  {
    WidthPositive(bin.min, bin.max, bin.card);
    QuotientMonotone(ToDouble(v) - bin.min, ToDouble(w) - bin.min, (bin.max - bin.min) / bin.card as real);
  }

  /** Scaling by a positive width keeps the order. */
  lemma ScaledOrder(a: real, b: real, w: real)
    requires w > 0.0
    ensures a < b <==> a * w < b * w
    ensures a <= b <==> a * w <= b * w
  {
    assert b * w - a * w == (b - a) * w;
  }

  /** Comparing a quotient with a bin number is comparing the dividend with where that bin starts. */
  lemma QuotientBelow(x: real, w: real, k: real)
    requires w > 0.0
    ensures x / w < k <==> x < k * w
    ensures x / w > k <==> x > k * w
  {
    assert (x / w) * w == x;
    ScaledOrder(x / w, k, w);
    ScaledOrder(k, x / w, w);
  }

  /** The key of a number `x`: the number of the bin of equal width it lies in, the first for what
      lies below the bins and the last for what lies behind its start. */
  lemma ContinuousKeyIsBin(bin: Binning, v: Value, x: real, w: real)
    requires bin.Continuous? && bin.min < bin.max && bin.card > 0 && w == (bin.max - bin.min) / bin.card as real
    requires v == Double(x) || (v.ULong? && v.n as real == x)
    ensures GetKey(bin, v).Some? && GetKey(bin, v).value < bin.card
    ensures x < bin.min ==> GetKey(bin, v) == Some(0)
    ensures x > bin.min + (bin.card - 1) as real * w ==> GetKey(bin, v) == Some(bin.card - 1)
    ensures bin.min <= x <= bin.min + (bin.card - 1) as real * w ==>
              var key := GetKey(bin, v).value;
              bin.min + key as real * w <= x < bin.min + (key + 1) as real * w
  {
    WidthPositive(bin.min, bin.max, bin.card);
    var y, last := x - bin.min, (bin.card - 1) as real;
    var q := y / w;
    var key := q.Floor;
    QuotientBelow(y, w, 0.0);
    QuotientBelow(y, w, last);
    QuotientBelow(y, w, key as real);
    QuotientBelow(y, w, (key + 1) as real);
    assert key as real <= q < (key + 1) as real;
    assert GetKey(bin, v) == if q < 0.0 then Some(0) else if q > last then Some(bin.card - 1) else Some(key);
  }

  /** The discrete key of a value is the value; anything but an unsigned integer has none. */
  lemma DiscreteKeysAreExact(v: Value, n: nat)
    ensures GetKey(Discrete, v) == Some(n) <==> v == ULong(n)
  {
  }
}
