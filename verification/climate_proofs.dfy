/** Properties of the rounding helpers and of the axis limits: each limit is
    the tightest multiple that covers the data and the zero line. */
module ClimateProofs {
  import opened Wrappers
  import opened Climate

  /** Two multiples of `v` less than `v` apart are equal, or the first is lower. */
  lemma MultiplesApart(a: int, b: int, v: int)
    requires v > 0 && a % v == 0 && b % v == 0
    requires a < b + v
    ensures a <= b
  {
    assert a == v * (a / v) + a % v;
    assert b == v * (b / v) + b % v;
    var n := a / v - b / v;
    assert a - b == v * n;
    ProductBounds(v, n);
  }

  /** `RoundDown` is the greatest multiple of `v` at or below `x`. */
  lemma RoundDownGreatest(x: real, v: int, m: int)
    requires v > 0 && m % v == 0 && m as real <= x
    ensures m <= RoundDown(x, v)
  {
    MultiplesApart(m, RoundDown(x, v), v);
  }

  /** `RoundUp` is the least multiple of `v` at or above `x`. */
  lemma RoundUpLeast(x: real, v: int, m: int)
    requires v > 0 && m % v == 0 && x <= m as real
    ensures RoundUp(x, v) <= m
  {
    MultiplesApart(RoundUp(x, v), m, v);
  }

  /** Both roundings leave an exact multiple unchanged. */
  lemma RoundExact(q: int, v: int)
    requires v > 0
    ensures RoundDown((q * v) as real, v) == q * v
    ensures RoundUp((q * v) as real, v) == q * v
  {
    MultipleOf(q, v);
    RoundDownGreatest((q * v) as real, v, q * v);
    RoundUpLeast((q * v) as real, v, q * v);
  }

  lemma NegatedMultiple(a: int, v: int)
    requires v > 0 && a % v == 0
    ensures (-a) % v == 0
  {
    var q := a / v;
    assert a == v * q + a % v;
    assert -a == (-q) * v;
    MultipleOf(-q, v);
  }

  /** Rounding up is rounding down of the negated value, negated. */
  lemma RoundUpMirror(x: real, v: int)
    requires v > 0
    ensures RoundUp(x, v) == -RoundDown(-x, v)
  {
    var d := RoundDown(-x, v);
    var u := RoundUp(x, v);
    NegatedMultiple(d, v);
    NegatedMultiple(u, v);
    RoundUpLeast(x, v, -d);
    RoundDownGreatest(-x, v, -u);
  }

  /** `tmin` is the greatest multiple of 5 at or below both 0 and every
      temperature. */
  lemma TminTightest(records: seq<Record>, m: int)
    requires YAxisLimits(records).Success?
    requires m % 5 == 0 && m <= 0
    requires forall k, i :: 0 <= k < |records| && records[k].element == Temp && 0 <= i < |records[k].months| ==>
      m as real <= records[k].months[i]
    ensures m <= YAxisLimits(records).value.tmin
  {
    var low := TempRange(records).value.0;
    if low <= 0.0 {
      var k, i :| 0 <= k < |records| && records[k].element == Temp && 0 <= i < |records[k].months| &&
        records[k].months[i] == low;
      RoundDownGreatest(low, 5, m);
    }
  }

  /** `tmax` is the least multiple of 5 at or above both 0 and every
      temperature. */
  lemma TmaxTightest(records: seq<Record>, m: int)
    requires YAxisLimits(records).Success?
    requires m % 5 == 0 && m >= 0
    requires forall k, i :: 0 <= k < |records| && records[k].element == Temp && 0 <= i < |records[k].months| ==>
      records[k].months[i] <= m as real
    ensures YAxisLimits(records).value.tmax <= m
  {
    var high := TempRange(records).value.1;
    if high >= 0.0 {
      var k, i :| 0 <= k < |records| && records[k].element == Temp && 0 <= i < |records[k].months| &&
        records[k].months[i] == high;
      RoundUpLeast(high, 5, m);
    }
  }

  /** `pmax` is the least multiple of 100 at or above every precipitation. */
  lemma PmaxTightest(records: seq<Record>, m: int)
    requires YAxisLimits(records).Success?
    requires m % 100 == 0
    requires forall k, i ::
      0 <= k < |records| && records[k].element == Precipitation && 0 <= i < |records[k].months| ==>
      records[k].months[i] <= m as real
    ensures YAxisLimits(records).value.pmax <= m
  {
    var wettest := MaxPrecip(records).value;
    var k, i :| 0 <= k < |records| && records[k].element == Precipitation && 0 <= i < |records[k].months| &&
      records[k].months[i] == wettest;
    RoundUpLeast(wettest, 100, m);
  }

  /** With every temperature above freezing the temperature axis starts at 0;
      with every temperature below it, the axis ends at 0. */
  lemma ZeroWhenOneSigned(records: seq<Record>)
    requires YAxisLimits(records).Success?
    ensures (forall k, i :: 0 <= k < |records| && records[k].element == Temp && 0 <= i < |records[k].months| ==>
      records[k].months[i] > 0.0) ==> YAxisLimits(records).value.tmin == 0
    ensures (forall k, i :: 0 <= k < |records| && records[k].element == Temp && 0 <= i < |records[k].months| ==>
      records[k].months[i] < 0.0) ==> YAxisLimits(records).value.tmax == 0
  {
    var (low, high) := TempRange(records).value;
    var k, i :| 0 <= k < |records| && records[k].element == Temp && 0 <= i < |records[k].months| &&
      records[k].months[i] == low;
    var k', i' :| 0 <= k' < |records| && records[k'].element == Temp && 0 <= i' < |records[k'].months| &&
      records[k'].months[i'] == high;
  }
}
