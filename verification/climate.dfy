/** The y-axis limits of the climate diagram script: rounding to a multiple,
    the temperature range and the precipitation maximum over every station,
    and the rule that turns them into the limits of both axes. */
module Climate {
  import opened Wrappers

  /** Python's `math.floor(x / v) * v`: the multiple of `v` at or below `x`. */
  function RoundDown(x: real, v: int): (r: int)
    requires v > 0
    ensures r % v == 0
    ensures r as real <= x < (r + v) as real
  {
    var q := (x / v as real).Floor;
    FloorScaled(x, v);
    MultipleOf(q, v);
    q * v
  }

  /** Python's `math.ceil`. */
  function Ceil(y: real): (c: int)
    ensures y <= c as real < y + 1.0
  {
    -((-y).Floor)
  }

  /** Python's `math.ceil(x / v) * v`: the multiple of `v` at or above `x`. */
  function RoundUp(x: real, v: int): (r: int)
    requires v > 0
    ensures r % v == 0
    ensures (r - v) as real < x <= r as real
  {
    var q := Ceil(x / v as real);
    CeilScaled(x, v);
    MultipleOf(q, v);
    q * v
  }

  lemma FloorScaled(x: real, v: int)
    requires v > 0
    ensures var q := (x / v as real).Floor; (q * v) as real <= x < (q * v + v) as real
  {
    var vr := v as real;
    var y := x / vr;
    var q := y.Floor;
    var qr := q as real;
    calc {
      qr * vr;
    <= { MulLe(qr, y, vr); }
      y * vr;
    ==
      x;
    }
    calc {
      x;
    ==
      y * vr;
    < { assert y < qr + 1.0; MulLt(y, qr + 1.0, vr); }
      (qr + 1.0) * vr;
    ==
      qr * vr + vr;
    }
    CastProduct(q, v);
  }

  lemma CeilScaled(x: real, v: int)
    requires v > 0
    ensures var q := Ceil(x / v as real); (q * v - v) as real < x <= (q * v) as real
  {
    var vr := v as real;
    var y := x / vr;
    var q := Ceil(y);
    var qr := q as real;
    calc {
      x;
    ==
      y * vr;
    <= { assert y <= qr; MulLe(y, qr, vr); }
      qr * vr;
    }
    calc {
      qr * vr - vr;
    ==
      (qr - 1.0) * vr;
    < { assert qr - 1.0 < y; MulLt(qr - 1.0, y, vr); }
      y * vr;
    ==
      x;
    }
    CastProduct(q, v);
  }

  lemma MulLe(a: real, b: real, c: real)
    requires a <= b && c > 0.0
    ensures a * c <= b * c
  {
  }

  lemma MulLt(a: real, b: real, c: real)
    requires a < b && c > 0.0
    ensures a * c < b * c
  {
  }

  /** `q * v` is a multiple of `v`. */
  lemma MultipleOf(q: int, v: int)
    requires v > 0
    ensures (q * v) % v == 0
  {
    var a := q * v;
    var n := q - a / v;
    assert a == v * (a / v) + a % v;
    assert v * n == a % v;
    ProductBounds(v, n);
  }

  lemma ProductBounds(v: int, n: int)
    requires v > 0
    ensures n >= 1 ==> v * n >= v
    ensures n <= -1 ==> v * n <= -v
  {
  }

  lemma CastProduct(q: int, v: int)
    ensures (q * v) as real == q as real * v as real
  {
  }

  /** The `Element` index level, compared as text: the script reads the rows
      labelled `Temp` and `Precipitation` and ignores any other label. */
  type Element = string

  const Temp: Element := "Temp"
  const Precipitation: Element := "Precipitation"

  /** One input line: a station, an element and its monthly values. */
  datatype Record = Record(station: string, element: Element, months: seq<real>)

  /** Every monthly value of every record of element `e`, record by record:
      what `df[... == e].to_numpy()` holds. */
  function Readings(records: seq<Record>, e: Element): (r: seq<real>)
    ensures Covers(records, e, r)
    ensures forall j :: 0 <= j < |r| ==> Observed(records, e, r[j])
  {
    if |records| == 0 then []
    else
      var head := if records[0].element == e then records[0].months else [];
      var tail := Readings(records[1..], e);
      ReadingsCons(records, e, head, tail);
      head + tail
  }

  /** Every monthly value of every record of element `e` occurs in `r`. */
  predicate Covers(records: seq<Record>, e: Element, r: seq<real>) {
    forall k, i :: 0 <= k < |records| && records[k].element == e && 0 <= i < |records[k].months| ==>
      records[k].months[i] in r
  }

  /** `x` is a monthly value of some record of element `e`. */
  predicate Observed(records: seq<Record>, e: Element, x: real) {
    exists k, i :: 0 <= k < |records| && records[k].element == e && 0 <= i < |records[k].months| &&
      records[k].months[i] == x
  }

  lemma ReadingsCons(records: seq<Record>, e: Element, head: seq<real>, tail: seq<real>)
    requires |records| > 0
    requires head == if records[0].element == e then records[0].months else []
    requires Covers(records[1..], e, tail)
    requires forall j :: 0 <= j < |tail| ==> Observed(records[1..], e, tail[j])
    ensures Covers(records, e, head + tail)
    ensures forall j :: 0 <= j < |head + tail| ==> Observed(records, e, (head + tail)[j])
  {
    var rest := records[1..];
    var r := head + tail;
    forall k, i | 0 <= k < |records| && records[k].element == e && 0 <= i < |records[k].months|
      ensures records[k].months[i] in r
    {
      if k == 0 {
        assert r[i] == records[0].months[i];
      } else {
        assert records[k] == rest[k - 1];
      }
    }
    forall j | 0 <= j < |r|
      ensures Observed(records, e, r[j])
    {
      if j < |head| {
        assert records[0].element == e && records[0].months[j] == r[j];
      } else {
        assert r[j] == tail[j - |head|];
        var k, i :| 0 <= k < |rest| && rest[k].element == e &&
          0 <= i < |rest[k].months| && rest[k].months[i] == tail[j - |head|];
        assert records[k + 1] == rest[k];
      }
    }
  }

  /** `numpy.ndarray.min` of a non-empty array. */
  function Min(s: seq<real>): (m: real)
    requires |s| > 0
    ensures forall i :: 0 <= i < |s| ==> m <= s[i]
    ensures exists i :: 0 <= i < |s| && s[i] == m
  {
    if |s| == 1 then s[0]
    else
      var t := Min(s[1..]);
      assert forall i :: 1 <= i < |s| ==> s[i] == s[1..][i - 1];
      if s[0] <= t then s[0] else t
  }

  /** `numpy.ndarray.max` of a non-empty array. */
  function Max(s: seq<real>): (m: real)
    requires |s| > 0
    ensures forall i :: 0 <= i < |s| ==> s[i] <= m
    ensures exists i :: 0 <= i < |s| && s[i] == m
  {
    if |s| == 1 then s[0]
    else
      var t := Max(s[1..]);
      assert forall i :: 1 <= i < |s| ==> s[i] == s[1..][i - 1];
      if s[0] >= t then s[0] else t
  }

  /** numpy refuses the minimum or maximum of an empty array. */
  datatype LimitsError = NoTemperatures | NoPrecipitation

  /** `get_temp_range`: the lowest and highest temperature of all stations. */
  function TempRange(records: seq<Record>): (r: Result<(real, real), LimitsError>)
    ensures r.Failure? <==> Readings(records, Temp) == []
    ensures r.Failure? ==> r.error == NoTemperatures
    ensures r.Success? ==> r.value.0 <= r.value.1
    ensures r.Success? ==> forall k, i ::
      0 <= k < |records| && records[k].element == Temp && 0 <= i < |records[k].months| ==>
      r.value.0 <= records[k].months[i] <= r.value.1
    ensures r.Success? ==> Observed(records, Temp, r.value.0) && Observed(records, Temp, r.value.1)
  {
    var t := Readings(records, Temp);
    if |t| == 0 then Failure(NoTemperatures) else Success((Min(t), Max(t)))
  }

  /** `get_max_precip`: the highest monthly precipitation of all stations. */
  function MaxPrecip(records: seq<Record>): (r: Result<real, LimitsError>)
    ensures r.Failure? <==> Readings(records, Precipitation) == []
    ensures r.Failure? ==> r.error == NoPrecipitation
    ensures r.Success? ==> forall k, i ::
      0 <= k < |records| && records[k].element == Precipitation && 0 <= i < |records[k].months| ==>
      records[k].months[i] <= r.value
    ensures r.Success? ==> Observed(records, Precipitation, r.value)
  {
    var p := Readings(records, Precipitation);
    if |p| == 0 then Failure(NoPrecipitation) else Success(Max(p))
  }

  /** `YAxisLimits`: the temperature axis runs from `tmin` to `tmax`, the
      precipitation axis from 0 to `pmax`. */
  datatype Limits = Limits(tmin: int, tmax: int, pmax: int)

  /** `get_yaxis_limits`: the temperature range is widened to include 0 and
      rounded outwards to multiples of 5; the precipitation maximum is rounded
      up to a multiple of 100. */
  function YAxisLimits(records: seq<Record>): (r: Result<Limits, LimitsError>)
    ensures r.Failure? <==> Readings(records, Temp) == [] || Readings(records, Precipitation) == []
    ensures r.Failure? ==> (r.error == NoTemperatures <==> Readings(records, Temp) == [])
    ensures r.Success? ==> r.value.tmin <= 0 <= r.value.tmax
    ensures r.Success? ==> r.value.tmin % 5 == 0 && r.value.tmax % 5 == 0 && r.value.pmax % 100 == 0
    ensures r.Success? ==> forall k, i ::
      0 <= k < |records| && records[k].element == Temp && 0 <= i < |records[k].months| ==>
      r.value.tmin as real <= records[k].months[i] <= r.value.tmax as real
    ensures r.Success? ==> forall k, i ::
      0 <= k < |records| && records[k].element == Precipitation && 0 <= i < |records[k].months| ==>
      records[k].months[i] <= r.value.pmax as real
  {
    var (low, high) :- TempRange(records);
    var tmin := if low > 0.0 then 0 else RoundDown(low, 5);
    var tmax := if high < 0.0 then 0 else RoundUp(high, 5);
    var wettest :- MaxPrecip(records);
    Success(Limits(tmin, tmax, RoundUp(wettest, 100)))
  }
}
