/** The forecast documents returned by the National Weather Service API and the
    values the NOAA source derives from them: the periods that have not yet
    ended, the hourly temperature and rain-chance series, and the temperature
    interpolated within the current hour. */
module Forecast {

  /** One forecast period. `endTime` is the period's end as a Unix time; the
      ISO-8601 text the API sends is converted by the caller. `rainChance` is
      `probabilityOfPrecipitation.value`. */
  datatype Period = Period(endTime: real, temperature: int, rainChance: int, shortForecast: string)

  /** A forecast or hourly-forecast document: `properties.periods`, in the
      order the API lists them. */
  datatype ForecastDoc = ForecastDoc(periods: seq<Period>)

  /** The grid-point document: `properties.forecast` and
      `properties.forecastHourly`, the URLs of the other two documents. */
  datatype Points = Points(forecastUrl: string, forecastHourlyUrl: string)

  /** The periods whose end time is strictly after `now`, in input order. */
  function Active(periods: seq<Period>, now: real): (r: seq<Period>)
    ensures |r| <= |periods|
    ensures forall p :: p in r <==> p in periods && now < p.endTime
    decreases |periods|
  {
    if periods == [] then []
    else (if now < periods[0].endTime then [periods[0]] else []) + Active(periods[1..], now)
  }

  /** Filtering commutes with concatenation: the kept periods of a list made of
      two parts are those kept from the first part followed by those kept from
      the second, so the filter never reorders. */
  lemma {:induction false} ActiveAppend(a: seq<Period>, b: seq<Period>, now: real)
    ensures Active(a + b, now) == Active(a, now) + Active(b, now)
    decreases |a|
  {
    if a != [] {
      assert (a + b)[1..] == a[1..] + b;
      ActiveAppend(a[1..], b, now);
    } else {
      assert a + b == b;
    }
  }

  /** A single period is kept exactly when it has not yet ended. */
  lemma ActiveSingle(p: Period, now: real)
    ensures Active([p], now) == if now < p.endTime then [p] else []
  {
  }

  /** The first kept period is the first period in the list that has not yet
      ended. */
  lemma {:induction false} ActiveFirst(periods: seq<Period>, now: real, k: nat)
    requires k < |periods| && now < periods[k].endTime
    requires forall j :: 0 <= j < k ==> periods[j].endTime <= now
    ensures Active(periods, now) != [] && Active(periods, now)[0] == periods[k]
    decreases k
  {
    if k > 0 {
      ActiveFirst(periods[1..], now, k - 1);
    }
  }

  /** Periods ending an hour ago, in half an hour and in an hour and a half:
      the last two are kept, in that order. */
  lemma ActiveExample(a: Period, b: Period, c: Period, now: real)
    requires a.endTime == now - 3600.0
    requires b.endTime == now + 1800.0 && c.endTime == now + 5400.0
    ensures Active([a, b, c], now) == [b, c]
  {
  }

  /** The `temperature` of each period, in order. */
  function Temperatures(periods: seq<Period>): (r: seq<int>)
    ensures |r| == |periods|
    ensures forall i :: 0 <= i < |periods| ==> r[i] == periods[i].temperature
    decreases |periods|
  {
    if periods == [] then [] else [periods[0].temperature] + Temperatures(periods[1..])
  }

  /** The `probabilityOfPrecipitation.value` of each period, in order. */
  function RainChances(periods: seq<Period>): (r: seq<int>)
    ensures |r| == |periods|
    ensures forall i :: 0 <= i < |periods| ==> r[i] == periods[i].rainChance
    decreases |periods|
  {
    if periods == [] then [] else [periods[0].rainChance] + RainChances(periods[1..])
  }

  /** The fraction of the current hour that has elapsed. */
  function HourProgress(secondsIntoHour: real): (progress: real)
    ensures 0.0 <= secondsIntoHour <= 3600.0 ==> 0.0 <= progress <= 1.0
    ensures progress * 3600.0 == secondsIntoHour
  {
    secondsIntoHour / (60.0 * 60.0)
  }

  /** Linear interpolation from `t1` (at progress 0) towards `t2` (at progress 1). */
  function Interpolate(t1: real, t2: real, progress: real): (t: real)
    ensures progress == 0.0 ==> t == t1
    ensures progress == 1.0 ==> t == t2
  {
    t1 + (t2 - t1) * progress
  }

  /** For progress within the hour the interpolated value lies between the two
      hourly temperatures, whichever of them is the larger. */
  lemma InterpolateBetween(t1: real, t2: real, progress: real)
    ensures 0.0 <= progress <= 1.0 && t1 <= t2 ==> t1 <= Interpolate(t1, t2, progress) <= t2
    ensures 0.0 <= progress <= 1.0 && t2 <= t1 ==> t2 <= Interpolate(t1, t2, progress) <= t1
  {
    if 0.0 <= progress <= 1.0 {
      var d := t2 - t1;
      assert Interpolate(t1, t2, progress) == t1 + d * progress;
      if 0.0 <= d {
        ScaledWithin(d, progress);
      } else {
        ScaledWithin(-d, progress);
        assert (-d) * progress == -(d * progress);
      }
    }
  }

  /** A non-negative amount scaled by a fraction no larger than one stays
      between zero and the amount. */
  lemma ScaledWithin(d: real, progress: real)
    requires 0.0 <= d && 0.0 <= progress <= 1.0
    ensures 0.0 <= d * progress <= d
  {
  }

  /** Halfway between 60 and 70 degrees is 65. */
  lemma InterpolateHalfway()
    ensures Interpolate(60.0, 70.0, 0.0) == 60.0
    ensures Interpolate(60.0, 70.0, 0.5) == 65.0
  {
  }
}
