/** The National Weather Service source (`NOAA`): a rate-limited three-stage
    refresh (grid point, general forecast, hourly forecast) and the readers
    that derive what the display shows from the stored documents.

    The network is a parameter of `Update`: the grid-point response is given
    directly, and `fetch` answers a GET of the forecast URLs that the grid-point
    document names. Python exceptions that a reader raises appear as `Raises`. */
module Noaa {
  import opened Common
  import opened Forecast
  import Cooldown

  /** An HTTP response: its status code and the parsed JSON body. */
  datatype Response<T> = Response(statusCode: int, body: T)

  /** The Python exceptions a reader can raise. */
  datatype Error = AttributeError | IndexError

  /** What a reader call does: return a value or raise. */
  datatype Outcome<T> = Returns(value: T) | Raises(error: Error)

  /** The text the readers return when no document has been stored. */
  const NoData: string := "No Data"

  /** The number of the three fetches of one refresh that come back with
      status 200 before the first one that does not. A later fetch is only
      made after the earlier ones succeed. */
  function StagesPassed(points: Response<Points>, fetch: string -> Response<ForecastDoc>): (k: nat)
    ensures k <= 3
    ensures k == 0 <==> points.statusCode != 200
    ensures k >= 2 <==> points.statusCode == 200 && fetch(points.body.forecastUrl).statusCode == 200
    ensures k == 3 <==> k >= 2 && fetch(points.body.forecastHourlyUrl).statusCode == 200
  {
    if points.statusCode != 200 then 0
    else if fetch(points.body.forecastUrl).statusCode != 200 then 1
    else if fetch(points.body.forecastHourlyUrl).statusCode != 200 then 2
    else 3
  }

  class Noaa {
    const lat: real
    const lon: real
    const state: string
    /** Minimum number of seconds between two refreshes. */
    const cooldown: int
    const verboseEnabled: bool
    const loggingEnabled: bool

    var lastUpdate: real
    /** The stored documents; `None` until a fetch of that stage first succeeds. */
    var pointsData: Option<Points>
    var forecastData: Option<ForecastDoc>
    var forecastHourlyData: Option<ForecastDoc>

    /** Every value `lastUpdate` has held, from the constructor's 0 on. */
    ghost var stamps: seq<real>

    ghost predicate Valid()
      reads this
    {
      cooldown >= 1 && Cooldown.Stamped(stamps, lastUpdate, cooldown as real)
    }

    /** `cooldown` is truncated to an integer and raised to at least 1 second;
        a missing `lat` or `lon` is taken from the settings. The source's
        defaults are a 60-second cooldown, no coordinates and both flags off. */
    constructor (cooldown: real, verboseEnabled: bool, lat: Option<real>, lon: Option<real>,
                 loggingEnabled: bool, settings: Settings)
      ensures Valid() && stamps == [0.0]
      ensures 1 <= this.cooldown
      ensures 1 <= Cooldown.Trunc(cooldown) ==> this.cooldown == Cooldown.Trunc(cooldown)
      ensures Cooldown.Trunc(cooldown) < 1 ==> this.cooldown == 1
      ensures this.lat == (if lat.Some? then lat.value else settings.weatherLat)
      ensures this.lon == (if lon.Some? then lon.value else settings.weatherLon)
      ensures state == settings.weatherState
      ensures this.verboseEnabled == verboseEnabled && this.loggingEnabled == loggingEnabled
      ensures lastUpdate == 0.0
      ensures pointsData == None && forecastData == None && forecastHourlyData == None
    {
      this.lat := if lat.Some? then lat.value else settings.weatherLat;
      this.lon := if lon.Some? then lon.value else settings.weatherLon;
      state := settings.weatherState;
      var whole := Cooldown.Trunc(cooldown);
      this.verboseEnabled := verboseEnabled;
      this.loggingEnabled := loggingEnabled;
      lastUpdate := 0.0;
      if whole < 1 {
        whole := 1;
      }
      this.cooldown := whole;
      pointsData, forecastData, forecastHourlyData := None, None, None;
      stamps := [0.0];
    }

    /** One refresh at time `now`. Inside the cooldown nothing changes.
        Otherwise `now` is stamped first, then each stage stores its document
        only when its own response has status 200; the first failing stage ends
        the refresh, so the stages before it keep their new documents and it and
        the later stages keep their old ones. */
    method Update(now: real, points: Response<Points>, fetch: string -> Response<ForecastDoc>)
      requires Valid()
      modifies this
      ensures Valid()
      ensures !Cooldown.Ready(now, old(lastUpdate), cooldown as real) ==>
        lastUpdate == old(lastUpdate) && stamps == old(stamps) &&
        pointsData == old(pointsData) && forecastData == old(forecastData) &&
        forecastHourlyData == old(forecastHourlyData)
      ensures Cooldown.Ready(now, old(lastUpdate), cooldown as real) ==>
        lastUpdate == now && stamps == old(stamps) + [now]
      ensures Cooldown.Ready(now, old(lastUpdate), cooldown as real) ==>
        var k := StagesPassed(points, fetch);
        pointsData == (if k >= 1 then Some(points.body) else old(pointsData)) &&
        forecastData == (if k >= 2 then Some(fetch(points.body.forecastUrl).body) else old(forecastData)) &&
        forecastHourlyData == (if k >= 3 then Some(fetch(points.body.forecastHourlyUrl).body) else old(forecastHourlyData))
    {
      if now - lastUpdate < cooldown as real {
        return;
      }
      Cooldown.StampKeepsSpacing(stamps, lastUpdate, cooldown as real, now);
      lastUpdate := now;
      stamps := stamps + [now];

      if points.statusCode != 200 {
        return;
      }
      pointsData := Some(points.body);
      var forecastUrl := points.body.forecastUrl;
      var forecastHourlyUrl := points.body.forecastHourlyUrl;

      var response := fetch(forecastUrl);
      if response.statusCode != 200 {
        return;
      }
      forecastData := Some(response.body);

      response := fetch(forecastHourlyUrl);
      if response.statusCode != 200 {
        return;
      }
      forecastHourlyData := Some(response.body);
    }
  }

  /** `get_active_periods`: the hourly periods not yet ended at `now`, in the
      document's order; none when no hourly document is stored. */
  function ActivePeriods(hourly: Option<ForecastDoc>, now: real): (r: seq<Period>)
    ensures hourly.None? ==> r == []
    ensures hourly.Some? ==> r == Active(hourly.value.periods, now)
    ensures forall p :: p in r <==> hourly.Some? && p in hourly.value.periods && now < p.endTime
  {
    if hourly.Some? then Active(hourly.value.periods, now) else []
  }

  /** `get_hourly_temperatures`: one temperature per active period, in order. */
  function HourlyTemperatures(hourly: Option<ForecastDoc>, now: real): (r: seq<int>)
    ensures |r| == |ActivePeriods(hourly, now)|
    ensures forall i :: 0 <= i < |r| ==> r[i] == ActivePeriods(hourly, now)[i].temperature
  {
    Temperatures(ActivePeriods(hourly, now))
  }

  /** `get_hourly_rain_chances`: one precipitation probability per active
      period, in order. */
  function HourlyRainChances(hourly: Option<ForecastDoc>, now: real): (r: seq<int>)
    ensures |r| == |ActivePeriods(hourly, now)|
    ensures forall i :: 0 <= i < |r| ==> r[i] == ActivePeriods(hourly, now)[i].rainChance
  {
    RainChances(ActivePeriods(hourly, now))
  }

  /** `get_instantaneous_temperature`: 0 without an hourly document; otherwise
      the first two active temperatures interpolated by the elapsed fraction of
      the hour, and an `IndexError` when fewer than two periods are active. */
  function InstantaneousTemperature(hourly: Option<ForecastDoc>, now: real, secondsIntoHour: real): (r: Outcome<real>)
    ensures hourly.None? ==> r == Returns(0.0)
    ensures hourly.Some? ==> (r.Raises? <==> |ActivePeriods(hourly, now)| < 2)
    ensures r.Raises? ==> r.error == IndexError
    ensures hourly.Some? && r.Returns? ==>
      r.value == Interpolate(ActivePeriods(hourly, now)[0].temperature as real,
                             ActivePeriods(hourly, now)[1].temperature as real,
                             HourProgress(secondsIntoHour))
    ensures hourly.Some? && r.Returns? && secondsIntoHour == 0.0 ==>
      r.value == ActivePeriods(hourly, now)[0].temperature as real
    ensures hourly.Some? && r.Returns? && secondsIntoHour == 3600.0 ==>
      r.value == ActivePeriods(hourly, now)[1].temperature as real
    ensures hourly.Some? && r.Returns? && 0.0 <= secondsIntoHour <= 3600.0 ==>
      var t1 := ActivePeriods(hourly, now)[0].temperature as real;
      var t2 := ActivePeriods(hourly, now)[1].temperature as real;
      (t1 <= t2 ==> t1 <= r.value <= t2) && (t2 <= t1 ==> t2 <= r.value <= t1)
  {
    if hourly.None? then Returns(0.0)
    else
      var temperatures := HourlyTemperatures(hourly, now);
      if |temperatures| < 2 then Raises(IndexError)
      else
        var progress := HourProgress(secondsIntoHour);
        InterpolateBetween(temperatures[0] as real, temperatures[1] as real, progress);
        Returns(Interpolate(temperatures[0] as real, temperatures[1] as real, progress))
  }

  /** `get_current_hourly_forecast`: `None` stands for the "No Data" answer
      given without an hourly document; otherwise the first active period, and
      an `IndexError` when no period is active. */
  function CurrentHourlyForecast(hourly: Option<ForecastDoc>, now: real): (r: Outcome<Option<Period>>)
    ensures hourly.None? ==> r == Returns(None)
    ensures hourly.Some? ==> (r.Raises? <==> forall p :: p in hourly.value.periods ==> p.endTime <= now)
    ensures r.Raises? ==> r.error == IndexError
  {
    if hourly.None? then Returns(None)
    else
      var active := ActivePeriods(hourly, now);
      if |active| == 0 then Raises(IndexError)
      else
        assert active[0] in active;
        Returns(Some(active[0]))
  }

  /** The current hourly forecast is the earliest-listed period that has not
      yet ended. */
  lemma CurrentHourlyIsFirstActive(doc: ForecastDoc, now: real, k: nat)
    requires k < |doc.periods| && now < doc.periods[k].endTime
    requires forall j :: 0 <= j < k ==> doc.periods[j].endTime <= now
    ensures CurrentHourlyForecast(Some(doc), now) == Returns(Some(doc.periods[k]))
  {
    ActiveFirst(doc.periods, now, k);
  }

  /** `get_short_forecast`, with an unassigned forecast read as `None`: "No
      Data" without a general forecast, otherwise the first period's short
      forecast, and an `IndexError` when the document lists no period. */
  function ShortForecast(forecast: Option<ForecastDoc>): (r: Outcome<string>)
    ensures forecast.None? ==> r == Returns(NoData)
    ensures forecast.Some? && forecast.value.periods != [] ==>
      r == Returns(forecast.value.periods[0].shortForecast)
    ensures forecast.Some? && forecast.value.periods == [] ==> r == Raises(IndexError)
  {
    match forecast
    case None => Returns(NoData)
    case Some(doc) => if doc.periods == [] then Raises(IndexError) else Returns(doc.periods[0].shortForecast)
  }

  /** `get_short_forecast` as the source runs it: `forecast_data` is never
      assigned by the constructor, so before the first successful forecast
      fetch reading it raises `AttributeError` and the `is not None` test is
      never reached. `None` here stands for the unassigned attribute. */
  function ShortForecastAsWritten(forecast: Option<ForecastDoc>): (r: Outcome<string>)
    ensures forecast.None? ==> r == Raises(AttributeError)
    ensures forecast.Some? ==> r == ShortForecast(forecast)
  {
    match forecast
    case None => Raises(AttributeError)
    case Some(doc) => if doc.periods == [] then Raises(IndexError) else Returns(doc.periods[0].shortForecast)
  }

  /** A source fresh from its constructor, or one whose forecast fetches have
      all failed, raises instead of answering "No Data"; the two readers agree
      as soon as a forecast is stored. */
  lemma UnassignedForecastRaises(doc: ForecastDoc)
    ensures ShortForecastAsWritten(None) == Raises(AttributeError)
    ensures ShortForecast(None) == Returns(NoData)
    ensures ShortForecastAsWritten(Some(doc)) == ShortForecast(Some(doc))
  {
  }

  /** `get_active_periods` as the source runs it: `forecast_hourly_data` is
      never assigned by the constructor, so until the first successful hourly
      fetch reading it raises `AttributeError`. `None` here stands for the
      unassigned attribute. `get_hourly_temperatures` and
      `get_hourly_rain_chances` call it and raise with it. */
  function ActivePeriodsAsWritten(hourly: Option<ForecastDoc>, now: real): (r: Outcome<seq<Period>>)
    ensures hourly.None? ==> r == Raises(AttributeError)
    ensures hourly.Some? ==> r == Returns(ActivePeriods(hourly, now))
  {
    match hourly
    case None => Raises(AttributeError)
    case Some(doc) => Returns(Active(doc.periods, now))
  }

  /** `get_current_hourly_forecast` as the source runs it: `AttributeError`
      while `forecast_hourly_data` is unassigned. */
  function CurrentHourlyForecastAsWritten(hourly: Option<ForecastDoc>, now: real): (r: Outcome<Option<Period>>)
    ensures hourly.None? ==> r == Raises(AttributeError)
    ensures hourly.Some? ==> r == CurrentHourlyForecast(hourly, now)
  {
    match hourly
    case None => Raises(AttributeError)
    case Some(doc) =>
      var active := Active(doc.periods, now);
      if active == [] then Raises(IndexError) else Returns(Some(active[0]))
  }

  /** `get_instantaneous_temperature` as the source runs it: `AttributeError`
      while `forecast_hourly_data` is unassigned. */
  function InstantaneousTemperatureAsWritten(hourly: Option<ForecastDoc>, now: real, secondsIntoHour: real): (r: Outcome<real>)
    ensures hourly.None? ==> r == Raises(AttributeError)
    ensures hourly.Some? ==> r == InstantaneousTemperature(hourly, now, secondsIntoHour)
  {
    match hourly
    case None => Raises(AttributeError)
    case Some(doc) =>
      var temperatures := Temperatures(Active(doc.periods, now));
      if |temperatures| < 2 then Raises(IndexError)
      else Returns(Interpolate(temperatures[0] as real, temperatures[1] as real, HourProgress(secondsIntoHour)))
  }

  /** Until an hourly document is stored, the hourly readers raise where an
      empty list, "No Data" and 0 are meant; once one is stored, each agrees
      with its intended reader. */
  lemma UnassignedHourlyRaises(doc: ForecastDoc, now: real, secondsIntoHour: real)
    ensures ActivePeriodsAsWritten(None, now) == Raises(AttributeError) && ActivePeriods(None, now) == []
    ensures CurrentHourlyForecastAsWritten(None, now) == Raises(AttributeError)
    ensures CurrentHourlyForecast(None, now) == Returns(None)
    ensures InstantaneousTemperatureAsWritten(None, now, secondsIntoHour) == Raises(AttributeError)
    ensures InstantaneousTemperature(None, now, secondsIntoHour) == Returns(0.0)
    ensures CurrentHourlyForecastAsWritten(Some(doc), now) == CurrentHourlyForecast(Some(doc), now)
    ensures InstantaneousTemperatureAsWritten(Some(doc), now, secondsIntoHour) ==
      InstantaneousTemperature(Some(doc), now, secondsIntoHour)
  {
  }
}
