# Screensaver data sources, modelled in Dafny

The screensaver shows the time, the weather and the BTC/USD price. Four
data-source classes keep what it shows: `NOAA` (the National Weather Service
forecast), `CEX` (the CEX.io ticker), `BCI` (the Blockchain.info ticker) and
`OpenWeatherMap` (current conditions). Each class has an `update` method that
the display calls often. That method returns at once while its cooldown has
not elapsed. Otherwise it stamps the current time and then fetches and stores
new values.

This project models that refresh core:

- `common.dfy` holds the shared values: `Option`, the outcome of a fetch, and
  the parsed `settings.json`.
- `cooldown.dfy` holds the cooldown rule that all four `update` methods
  repeat. It has the interval clamp, the gate and the invariant the gate
  keeps: two calls that pass are at least one interval apart. It also defines
  the trace of the calls that pass in a run of calls.
- `forecast.dfy` holds the NWS documents and what is derived from them: the
  periods not yet ended, the hourly temperature and rain-chance series, and
  interpolation within the hour.
- `noaa.dfy`, `cex.dfy`, `bci.dfy` and `weather.dfy` each hold one source. The
  source is a class whose fields are the Python attributes. Its `Update`
  method takes the time and the network's answer as arguments. Each class
  keeps a ghost list of every value its `lastUpdate` has held. Its `Valid()`
  invariant says that successive values in that list are at least one
  interval apart.

Times are plain numbers given by the caller. Every `Update` reads one `now`,
although the source reads the clock twice. Prices, temperatures and
conversions use Dafny's exact `real` numbers. This is an idealisation of
Python floats.

What the code does, and so what the model does:

- The NOAA refresh keeps the stages that succeeded before a failing one.
  Nothing is rolled back.
- The code does not cut the hourly series to 24 entries.
- The cooldown is a plain check followed by a set, not an atomic step.
- The code formats no displayed delta string.

## Model

| member | source | states |
|---|---|---|
| Cooldown.Trunc | noaa.py:44 | `int()` truncates toward zero: the result is within one of the argument and not farther from zero |
| Cooldown.Ready | noaa.py:54-56 | the gate of every `update`: a call proceeds exactly when `now` is at least one interval after the stamp |
| Cooldown.Clamp | cex.py:17-19 | the interval is at least the floor, and equals the configured value whenever that value reaches the floor |
| Cooldown.StampKeepsSpacing | cex.py:24-26 | a call that passes the gate and stamps `now` keeps every pair of successive stamps at least one interval apart |
| Cooldown.SpacedApart | blockchaininfo.py:28-31 | with a non-negative interval, any two stamps, not only neighbours, are at least one interval apart |
| Cooldown.Fired | noaa.py:54-59 | the calls that pass, in a run of calls, are some of the calls made, and there are no more of them than calls |
| Cooldown.FiredSpaced | noaa.py:54-59 | the calls that pass are spaced by at least the interval, and the first is at least one interval after the starting stamp |
| Cooldown.FiredApart | blockchaininfo.py:28-31 | any two calls that pass are at least the interval apart, and each is at least one interval after the starting stamp |
| Cooldown.FiredExtend | noaa.py:54-59 | a further call passes exactly when it comes at least one interval after the stamp in force, that is the last call that passed or the starting stamp; the earlier calls' outcome is unchanged |
| Cooldown.FiredStamped | cex.py:24-26 | the starting stamp followed by the calls that pass meets the invariant the source classes keep on their stamps, ending in the stamp in force |
| Cooldown.TwoCalls | weather.py:37-40 | after a call that passes, a second call passes exactly when it comes at least one interval later |
| Forecast.Active | noaa.py:156-179 | a period is kept exactly when it is in the list and its end time is strictly after `now` |
| Forecast.ActiveAppend | noaa.py:165-177 | filtering a list made of two parts gives the kept periods of the first part followed by those of the second, so the input order is kept |
| Forecast.ActiveSingle | noaa.py:176-177 | one period is kept exactly when it has not yet ended |
| Forecast.ActiveFirst | noaa.py:165-177 | the first kept period is the earliest-listed period that has not ended |
| Forecast.ActiveExample | noaa.py:156-179 | of periods that ended an hour ago, end in 30 minutes and end in 90 minutes, exactly the last two are kept, in order |
| Forecast.Temperatures | noaa.py:192-201 | the series has one entry per period, and entry i is period i's temperature |
| Forecast.RainChances | noaa.py:181-190 | the series has one entry per period, and entry i is period i's precipitation probability |
| Forecast.HourProgress | noaa.py:137-140 | progress times 3600 gives back the seconds into the hour, and the progress lies in [0, 1] within the hour |
| Forecast.Interpolate | noaa.py:145-149 | the interpolated temperature is `t1` at progress 0 and `t2` at progress 1 |
| Forecast.InterpolateBetween | noaa.py:145-151 | for progress in [0, 1] the interpolated temperature lies between `t1` and `t2`, whichever is larger |
| Forecast.InterpolateHalfway | noaa.py:149 | 60 and 70 degrees give 60 at progress 0 and 65 at progress 0.5 |
| Noaa.StagesPassed | noaa.py:63-95 | at most three stages pass; none passes exactly when the grid-point status is not 200; at least two pass exactly when the grid-point and forecast statuses are both 200; all three pass exactly when, in addition, the hourly status is 200 |
| Noaa.Noaa.constructor | noaa.py:20-50 | the cooldown is the truncated argument raised to at least 1; missing coordinates come from the settings; `last_update` is 0 and no document is stored |
| Noaa.Noaa.Update | noaa.py:52-101 | inside the cooldown nothing changes; otherwise `now` is stamped first, and each stage's document is stored only when that stage passes, so a failure at stage k leaves stages k and later unchanged and keeps the new earlier ones; the stamps stay one cooldown apart |
| Noaa.ActivePeriods | noaa.py:156-179 | with no hourly document the result is empty; otherwise it is the document's periods filtered by `Forecast.Active`, so a period is returned exactly when it is in the document and ends strictly after `now`, in the document's order |
| Noaa.HourlyTemperatures | noaa.py:192-201 | one temperature per active period, entry i from active period i |
| Noaa.HourlyRainChances | noaa.py:181-190 | one precipitation probability per active period, entry i from active period i |
| Noaa.InstantaneousTemperature | noaa.py:130-154 | 0 with no hourly document; `IndexError` exactly when fewer than two periods are active; otherwise the first two active temperatures interpolated by the elapsed fraction of the hour, which gives the first at 0 s, the second at 3600 s, and a value between the two within the hour |
| Noaa.CurrentHourlyForecast | noaa.py:124-128 | "No Data" with no hourly document; `IndexError` exactly when every period has ended |
| Noaa.CurrentHourlyIsFirstActive | noaa.py:124-126 | the current hourly forecast is the earliest-listed period that has not ended |
| Noaa.ShortForecast | noaa.py:118-122 | "No Data" with no general forecast; otherwise period 0's short forecast, and `IndexError` when the document lists no period |
| Noaa.ShortForecastAsWritten | noaa.py:118-122 | while `forecast_data` was never assigned, the read raises `AttributeError`; once a forecast is stored it agrees with `ShortForecast` |
| Noaa.UnassignedForecastRaises | noaa.py:118-122 | with no stored forecast the source raises where "No Data" is meant; with one stored, both readers agree |
| Noaa.ActivePeriodsAsWritten | noaa.py:156-160 | while `forecast_hourly_data` was never assigned, the read raises `AttributeError`; once a document is stored it returns the intended active periods |
| Noaa.CurrentHourlyForecastAsWritten | noaa.py:124-128 | while `forecast_hourly_data` was never assigned, the read raises `AttributeError`; once a document is stored it agrees with `CurrentHourlyForecast` |
| Noaa.InstantaneousTemperatureAsWritten | noaa.py:130-154 | while `forecast_hourly_data` was never assigned, the read raises `AttributeError`; once a document is stored it agrees with `InstantaneousTemperature` |
| Noaa.UnassignedHourlyRaises | noaa.py:124-160 | with no stored hourly document the three hourly readers raise where an empty list, "No Data" and 0 are meant; with one stored, each agrees with its intended reader |
| Cex.Midpoint | cex.py:36 | the price is as far above the bid as below the ask, so it lies between them when bid ≤ ask |
| Cex.NextQuote | cex.py:34-38 | the new current price is always the new midpoint |
| Cex.NextQuoteCases | cex.py:34-38 | a repeated price leaves both prices unchanged; a different price makes the old price the previous one, so the two differ |
| Cex.ReplayShowsLast | cex.py:35-36 | after any run of updates the current price is the last midpoint |
| Cex.ReplayKeepsDelta | cex.py:34-38 | once the current and previous prices differ, no run of updates makes them equal again |
| Cex.ReplayPreviousWasShown | cex.py:34-38 | the previous price is always a price shown before: the starting price, the starting previous price, or a midpoint of the run |
| Cex.Cex.constructor | cex.py:7-19 | the interval is `cex_update_minutes`·60 raised to at least 1; both prices are 0, the change is "-0%" and `last_update` is 0 |
| Cex.Cex.Update | cex.py:21-39 | inside the interval nothing changes; otherwise `now` is stamped, and a ticker sets the price to the midpoint under the previous-price rule and the change to its percentage plus "%"; prices that differed still differ |
| Bci.Bci.constructor | blockchaininfo.py:6-24 | the interval is `blockchaininfo_update_minutes`·60 raised to at least 60; the price and `last_update` are 0; `base_url` is the ticker URL |
| Bci.Bci.Update | blockchaininfo.py:26-39 | inside the interval nothing changes; otherwise `now` is stamped and a fetched ticker replaces the price with `USD.last`; `base_url` never changes |
| Weather.KelvinToCelsius | weather.py:102-103 | adding 273.15 to the result gives back the Kelvin value |
| Weather.KelvinToFahrenheit | weather.py:105-106 | the direct formula equals the Celsius conversion scaled by 9/5 and shifted by 32 |
| Weather.FahrenheitScale | weather.py:105-106 | 273.15 K is 32 °F, 373.15 K is 212 °F, and the conversion is strictly increasing |
| Weather.MetersPerSecondToMph | weather.py:108-109 | dividing by 2.23694 gives back the m/s value, and a non-negative speed does not shrink |
| Weather.OpenWeatherMap.constructor | weather.py:7-33 | the interval is `openweathermap_update_minutes`·60 with no floor; every weather field is 0 or empty |
| Weather.OpenWeatherMap.Update | weather.py:35-88 | inside the interval nothing changes; otherwise `now` is stamped even when `cod` is "404", a "404" reply changes no weather field, and any other reply converts the temperatures and the wind, sets the gust to the wind speed when it is absent, and copies the rest |

## Left out

- HTTP requests and `response.json()`. Each `Update` takes the parsed reply as
  an argument. For NOAA, `fetch` maps a URL to the response of a GET of that
  URL.
- Exceptions raised by `requests.get` or `response.json()` in CEX, BCI and
  OpenWeatherMap, such as a connection error or a body that is not JSON. Such
  an exception ends the update after the stamp and before any data field is
  written. The model gives it as `FetchFailed`.
- The same exceptions in NOAA. There the model has no separate failure value;
  the status code stands for every way a stage can fail. An exception in
  stage k (noaa.py:63, 78 or 90 for the request, noaa.py:68, 83 or 95 for
  `response.json()`) leaves the fields exactly as a non-200 status at stage k
  does: the documents stored by the earlier stages stay, and the later ones
  are unchanged. A grid-point document without the two forecast URLs raises
  at noaa.py:73-74 and so acts like a failure at stage 2. `StagesPassed`
  gives the number of stages that stored their document.
- HTTP status codes for CEX, BCI and OpenWeatherMap. These sources never check
  the status, and `requests.get` does not raise on a non-200 reply. An error
  body is parsed like any other, and a missing key then raises (see below).
  Only the NOAA stages check for status 200.
- Exceptions raised by a missing JSON key in the middle of an update. In the
  model each reply carries all the keys it is read for. For BCI a missing key
  raises before the price is written. For OpenWeatherMap a reply whose `cod`
  is not "404" but that has no `main` raises before any field is written.
- Cex.Cex.Update: a ticker body without `bid` or `ask`, such as an error reply,
  raises at cex.py:36 after cex.py:35 has already copied `btc_usd` into
  `last_btc_usd`. The two prices are then equal and the displayed change
  collapses to zero. The model does not capture this partial write, so the
  guarantee that differing prices stay different holds for well-formed
  tickers only.
- Reading `settings.json`. Constructors take its parsed keys as a `Settings`
  value.
- The clock (`time.time`, `time.localtime`). `now` and the seconds into the
  hour are arguments.
- Converting period end times from ISO-8601 text with `time.strptime` and
  `time.mktime` in the local time zone. Periods carry their end as a Unix
  time.
- Printing, the `verbose` method and the `__log_data` file dumps
  (noaa.py:103-116). The two flags are kept as constructor fields only.
- Python float rounding in the conversions, the midpoint and the
  interpolation. The model uses exact reals.
- Parsing `bid`, `ask` and `USD.last` with `float()`, and `cooldown` with
  `int()` on a string. The replies carry numbers, and `cooldown` is a number.
- Building the grid-point URL from the coordinates.
- main.py. It is the display loop and is not part of this model.

## Findings

| source | as written | input that shows it | evidently intended | confidence | as-written member | corrected member |
|---|---|---|---|---|---|---|
| noaa.py:118-122 | the constructor never assigns `forecast_data`, so `get_short_forecast` raises `AttributeError` at `self.forecast_data is not None` | a `NOAA` object fresh from its constructor, or one whose forecast fetch has never returned status 200, calling `get_short_forecast` | the constructor sets `forecast_data` to `None`, so the reader answers "No Data" until a forecast is stored | high, not executed | Noaa.ShortForecastAsWritten | Noaa.ShortForecast |
| noaa.py:124-160 | the constructor never assigns `forecast_hourly_data`, so `get_current_hourly_forecast` (noaa.py:125), `get_instantaneous_temperature` (noaa.py:131) and `get_active_periods` (noaa.py:160), and through it the two hourly series, raise `AttributeError` | a `NOAA` object fresh from its constructor, or one whose hourly fetch has never returned status 200, calling `get_current_hourly_forecast` | the constructor sets `forecast_hourly_data` to `None`, so the readers answer "No Data", 0 and an empty list until an hourly document is stored | high, not executed | Noaa.CurrentHourlyForecastAsWritten | Noaa.CurrentHourlyForecast |
