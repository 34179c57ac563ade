/** The OpenWeatherMap source: current conditions converted to display units,
    refreshed behind a cooldown that, unlike the other sources, has no floor. */
module Weather {
  import opened Common
  import Cooldown

  /** The JSON value of `cod`: the API sends a number on success and the text
      "404" when the location is unknown. */
  datatype Cod = CodNumber(n: int) | CodText(text: string)

  /** The `wind` object; `gust` is absent from some responses. */
  datatype Wind = Wind(speed: real, deg: int, gust: Option<real>)

  /** The fields of a current-weather response that the source reads:
      `main.temp`, `main.feels_like` (Kelvin), `main.pressure`,
      `main.humidity`, `weather[0].description`, `sys.sunrise`, `sys.sunset`
      and `wind`. */
  datatype Observation = Observation(
    temp: real, feelsLike: real, pressure: int, humidity: int,
    description: string, sunrise: int, sunset: int, wind: Wind)

  datatype Reply = Reply(cod: Cod, observation: Observation)

  /** The weather fields of the source, in display units. */
  datatype Conditions = Conditions(
    temperature: real, feelsLike: real, pressure: int, humidity: int,
    description: string, windSpeed: real, windGust: real, windDirection: int,
    visibility: int, sunrise: int, sunset: int)

  /** The `cod` that makes the source skip every field. */
  const NotFound: Cod := CodText("404")

  function KelvinToCelsius(kelvin: real): (celsius: real)
    ensures celsius + 273.15 == kelvin
  {
    kelvin - 273.15
  }

  /** Kelvin to degrees Fahrenheit, computed directly from Kelvin; it agrees
      with the Celsius conversion followed by the usual Celsius to Fahrenheit
      scaling. */
  function KelvinToFahrenheit(kelvin: real): (fahrenheit: real)
    ensures fahrenheit == KelvinToCelsius(kelvin) * 9.0 / 5.0 + 32.0
  {
    (kelvin - 273.15) * 9.0 / 5.0 + 32.0
  }

  /** Water freezes at 32 and boils at 212 degrees Fahrenheit, and the
      conversion is strictly increasing. */
  lemma FahrenheitScale(a: real, b: real)
    ensures KelvinToFahrenheit(273.15) == 32.0
    ensures KelvinToFahrenheit(373.15) == 212.0
    ensures a < b ==> KelvinToFahrenheit(a) < KelvinToFahrenheit(b)
  {
  }

  /** The mph value divided by the factor 2.23694 gives back the m/s value. */
  function MetersPerSecondToMph(mps: real): (mph: real)
    ensures mph / 2.23694 == mps
    ensures 0.0 <= mps ==> mps <= mph
  {
    mps * 2.23694
  }

  class OpenWeatherMap {
    const lat: real
    const lon: real
    const key: string
    /** Minimum number of seconds between two refreshes; not clamped. */
    const updateInterval: real
    var lastUpdate: real

    var currentTemperature: real
    var currentFeelsLike: real
    var currentPressure: int
    var currentHumidity: int
    var weatherDescription: string
    var windSpeed: real
    var windGust: real
    var windDirection: int
    var visibility: int
    var sunrise: int
    var sunset: int

    /** Every value `lastUpdate` has held, from the constructor's 0 on. */
    ghost var stamps: seq<real>

    ghost predicate Valid()
      reads this
    {
      Cooldown.Stamped(stamps, lastUpdate, updateInterval)
    }

    /** The weather fields as a whole, for stating what an update leaves alone. */
    ghost function Shown(): Conditions
      reads this
    {
      Conditions(currentTemperature, currentFeelsLike, currentPressure, currentHumidity,
                 weatherDescription, windSpeed, windGust, windDirection, visibility, sunrise, sunset)
    }

    /** Coordinates and key from the settings; `openweathermap_update_minutes`
        converted to seconds with no lower bound; every weather field 0 or
        empty. */
    constructor (settings: Settings)
      ensures Valid() && stamps == [0.0]
      ensures lat == settings.openweathermapLat && lon == settings.openweathermapLon
      ensures key == settings.openweathermapApiKey
      ensures updateInterval == settings.openweathermapUpdateMinutes * 60.0
      ensures lastUpdate == 0.0
      ensures currentTemperature == 0.0 && currentFeelsLike == 0.0
      ensures currentPressure == 0 && currentHumidity == 0 && weatherDescription == ""
      ensures windSpeed == 0.0 && windGust == 0.0 && windDirection == 0
      ensures visibility == 0 && sunrise == 0 && sunset == 0
    {
      lat := settings.openweathermapLat;
      lon := settings.openweathermapLon;
      key := settings.openweathermapApiKey;
      updateInterval := settings.openweathermapUpdateMinutes * 60.0;
      lastUpdate := 0.0;
      currentTemperature, currentFeelsLike := 0.0, 0.0;
      currentPressure, currentHumidity := 0, 0;
      weatherDescription := "";
      windSpeed, windGust, windDirection := 0.0, 0.0, 0;
      visibility, sunrise, sunset := 0, 0, 0;
      stamps := [0.0];
    }

    /** One refresh at time `now`. Inside the cooldown nothing changes.
        Otherwise `now` is stamped; a failed fetch or a `cod` of "404" then
        changes nothing else, and any other reply sets every weather field:
        temperatures converted from Kelvin to Fahrenheit, wind speed from m/s
        to mph, the gust converted when present and equal to the wind speed
        when absent, and the rest copied. `visibility` is never updated. */
    method Update(now: real, reply: Fetch<Reply>)
      requires Valid()
      modifies this
      ensures Valid()
      ensures !Cooldown.Ready(now, old(lastUpdate), updateInterval) ==>
        lastUpdate == old(lastUpdate) && stamps == old(stamps) && Shown() == old(Shown())
      ensures Cooldown.Ready(now, old(lastUpdate), updateInterval) ==>
        lastUpdate == now && stamps == old(stamps) + [now]
      ensures (Cooldown.Ready(now, old(lastUpdate), updateInterval) &&
               (reply.FetchFailed? || reply.body.cod == NotFound)) ==>
        Shown() == old(Shown())
      ensures (Cooldown.Ready(now, old(lastUpdate), updateInterval) &&
               reply.Fetched? && reply.body.cod != NotFound) ==>
        var o := reply.body.observation;
        currentTemperature == KelvinToFahrenheit(o.temp) &&
        currentFeelsLike == KelvinToFahrenheit(o.feelsLike) &&
        currentPressure == o.pressure && currentHumidity == o.humidity &&
        weatherDescription == o.description &&
        sunrise == o.sunrise && sunset == o.sunset &&
        windSpeed == MetersPerSecondToMph(o.wind.speed) &&
        windDirection == o.wind.deg &&
        windGust == (if o.wind.gust.Some? then MetersPerSecondToMph(o.wind.gust.value) else windSpeed) &&
        visibility == old(visibility)
    {
      if now - lastUpdate < updateInterval {
        return;
      }
      Cooldown.StampKeepsSpacing(stamps, lastUpdate, updateInterval, now);
      lastUpdate := now;
      stamps := stamps + [now];

      if reply.FetchFailed? {
        return;
      }
      var x := reply.body;
      if x.cod != NotFound {
        var y := x.observation;
        currentTemperature := KelvinToFahrenheit(y.temp);
        currentFeelsLike := KelvinToFahrenheit(y.feelsLike);
        currentPressure := y.pressure;
        currentHumidity := y.humidity;
        weatherDescription := y.description;
        sunrise := y.sunrise;
        sunset := y.sunset;
        windSpeed := MetersPerSecondToMph(y.wind.speed);
        windDirection := y.wind.deg;
        if y.wind.gust.Some? {
          windGust := MetersPerSecondToMph(y.wind.gust.value);
        } else {
          windGust := windSpeed;
        }
      }
    }
  }
}
