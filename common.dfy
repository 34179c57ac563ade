/** Values shared by the four data sources: an optional value, the result of an
    HTTP fetch, and the parsed `settings.json` that every constructor reads. */
module Common {

  /** A value that may be absent. */
  datatype Option<T> = None | Some(value: T)

  /** The outcome of one `requests.get` followed by `response.json()`: either the
      parsed body, or a transport failure that ends the update before any data
      field is written. */
  datatype Fetch<T> = Fetched(body: T) | FetchFailed

  /** The keys of `settings.json` that the data sources read at construction. */
  datatype Settings = Settings(
    weatherLat: real,
    weatherLon: real,
    weatherState: string,
    cexUpdateMinutes: real,
    blockchaininfoUpdateMinutes: real,
    openweathermapLat: real,
    openweathermapLon: real,
    openweathermapApiKey: string,
    openweathermapUpdateMinutes: real)
}
