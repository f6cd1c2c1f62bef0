/**
 * Weather records as the view model uses them: a current-conditions result as returned by the
 * weather service, a stored city item, forecast units, and the staleness rule that decides
 * whether a stored item must be fetched again.
 *
 * Temperatures and coordinates are `Double` in the application; here they are `real` values
 * that the model only copies and compares for equality.
 */
module Weather {
  /** `main` block of a weather reply: values only displayed, never computed on. */
  datatype Readings = Readings(temp: real, tempMin: real, tempMax: real, feelsLike: real, pressure: real)

  /** One entry of the `weather` list of a reply (its icon code selects the drawable). */
  datatype Condition = Condition(main: string, description: string, icon: string)

  /** One day of the multi-day forecast. */
  datatype ForecastUnit = ForecastUnit(timestamp: int, dayTemp: real, nightTemp: real, weather: seq<Condition>)

  /** Current conditions for one city, stamped by the view model with the coordinates,
      language and time of the fetch. */
  datatype WeatherResult = WeatherResult(
    cityId: int,
    name: string,
    country: string,
    lat: real,
    lon: real,
    lang: string,
    lastTimeUpdated: int,
    main: Readings,
    weather: seq<Condition>)

  /** A saved city: the last result fetched for it together with its forecast. */
  datatype WeatherItem = WeatherItem(
    cityId: int,
    cityName: string,
    country: string,
    lat: real,
    lon: real,
    lang: string,
    lastTimeUpdated: int,
    main: Readings,
    weather: seq<Condition>,
    forecast: seq<ForecastUnit>)

  /** The value the screen starts with and falls back to when the last city is deleted. */
  const DefaultResult: WeatherResult :=
    WeatherResult(-1, "", "", 0.0, 0.0, "", 0, Readings(0.0, 0.0, 0.0, 0.0, 0.0), [])

  /** Seconds after which stored data is considered out of date. */
  const UPDATE_INTERVAL: int := 60 * 60

  /** Stored data must be fetched again when it is an hour old or more, or was fetched in
      another language than the one the screen now uses. */
  predicate RequiresAnUpdate(item: WeatherItem, lang: string, now: int)
  {
    now - item.lastTimeUpdated >= UPDATE_INTERVAL || item.lang != lang
  }

  /** A stored item shown as the current result. */
  function ItemToResult(item: WeatherItem): (r: WeatherResult)
  {
    WeatherResult(item.cityId, item.cityName, item.country, item.lat, item.lon, item.lang,
                  item.lastTimeUpdated, item.main, item.weather)
  }

  /** A result saved as an item, tagged with language `lang` and holding `forecast`. */
  function ResultToItem(r: WeatherResult, lang: string, forecast: seq<ForecastUnit>): (item: WeatherItem)
  {
    WeatherItem(r.cityId, r.name, r.country, r.lat, r.lon, lang, r.lastTimeUpdated,
                r.main, r.weather, forecast)
  }

  /** Saving a result and showing the saved item again gives back the same result, and the
      other way round: the two conversions lose nothing the view model uses. */
  lemma ConversionsRoundTrip(r: WeatherResult, item: WeatherItem)
    ensures ItemToResult(ResultToItem(r, r.lang, item.forecast)) == r
    ensures ResultToItem(ItemToResult(item), item.lang, item.forecast) == item
  {
  }

  /** The staleness rule at its boundaries: same language and less than an hour old is fresh,
      exactly an hour old is stale, and a language change is stale whatever the age. */
  lemma StalenessBoundaries(item: WeatherItem, lang: string, now: int)
    ensures item.lang == lang && now - item.lastTimeUpdated < UPDATE_INTERVAL ==> !RequiresAnUpdate(item, lang, now)
    ensures now - item.lastTimeUpdated == 3600 ==> RequiresAnUpdate(item, lang, now)
    ensures item.lang != lang ==> RequiresAnUpdate(item, lang, now)
  {
  }
}
