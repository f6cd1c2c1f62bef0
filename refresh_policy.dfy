/**
 * The view model's behaviour as functions of its state: each operation maps the state before
 * the call, "now" and the replies of the weather and geocoding services to the state after it,
 * and to the exception that escapes the coroutine, if any. The class in module Presentation
 * performs the same steps imperatively and is proved to end in the state computed here; the
 * lemmas below state what the application promises about these steps.
 */
module RefreshPolicy {
  import opened Wrappers
  import opened Status
  import opened Weather
  import opened CityStore
  import opened Text

  /** What a service call can throw: a cancellation, a `NoSuchElementException`, or another
      exception. The message of the last two may be missing (Kotlin's `String?`). */
  datatype Exception = Cancellation | NoSuchElement(message: Option<string>) | Failure(message: Option<string>)

  datatype Coordinates = Coordinates(lat: real, lon: real)

  /** The weather service's answer to the current-conditions and forecast requests for one
      place: both replies, or the exception one of the two calls threw. */
  datatype WeatherReply = Replied(result: WeatherResult, forecast: seq<ForecastUnit>) | WeatherThrew(exception: Exception)

  /** The geocoding service's answer to a place name: candidate coordinates, best first. */
  datatype GeocodingReply = Places(places: seq<Coordinates>) | GeocodingThrew(exception: Exception)

  /** The screen state (`UiState`). */
  datatype UiState = UiState(
    weatherResult: WeatherResult,
    weatherItems: seq<WeatherItem>,
    forecast: seq<ForecastUnit>,
    lang: string,
    status: FetchStatus,
    networkIsOn: bool)

  /** The screen state, the saved cities and the "recent item id" preference. */
  datatype Model = Model(ui: UiState, store: seq<WeatherItem>, recentId: Option<int>)

  /** The state an operation leaves and the exception that escapes it, if any. */
  datatype Step = Step(model: Model, escaped: Option<Exception>)

  /** The invariant every operation keeps: one saved item per city id, and one visible item
      per city id. */
  ghost predicate Consistent(m: Model)
  {
    UniqueIds(m.store) && UniqueIds(m.ui.weatherItems)
  }

  function Initial(lang: string, store: seq<WeatherItem>, recentId: Option<int>): Model
  {
    Model(UiState(DefaultResult, [], [], lang, Idle, true), store, recentId)
  }

  function WithStatus(m: Model, status: FetchStatus): Model
  {
    m.(ui := m.ui.(status := status))
  }

  /** `updateWeatherResult`: show `r`; when `editRecentItem`, remember its id as the recent one. */
  function ShowResult(m: Model, r: WeatherResult, editRecentItem: bool): Model
  {
    m.(ui := m.ui.(weatherResult := r), recentId := if editRecentItem then Some(r.cityId) else m.recentId)
  }

  /** `insertWeatherItem`: save `r` in the current language together with `forecast`. */
  function SaveResult(m: Model, r: WeatherResult, forecast: seq<ForecastUnit>): Model
  {
    m.(store := Upsert(m.store, ResultToItem(r, m.ui.lang, forecast)))
  }

  /** `getWeatherByCoordinates`: fetch, stamp the result with the requested place, the current
      language and `now`, show it with the forecast, save it when `insert`, and report Success.
      Nothing here catches: an exception from either request escapes with the state as it was. */
  function FetchByCoordinates(m: Model, lat: real, lon: real, insert: bool, now: int, reply: WeatherReply): Step
  {
    match reply
    case WeatherThrew(e) => Step(m, Some(e))
    case Replied(r, forecast) =>
      var stamped := r.(lat := lat, lon := lon, lang := m.ui.lang, lastTimeUpdated := now);
      var shown := ShowResult(m, stamped, insert).(ui := ShowResult(m, stamped, insert).ui.(forecast := forecast));
      var saved := if insert then SaveResult(shown, stamped, forecast) else shown;
      Step(WithStatus(saved, Success), None)
  }

  /** `manageWeatherItem`: serve a fresh item from the store, otherwise refetch it at
      (`lat`, `lon`) and save it, but only with the network on. */
  function Manage(m: Model, item: WeatherItem, lat: real, lon: real, now: int, reply: WeatherReply): Step
  {
    if !RequiresAnUpdate(item, m.ui.lang, now) then
      var shown := ShowResult(m, ItemToResult(item), true);
      Step(WithStatus(shown.(ui := shown.ui.(forecast := item.forecast)), Success), None)
    else if m.ui.networkIsOn then
      FetchByCoordinates(m, lat, lon, true, now, reply)
    else
      Step(m, None)
  }

  /** The `catch` of `getWeatherByCityName`: a cancellation is swallowed silently, any other
      exception becomes `Error(message)`; a missing message makes `message!!` throw a
      null-pointer exception, which escapes. */
  function Catch(m: Model, e: Exception): Step
  {
    if e.Cancellation? then Step(m, None)
    else if e.message.Some? then Step(WithStatus(m, Error(e.message.value)), None)
    else Step(m, Some(Failure(None)))
  }

  /** `getWeatherByCityName`: report InProgress, geocode, report Empty when nothing is found,
      otherwise fetch at the first candidate. */
  function FetchByCityName(m: Model, city: string, insert: bool, now: int, geo: GeocodingReply, reply: WeatherReply): Step
  {
    var busy := WithStatus(m, InProgress);
    match geo
    case GeocodingThrew(e) => Catch(busy, e)
    case Places(places) =>
      if places == [] then Step(WithStatus(busy, Empty), None)
      else
        var st := FetchByCoordinates(busy, places[0].lat, places[0].lon, insert, now, reply);
        if st.escaped.Some? then Catch(st.model, st.escaped.value) else st
  }

  /** The index of the visible item whose id is the recent id, if any. */
  function RecentIndex(items: seq<WeatherItem>, recentId: Option<int>): Option<nat>
  {
    if recentId.None? then None else FindById(items, recentId.value)
  }

  /** `onSearchTextChanged` once the debounce has elapsed: a blank query reloads the recent
      city; otherwise the first visible city whose name contains the query is loaded, and only
      when none does, and the network is on, the query is geocoded (without saving). The
      `catch` of `NoSuchElementException` also covers the refresh of the matched city: when
      that refresh throws one, the query is geocoded as if nothing had matched, and the
      weather service then answers with `fallback`. */
  function SearchTextChanged(m: Model, city: string, now: int, geo: GeocodingReply, reply: WeatherReply,
                             fallback: WeatherReply): Step
  {
    var items := m.ui.weatherItems;
    if IsBlank(city) then
      match RecentIndex(items, m.recentId)
      case Some(k) => Manage(m, items[k], items[k].lat, items[k].lon, now, reply)
      case None => Step(WithStatus(m, Empty), None)
    else
      match FindByName(items, city)
      case Some(k) =>
        var st := Manage(m, items[k], items[k].lat, items[k].lon, now, reply);
        if st.escaped.Some? && st.escaped.value.NoSuchElement? then
          if st.model.ui.networkIsOn then FetchByCityName(st.model, city, false, now, geo, fallback)
          else Step(st.model, None)
        else st
      case None =>
        if m.ui.networkIsOn then FetchByCityName(m, city, false, now, geo, reply) else Step(m, None)
  }

  /** The loop of `loadRecentWeatherItem` over `items` from `st` on: every item whose id is
      `recentId` is managed in turn; an escaping exception ends the loop. */
  function VisitRecent(st: Step, items: seq<WeatherItem>, recentId: Option<int>, now: int, reply: WeatherReply): Step
    decreases |items|
  {
    if items == [] || st.escaped.Some? then st
    else
      var next := if recentId.Some? && items[0].cityId == recentId.value
        then Manage(st.model, items[0], items[0].lat, items[0].lon, now, reply)
        else st;
      VisitRecent(next, items[1..], recentId, now, reply)
  }

  /** `loadRecentWeatherItem`: Empty when nothing is visible, then the loop above over the
      visible list with the recent id read beforehand. */
  function LoadRecent(m: Model, now: int, reply: WeatherReply): Step
  {
    var items := m.ui.weatherItems;
    var start := if items == [] then WithStatus(m, Empty) else m;
    VisitRecent(Step(start, None), items, m.recentId, now, reply)
  }

  /** One emission of the store reaching the collector in `init`. */
  function StoreEmitted(m: Model): Model
  {
    var e := Emit(m.store);
    m.(store := e.store, ui := m.ui.(weatherItems := e.visible))
  }

  /** The `init` block up to its first emission: InProgress, show the saved list as read,
      load the recent city, then collect the store. */
  function Launch(m: Model, now: int, reply: WeatherReply): Step
  {
    var busy := WithStatus(m, InProgress);
    var listed := busy.(ui := busy.ui.(weatherItems := busy.store));
    var st := LoadRecent(listed, now, reply);
    if st.escaped.Some? then st else Step(StoreEmitted(st.model), None)
  }

  /** `onLocaleChange`: switch the language, then manage the shown result as an item (tagged
      with the language it was fetched in, with no forecast) at its own coordinates. */
  function LocaleChanged(m: Model, newLang: string, now: int, reply: WeatherReply): Step
  {
    var switched := m.(ui := m.ui.(lang := newLang));
    var item := ResultToItem(switched.ui.weatherResult, switched.ui.weatherResult.lang, []);
    Manage(switched, item, item.lat, item.lon, now, reply)
  }

  /** `onCityConfirmed`: save the shown result with the shown forecast and remember it. */
  function CityConfirmed(m: Model): Model
  {
    ShowResult(SaveResult(m, m.ui.weatherResult, m.ui.forecast), m.ui.weatherResult, true)
  }

  /** `deleteWeatherItem`. The id is deleted from the store. When it is the city on screen,
      the visible item after it (else the one before it) is managed (with the default
      coordinates 0.0, 0.0, as the call passes none) and becomes the recent id; without one,
      the screen reports Empty and shows the default result, whose id -1 becomes the recent id. */
  function DeleteItem(m: Model, id: int, now: int, reply: WeatherReply): Step
  {
    var items := m.ui.weatherItems;
    var removed := m.(store := RemoveId(m.store, id));
    var current := if m.ui.weatherResult.cityId == id then FindById(items, id) else None;
    match current
    case None => Step(removed, None)
    case Some(k) =>
      if k + 1 < |items| || k >= 1 then
        var next := if k + 1 < |items| then items[k + 1] else items[k - 1];
        var st := Manage(removed, next, 0.0, 0.0, now, reply);
        if st.escaped.Some? then st else Step(st.model.(recentId := Some(next.cityId)), None)
      else
        Step(ShowResult(WithStatus(removed, Empty), DefaultResult, true), None)
  }
}
