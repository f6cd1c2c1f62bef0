/**
 * What the view model promises, proved about the step functions of module RefreshPolicy.
 */
module PolicyProperties {
  import opened Wrappers
  import opened Status
  import opened Weather
  import opened CityStore
  import opened Text
  import opened RefreshPolicy

  // ---------------------------------------------------------------------------------------
  // Refresh-or-serve (`manageWeatherItem`)
  // ---------------------------------------------------------------------------------------

  /** A stored item that is still fresh is shown as it is: its data and forecast, Success, its
      id remembered, the store untouched, and no service call (any reply gives the same step). */
  lemma FreshItemIsServedFromStore(m: Model, item: WeatherItem, lat: real, lon: real, now: int,
                                   reply: WeatherReply, otherReply: WeatherReply)
    requires !RequiresAnUpdate(item, m.ui.lang, now)
    ensures var st := Manage(m, item, lat, lon, now, reply);
      && st.escaped.None?
      && st.model.ui.weatherResult == ItemToResult(item)
      && st.model.ui.forecast == item.forecast
      && st.model.ui.status == Success
      && st.model.recentId == Some(item.cityId)
      && st.model.store == m.store
      && st.model.ui.weatherItems == m.ui.weatherItems
      && st.model.ui.lang == m.ui.lang && st.model.ui.networkIsOn == m.ui.networkIsOn
      && st == Manage(m, item, lat, lon, now, otherReply)
  {
  }

  /** A stale item with the network off changes nothing. */
  lemma StaleItemOfflineChangesNothing(m: Model, item: WeatherItem, lat: real, lon: real, now: int, reply: WeatherReply)
    requires RequiresAnUpdate(item, m.ui.lang, now) && !m.ui.networkIsOn
    ensures Manage(m, item, lat, lon, now, reply) == Step(m, None)
  {
  }

  /** A stale item with the network on is fetched again at the given coordinates and saved. */
  lemma StaleItemOnlineIsRefetched(m: Model, item: WeatherItem, lat: real, lon: real, now: int, reply: WeatherReply)
    requires RequiresAnUpdate(item, m.ui.lang, now) && m.ui.networkIsOn
    ensures Manage(m, item, lat, lon, now, reply) == FetchByCoordinates(m, lat, lon, true, now, reply)
  {
  }

  // ---------------------------------------------------------------------------------------
  // Fetching (`getWeatherByCoordinates`, `getWeatherByCityName`)
  // ---------------------------------------------------------------------------------------

  /** A coordinate fetch that gets its replies shows the result stamped with the requested
      place, the current language and `now`, shows the forecast, saves and remembers the city
      only when `insert`, and reports Success. */
  lemma FetchStampsAndSaves(m: Model, lat: real, lon: real, insert: bool, now: int,
                            r: WeatherResult, forecast: seq<ForecastUnit>)
    ensures var st := FetchByCoordinates(m, lat, lon, insert, now, Replied(r, forecast));
      var stamped := st.model.ui.weatherResult;
      && st.escaped.None?
      && stamped == r.(lat := lat, lon := lon, lang := m.ui.lang, lastTimeUpdated := now)
      && st.model.ui.forecast == forecast
      && st.model.ui.status == Success
      && st.model.store == (if insert then Upsert(m.store, ResultToItem(stamped, m.ui.lang, forecast)) else m.store)
      && st.model.recentId == (if insert then Some(r.cityId) else m.recentId)
      && st.model.ui.weatherItems == m.ui.weatherItems
  {
  }

  /** An exception from a coordinate fetch escapes and leaves the state as it was. */
  lemma FetchFailureEscapes(m: Model, lat: real, lon: real, insert: bool, now: int, e: Exception)
    ensures FetchByCoordinates(m, lat, lon, insert, now, WeatherThrew(e)) == Step(m, Some(e))
  {
  }

  /** A saved city is served from the store, without a fetch, for the hour after it was
      fetched as long as the language does not change. */
  lemma {:induction false} SavedItemStaysFreshForAnHour(m: Model, lat: real, lon: real, now: int,
                                                        r: WeatherResult, forecast: seq<ForecastUnit>, later: int)
    requires now <= later < now + UPDATE_INTERVAL
    ensures var st := FetchByCoordinates(m, lat, lon, true, now, Replied(r, forecast));
      exists item :: item in st.model.store && item.cityId == r.cityId
        && item.lat == lat && item.lon == lon && item.forecast == forecast
        && !RequiresAnUpdate(item, m.ui.lang, later)
  {
    var st := FetchByCoordinates(m, lat, lon, true, now, Replied(r, forecast));
    var item := ResultToItem(st.model.ui.weatherResult, m.ui.lang, forecast);
    assert item in st.model.store;
  }

  /** A name that geocodes to nothing reports Empty, without a weather call. */
  lemma UnknownCityReportsEmpty(m: Model, city: string, insert: bool, now: int, reply: WeatherReply)
    ensures FetchByCityName(m, city, insert, now, Places([]), reply) == Step(WithStatus(m, Empty), None)
  {
  }

  /** A found name is fetched at its first candidate, after reporting InProgress. */
  lemma FoundCityIsFetchedAtFirstCandidate(m: Model, city: string, insert: bool, now: int,
                                           places: seq<Coordinates>, r: WeatherResult, forecast: seq<ForecastUnit>)
    requires places != []
    ensures FetchByCityName(m, city, insert, now, Places(places), Replied(r, forecast))
         == FetchByCoordinates(WithStatus(m, InProgress), places[0].lat, places[0].lon, insert, now, Replied(r, forecast))
  {
  }

  /** Any exception with a message, from geocoding or from the weather service, ends a name
      search in `Error(message)` and is not rethrown; a cancellation leaves it InProgress. */
  lemma CityNameFailuresAreCaught(m: Model, city: string, insert: bool, now: int, geo: GeocodingReply,
                                  reply: WeatherReply, e: Exception, message: string)
    requires e == Failure(Some(message)) || e == NoSuchElement(Some(message))
    requires geo == GeocodingThrew(e) || (geo.Places? && geo.places != [] && reply == WeatherThrew(e))
    ensures FetchByCityName(m, city, insert, now, geo, reply) == Step(WithStatus(m, Error(message)), None)
  {
  }

  lemma CityNameCancellationIsSilent(m: Model, city: string, insert: bool, now: int, geo: GeocodingReply, reply: WeatherReply)
    requires geo == GeocodingThrew(Cancellation) || (geo.Places? && geo.places != [] && reply == WeatherThrew(Cancellation))
    ensures FetchByCityName(m, city, insert, now, geo, reply) == Step(WithStatus(m, InProgress), None)
  {
  }

  /** The only exception that escapes a name search is the null-pointer exception of
      `message!!` on an exception without a message. */
  lemma CityNameEscapesOnlyWithoutMessage(m: Model, city: string, insert: bool, now: int, geo: GeocodingReply, reply: WeatherReply)
    ensures var st := FetchByCityName(m, city, insert, now, geo, reply);
      st.escaped.Some? ==> st.escaped.value == Failure(None) && st.model == WithStatus(m, InProgress)
  {
  }

  // ---------------------------------------------------------------------------------------
  // Search dispatch (`onSearchTextChanged`)
  // ---------------------------------------------------------------------------------------

  /** A blank query loads the visible item with the recent id, or reports Empty without one;
      an exception from that refresh is not caught. */
  lemma BlankQueryLoadsRecent(m: Model, city: string, now: int, geo: GeocodingReply, reply: WeatherReply,
                              fallback: WeatherReply)
    requires IsBlank(city)
    ensures var items := m.ui.weatherItems;
      && (m.recentId.Some? && HasId(items, m.recentId.value) ==>
            var k := FindById(items, m.recentId.value).value;
            items[k].cityId == m.recentId.value
            && SearchTextChanged(m, city, now, geo, reply, fallback) == Manage(m, items[k], items[k].lat, items[k].lon, now, reply))
      && (m.recentId.None? || !HasId(items, m.recentId.value) ==>
            SearchTextChanged(m, city, now, geo, reply, fallback) == Step(WithStatus(m, Empty), None))
  {
  }

  /** A query matched by a visible city loads the first such city, without geocoding, unless
      its refresh throws a `NoSuchElementException`. */
  lemma MatchedQueryLoadsFirstMatch(m: Model, city: string, now: int, geo: GeocodingReply, otherGeo: GeocodingReply,
                                    reply: WeatherReply, fallback: WeatherReply, otherFallback: WeatherReply, k: nat)
    requires !IsBlank(city)
    requires k < |m.ui.weatherItems| && Text.Contains(m.ui.weatherItems[k].cityName, city, true)
    requires forall j :: 0 <= j < k ==> !Text.Contains(m.ui.weatherItems[j].cityName, city, true)
    ensures var item := m.ui.weatherItems[k];
      var managed := Manage(m, item, item.lat, item.lon, now, reply);
      !(managed.escaped.Some? && managed.escaped.value.NoSuchElement?) ==>
        && SearchTextChanged(m, city, now, geo, reply, fallback) == managed
        && SearchTextChanged(m, city, now, geo, reply, fallback) == SearchTextChanged(m, city, now, otherGeo, reply, otherFallback)
  {
    var r := FindByName(m.ui.weatherItems, city);
    assert r.Some? && r.value == k;
  }

  /** When the refresh of the matched city throws a `NoSuchElementException`, the `catch` of
      the search takes it for "no city matched": the query is geocoded (without saving) and the
      exception itself neither escapes nor shows. */
  lemma MatchedRefreshWithoutElementGeocodes(m: Model, city: string, now: int, geo: GeocodingReply,
                                             message: Option<string>, fallback: WeatherReply, k: nat)
    requires !IsBlank(city)
    requires k < |m.ui.weatherItems| && Text.Contains(m.ui.weatherItems[k].cityName, city, true)
    requires forall j :: 0 <= j < k ==> !Text.Contains(m.ui.weatherItems[j].cityName, city, true)
    requires RequiresAnUpdate(m.ui.weatherItems[k], m.ui.lang, now) && m.ui.networkIsOn
    ensures var st := SearchTextChanged(m, city, now, geo, WeatherThrew(NoSuchElement(message)), fallback);
      && st == FetchByCityName(m, city, false, now, geo, fallback)
      && st.model.store == m.store && st.model.recentId == m.recentId
  {
    var r := FindByName(m.ui.weatherItems, city);
    assert r.Some? && r.value == k;
  }

  /** A query no visible city matches is geocoded only with the network on, and the city it
      finds is shown but not saved. */
  lemma UnmatchedQueryGeocodesWithoutSaving(m: Model, city: string, now: int, geo: GeocodingReply, reply: WeatherReply,
                                            fallback: WeatherReply)
    requires !IsBlank(city)
    requires forall j :: 0 <= j < |m.ui.weatherItems| ==> !Text.Contains(m.ui.weatherItems[j].cityName, city, true)
    ensures var st := SearchTextChanged(m, city, now, geo, reply, fallback);
      && (!m.ui.networkIsOn ==> st == Step(m, None))
      && (m.ui.networkIsOn ==> st == FetchByCityName(m, city, false, now, geo, reply))
      && st.model.store == m.store && st.model.recentId == m.recentId
  {
    assert FindByName(m.ui.weatherItems, city).None?;
  }

  // ---------------------------------------------------------------------------------------
  // Start-up (`loadRecentWeatherItem`, `init`)
  // ---------------------------------------------------------------------------------------

  /** Items whose id is not the recent one are skipped by the loop. */
  lemma {:induction false} VisitSkipsOtherItems(st: Step, items: seq<WeatherItem>, recentId: Option<int>, now: int, reply: WeatherReply)
    requires recentId.None? || !HasId(items, recentId.value)
    ensures VisitRecent(st, items, recentId, now, reply) == st
  {
    if items != [] && st.escaped.None? {
      assert recentId.Some? ==> !HasId(items[1..], recentId.value) by {
        if recentId.Some? {
          forall i | 0 <= i < |items[1..]| ensures items[1..][i].cityId != recentId.value {
            assert items[1..][i] == items[i + 1];
          }
        }
      }
      VisitSkipsOtherItems(st, items[1..], recentId, now, reply);
    }
  }

  lemma {:induction false} VisitManagesTheRecentItem(st: Step, items: seq<WeatherItem>, recentId: Option<int>, k: nat, now: int, reply: WeatherReply)
    requires st.escaped.None? && UniqueIds(items)
    requires recentId.Some? && k < |items| && items[k].cityId == recentId.value
    ensures VisitRecent(st, items, recentId, now, reply) == Manage(st.model, items[k], items[k].lat, items[k].lon, now, reply)
  {
    UniqueTail(items);
    if k == 0 {
      VisitSkipsOtherItems(Manage(st.model, items[0], items[0].lat, items[0].lon, now, reply), items[1..], recentId, now, reply);
    } else {
      assert items[0].cityId != recentId.value;
      assert items[1..][k - 1] == items[k];
      VisitManagesTheRecentItem(st, items[1..], recentId, k - 1, now, reply);
    }
  }

  /** Loading the recent city manages exactly the visible item with the recent id (ids are
      unique), reports Empty when nothing is visible, and otherwise changes nothing. */
  lemma LoadRecentManagesRecentItem(m: Model, now: int, reply: WeatherReply)
    requires UniqueIds(m.ui.weatherItems)
    ensures var items := m.ui.weatherItems;
      match RecentIndex(items, m.recentId)
      case Some(k) => LoadRecent(m, now, reply) == Manage(m, items[k], items[k].lat, items[k].lon, now, reply)
      case None => LoadRecent(m, now, reply) == Step(if items == [] then WithStatus(m, Empty) else m, None)
  {
    var items := m.ui.weatherItems;
    var start := if items == [] then WithStatus(m, Empty) else m;
    match RecentIndex(items, m.recentId)
    case Some(k) =>
      VisitManagesTheRecentItem(Step(start, None), items, m.recentId, k, now, reply);
    case None =>
      VisitSkipsOtherItems(Step(start, None), items, m.recentId, now, reply);
  }

  /** When saved cities exist but none has the recent id, start-up leaves the status at
      InProgress. */
  lemma LaunchWithoutRecentStaysInProgress(m: Model, now: int, reply: WeatherReply)
    requires UniqueIds(m.store) && m.store != []
    requires m.recentId.None? || !HasId(m.store, m.recentId.value)
    ensures Launch(m, now, reply).model.ui.status == InProgress
    ensures Launch(m, now, reply).escaped.None?
  {
    var busy := WithStatus(m, InProgress);
    var listed := busy.(ui := busy.ui.(weatherItems := busy.store));
    LoadRecentManagesRecentItem(listed, now, reply);
  }

  // ---------------------------------------------------------------------------------------
  // Deleting (`deleteWeatherItem`)
  // ---------------------------------------------------------------------------------------

  /** Deleting a city that is not on screen only removes it from the store. */
  lemma DeleteOtherCityKeepsScreen(m: Model, id: int, now: int, reply: WeatherReply)
    requires m.ui.weatherResult.cityId != id || !HasId(m.ui.weatherItems, id)
    ensures DeleteItem(m, id, now, reply) == Step(m.(store := RemoveId(m.store, id)), None)
  {
  }

  /** Deleting the city on screen moves to the visible item after it, else the one before it;
      that item becomes the recent id (unless an exception escapes its refresh); a fresh one is
      shown as stored, and a stale one is refetched at the default coordinates (0.0, 0.0). */
  lemma DeleteShownCityMovesToNeighbour(m: Model, id: int, now: int, reply: WeatherReply)
    requires m.ui.weatherResult.cityId == id && HasId(m.ui.weatherItems, id)
    requires |m.ui.weatherItems| > 1
    ensures var items := m.ui.weatherItems;
      var k := FindById(items, id).value;
      var next := if k + 1 < |items| then items[k + 1] else items[k - 1];
      var st := DeleteItem(m, id, now, reply);
      && (!(RequiresAnUpdate(next, m.ui.lang, now) && m.ui.networkIsOn && reply.Replied?) ==>
            st.model.store == RemoveId(m.store, id))
      && (st.escaped.None? ==> st.model.recentId == Some(next.cityId))
      && (!RequiresAnUpdate(next, m.ui.lang, now) ==>
            st.model.ui.weatherResult == ItemToResult(next) && st.model.ui.status == Success)
      && (RequiresAnUpdate(next, m.ui.lang, now) && m.ui.networkIsOn && reply.Replied? ==>
            st.model.ui.weatherResult.lat == 0.0 && st.model.ui.weatherResult.lon == 0.0)
  {
    var items := m.ui.weatherItems;
    var k := FindById(items, id).value;
    var next := if k + 1 < |items| then items[k + 1] else items[k - 1];
    var removed := m.(store := RemoveId(m.store, id));
    var managed := Manage(removed, next, 0.0, 0.0, now, reply);
    assert DeleteItem(m, id, now, reply)
        == if managed.escaped.Some? then managed else Step(managed.model.(recentId := Some(next.cityId)), None);
    if RequiresAnUpdate(next, m.ui.lang, now) && m.ui.networkIsOn && reply.Replied? {
      assert managed.model.ui.weatherResult == reply.result.(lat := 0.0, lon := 0.0, lang := m.ui.lang, lastTimeUpdated := now);
    } else if !RequiresAnUpdate(next, m.ui.lang, now) {
      FreshItemIsServedFromStore(removed, next, 0.0, 0.0, now, reply, reply);
    }
  }

  /** Deleting the only visible city, while it is on screen, reports Empty and shows the
      default result (id -1), which becomes the recent id; the forecast is left as it was. */
  lemma DeleteLastCityShowsDefault(m: Model, id: int, now: int, reply: WeatherReply)
    requires m.ui.weatherResult.cityId == id && |m.ui.weatherItems| == 1 && m.ui.weatherItems[0].cityId == id
    ensures var st := DeleteItem(m, id, now, reply);
      && st.escaped.None?
      && st.model.ui.status == Empty
      && st.model.ui.weatherResult == DefaultResult && st.model.ui.weatherResult.cityId == -1
      && st.model.recentId == Some(-1)
      && st.model.store == RemoveId(m.store, id)
      && st.model.ui.forecast == m.ui.forecast
  {
  }

  /** The deletion scenario of the unit tests: five fresh cities with ids 0 to 4, city 0 on
      screen. Deleting 0 moves to city 1 and remembers it; deleting 4 afterwards keeps city 1. */
  lemma DeleteScenario(now: int, r: Readings, reply: WeatherReply)
    ensures
      var items := seq(5, i requires 0 <= i < 5 => WeatherItem(i, "", "", 0.0, 0.0, "en", now, r, [], []));
      var m := Model(UiState(ItemToResult(items[0]), items, [], "en", Success, true), items, Some(0));
      var first := DeleteItem(m, 0, now, reply);
      var second := DeleteItem(first.model, 4, now, reply);
      && first.model.ui.weatherResult.cityId == 1 && first.model.recentId == Some(1)
      && second.model.ui.weatherResult.cityId == 1 && second.model.recentId == Some(1)
  {
    var items := seq(5, i requires 0 <= i < 5 => WeatherItem(i, "", "", 0.0, 0.0, "en", now, r, [], []));
    assert FindById(items, 0) == Some(0);
  }

  // ---------------------------------------------------------------------------------------
  // Language change (`onLocaleChange`)
  // ---------------------------------------------------------------------------------------

  /** A language change makes the shown city stale; with the network on it is refetched at its
      own coordinates, saved, and comes back tagged with the new language. */
  lemma LocaleChangeRefetchesShownCity(m: Model, newLang: string, now: int, r: WeatherResult, forecast: seq<ForecastUnit>)
    requires m.ui.weatherResult.lang != newLang && m.ui.networkIsOn
    ensures var shown := m.ui.weatherResult;
      var st := LocaleChanged(m, newLang, now, Replied(r, forecast));
      && st == FetchByCoordinates(m.(ui := m.ui.(lang := newLang)), shown.lat, shown.lon, true, now, Replied(r, forecast))
      && st.model.ui.weatherResult.lang == newLang
      && st.model.ui.weatherResult.lat == shown.lat && st.model.ui.weatherResult.lon == shown.lon
  {
  }

  // ---------------------------------------------------------------------------------------
  // Invariants
  // ---------------------------------------------------------------------------------------

  lemma FetchKeepsConsistent(m: Model, lat: real, lon: real, insert: bool, now: int, reply: WeatherReply)
    requires Consistent(m)
    ensures Consistent(FetchByCoordinates(m, lat, lon, insert, now, reply).model)
    ensures |FetchByCoordinates(m, lat, lon, insert, now, reply).model.store| <= |m.store| + 1
  {
    if reply.Replied? && insert {
      var stamped := reply.result.(lat := lat, lon := lon, lang := m.ui.lang, lastTimeUpdated := now);
      UpsertKeepsIdsUnique(m.store, ResultToItem(stamped, m.ui.lang, reply.forecast));
    }
  }

  lemma ManageKeepsConsistent(m: Model, item: WeatherItem, lat: real, lon: real, now: int, reply: WeatherReply)
    requires Consistent(m)
    ensures Consistent(Manage(m, item, lat, lon, now, reply).model)
    ensures |Manage(m, item, lat, lon, now, reply).model.store| <= |m.store| + 1
  {
    FetchKeepsConsistent(m, lat, lon, true, now, reply);
  }

  lemma FetchByCityNameKeepsConsistent(m: Model, city: string, insert: bool, now: int, geo: GeocodingReply, reply: WeatherReply)
    requires Consistent(m)
    ensures Consistent(FetchByCityName(m, city, insert, now, geo, reply).model)
    ensures |FetchByCityName(m, city, insert, now, geo, reply).model.store| <= |m.store| + 1
  {
    FetchKeepsConsistent(WithStatus(m, InProgress), if geo.Places? && geo.places != [] then geo.places[0].lat else 0.0,
      if geo.Places? && geo.places != [] then geo.places[0].lon else 0.0, insert, now, reply);
  }

  lemma SearchKeepsConsistent(m: Model, city: string, now: int, geo: GeocodingReply, reply: WeatherReply, fallback: WeatherReply)
    requires Consistent(m)
    ensures Consistent(SearchTextChanged(m, city, now, geo, reply, fallback).model)
    ensures |SearchTextChanged(m, city, now, geo, reply, fallback).model.store| <= |m.store| + 1
  {
    var items := m.ui.weatherItems;
    if IsBlank(city) {
      match RecentIndex(items, m.recentId)
      case Some(k) => ManageKeepsConsistent(m, items[k], items[k].lat, items[k].lon, now, reply);
      case None =>
    } else {
      match FindByName(items, city)
      case Some(k) =>
        ManageKeepsConsistent(m, items[k], items[k].lat, items[k].lon, now, reply);
        FetchByCityNameKeepsConsistent(m, city, false, now, geo, fallback);
      case None => FetchByCityNameKeepsConsistent(m, city, false, now, geo, reply);
    }
  }

  /** The start-up loop keeps ids unique and, as it manages one item at most, adds at most
      one saved city. */
  lemma {:induction false} VisitKeepsConsistent(st: Step, items: seq<WeatherItem>, recentId: Option<int>, now: int, reply: WeatherReply)
    requires Consistent(st.model) && UniqueIds(items)
    ensures Consistent(VisitRecent(st, items, recentId, now, reply).model)
    ensures |VisitRecent(st, items, recentId, now, reply).model.store| <= |st.model.store| + 1
    decreases |items|
  {
    if items != [] && st.escaped.None? {
      UniqueTail(items);
      if recentId.Some? && items[0].cityId == recentId.value {
        var managed := Manage(st.model, items[0], items[0].lat, items[0].lon, now, reply);
        ManageKeepsConsistent(st.model, items[0], items[0].lat, items[0].lon, now, reply);
        VisitSkipsOtherItems(managed, items[1..], recentId, now, reply);
      } else {
        VisitKeepsConsistent(st, items[1..], recentId, now, reply);
      }
    }
  }

  /** Start-up keeps ids unique and, started below `MAX_ITEM_COUNT` saved cities, stays below
      it: the recent city's refresh adds one city at most and the first emission evicts at the
      bound. */
  lemma LaunchKeepsConsistent(m: Model, now: int, reply: WeatherReply)
    requires Consistent(m)
    ensures Consistent(Launch(m, now, reply).model)
    ensures |m.store| < MAX_ITEM_COUNT ==> |Launch(m, now, reply).model.store| < MAX_ITEM_COUNT
  {
    var busy := WithStatus(m, InProgress);
    var listed := busy.(ui := busy.ui.(weatherItems := busy.store));
    var start := if listed.ui.weatherItems == [] then WithStatus(listed, Empty) else listed;
    VisitKeepsConsistent(Step(start, None), listed.ui.weatherItems, listed.recentId, now, reply);
    var loaded := LoadRecent(listed, now, reply);
    if loaded.escaped.Some? {
      LoadRecentManagesRecentItem(listed, now, reply);
      assert loaded.model.store == m.store;
    } else {
      EmitKeepsIdsUnique(loaded.model.store);
      if |m.store| < MAX_ITEM_COUNT {
        EmissionRestoresBound(loaded.model);
      }
    }
  }

  lemma StoreEmittedKeepsConsistent(m: Model)
    requires Consistent(m)
    ensures Consistent(StoreEmitted(m))
  {
    EmitKeepsIdsUnique(m.store);
  }

  lemma LocaleChangeKeepsConsistent(m: Model, newLang: string, now: int, reply: WeatherReply)
    requires Consistent(m)
    ensures Consistent(LocaleChanged(m, newLang, now, reply).model)
    ensures |LocaleChanged(m, newLang, now, reply).model.store| <= |m.store| + 1
  {
    var switched := m.(ui := m.ui.(lang := newLang));
    var item := ResultToItem(switched.ui.weatherResult, switched.ui.weatherResult.lang, []);
    ManageKeepsConsistent(switched, item, item.lat, item.lon, now, reply);
  }

  lemma CityConfirmedKeepsConsistent(m: Model)
    requires Consistent(m)
    ensures Consistent(CityConfirmed(m))
    ensures |CityConfirmed(m).store| <= |m.store| + 1
  {
    UpsertKeepsIdsUnique(m.store, ResultToItem(m.ui.weatherResult, m.ui.lang, m.ui.forecast));
  }

  lemma DeleteKeepsConsistent(m: Model, id: int, now: int, reply: WeatherReply)
    requires Consistent(m)
    ensures Consistent(DeleteItem(m, id, now, reply).model)
    ensures |DeleteItem(m, id, now, reply).model.store| <= |m.store| + 1
  {
    var items := m.ui.weatherItems;
    var removed := m.(store := RemoveId(m.store, id));
    RemoveKeepsIdsUnique(m.store, id);
    var current := if m.ui.weatherResult.cityId == id then FindById(items, id) else None;
    if current.Some? {
      var k := current.value;
      if k + 1 < |items| || k >= 1 {
        var next := if k + 1 < |items| then items[k + 1] else items[k - 1];
        ManageKeepsConsistent(removed, next, 0.0, 0.0, now, reply);
      }
    }
  }

  /** With an emission after every change, the store never reaches `MAX_ITEM_COUNT` items: a
      change adds at most one item and the emission that follows evicts at the bound. */
  lemma {:induction false} EmissionRestoresBound(changed: Model)
    requires Consistent(changed) && |changed.store| <= MAX_ITEM_COUNT
    ensures |StoreEmitted(changed).store| < MAX_ITEM_COUNT
  {
    if |changed.store| == MAX_ITEM_COUNT { EmitAtBoundEvictsOldest(changed.store); }
  }
}
