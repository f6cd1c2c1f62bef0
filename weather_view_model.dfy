/**
 * The view model itself (`presentation/WeatherViewModel.kt`): the screen state, the saved
 * cities and the recent-id preference as fields, and one method per operation that updates
 * them step by step as the Kotlin code does. Each method is proved to leave exactly the state
 * the matching function of RefreshPolicy computes, and to keep the ids unique.
 *
 * Each call is one atomic step: the debounce, job cancellation and coroutine dispatch of the
 * application are not modelled. The replies of the services and the current time are passed in.
 */
module Presentation {
  import opened Wrappers
  import opened Status
  import opened Weather
  import opened CityStore
  import opened Text
  import opened RefreshPolicy

  class WeatherViewModel {
    var weatherResult: WeatherResult
    var weatherItems: seq<WeatherItem>
    var forecast: seq<ForecastUnit>
    var lang: string
    var weatherFetchResult: FetchStatus
    var networkIsOn: bool
    /** The persisted saved cities. */
    var store: seq<WeatherItem>
    /** The persisted "recent weather item" id. */
    var recentId: Option<int>

    function Abs(): Model
      reads this
    {
      Model(UiState(weatherResult, weatherItems, forecast, lang, weatherFetchResult, networkIsOn), store, recentId)
    }

    ghost predicate Valid()
      reads this
    {
      Consistent(Abs())
    }

    /** A fresh view model over the persisted cities and preference, in the device language. */
    constructor (deviceLang: string, savedItems: seq<WeatherItem>, savedRecentId: Option<int>)
      requires UniqueIds(savedItems)
      ensures Valid()
      ensures Abs() == Initial(deviceLang, savedItems, savedRecentId)
    {
      weatherResult := DefaultResult;
      weatherItems := [];
      forecast := [];
      lang := deviceLang;
      weatherFetchResult := Idle;
      networkIsOn := true;
      store := savedItems;
      recentId := savedRecentId;
    }

    method UpdateWeatherResult(r: WeatherResult, editRecentItem: bool)
      modifies this
      ensures Abs() == ShowResult(old(Abs()), r, editRecentItem)
    {
      weatherResult := r;
      if editRecentItem {
        recentId := Some(r.cityId);
      }
    }

    method InsertWeatherItem(r: WeatherResult, items: seq<ForecastUnit>)
      requires Valid()
      modifies this
      ensures Valid()
      ensures Abs() == SaveResult(old(Abs()), r, items)
    {
      UpsertKeepsIdsUnique(store, ResultToItem(r, lang, items));
      store := Upsert(store, ResultToItem(r, lang, items));
    }

    method UpdateNetworkState(on: bool)
      modifies this
      ensures Abs() == old(Abs()).(ui := old(Abs()).ui.(networkIsOn := on))
    {
      networkIsOn := on;
    }

    method GetWeatherByCoordinates(lat: real, lon: real, insert: bool, now: int, reply: WeatherReply)
      returns (escaped: Option<Exception>)
      requires Valid()
      modifies this
      ensures Valid()
      ensures Step(Abs(), escaped) == FetchByCoordinates(old(Abs()), lat, lon, insert, now, reply)
    {
      if reply.WeatherThrew? {
        return Some(reply.exception);
      }
      var r := reply.result.(lat := lat, lon := lon, lang := lang, lastTimeUpdated := now);
      var fetched := reply.forecast;
      UpdateWeatherResult(r, insert);
      forecast := fetched;
      if insert {
        InsertWeatherItem(r, fetched);
      }
      weatherFetchResult := Success;
      escaped := None;
    }

    method ManageWeatherItem(item: WeatherItem, lat: real, lon: real, now: int, reply: WeatherReply)
      returns (escaped: Option<Exception>)
      requires Valid()
      modifies this
      ensures Valid()
      ensures Step(Abs(), escaped) == Manage(old(Abs()), item, lat, lon, now, reply)
    {
      escaped := None;
      var requiresAnUpdate := RequiresAnUpdate(item, lang, now);
      if !requiresAnUpdate {
        UpdateWeatherResult(ItemToResult(item), true);
        forecast := item.forecast;
        weatherFetchResult := Success;
      } else if networkIsOn {
        escaped := GetWeatherByCoordinates(lat, lon, true, now, reply);
      }
    }

    method GetWeatherByCityName(city: string, insert: bool, now: int, geo: GeocodingReply, reply: WeatherReply)
      returns (escaped: Option<Exception>)
      requires Valid()
      modifies this
      ensures Valid()
      ensures Step(Abs(), escaped) == FetchByCityName(old(Abs()), city, insert, now, geo, reply)
    {
      weatherFetchResult := InProgress;
      var thrown: Option<Exception> := None;
      if geo.GeocodingThrew? {
        thrown := Some(geo.exception);
      } else if geo.places == [] {
        weatherFetchResult := Empty;
        return None;
      } else {
        var place := geo.places[0];
        thrown := GetWeatherByCoordinates(place.lat, place.lon, insert, now, reply);
      }
      escaped := None;
      if thrown.Some? && !thrown.value.Cancellation? {
        if thrown.value.message.Some? {
          weatherFetchResult := Error(thrown.value.message.value);
        } else {
          escaped := Some(Failure(None));
        }
      }
    }

    method OnSearchTextChanged(city: string, now: int, geo: GeocodingReply, reply: WeatherReply, fallback: WeatherReply)
      returns (escaped: Option<Exception>)
      requires Valid()
      modifies this
      ensures Valid()
      ensures Step(Abs(), escaped) == SearchTextChanged(old(Abs()), city, now, geo, reply, fallback)
    {
      escaped := None;
      var items := weatherItems;
      if IsBlank(city) {
        var k := RecentIndex(items, recentId);
        if k.Some? {
          var item := items[k.value];
          escaped := ManageWeatherItem(item, item.lat, item.lon, now, reply);
        } else {
          weatherFetchResult := Empty;
        }
        return;
      }
      var k := FindByName(items, city);
      if k.Some? {
        var existentItem := items[k.value];
        escaped := ManageWeatherItem(existentItem, existentItem.lat, existentItem.lon, now, reply);
        if escaped.Some? && escaped.value.NoSuchElement? {
          escaped := None;
          if networkIsOn {
            escaped := GetWeatherByCityName(city, false, now, geo, fallback);
          }
        }
      } else if networkIsOn {
        escaped := GetWeatherByCityName(city, false, now, geo, reply);
      }
    }

    method OnCityConfirmed()
      requires Valid()
      modifies this
      ensures Valid()
      ensures Abs() == CityConfirmed(old(Abs()))
    {
      InsertWeatherItem(weatherResult, forecast);
      UpdateWeatherResult(weatherResult, true);
    }

    method LoadRecentWeatherItem(now: int, reply: WeatherReply) returns (escaped: Option<Exception>)
      requires Valid()
      modifies this
      ensures Valid()
      ensures Step(Abs(), escaped) == LoadRecent(old(Abs()), now, reply)
    {
      var recent := recentId;
      var allWeatherItems := weatherItems;
      if allWeatherItems == [] {
        weatherFetchResult := Empty;
      }
      ghost var start := Step(Abs(), None);
      escaped := None;
      var i := 0;
      while i < |allWeatherItems| && escaped.None?
        invariant 0 <= i <= |allWeatherItems|
        invariant Valid()
        invariant VisitRecent(Step(Abs(), escaped), allWeatherItems[i..], recent, now, reply)
               == VisitRecent(start, allWeatherItems, recent, now, reply)
      {
        var weatherItem := allWeatherItems[i];
        assert allWeatherItems[i..][1..] == allWeatherItems[i + 1..];
        var isRecentItem := recent.Some? && weatherItem.cityId == recent.value;
        if isRecentItem {
          escaped := ManageWeatherItem(weatherItem, weatherItem.lat, weatherItem.lon, now, reply);
        }
        i := i + 1;
      }
    }

    /** One emission of the store reaching the collector. */
    method OnStoreEmission()
      requires Valid()
      modifies this
      ensures Valid()
      ensures Abs() == StoreEmitted(old(Abs()))
    {
      EmitKeepsIdsUnique(store);
      var sorted := SortByRecency(store);
      if |sorted| == MAX_ITEM_COUNT {
        store := RemoveId(store, sorted[|sorted| - 1].cityId);
      }
      weatherItems := Labelled(sorted);
    }

    /** The `init` block up to the first emission of the store. */
    method Start(now: int, reply: WeatherReply) returns (escaped: Option<Exception>)
      requires Valid()
      modifies this
      ensures Valid()
      ensures Step(Abs(), escaped) == Launch(old(Abs()), now, reply)
    {
      weatherFetchResult := InProgress;
      weatherItems := store;
      escaped := LoadRecentWeatherItem(now, reply);
      if escaped.None? {
        OnStoreEmission();
      }
    }

    method OnLocaleChange(newLang: string, now: int, reply: WeatherReply) returns (escaped: Option<Exception>)
      requires Valid()
      modifies this
      ensures Valid()
      ensures Step(Abs(), escaped) == LocaleChanged(old(Abs()), newLang, now, reply)
    {
      lang := newLang;
      var newItem := ResultToItem(weatherResult, weatherResult.lang, []);
      escaped := ManageWeatherItem(newItem, newItem.lat, newItem.lon, now, reply);
    }

    method DeleteWeatherItem(id: int, now: int, reply: WeatherReply) returns (escaped: Option<Exception>)
      requires Valid()
      modifies this
      ensures Valid()
      ensures Step(Abs(), escaped) == DeleteItem(old(Abs()), id, now, reply)
    {
      escaped := None;
      var items := weatherItems;
      var found := if weatherResult.cityId == id then FindById(items, id) else None;
      RemoveKeepsIdsUnique(store, id);
      store := RemoveId(store, id);
      if found.None? {
        return;
      }
      var currIndex := found.value;
      var newIndex := -1;
      if currIndex + 1 < |items| {
        newIndex := currIndex + 1;
      } else if currIndex - 1 >= 0 {
        newIndex := currIndex - 1;
      }
      if newIndex != -1 {
        var newItem := items[newIndex];
        escaped := ManageWeatherItem(newItem, 0.0, 0.0, now, reply);
        if escaped.None? {
          recentId := Some(newItem.cityId);
        }
      } else {
        weatherFetchResult := Empty;
        UpdateWeatherResult(DefaultResult, true);
      }
    }
  }
}
