# WindSpell weather view model in Dafny

WindSpell is an Android weather application. This project models the core of its
presentation layer: the view model that decides, for every user action, whether to show a
saved city as stored or to fetch it again, which city to show after a deletion, and how the
list of saved cities is sorted, bounded and labelled. It also models the small pure helpers
around the screen: the fetch-status type, the weekday name tables, the icon table, the search
bar's input rules and the city label.

Layout:

- `wrappers.dfy` (`Wrappers`): the `Option` type, which stands in for Kotlin's nullable values.
- `status.dfy` (`Status`): the sealed class `Result` of `domain/Result.kt`, named `FetchStatus`.
- `weather.dfy` (`Weather`): the saved-city record, the current-conditions record, the
  conversions between them, and the staleness rule `requiresAnUpdate`.
- `text.dfy` (`Text`): the Kotlin string operations the core relies on. These are `isBlank`,
  `contains(…, ignoreCase)` and the `[0-9]` test.
- `city_store.dfy` (`CityStore`): the saved cities as a sequence. It covers replace-by-id
  insertion, deletion by id, and the lookups the view model does with `first { … }`. It also
  covers what the `init` collector does on each emission: a stable newest-first sort, the
  eviction at `MAX_ITEM_COUNT` (20), and the ", country" suffix on duplicated names.
- `refresh_policy.dfy` (`RefreshPolicy`): every view-model operation as a function. It maps
  the state (screen state, saved cities, recent-city preference), the current time and the
  replies of the weather and geocoding services to the new state. It also gives the
  exception that escapes the coroutine, if any.
- `policy_properties.dfy` (`PolicyProperties`): what the view model promises, proved about
  those functions. Every operation also keeps the invariant "one saved item and one visible
  item per city id".
- `weather_view_model.dfy` (`Presentation`): the view model as a class. Its fields are updated
  in place the way `_uiState.update { … }`, the repository and the preference store are.
  Each method is proved to end in the state the matching `RefreshPolicy` function computes,
  and to keep the invariant. `loadRecentWeatherItem` keeps its `for` loop.
- `forecasts.dfy` (`Forecasts`): `translatedDayNames`.
- `main_components.dfy` (`MainComponents`): `getWeatherIcon`, the search bar's edit, clear
  and done actions, and the city label of the details card.

The model follows the code in these places, where the code departs from what one would
expect of the application:

- **Store bound.** One would expect at most 20 saved cities. The collector deletes the
  oldest city only when it sees exactly 20. It publishes the list before that deletion, so
  the evicted city is still shown until the next emission. The saved list therefore stays
  below 20 once each change is followed by an emission (`EmissionRestoresBound`).
- **Deleting the shown city.** One would expect the neighbour to be shown. The code calls
  `manageWeatherItem(newItem)` without coordinates. A stale neighbour is therefore fetched
  at latitude 0.0, longitude 0.0.
- **Deleting the last shown city.** `updateWeatherResult(WeatherResult())` uses the default
  `editRecentItem = true`. The recent-city preference therefore becomes -1.
- **Start-up.** When saved cities exist but none has the recent id, start-up leaves the
  status at InProgress.
- **Coordinate fetch.** The fetch by coordinates has no `catch`. An exception there escapes
  `manageWeatherItem`, `onLocaleChange`, `deleteWeatherItem` and start-up.
- **Matched search refreshed with an error.** The `catch` of `NoSuchElementException` in
  `onSearchTextChanged` also covers the refresh of the matched city. When that refresh throws
  one, the query is geocoded as if no saved city matched.
- **Name search.** In the search by name, `e.message!!` throws a null-pointer exception for
  an exception without a message. That exception escapes.

## Model

| member | source | states |
|---|---|---|
| Status.ErrorText | app/src/main/java/com/example/windspell/domain/Result.kt:3-8 | `error` is the message of an `Error` and empty for the four other variants |
| Status.ExactlyOneVariant | app/src/main/java/com/example/windspell/domain/Result.kt:3-9 | a status is exactly one of Idle, InProgress, Empty, Success, Error |
| Status.ErrorKeepsMessage | app/src/main/java/com/example/windspell/domain/Result.kt:8 | `Error(m)` reports `m` unchanged; `Error("")` reports the same text as a non-error |
| Weather.ConversionsRoundTrip | app/src/main/java/com/example/windspell/presentation/WeatherViewModel.kt:133-187 | saving a result as an item and showing that item again gives back the result, and the other way round |
| Weather.StalenessBoundaries | app/src/main/java/com/example/windspell/components/MainScreen.kt:141 | same language and under an hour old is fresh; exactly an hour old is stale; another language is always stale |
| Text.Contains | app/src/main/java/com/example/windspell/presentation/WeatherViewModel.kt:96 | true exactly when the needle occurs at some position of the text, characters compared with or without case |
| Text.ExactMatchIgnoringCase | app/src/main/java/com/example/windspell/presentation/WeatherViewModel.kt:96 | a case-insensitive search finds everything an exact search finds |
| Text.IrregularCasePairs | app/src/main/java/com/example/windspell/presentation/WeatherViewModel.kt:96 | ignoring case, ÿ/Ÿ, ı/I, İ/i, ſ/S, µ/μ, ς/σ and Cyrillic pairs match, ß does not match s, and ı does not match i exactly |
| CityStore.RemoveId | app/src/main/java/com/example/windspell/presentation/WeatherViewModel.kt:206-217 | the result holds exactly the saved items with another id, and is no longer than the input |
| CityStore.RemovedIdIsGone | app/src/main/java/com/example/windspell/presentation/WeatherViewModel.kt:217 | after deletion no item has the id |
| CityStore.RemoveAbsentId | app/src/main/java/com/example/windspell/presentation/WeatherViewModel.kt:212 | deleting an id that is not saved changes nothing |
| CityStore.RemovePresentId | app/src/main/java/com/example/windspell/presentation/WeatherViewModel.kt:66 | deleting a saved id removes exactly one item when ids are unique |
| CityStore.RemoveKeepsIdsUnique | app/src/main/java/com/example/windspell/presentation/WeatherViewModel.kt:217 | deletion keeps ids unique |
| CityStore.Upsert | app/src/main/java/com/example/windspell/presentation/WeatherViewModel.kt:186-189 | the new list holds the inserted item and exactly the old items with another id |
| CityStore.UpsertKeepsIdsUnique | app/src/main/java/com/example/windspell/presentation/WeatherViewModel.kt:186-189 | insertion replaces by id, so ids stay unique |
| CityStore.FindById | app/src/main/java/com/example/windspell/presentation/WeatherViewModel.kt:89-90 | the index of the first item with the id, or none exactly when no item has it |
| CityStore.FindByName | app/src/main/java/com/example/windspell/presentation/WeatherViewModel.kt:96 | the index of the first item whose name contains the query ignoring case, or none when no name does |
| CityStore.InsertByRecency | app/src/main/java/com/example/windspell/presentation/WeatherViewModel.kt:64 | inserting one item into the sorted list adds exactly that item |
| CityStore.SortByRecency | app/src/main/java/com/example/windspell/presentation/WeatherViewModel.kt:64 | the sorted list is a permutation of the saved list |
| CityStore.InsertKeepsNewestFirst | app/src/main/java/com/example/windspell/presentation/WeatherViewModel.kt:64 | insertion keeps a newest-first list newest first |
| CityStore.SortIsNewestFirst | app/src/main/java/com/example/windspell/presentation/WeatherViewModel.kt:64 | the sorted list is ordered by last update, newest first |
| CityStore.InsertIsStable | app/src/main/java/com/example/windspell/presentation/WeatherViewModel.kt:64 | insertion keeps items with the same timestamp in their relative order |
| CityStore.SortIsStable | app/src/main/java/com/example/windspell/presentation/WeatherViewModel.kt:64 | the sort is stable: items updated at the same time keep their saved order |
| CityStore.UniqueTail | app/src/main/java/com/example/windspell/presentation/WeatherViewModel.kt:64 | the rest of a list with unique ids has unique ids and lacks the head's id |
| CityStore.InsertKeepsIdsUnique | app/src/main/java/com/example/windspell/presentation/WeatherViewModel.kt:64 | inserting a new id into the sorted list keeps ids unique |
| CityStore.SortKeepsIdsUnique | app/src/main/java/com/example/windspell/presentation/WeatherViewModel.kt:64 | sorting keeps ids unique |
| CityStore.Labelled | app/src/main/java/com/example/windspell/presentation/WeatherViewModel.kt:69-72 | same length, only names change, an item changes exactly when its name is shared, and a shared name becomes `name, country` |
| CityStore.SharedNameCountsTwice | app/src/main/java/com/example/windspell/presentation/WeatherViewModel.kt:70 | a name held by two items counts at least twice |
| CityStore.AtLeastOne | app/src/main/java/com/example/windspell/presentation/WeatherViewModel.kt:70 | a name held by an item counts at least once |
| CityStore.DuplicatesBecomeDistinct | app/src/main/java/com/example/windspell/presentation/WeatherViewModel.kt:69-72 | two cities with the same name in different countries get different labels |
| CityStore.DistinctNamesUnchanged | app/src/main/java/com/example/windspell/presentation/WeatherViewModel.kt:69-72 | a list without repeated names is shown unchanged |
| CityStore.CountSingle | app/src/main/java/com/example/windspell/presentation/WeatherViewModel.kt:70 | in a list without repeated names every name counts once |
| CityStore.CountAbsent | app/src/main/java/com/example/windspell/presentation/WeatherViewModel.kt:70 | a name no item holds counts zero |
| CityStore.EmitKeepsIdsUnique | app/src/main/java/com/example/windspell/presentation/WeatherViewModel.kt:63-72 | an emission keeps ids unique in the store and on screen |
| CityStore.LabelledKeepsIds | app/src/main/java/com/example/windspell/presentation/WeatherViewModel.kt:69-72 | labelling keeps every id, so unique ids stay unique |
| CityStore.EmitShowsStoreNewestFirst | app/src/main/java/com/example/windspell/presentation/WeatherViewModel.kt:64-72 | the screen shows every saved city, newest first, labelled |
| CityStore.EmitBelowBoundKeepsStore | app/src/main/java/com/example/windspell/presentation/WeatherViewModel.kt:65 | below the bound an emission deletes nothing |
| CityStore.SortedLastIsOldest | app/src/main/java/com/example/windspell/presentation/WeatherViewModel.kt:64-66 | the last sorted item is a saved item with the oldest update time |
| CityStore.EmitAtBoundEvictsOldest | app/src/main/java/com/example/windspell/presentation/WeatherViewModel.kt:65-66 | at 20 saved cities the oldest is deleted, 19 remain, and the evicted city is still listed on screen |
| CityStore.UpsertThenEmitStaysBelowBound | app/src/main/java/com/example/windspell/presentation/WeatherViewModel.kt:63-67 | an insertion followed by an emission leaves fewer than 20 saved cities with unique ids |
| PolicyProperties.FreshItemIsServedFromStore | app/src/main/java/com/example/windspell/presentation/WeatherViewModel.kt:126-135 | a fresh item is shown as stored with Success, becomes the recent city, and no service reply matters |
| PolicyProperties.StaleItemOfflineChangesNothing | app/src/main/java/com/example/windspell/presentation/WeatherViewModel.kt:136-140 | a stale item with the network off changes nothing |
| PolicyProperties.StaleItemOnlineIsRefetched | app/src/main/java/com/example/windspell/presentation/WeatherViewModel.kt:136-139 | a stale item with the network on is fetched at the given coordinates and saved |
| PolicyProperties.FetchStampsAndSaves | app/src/main/java/com/example/windspell/presentation/WeatherViewModel.kt:162-174 | the result is stamped with the requested place, language and time; it is saved and remembered only when asked; Success |
| PolicyProperties.FetchFailureEscapes | app/src/main/java/com/example/windspell/presentation/WeatherViewModel.kt:162-167 | an exception from the weather service escapes with the state unchanged |
| PolicyProperties.SavedItemStaysFreshForAnHour | app/src/main/java/com/example/windspell/presentation/WeatherViewModel.kt:162-174 | a fetched and saved city is fresh for the following hour in the same language |
| PolicyProperties.UnknownCityReportsEmpty | app/src/main/java/com/example/windspell/presentation/WeatherViewModel.kt:145-149 | a name without geocoding candidates reports Empty |
| PolicyProperties.FoundCityIsFetchedAtFirstCandidate | app/src/main/java/com/example/windspell/presentation/WeatherViewModel.kt:145-154 | a found name is fetched at its first candidate after reporting InProgress |
| PolicyProperties.CityNameFailuresAreCaught | app/src/main/java/com/example/windspell/presentation/WeatherViewModel.kt:155-158 | any exception with a message (a `NoSuchElementException` included), from geocoding or the weather service, ends a name search in Error(message) without escaping |
| PolicyProperties.CityNameCancellationIsSilent | app/src/main/java/com/example/windspell/presentation/WeatherViewModel.kt:155-156 | a cancellation ends a name search silently, still InProgress |
| PolicyProperties.CityNameEscapesOnlyWithoutMessage | app/src/main/java/com/example/windspell/presentation/WeatherViewModel.kt:155-158 | only the null-pointer exception of an exception without a message escapes a name search |
| PolicyProperties.BlankQueryLoadsRecent | app/src/main/java/com/example/windspell/presentation/WeatherViewModel.kt:85-93 | a blank query manages the visible recent city at its coordinates, or reports Empty without one |
| PolicyProperties.MatchedQueryLoadsFirstMatch | app/src/main/java/com/example/windspell/presentation/WeatherViewModel.kt:95-97 | a query contained in a visible name manages the first such city, and geocoding plays no part, unless that refresh throws a `NoSuchElementException` |
| PolicyProperties.MatchedRefreshWithoutElementGeocodes | app/src/main/java/com/example/windspell/presentation/WeatherViewModel.kt:95-102 | a `NoSuchElementException` from the matched city's refresh sends the query to geocoding, without saving and without the exception escaping |
| PolicyProperties.UnmatchedQueryGeocodesWithoutSaving | app/src/main/java/com/example/windspell/presentation/WeatherViewModel.kt:98-101 | an unmatched query is geocoded without saving when online, and changes nothing offline |
| PolicyProperties.VisitSkipsOtherItems | app/src/main/java/com/example/windspell/presentation/WeatherViewModel.kt:117-123 | the loop does nothing when no item has the recent id |
| PolicyProperties.VisitManagesTheRecentItem | app/src/main/java/com/example/windspell/presentation/WeatherViewModel.kt:117-123 | with unique ids the loop manages exactly the item with the recent id |
| PolicyProperties.LoadRecentManagesRecentItem | app/src/main/java/com/example/windspell/presentation/WeatherViewModel.kt:113-124 | loading manages the recent city, reports Empty for an empty list, and otherwise changes nothing |
| PolicyProperties.LaunchWithoutRecentStaysInProgress | app/src/main/java/com/example/windspell/presentation/WeatherViewModel.kt:56-124 | saved cities without the recent id leave start-up at InProgress |
| PolicyProperties.DeleteOtherCityKeepsScreen | app/src/main/java/com/example/windspell/presentation/WeatherViewModel.kt:206-215 | deleting a city that is not shown only removes it from the store |
| PolicyProperties.DeleteShownCityMovesToNeighbour | app/src/main/java/com/example/windspell/presentation/WeatherViewModel.kt:216-223 | deleting the shown city moves to the next visible city, else the previous one, and remembers it; a stale one is fetched at (0.0, 0.0) |
| PolicyProperties.DeleteLastCityShowsDefault | app/src/main/java/com/example/windspell/presentation/WeatherViewModel.kt:224-227 | deleting the only shown city reports Empty, shows the default result and remembers id -1 |
| PolicyProperties.DeleteScenario | app/src/test/java/com/example/windspell/WeatherViewModelUnitTests.kt:118-149 | the unit-test scenario: deleting city 0 of five shows and remembers city 1; deleting city 4 keeps city 1 |
| PolicyProperties.LocaleChangeRefetchesShownCity | app/src/main/java/com/example/windspell/presentation/WeatherViewModel.kt:176-184 | a language change refetches the shown city at its own coordinates, tagged with the new language |
| PolicyProperties.FetchKeepsConsistent | app/src/main/java/com/example/windspell/presentation/WeatherViewModel.kt:162-174 | a coordinate fetch keeps ids unique and adds at most one saved city |
| PolicyProperties.ManageKeepsConsistent | app/src/main/java/com/example/windspell/presentation/WeatherViewModel.kt:126-141 | refresh-or-serve keeps ids unique and adds at most one saved city |
| PolicyProperties.FetchByCityNameKeepsConsistent | app/src/main/java/com/example/windspell/presentation/WeatherViewModel.kt:143-160 | a name search keeps ids unique and adds at most one saved city |
| PolicyProperties.SearchKeepsConsistent | app/src/main/java/com/example/windspell/presentation/WeatherViewModel.kt:78-105 | a search keeps ids unique and adds at most one saved city |
| PolicyProperties.VisitKeepsConsistent | app/src/main/java/com/example/windspell/presentation/WeatherViewModel.kt:117-123 | the start-up loop keeps ids unique and adds at most one saved city |
| PolicyProperties.LaunchKeepsConsistent | app/src/main/java/com/example/windspell/presentation/WeatherViewModel.kt:56-76 | start-up keeps ids unique, and started below 20 saved cities it stays below 20 |
| PolicyProperties.StoreEmittedKeepsConsistent | app/src/main/java/com/example/windspell/presentation/WeatherViewModel.kt:63-72 | an emission keeps ids unique |
| PolicyProperties.LocaleChangeKeepsConsistent | app/src/main/java/com/example/windspell/presentation/WeatherViewModel.kt:176-184 | a language change keeps ids unique and adds at most one saved city |
| PolicyProperties.CityConfirmedKeepsConsistent | app/src/main/java/com/example/windspell/presentation/WeatherViewModel.kt:106-111 | confirming a city keeps ids unique and adds at most one saved city |
| PolicyProperties.DeleteKeepsConsistent | app/src/main/java/com/example/windspell/presentation/WeatherViewModel.kt:206-228 | deletion keeps ids unique |
| PolicyProperties.EmissionRestoresBound | app/src/main/java/com/example/windspell/presentation/WeatherViewModel.kt:63-67 | after any change of at most 20 saved cities, the emission leaves fewer than 20 |
| Presentation.WeatherViewModel.constructor | app/src/main/java/com/example/windspell/presentation/WeatherViewModel.kt:233-240 | the initial screen state (default result, empty lists, Idle, network on) over the saved cities |
| Presentation.WeatherViewModel.UpdateWeatherResult | app/src/main/java/com/example/windspell/presentation/WeatherViewModel.kt:193-198 | shows the result and, when asked, remembers its id |
| Presentation.WeatherViewModel.InsertWeatherItem | app/src/main/java/com/example/windspell/presentation/WeatherViewModel.kt:186-189 | saves the result in the current language with the forecast, keeping ids unique |
| Presentation.WeatherViewModel.UpdateNetworkState | app/src/main/java/com/example/windspell/presentation/WeatherViewModel.kt:231 | only the network flag changes |
| Presentation.WeatherViewModel.GetWeatherByCoordinates | app/src/main/java/com/example/windspell/presentation/WeatherViewModel.kt:162-174 | ends in the state of `RefreshPolicy.FetchByCoordinates`, keeping ids unique |
| Presentation.WeatherViewModel.ManageWeatherItem | app/src/main/java/com/example/windspell/presentation/WeatherViewModel.kt:126-141 | ends in the state of `RefreshPolicy.Manage`, keeping ids unique |
| Presentation.WeatherViewModel.GetWeatherByCityName | app/src/main/java/com/example/windspell/presentation/WeatherViewModel.kt:143-160 | ends in the state of `RefreshPolicy.FetchByCityName`, keeping ids unique |
| Presentation.WeatherViewModel.OnSearchTextChanged | app/src/main/java/com/example/windspell/presentation/WeatherViewModel.kt:78-105 | ends in the state of `RefreshPolicy.SearchTextChanged`, keeping ids unique |
| Presentation.WeatherViewModel.OnCityConfirmed | app/src/main/java/com/example/windspell/presentation/WeatherViewModel.kt:106-111 | saves and remembers the shown city, keeping ids unique |
| Presentation.WeatherViewModel.LoadRecentWeatherItem | app/src/main/java/com/example/windspell/presentation/WeatherViewModel.kt:113-124 | the loop ends in the state of `RefreshPolicy.LoadRecent`, keeping ids unique |
| Presentation.WeatherViewModel.OnStoreEmission | app/src/main/java/com/example/windspell/presentation/WeatherViewModel.kt:63-72 | one collector emission: sort, evict at the bound, publish the labelled list |
| Presentation.WeatherViewModel.Start | app/src/main/java/com/example/windspell/presentation/WeatherViewModel.kt:56-76 | start-up up to the first emission ends in the state of `RefreshPolicy.Launch` |
| Presentation.WeatherViewModel.OnLocaleChange | app/src/main/java/com/example/windspell/presentation/WeatherViewModel.kt:176-184 | ends in the state of `RefreshPolicy.LocaleChanged`, keeping ids unique |
| Presentation.WeatherViewModel.DeleteWeatherItem | app/src/main/java/com/example/windspell/presentation/WeatherViewModel.kt:206-228 | ends in the state of `RefreshPolicy.DeleteItem`, keeping ids unique |
| Forecasts.TranslationTables | app/src/main/java/com/example/windspell/components/Forecasts.kt:75-108 | the Russian, Polish and Belarusian names, with Sunday as each table's fallback |
| Forecasts.OtherLanguagesKeepEnglish | app/src/main/java/com/example/windspell/components/Forecasts.kt:109-111 | any other language code keeps the English upper-case name |
| Forecasts.EnglishNamesDistinct | app/src/main/java/com/example/windspell/components/Forecasts.kt:109-111 | the seven English names differ |
| Forecasts.RussianNamesDistinct | app/src/main/java/com/example/windspell/components/Forecasts.kt:76-86 | the seven Russian names differ |
| Forecasts.PolishNamesDistinct | app/src/main/java/com/example/windspell/components/Forecasts.kt:87-97 | the seven Polish names differ |
| Forecasts.BelarusianNamesDistinct | app/src/main/java/com/example/windspell/components/Forecasts.kt:98-108 | the seven Belarusian names differ |
| Forecasts.DayNamesAreDistinct | app/src/main/java/com/example/windspell/components/Forecasts.kt:75-112 | in every language two different days get different names |
| MainComponents.ListedCodesHaveDistinctIcons | app/src/main/java/com/example/windspell/components/MainComponents.kt:491-509 | the 17 listed icon codes map to 17 different drawables |
| MainComponents.OtherCodesFallBack | app/src/main/java/com/example/windspell/components/MainComponents.kt:510 | a code falls back to `_50n` exactly when it is not listed |
| MainComponents.OnValueChange | app/src/main/java/com/example/windspell/components/MainComponents.kt:247-254 | an edit unconfirms the city and hides suggestions; the text is passed on exactly when it has no digit |
| MainComponents.SpecialCharactersPass | app/src/main/java/com/example/windspell/components/MainComponents.kt:250-253 | punctuation passes the filter, a digit does not |
| MainComponents.OnClear | app/src/main/java/com/example/windspell/components/MainComponents.kt:225-228 | the clear button exists exactly beside non-blank text and sends the empty text |
| MainComponents.OnDone | app/src/main/java/com/example/windspell/components/MainComponents.kt:240-243 | Done passes the text on again exactly when it is not blank |
| MainComponents.CityLabelShowsCountry | app/src/main/java/com/example/windspell/components/MainComponents.kt:370-373 | the label starts with the name and a space, always shows the country code, and appends it only when the name lacks it |

## Left out

- Debouncing, job cancellation and concurrency are not modelled. Each operation runs to the
  end of its coroutine as one step. Overlapping operations and the 300 ms delay are outside
  the model. A cancellation is modelled only as an exception reply of a service.
- The weather service's answers are parameters. An operation gets one reply (`reply`) for
  its fetch. The search gets a second one (`fallback`) for the fetch after its
  `NoSuchElementException` fallback.
- Network, time and persistence are left out. The weather and geocoding services become
  reply parameters, `Instant.now()` becomes the parameter `now`, and Room and DataStore
  become the fields `store` and `recentId`. The store is assumed to emit its rows in
  insertion order, with a replaced row moved to the end.
- Collector timing is not modelled. An emission is a separate step (`StoreEmitted`) that
  follows a store change. Start-up stops after its first emission.
- The `onCityConfirmed` forecast update is not modelled separately. `updateForecastResult`
  there re-sets the forecast already shown, so it changes nothing.
- Numbers are simplified. Doubles are `real`, with no rounding. Temperatures and the
  forecast's content are carried along and never computed with.
- `Error` instances compare by value here. In Kotlin, `Error` is a plain class compared by
  reference; only its `error` text is modelled.
- Case folding covers only part of Unicode. The case-insensitive search compares as Kotlin's
  `Char.equals(…, ignoreCase = true)` does. It uses upper- and lower-case mappings for ASCII,
  Latin-1, Latin Extended-A, basic Greek (U+0391 to U+03C9) and basic Cyrillic (U+0400 to
  U+045F), irregular pairs included. Letters of other blocks (accented Greek, Cyrillic beyond
  U+045F, Latin Extended-B and later) compare exactly.
- The conversion in `onLocaleChange` is inferred. `weatherResultToItem()` without a
  language is not part of this model. It is taken to keep the result's own language and an
  empty forecast.
- Presentation.WeatherViewModel.constructor: the `isCurrentItemSaved` flag of `UiState` is
  left out. No core operation reads or writes it.
- The splash-screen flag and the date formatting are left out. `showSplashScreen(false)` and
  `timestampToDate`/`timestampToDayOfWeek` are I/O or calendar work with no effect on the
  screen state modelled here.
- The time zone is left out of `translatedDayNames`. The function is modelled on the day of
  the week it receives.
- The Compose layout and state holders are left out. Only the decisions inside the search
  bar, the icon table and the label text are modelled.
- The application's older root-package view model is not part of this model.
