/**
 * The decisions taken inside the composables of `components/MainComponents.kt`: which
 * drawable shows an icon code, what the search bar passes on as the user types, clears or
 * confirms, and how the city label on the details card is formed.
 */
module MainComponents {
  import opened Wrappers
  import opened Text

  /** The weather drawables of the application. */
  datatype Drawable =
    | Icon01d | Icon01n | Icon02d | Icon02n | Icon03d | Icon03n | Icon04d | Icon04n
    | Icon09d | Icon09n | Icon10d | Icon10n | Icon11d | Icon11n | Icon13d | Icon13n
    | Icon50d | Icon50n

  /** `getWeatherIcon`. */
  function WeatherIcon(code: string): Drawable
  {
    if code == "01d" then Icon01d
    else if code == "01n" then Icon01n
    else if code == "02d" then Icon02d
    else if code == "02n" then Icon02n
    else if code == "03d" then Icon03d
    else if code == "03n" then Icon03n
    else if code == "04d" then Icon04d
    else if code == "04n" then Icon04n
    else if code == "09d" then Icon09d
    else if code == "09n" then Icon09n
    else if code == "10d" then Icon10d
    else if code == "10n" then Icon10n
    else if code == "11d" then Icon11d
    else if code == "11n" then Icon11n
    else if code == "13d" then Icon13d
    else if code == "13n" then Icon13n
    else if code == "50d" then Icon50d
    else Icon50n
  }

  /** The codes with a drawable of their own. */
  const ListedCodes: seq<string> :=
    ["01d", "01n", "02d", "02n", "03d", "03n", "04d", "04n", "09d", "09n",
     "10d", "10n", "11d", "11n", "13d", "13n", "50d"]

  /** The 17 listed codes map to 17 different drawables. */
  lemma ListedCodesHaveDistinctIcons(i: int, j: int)
    requires 0 <= i < j < |ListedCodes|
    ensures WeatherIcon(ListedCodes[i]) != WeatherIcon(ListedCodes[j])
  {
  }

  /** Exactly the codes that are not listed ("", "50n", "01D", ...) fall back to `_50n`. */
  lemma OtherCodesFallBack(code: string)
    ensures WeatherIcon(code) == Icon50n <==> code !in ListedCodes
  {
  }

  /** What one edit of the search field does: the field is no longer confirmed, suggestions
      are hidden, and the text is passed on only when it holds no digit. */
  datatype EditEffect = EditEffect(cityConfirmed: bool, showSuggestions: bool, forwarded: Option<string>)

  /** `onValueChange` of the search field. */
  function OnValueChange(input: string): (e: EditEffect)
    ensures !e.cityConfirmed && !e.showSuggestions
    ensures e.forwarded.Some? <==> !HasDigit(input)
    ensures e.forwarded.Some? ==> e.forwarded.value == input
  {
    EditEffect(false, false, if !HasDigit(input) then Some(input) else None)
  }

  /** Only decimal digits are filtered: other characters the comment calls special pass. */
  lemma SpecialCharactersPass()
    ensures OnValueChange("St. John's, CA!").forwarded == Some("St. John's, CA!")
    ensures OnValueChange("London 2").forwarded == None
  {
    assert '2' == "London 2"[7];
  }

  /** The clear button exists only beside a non-blank text, and sends the empty text. */
  function OnClear(input: string): (sent: Option<string>)
    ensures sent.Some? <==> !IsBlank(input)
    ensures sent.Some? ==> sent.value == ""
  {
    if !IsBlank(input) then Some("") else None
  }

  /** The keyboard's Done action passes the text on again only when it is not blank. */
  function OnDone(input: string): (sent: Option<string>)
    ensures sent.Some? <==> !IsBlank(input)
    ensures sent.Some? ==> sent.value == input
  {
    if !IsBlank(input) then Some(input) else None
  }

  /** The city line of the details card: the name, a space, then the country code unless the
      name already contains it (exact, case-sensitive search). */
  function CityLabel(name: string, country: string): string
  {
    name + " " + (if Contains(name, country, false) then "" else country)
  }

  /** The label always starts with the name and a space and always shows the country code,
      and it adds the code only when the name lacks it. */
  lemma {:induction false} CityLabelShowsCountry(name: string, country: string)
    ensures name + " " <= CityLabel(name, country)
    ensures Contains(CityLabel(name, country), country, false)
    ensures |CityLabel(name, country)| == |name| + 1 <==> Contains(name, country, false) || country == ""
  {
    var line := CityLabel(name, country);
    if Contains(name, country, false) {
      var k :| MatchesAt(name, country, k, false);
      assert MatchesAt(line, country, k, false) by {
        forall j | 0 <= j < |country| ensures SameChar(line[k + j], country[j], false) { assert line[k + j] == name[k + j]; }
      }
    } else {
      assert MatchesAt(line, country, |name| + 1, false) by {
        forall j | 0 <= j < |country| ensures line[|name| + 1 + j] == country[j] { }
      }
    }
  }
}
