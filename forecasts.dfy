/**
 * Day names on the forecast list (`translatedDayNames` in `components/Forecasts.kt`): the
 * English enum name is looked up in a table for Russian, Polish or Belarusian; any other
 * language code, compared exactly, keeps the English name.
 */
module Forecasts {
  datatype DayOfWeek = Monday | Tuesday | Wednesday | Thursday | Friday | Saturday | Sunday

  /** `DayOfWeek.name`. */
  function Name(d: DayOfWeek): string
  {
    match d
    case Monday => "MONDAY"
    case Tuesday => "TUESDAY"
    case Wednesday => "WEDNESDAY"
    case Thursday => "THURSDAY"
    case Friday => "FRIDAY"
    case Saturday => "SATURDAY"
    case Sunday => "SUNDAY"
  }

  /** The Russian table, keyed by the English name; anything else is Sunday. */
  function Russian(name: string): string
  {
    if name == "MONDAY" then "ПОНЕДЕЛЬНИК"
    else if name == "TUESDAY" then "ВТОРНИК"
    else if name == "WEDNESDAY" then "СРЕДА"
    else if name == "THURSDAY" then "ЧЕТВЕРГ"
    else if name == "FRIDAY" then "ПЯТНИЦА"
    else if name == "SATURDAY" then "СУББОТА"
    else "ВОСКРЕСЕНЬЕ"
  }

  function Polish(name: string): string
  {
    if name == "MONDAY" then "PONIEDZIAŁEK"
    else if name == "TUESDAY" then "WTOREK"
    else if name == "WEDNESDAY" then "ŚRODA"
    else if name == "THURSDAY" then "CZWARTEK"
    else if name == "FRIDAY" then "PIĄTEK"
    else if name == "SATURDAY" then "SOBOTA"
    else "NIEDZIELA"
  }

  function Belarusian(name: string): string
  {
    if name == "MONDAY" then "ПАНЯДЗЕЛАК"
    else if name == "TUESDAY" then "АЎТОРАК"
    else if name == "WEDNESDAY" then "СЕРАДА"
    else if name == "THURSDAY" then "ЧАЦВЕР"
    else if name == "FRIDAY" then "ПЯТНІЦА"
    else if name == "SATURDAY" then "СУБОТА"
    else "НЯДЗЕЛЯ"
  }

  function TranslatedDayName(d: DayOfWeek, lang: string): string
  {
    if lang == "ru" then Russian(Name(d))
    else if lang == "pl" then Polish(Name(d))
    else if lang == "be" then Belarusian(Name(d))
    else Name(d)
  }

  /** The tables, day by day; Sunday comes from each table's fallback. */
  lemma TranslationTables()
    ensures TranslatedDayName(Monday, "ru") == "ПОНЕДЕЛЬНИК" && TranslatedDayName(Sunday, "ru") == "ВОСКРЕСЕНЬЕ"
    ensures TranslatedDayName(Wednesday, "pl") == "ŚRODA" && TranslatedDayName(Sunday, "pl") == "NIEDZIELA"
    ensures TranslatedDayName(Tuesday, "be") == "АЎТОРАК" && TranslatedDayName(Sunday, "be") == "НЯДЗЕЛЯ"
    ensures Russian("SUNDAY") == Russian("") && Polish("SUNDAY") == Polish("") && Belarusian("SUNDAY") == Belarusian("")
  {
  }

  /** Any other language code, compared exactly (so "RU" or "ru-RU" too), keeps the English
      name. */
  lemma OtherLanguagesKeepEnglish(d: DayOfWeek, lang: string)
    requires lang != "ru" && lang != "pl" && lang != "be"
    ensures TranslatedDayName(d, lang) == Name(d)
  {
  }

  lemma EnglishNamesDistinct(d1: DayOfWeek, d2: DayOfWeek)
    requires d1 != d2
    ensures Name(d1) != Name(d2)
  {
  }

  lemma RussianNamesDistinct(d1: DayOfWeek, d2: DayOfWeek)
    requires d1 != d2
    ensures Russian(Name(d1)) != Russian(Name(d2))
  {
  }

  lemma PolishNamesDistinct(d1: DayOfWeek, d2: DayOfWeek)
    requires d1 != d2
    ensures Polish(Name(d1)) != Polish(Name(d2))
  {
  }

  lemma BelarusianNamesDistinct(d1: DayOfWeek, d2: DayOfWeek)
    requires d1 != d2
    ensures Belarusian(Name(d1)) != Belarusian(Name(d2))
  {
  }

  /** In every language the seven days get seven different names. */
  lemma DayNamesAreDistinct(lang: string, d1: DayOfWeek, d2: DayOfWeek)
    requires d1 != d2
    ensures TranslatedDayName(d1, lang) != TranslatedDayName(d2, lang)
  {
    if lang == "ru" {
      RussianNamesDistinct(d1, d2);
    } else if lang == "pl" {
      PolishNamesDistinct(d1, d2);
    } else if lang == "be" {
      BelarusianNamesDistinct(d1, d2);
    } else {
      EnglishNamesDistinct(d1, d2);
    }
  }
}
