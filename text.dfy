/**
 * The Kotlin string operations the view model and the search bar rely on: `isBlank`,
 * `contains(other, ignoreCase)` and the `[0-9]` regular expression.
 */
module Text {
  /** Kotlin's `Char.isWhitespace` on the JVM: Java whitespace or a Unicode space separator. */
  predicate IsWhitespace(c: char)
  {
    || '\t' <= c <= '\r'
    || '\U{1C}' <= c <= '\U{1F}'
    || c == ' ' || c == '\U{A0}' || c == '\U{1680}'
    || '\U{2000}' <= c <= '\U{200A}'
    || c == '\U{2028}' || c == '\U{2029}' || c == '\U{202F}' || c == '\U{205F}' || c == '\U{3000}'
  }

  /** `CharSequence.isBlank()`: empty or whitespace only. */
  predicate IsBlank(s: string)
  {
    forall i :: 0 <= i < |s| ==> IsWhitespace(s[i])
  }

  /** `Char.uppercaseChar()` for the letters of the scripts the application is used with:
      ASCII, Latin-1, Latin Extended-A, basic Greek and basic Cyrillic (U+0400 to U+045F).
      Every other character is its own upper case. */
  function UpperCase(c: char): char
  {
    if 'a' <= c <= 'z' then (c as int - 32) as char
    else if c == '\U{B5}' then '\U{39C}'
    else if '\U{E0}' <= c <= '\U{FE}' && c != '\U{F7}' then (c as int - 32) as char
    else if c == '\U{FF}' then '\U{178}'
    else if c == '\U{131}' then 'I'
    else if c == '\U{17F}' then 'S'
    else if '\U{101}' <= c <= '\U{137}' && c as int % 2 == 1 then (c as int - 1) as char
    else if '\U{13A}' <= c <= '\U{148}' && c as int % 2 == 0 then (c as int - 1) as char
    else if '\U{14B}' <= c <= '\U{177}' && c as int % 2 == 1 then (c as int - 1) as char
    else if '\U{17A}' <= c <= '\U{17E}' && c as int % 2 == 0 then (c as int - 1) as char
    else if c == '\U{3C2}' then '\U{3A3}'
    else if '\U{3B1}' <= c <= '\U{3C9}' then (c as int - 32) as char
    else if '\U{430}' <= c <= '\U{44F}' then (c as int - 32) as char
    else if '\U{450}' <= c <= '\U{45F}' then (c as int - 80) as char
    else c
  }

  /** `Char.lowercaseChar()` for the same letters. */
  function LowerCase(c: char): char
  {
    if 'A' <= c <= 'Z' then (c as int + 32) as char
    else if '\U{C0}' <= c <= '\U{DE}' && c != '\U{D7}' then (c as int + 32) as char
    else if c == '\U{130}' then 'i'
    else if c == '\U{178}' then '\U{FF}'
    else if '\U{100}' <= c <= '\U{136}' && c as int % 2 == 0 then (c as int + 1) as char
    else if '\U{139}' <= c <= '\U{147}' && c as int % 2 == 1 then (c as int + 1) as char
    else if '\U{14A}' <= c <= '\U{176}' && c as int % 2 == 0 then (c as int + 1) as char
    else if '\U{179}' <= c <= '\U{17D}' && c as int % 2 == 1 then (c as int + 1) as char
    else if '\U{391}' <= c <= '\U{3A9}' && c != '\U{3A2}' then (c as int + 32) as char
    else if '\U{400}' <= c <= '\U{40F}' then (c as int + 80) as char
    else if '\U{410}' <= c <= '\U{42F}' then (c as int + 32) as char
    else c
  }

  /** `Char.equals(other, ignoreCase)`: equal, or, ignoring case, equal upper-case forms or
      equal lower-case forms of the upper-case forms. */
  predicate SameChar(a: char, b: char, ignoreCase: bool)
  {
    a == b
    || (ignoreCase && (UpperCase(a) == UpperCase(b) || LowerCase(UpperCase(a)) == LowerCase(UpperCase(b))))
  }

  /** The letters whose case pairs are irregular are matched too: the dotless and the dotted
      i, the long s, the micro sign, and y with diaeresis. */
  lemma IrregularCasePairs()
    ensures SameChar('\U{FF}', '\U{178}', true) && SameChar('\U{131}', 'I', true) && SameChar('\U{130}', 'i', true)
    ensures SameChar('\U{17F}', 'S', true) && SameChar('\U{17F}', 's', true)
    ensures SameChar('\U{B5}', '\U{3BC}', true) && SameChar('\U{3C2}', '\U{3C3}', true)
    ensures SameChar('\U{401}', '\U{451}', true) && SameChar('\U{40E}', '\U{45E}', true)
    ensures !SameChar('\U{131}', 'i', false) && !SameChar('\U{DF}', 's', true)
  {
  }

  /** `needle` occurs in `hay` starting at position `k`. */
  predicate MatchesAt(hay: string, needle: string, k: int, ignoreCase: bool)
  {
    0 <= k && k + |needle| <= |hay|
    && forall j :: 0 <= j < |needle| ==> SameChar(hay[k + j], needle[j], ignoreCase)
  }

  /** `CharSequence.contains(other, ignoreCase)`: some position of `hay` starts `needle`
      (the empty needle is found everywhere). */
  function Contains(hay: string, needle: string, ignoreCase: bool): (r: bool)
    ensures r <==> exists k :: MatchesAt(hay, needle, k, ignoreCase)
    decreases |hay|
  {
    if |needle| > |hay| then false
    else if MatchesAt(hay, needle, 0, ignoreCase) then true
    else if |hay| == |needle| then false
    else
      var rest := Contains(hay[1..], needle, ignoreCase);
      assert rest ==> exists k :: MatchesAt(hay, needle, k, ignoreCase) by {
        if rest {
          var k :| MatchesAt(hay[1..], needle, k, ignoreCase);
          ShiftMatch(hay, needle, ignoreCase, k);
        }
      }
      assert (exists k :: MatchesAt(hay, needle, k, ignoreCase)) ==> rest by {
        if k :| MatchesAt(hay, needle, k, ignoreCase) {
          ShiftMatch(hay, needle, ignoreCase, k - 1);
        }
      }
      rest
  }

  /** A match at position `k` of `hay[1..]` is a match at position `k + 1` of `hay`. */
  lemma ShiftMatch(hay: string, needle: string, ignoreCase: bool, k: int)
    requires |hay| > 0 && k >= 0
    ensures MatchesAt(hay[1..], needle, k, ignoreCase) <==> MatchesAt(hay, needle, k + 1, ignoreCase)
  {
    if 0 <= k && k + |needle| <= |hay| - 1 {
      forall j | 0 <= j < |needle|
        ensures SameChar(hay[1..][k + j], needle[j], ignoreCase) == SameChar(hay[k + 1 + j], needle[j], ignoreCase)
      {
      }
    }
  }

  /** Searching with case ignored finds everything an exact search finds. */
  lemma {:induction false} ExactMatchIgnoringCase(hay: string, needle: string)
    requires Contains(hay, needle, false)
    ensures Contains(hay, needle, true)
  {
    var k :| MatchesAt(hay, needle, k, false);
    assert MatchesAt(hay, needle, k, true);
  }

  /** `Regex("[0-9]").containsMatchIn(s)`: `s` holds an ASCII decimal digit. */
  predicate HasDigit(s: string)
  {
    exists i :: 0 <= i < |s| && '0' <= s[i] <= '9'
  }
}
