/**
 * Categories: the weather-state table and the first-match classifier of
 * image_maker.py.
 *
 * The table lists four weather states in the fixed order sun, cloud, rain,
 * snow. Each state has literal substring patterns, an icon path and a
 * gradient colour pair. The classifier walks the table in that order and
 * returns the path and gradient of the first state that has a pattern
 * occurring in the (already lower-cased) condition text, or nothing.
 */
module Categories {
  import opened Pixels
  import opened Wrappers

  datatype WeatherKind = Sun | Cloud | Rain | Snow

  /** One entry of the table: icon path, match patterns, gradient (from, to). */
  datatype WeatherState = WeatherState(kind: WeatherKind, path: string, patterns: seq<string>, gradient: (Pixel, Pixel))

  /** The table, in the insertion order of the source's dictionary. */
  const ImageForForecast: seq<WeatherState> := [
    WeatherState(Sun, "weather_img/sun.jpg", ["солн", "ясн"], (Yellow, White)),
    WeatherState(Cloud, "weather_img/cloud.jpg", ["обл", "пасм"], (Gray, White)),
    WeatherState(Rain, "weather_img/rain.jpg", ["дожд"], (DarkBlue, White)),
    WeatherState(Snow, "weather_img/snow.png", ["сне", "метел"], (Blue, White))
  ]

  // ---------------------------------------------------------------------
  // Lower-casing (Python's str.lower, for the Latin and Cyrillic letters)
  // ---------------------------------------------------------------------

  /** Whether `c` is a capital letter that LowerChar changes. */
  predicate IsCapital(c: char) {
    'A' <= c <= 'Z' || 'Ѐ' <= c <= 'Я'
  }

  /** Whether `c` is the small letter of one of those capitals: a-z, а-я, ѐ-џ. */
  predicate IsSmall(c: char) {
    'a' <= c <= 'z' || 'а' <= c <= 'џ'
  }

  /**
   * The reverse mapping, as str.upper does it on these letters: a-z to A-Z,
   * а-я to А-Я and ѐ-џ to Ѐ-Џ; every other character is left as it is.
   */
  function UpperChar(c: char): (r: char)
    ensures IsSmall(c) ==> IsCapital(r)
    ensures !IsSmall(c) ==> r == c
  {
    if 'a' <= c <= 'z' then (c as int - 32) as char
    else if 'а' <= c <= 'я' then (c as int - 32) as char
    else if 'ѐ' <= c <= 'џ' then (c as int - 80) as char
    else c
  }

  /**
   * Lower-case one character: Latin A-Z, Cyrillic А-Я, and Ѐ-Џ (which
   * includes Ё). A capital becomes the small letter that upper-cases back to
   * it; every other character is left as it is.
   */
  function LowerChar(c: char): (r: char)
    ensures !IsCapital(r)
    ensures !IsCapital(c) ==> r == c
    ensures IsCapital(c) ==> IsSmall(r) && UpperChar(r) == c
  {
    if 'A' <= c <= 'Z' then (c as int + 32) as char
    else if 'А' <= c <= 'Я' then (c as int + 32) as char
    else if 'Ѐ' <= c <= 'Џ' then (c as int + 80) as char
    else c
  }

  /** Lower-casing an upper-cased character is lower-casing the character. */
  lemma LowerOfUpperChar(c: char)
    ensures LowerChar(UpperChar(c)) == LowerChar(c)
  {
  }

  /** str.lower: lower-cases character by character. */
  function Lower(s: string): (r: string)
    ensures |r| == |s|
    ensures forall i :: 0 <= i < |s| ==> r[i] == LowerChar(s[i])
  {
    seq(|s|, i requires 0 <= i < |s| => LowerChar(s[i]))
  }

  /** str.upper on the same letters, character by character. */
  function Upper(s: string): (r: string)
    ensures |r| == |s|
    ensures forall i :: 0 <= i < |s| ==> r[i] == UpperChar(s[i])
  {
    seq(|s|, i requires 0 <= i < |s| => UpperChar(s[i]))
  }

  /** A lower-cased string holds no capital, and a string without capitals is left as it is. */
  lemma LowerRemovesCapitals(s: string)
    ensures forall i :: 0 <= i < |s| ==> !IsCapital(Lower(s)[i])
    ensures (forall i :: 0 <= i < |s| ==> !IsCapital(s[i])) ==> Lower(s) == s
  {
  }

  /** Lower-casing forgets case: an upper-cased string lowers to what the string itself lowers to. */
  lemma LowerOfUpper(s: string)
    ensures Lower(Upper(s)) == Lower(s)
  {
    forall i | 0 <= i < |s|
      ensures Lower(Upper(s))[i] == Lower(s)[i]
    {
      LowerOfUpperChar(s[i]);
    }
  }

  // ---------------------------------------------------------------------
  // Substring search (re.search on a pattern without metacharacters)
  // ---------------------------------------------------------------------

  ghost predicate OccursAt(pattern: string, text: string, i: int) {
    0 <= i && i + |pattern| <= |text| && text[i..i + |pattern|] == pattern
  }

  ghost predicate Occurs(pattern: string, text: string) {
    exists i :: OccursAt(pattern, text, i)
  }

  /** Whether `pattern` occurs in `text`; every table pattern is a plain literal. */
  function Search(pattern: string, text: string): (found: bool)
    ensures found <==> Occurs(pattern, text)
    decreases |text|
  {
    if |pattern| > |text| then
      assert forall i :: !OccursAt(pattern, text, i);
      false
    else if text[..|pattern|] == pattern then
      assert OccursAt(pattern, text, 0);
      true
    else
      var rest := Search(pattern, text[1..]);
      assert forall i :: OccursAt(pattern, text[1..], i) <==> OccursAt(pattern, text, i + 1) by {
        forall i ensures OccursAt(pattern, text[1..], i) <==> OccursAt(pattern, text, i + 1) {
          if 0 <= i && i + |pattern| <= |text| - 1 {
            assert text[1..][i..i + |pattern|] == text[i + 1..i + 1 + |pattern|];
          }
        }
      }
      assert !OccursAt(pattern, text, 0);
      assert Occurs(pattern, text) ==> Occurs(pattern, text[1..]) by {
        if Occurs(pattern, text) {
          var i :| OccursAt(pattern, text, i);
          assert OccursAt(pattern, text[1..], i - 1);
        }
      }
      rest
  }

  /** The inner loop of the classifier: does any of the patterns occur? */
  function AnyPatternOccurs(patterns: seq<string>, text: string): (found: bool)
    ensures found <==> exists k :: 0 <= k < |patterns| && Occurs(patterns[k], text)
  {
    if |patterns| == 0 then false
    else if Search(patterns[0], text) then true
    else
      var rest := AnyPatternOccurs(patterns[1..], text);
      assert forall k :: 1 <= k < |patterns| ==> patterns[k] == patterns[1..][k - 1];
      rest
  }

  ghost predicate Matches(state: WeatherState, condition: string) {
    exists k :: 0 <= k < |state.patterns| && Occurs(state.patterns[k], condition)
  }

  /** Index of the first table entry with a matching pattern. */
  function FirstMatch(table: seq<WeatherState>, condition: string): (r: Option<nat>)
    ensures r.None? <==> forall k :: 0 <= k < |table| ==> !Matches(table[k], condition)
    ensures r.Some? ==> r.value < |table| && Matches(table[r.value], condition)
    ensures r.Some? ==> forall k :: 0 <= k < r.value ==> !Matches(table[k], condition)
  {
    if |table| == 0 then None
    else if AnyPatternOccurs(table[0].patterns, condition) then Some(0)
    else
      match FirstMatch(table[1..], condition)
      case None => None
      case Some(k) => Some(k + 1)
  }

  /**
   * get_path_and_gradient_for_weather_image: the icon path and gradient of the
   * first state, in table order, with a pattern occurring in `condition`.
   */
  function GetPathAndGradient(condition: string): (r: Option<(string, (Pixel, Pixel))>)
    ensures r.None? <==> forall k :: 0 <= k < |ImageForForecast| ==> !Matches(ImageForForecast[k], condition)
    ensures r.Some? ==> exists k :: 0 <= k < |ImageForForecast| && Matches(ImageForForecast[k], condition)
                                    && (forall j :: 0 <= j < k ==> !Matches(ImageForForecast[j], condition))
                                    && r.value == (ImageForForecast[k].path, ImageForForecast[k].gradient)
  {
    match FirstMatch(ImageForForecast, condition)
    case None => None
    case Some(k) => Some((ImageForForecast[k].path, ImageForForecast[k].gradient))
  }

  // ---------------------------------------------------------------------
  // Properties of the table
  // ---------------------------------------------------------------------

  /**
   * The table holds sun, cloud, rain and snow in that order, each with at
   * least one non-empty pattern and its own icon path.
   */
  lemma TableOrder()
    ensures |ImageForForecast| == 4
    ensures ImageForForecast[0].kind == Sun && ImageForForecast[1].kind == Cloud
    ensures ImageForForecast[2].kind == Rain && ImageForForecast[3].kind == Snow
    ensures forall k :: 0 <= k < 4 ==> |ImageForForecast[k].patterns| > 0
    ensures forall k, p :: 0 <= k < 4 && 0 <= p < |ImageForForecast[k].patterns| ==> |ImageForForecast[k].patterns[p]| > 0
    ensures forall k, j :: 0 <= k < j < 4 ==> ImageForForecast[k].path != ImageForForecast[j].path
  {
  }

  /** Every gradient pair ends at white and never decreases a channel. */
  lemma GradientPairsIncrease(k: int)
    requires 0 <= k < |ImageForForecast|
    ensures ImageForForecast[k].gradient.1 == White
    ensures forall c :: 0 <= c < 3 ==> ImageForForecast[k].gradient.0[c] <= ImageForForecast[k].gradient.1[c]
  {
  }

  /** Every pattern is already in lower case, so it can match a lower-cased condition. */
  lemma PatternsAreLowerCase(k: int, p: int)
    requires 0 <= k < |ImageForForecast| && 0 <= p < |ImageForForecast[k].patterns|
    ensures Lower(ImageForForecast[k].patterns[p]) == ImageForForecast[k].patterns[p]
  {
  }

  // ---------------------------------------------------------------------
  // Worked conditions
  // ---------------------------------------------------------------------

  /** The classifier ignores case: an upper-cased condition gets the same weather state. */
  lemma ClassifyIgnoresCase(condition: string)
    ensures GetPathAndGradient(Lower(Upper(condition))) == GetPathAndGradient(Lower(condition))
  {
    LowerOfUpper(condition);
  }

  /** A pattern holding a letter that the text lacks does not occur in it. */
  lemma AbsentLetter(pattern: string, text: string, c: char)
    requires c in pattern && c !in text
    ensures !Occurs(pattern, text)
  {
  }

  /** When the entry at `k` matches, the classifier answers with it if no earlier entry matches. */
  lemma ClassifiedAs(condition: string, k: int)
    requires 0 <= k < |ImageForForecast| && Matches(ImageForForecast[k], condition)
    requires forall j :: 0 <= j < k ==> !Matches(ImageForForecast[j], condition)
    ensures GetPathAndGradient(condition) == Some((ImageForForecast[k].path, ImageForForecast[k].gradient))
  {
  }

  lemma ClearIsSun()
    ensures GetPathAndGradient(Lower("ЯСНО, без осадков")) == Some(("weather_img/sun.jpg", (Yellow, White)))
  {
    var t := Lower("ЯСНО, без осадков");
    assert t[0..3] == "ясн";
    assert OccursAt(ImageForForecast[0].patterns[1], t, 0);
    ClassifiedAs(t, 0);
  }

  /** "прояснениями" contains the sun pattern "ясн", and sun comes before cloud. */
  lemma CloudyWithClearSpellsIsSun()
    ensures GetPathAndGradient(Lower("облачно с прояснениями")) == Some(("weather_img/sun.jpg", (Yellow, White)))
  {
    var t := Lower("облачно с прояснениями");
    assert t[13..16] == "ясн";
    assert OccursAt(ImageForForecast[0].patterns[1], t, 13);
    ClassifiedAs(t, 0);
  }

  lemma OvercastIsCloud()
    ensures GetPathAndGradient(Lower("Пасмурно")) == Some(("weather_img/cloud.jpg", (Gray, White)))
  {
    var t := Lower("Пасмурно");
    assert t == "пасмурно";
    assert OccursAt(ImageForForecast[1].patterns[1], t, 0);
    AbsentLetter("солн", t, 'л');
    AbsentLetter("ясн", t, 'я');
    ClassifiedAs(t, 1);
  }

  lemma RainIsRain()
    ensures GetPathAndGradient(Lower("дождь")) == Some(("weather_img/rain.jpg", (DarkBlue, White)))
  {
    var t := Lower("дождь");
    assert t == "дождь";
    assert OccursAt(ImageForForecast[2].patterns[0], t, 0);
    AbsentLetter("солн", t, 'с');
    AbsentLetter("ясн", t, 'я');
    AbsentLetter("обл", t, 'б');
    AbsentLetter("пасм", t, 'п');
    ClassifiedAs(t, 2);
  }

  lemma BlizzardIsSnow()
    ensures GetPathAndGradient(Lower("снег с метелью")) == Some(("weather_img/snow.png", (Blue, White)))
  {
    var t := Lower("снег с метелью");
    assert t == "снег с метелью";
    assert OccursAt(ImageForForecast[3].patterns[0], t, 0);
    AbsentLetter("солн", t, 'о');
    AbsentLetter("ясн", t, 'я');
    AbsentLetter("обл", t, 'о');
    AbsentLetter("пасм", t, 'п');
    AbsentLetter("дожд", t, 'д');
    ClassifiedAs(t, 3);
  }

  /** No pattern occurs in "туман" (fog), so no icon is found and the card is not made. */
  lemma FogMatchesNothing()
    ensures GetPathAndGradient(Lower("туман")) == None
  {
    var t := Lower("туман");
    assert t == "туман";
    AbsentLetter("солн", t, 'с');
    AbsentLetter("ясн", t, 'я');
    AbsentLetter("обл", t, 'о');
    AbsentLetter("пасм", t, 'п');
    AbsentLetter("дожд", t, 'д');
    AbsentLetter("сне", t, 'с');
    AbsentLetter("метел", t, 'е');
    assert !Matches(ImageForForecast[0], t) && !Matches(ImageForForecast[1], t);
    assert !Matches(ImageForForecast[2], t) && !Matches(ImageForForecast[3], t);
  }
}
