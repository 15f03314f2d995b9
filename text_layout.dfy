/**
 * TextLayout: where add_weather_description_on_postcard, put_text_on_image and
 * put_date_on_postcard place their text, and the date string they draw.
 *
 * Measuring a text (PIL's textsize for a font file and size) is a parameter
 * `measure`; drawing the glyphs is not part of this model. What is modelled is
 * the coordinate arithmetic: Python float division followed by `int(...)`,
 * which truncates toward zero.
 */
module TextLayout {
  import opened Wrappers

  // ---------------------------------------------------------------------
  // Coordinates
  // ---------------------------------------------------------------------

  /** Python's int() on a float: drop the fraction, toward zero. */
  function Trunc(r: real): (n: int)
    ensures 0.0 <= r ==> n as real <= r < n as real + 1.0
    ensures r < 0.0 ==> n as real - 1.0 < r <= n as real
  {
    if r >= 0.0 then r.Floor else -((-r).Floor)
  }

  /**
   * put_text_on_image's column for a text of width `w` on a canvas `pCols`
   * wide: centred on the right half to within one pixel, that is less than one
   * away from (3 * pCols - 2 * w) / 4.
   */
  function TextX(pCols: nat, w: nat): (x: int)
    ensures -4 < 4 * x - (3 * pCols - 2 * w) < 4
  {
    Trunc(pCols as real / 2.0 + (pCols as real / 2.0 - w as real) / 2.0)
  }

  /**
   * put_date_on_postcard's column for a text of width `w`: centred on the left
   * half to within one pixel, less than one away from (pCols - 2 * w) / 4.
   */
  function DateX(pCols: nat, w: nat): (x: int)
    ensures -4 < 4 * x - (pCols - 2 * w) < 4
  {
    Trunc((pCols as real / 2.0 - w as real) / 2.0)
  }

  /**
   * When a text line is no wider than half the canvas it starts in the right
   * half and ends inside the canvas.
   */
  lemma TextXCentredOnRightHalf(pCols: nat, w: nat)
    ensures 2 * w <= pCols ==> pCols / 2 <= TextX(pCols, w) && TextX(pCols, w) + w <= pCols
  {
  }

  /** When the date is no wider than half the canvas it lies in the left half. */
  lemma DateXCentredOnLeftHalf(pCols: nat, w: nat)
    ensures 2 * w <= pCols ==> 0 <= DateX(pCols, w) && DateX(pCols, w) + w <= pCols / 2
  {
  }

  // ---------------------------------------------------------------------
  // The date string: strftime with '%d.%m.%Y'
  // ---------------------------------------------------------------------

  /** A calendar date as Python's `date` holds it (calendar validity is its constructor's concern). */
  datatype Date = Date(year: int, month: int, day: int)

  predicate ValidDate(d: Date) {
    1 <= d.year <= 9999 && 1 <= d.month <= 12 && 1 <= d.day <= 31
  }

  predicate IsDigit(c: char) { '0' <= c <= '9' }

  function DigitChar(n: int): (c: char)
    requires 0 <= n < 10
    ensures IsDigit(c) && DigitValue(c) == n
  {
    (48 + n) as char
  }

  function DigitValue(c: char): int { c as int - 48 }

  /** The value of a string of decimal digits. */
  function Number(s: string): int {
    if |s| == 0 then 0 else 10 * Number(s[..|s| - 1]) + DigitValue(s[|s| - 1])
  }

  /** `n` zero-padded to `width` decimal digits. */
  function Padded(n: nat, width: nat): (s: string)
    ensures |s| == width
    ensures forall i :: 0 <= i < width ==> IsDigit(s[i])
  {
    if width == 0 then [] else Padded(n / 10, width - 1) + [DigitChar(n % 10)]
  }

  /** Reading back a padded number gives the number, when it has at most `width` digits. */
  lemma {:induction false} NumberOfPadded(n: nat, width: nat, bound: nat)
    requires bound == Power10(width) && n < bound
    ensures Number(Padded(n, width)) == n
  {
    if width > 0 {
      var s := Padded(n, width);
      assert s[..|s| - 1] == Padded(n / 10, width - 1);
      NumberOfPadded(n / 10, width - 1, Power10(width - 1));
    }
  }

  /** Padding what a string of digits reads as gives that string back. */
  lemma {:induction false} PaddedOfNumber(s: string)
    requires forall i :: 0 <= i < |s| ==> IsDigit(s[i])
    ensures 0 <= Number(s) < Power10(|s|)
    ensures Padded(Number(s), |s|) == s
  {
    if |s| > 0 {
      var init := s[..|s| - 1];
      PaddedOfNumber(init);
      var n := Number(s);
      assert n / 10 == Number(init) && n % 10 == DigitValue(s[|s| - 1]);
      assert s == init + [s[|s| - 1]];
    }
  }

  function Power10(k: nat): nat { if k == 0 then 1 else 10 * Power10(k - 1) }

  /** datetime.strftime(date, '%d.%m.%Y'). */
  function FormatDate(d: Date): (s: string)
    requires ValidDate(d)
    ensures |s| == 10 && s[2] == '.' && s[5] == '.'
  {
    Padded(d.day, 2) + "." + Padded(d.month, 2) + "." + Padded(d.year, 4)
  }

  /** The partner of FormatDate: reads 'DD.MM.YYYY' back into a valid date. */
  function ParseDate(s: string): Option<Date> {
    if |s| == 10 && s[2] == '.' && s[5] == '.' &&
       (forall i :: 0 <= i < 10 && i != 2 && i != 5 ==> IsDigit(s[i]))
    then
      var d := Date(Number(s[6..10]), Number(s[3..5]), Number(s[0..2]));
      if ValidDate(d) then Some(d) else None
    else None
  }

  /** Every date's string reads back as that date. */
  lemma FormatDateRoundTrip(d: Date)
    requires ValidDate(d)
    ensures ParseDate(FormatDate(d)) == Some(d)
  {
    var s := FormatDate(d);
    assert s[0..2] == Padded(d.day, 2);
    assert s[3..5] == Padded(d.month, 2);
    assert s[6..10] == Padded(d.year, 4);
    NumberOfPadded(d.day, 2, 100);
    NumberOfPadded(d.month, 2, 100);
    NumberOfPadded(d.year, 4, 10000);
  }

  /** Every string that reads as a date is exactly that date's string. */
  lemma ParseDateRoundTrip(s: string)
    requires ParseDate(s).Some?
    ensures FormatDate(ParseDate(s).value) == s
  {
    PaddedOfNumber(s[0..2]);
    PaddedOfNumber(s[3..5]);
    PaddedOfNumber(s[6..10]);
    assert s == s[0..2] + "." + s[3..5] + "." + s[6..10];
  }

  // ---------------------------------------------------------------------
  // The text plan of add_weather_description_on_postcard
  // ---------------------------------------------------------------------

  /** The two font files: the general face and the fixed-width face for temperatures. */
  datatype Font = General | Monospace

  /** A forecast as the fetching side hands it over (WeatherDayDescription). */
  datatype Forecast = Forecast(condition: string, tempDay: string, tempNight: string)

  /** One text drawn on the postcard, at column x and row y. */
  datatype Placement = Placement(text: string, font: Font, size: nat, x: int, y: int)

  const DateY := 170
  const DateFontSize := 30
  const TextFontSize := 24
  const YPos := 30
  const YStep := 25

  /** put_text_on_image: a text centred on the right half at row `yPos`. */
  function PutTextOnImage(text: string, yPos: int, pCols: nat, font: Font, fontSize: nat,
                          measure: (string, Font, nat) -> nat): (p: Placement)
    ensures p.text == text && p.font == font && p.size == fontSize && p.y == yPos
    ensures 2 * measure(text, font, fontSize) <= pCols ==>
      pCols / 2 <= p.x && p.x + measure(text, font, fontSize) <= pCols
  {
    TextXCentredOnRightHalf(pCols, measure(text, font, fontSize));
    Placement(text, font, fontSize, TextX(pCols, measure(text, font, fontSize)), yPos)
  }

  /** put_date_on_postcard: the date centred on the left half at row 170. */
  function PutDateOnPostcard(date: string, pCols: nat, font: Font, fontSize: nat,
                             measure: (string, Font, nat) -> nat): (p: Placement)
    ensures p.text == date && p.font == font && p.size == fontSize && p.y == DateY
    ensures 2 * measure(date, font, fontSize) <= pCols ==>
      0 <= p.x && p.x + measure(date, font, fontSize) <= pCols / 2
  {
    DateXCentredOnLeftHalf(pCols, measure(date, font, fontSize));
    Placement(date, font, fontSize, DateX(pCols, measure(date, font, fontSize)), DateY)
  }

  /**
   * add_weather_description_on_postcard: the date, then the six lines of
   * labels and values in the order they are drawn.
   */
  function AddWeatherDescriptionOnPostcard(pCols: nat, date: Date, forecast: Forecast,
                                           measure: (string, Font, nat) -> nat): (plan: seq<Placement>)
    requires ValidDate(date)
    ensures |plan| == 7
  {
    [ PutDateOnPostcard(FormatDate(date), pCols, General, DateFontSize, measure),
      PutTextOnImage("Описание погоды:", YPos, pCols, General, TextFontSize, measure),
      PutTextOnImage(forecast.condition, YPos + YStep, pCols, General, TextFontSize, measure),
      PutTextOnImage("Температура днем:", YPos + 3 * YStep, pCols, General, TextFontSize, measure),
      PutTextOnImage(forecast.tempDay, YPos + 4 * YStep, pCols, Monospace, TextFontSize, measure),
      PutTextOnImage("Температура ночью:", YPos + 5 * YStep, pCols, General, TextFontSize, measure),
      PutTextOnImage(forecast.tempNight, YPos + 6 * YStep, pCols, Monospace, TextFontSize, measure) ]
  }

  /** Whether every text of the plan is measured at most half the canvas wide. */
  predicate NarrowTexts(plan: seq<Placement>, pCols: nat, measure: (string, Font, nat) -> nat) {
    forall k :: 0 <= k < |plan| ==> 2 * measure(plan[k].text, plan[k].font, plan[k].size) <= pCols
  }

  /**
   * The layout the card promises: the date string at row 170 in the general
   * face; then the condition, the day and the night temperature lines, each
   * after its label, at rows 30, 55, 105, 130, 155, 180 (strictly
   * increasing), the two temperature values in the fixed-width face. When no
   * text is wider than half the canvas, the date lies in the left half and
   * every other line in the right half.
   */
  lemma DescriptionLayout(pCols: nat, date: Date, forecast: Forecast, measure: (string, Font, nat) -> nat)
    requires ValidDate(date)
    ensures var plan := AddWeatherDescriptionOnPostcard(pCols, date, forecast, measure);
      plan[0].text == FormatDate(date) && plan[0].y == 170 && plan[0].font == General &&
      plan[2].text == forecast.condition && plan[4].text == forecast.tempDay && plan[6].text == forecast.tempNight &&
      plan[4].font == Monospace && plan[6].font == Monospace &&
      (forall k :: 1 <= k < 7 && k != 4 && k != 6 ==> plan[k].font == General) &&
      [plan[1].y, plan[2].y, plan[3].y, plan[4].y, plan[5].y, plan[6].y] == [30, 55, 105, 130, 155, 180] &&
      (forall k :: 1 <= k < 6 ==> plan[k].y < plan[k + 1].y)
    ensures var plan := AddWeatherDescriptionOnPostcard(pCols, date, forecast, measure);
      NarrowTexts(plan, pCols, measure) ==>
        0 <= plan[0].x && plan[0].x + measure(plan[0].text, plan[0].font, plan[0].size) <= pCols / 2 &&
        forall k :: 1 <= k < 7 ==>
          pCols / 2 <= plan[k].x && plan[k].x + measure(plan[k].text, plan[k].font, plan[k].size) <= pCols
  {
  }
}
