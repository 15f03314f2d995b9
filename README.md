# Weather postcard compositing engine, in Dafny

This project models the postcard engine of `image_maker.py` in the
Weather-forecast-handler repository. The engine turns one day's forecast into
an image in four steps:

1. **Classification.** The condition text is lower-cased. A fixed table of
   weather states is scanned in the order sun, cloud, rain, snow. Each state
   has substring patterns, an icon path and a gradient colour pair. The first
   state with a pattern that occurs in the condition wins. If no state
   matches, the card is abandoned with an error.
2. **Gradient fill.** Every pixel of the canvas is overwritten column by
   column. Column `y` gets the colour reached after `y / 2` steps. Each
   channel moves one unit per step from the start colour toward the end
   colour and stops there. A channel that starts above its target is at the
   target at once.
3. **Icon compositing.** The icon goes into a rectangle of the canvas's left
   half. It sits a quarter of the spare height from the top and is centred
   across the spare width. Inside the rectangle, a pixel keeps the canvas
   colour where the icon's grey value is above 225, and takes the icon's
   colour elsewhere.
4. **Text layout.** The date is drawn as `DD.MM.YYYY` at row 170, centred on
   the left half. Three labels and the condition, day temperature and night
   temperature are drawn at rows 30, 55, 105, 130, 155 and 180, centred on
   the right half. The temperatures use the fixed-width font.

Modules, one file each:

- `Wrappers` (`wrappers.dfy`) holds `Option` and `Result`.
- `Pixels` (`pixels.dfy`) holds bytes, BGR pixels, the colour constants, the
  `Image` value and the snapshot of a canvas array.
- `Categories` (`categories.dfy`) holds the table, lower-casing, substring
  search and the first-match classifier.
- `Gradient` (`gradient.dfy`) holds `get_next_color` and
  `add_gradient_as_background`.
- `Overlay` (`overlay.dfy`) holds icon placement, the OpenCV mask operations
  and `add_weather_image_on_postcard`.
- `TextLayout` (`text_layout.dfy`) holds the text coordinates, the date
  string and its parser, and the line plan.
- `Postcard` (`postcard.dfy`) holds `create_weather_card`.

The canvas is an `array2<Pixel>` updated in place by methods whose loops
carry invariants. Each method is proved against a specification function on
`Image` values (`GradientImage`, `OverlayImage`, `CardImage`). The lemmas state
the properties of those functions.

Details the model keeps:

- The icon goes in the left half of the canvas (image_maker.py:89).
- The mask test is strictly greater than 225 (image_maker.py:93).
- The icon size is not checked, so the model requires the icon to fit.
- A start channel above its target yields the target (image_maker.py:78-79).
- "облачно с прояснениями" ("cloudy with clear spells") is classified as
  sun. "прояснениями" contains the sun pattern "ясн", and sun is checked
  first (`CloudyWithClearSpellsIsSun`).

## Model

| member | source | states |
|---|---|---|
| `Categories.GetPathAndGradient` | image_maker.py:57-64 | Returns nothing exactly when no state has a pattern occurring in the condition. Otherwise it returns the path and gradient of a matching state that no earlier state matches. |
| `Categories.FirstMatch` | image_maker.py:58-63 | The index returned is that of a matching entry with no matching entry before it. The result is none exactly when no entry matches. |
| `Categories.AnyPatternOccurs` | image_maker.py:59-60 | True exactly when some pattern of the list occurs in the text. |
| `Categories.Search` | image_maker.py:60 | True exactly when the pattern occurs as a contiguous substring at some position. This is `re.search` for a pattern without metacharacters. |
| `Categories.LowerChar` | image_maker.py:46 | A lower-cased character is never a capital. A capital becomes the small letter that upper-cases back to it, and every other character stays as it is. |
| `Categories.LowerOfUpperChar` | image_maker.py:46 | Lower-casing an upper-cased character gives the character's own lower case. |
| `Categories.Lower` | image_maker.py:46 | The lower-cased condition has the same length and is lower-cased character by character. |
| `Categories.LowerRemovesCapitals` | image_maker.py:46 | A lower-cased condition holds no capital, and a condition without capitals is unchanged. |
| `Categories.LowerOfUpper` | image_maker.py:46 | Lower-casing forgets case: an upper-cased condition lowers to what the condition itself lowers to. |
| `Categories.ClassifyIgnoresCase` | image_maker.py:46-47 | An upper-cased condition gets the same weather state, or the same absence of one, as the condition itself. |
| `Categories.TableOrder` | image_maker.py:9-36 | The table holds sun, cloud, rain and snow in that order. Each state has at least one non-empty pattern, and the icon paths are distinct. |
| `Categories.PatternsAreLowerCase` | image_maker.py:23-36 | Every table pattern is already in lower case, so patterns can match the lower-cased condition. |
| `Categories.GradientPairsIncrease` | image_maker.py:9-36 | Every gradient pair ends at white, and no channel of a start colour exceeds its end channel. |
| `Categories.AbsentLetter` | image_maker.py:60 | A pattern containing a letter that the text lacks does not occur in the text. |
| `Categories.ClassifiedAs` | image_maker.py:57-64 | If entry `k` matches and no earlier entry does, the classifier returns entry `k`'s path and gradient. |
| `Categories.ClearIsSun` | image_maker.py:23-64 | "ЯСНО, без осадков" lower-cases to a text containing "ясн", so it gets the sun icon and gradient. |
| `Categories.CloudyWithClearSpellsIsSun` | image_maker.py:23-64 | "облачно с прояснениями" gets the sun entry, because sun is checked before cloud. |
| `Categories.OvercastIsCloud` | image_maker.py:23-64 | "Пасмурно" gets the cloud entry. |
| `Categories.RainIsRain` | image_maker.py:23-64 | "дождь" gets the rain entry. |
| `Categories.BlizzardIsSnow` | image_maker.py:23-64 | "снег с метелью" gets the snow entry. |
| `Categories.FogMatchesNothing` | image_maker.py:23-64 | "туман" matches no pattern, so no icon is found. |
| `Gradient.Channel` | image_maker.py:78-81 | One channel step equals min(from + step, to). |
| `Gradient.NextColor` | image_maker.py:75-77 | The stepped colour has as many channels as the shorter of the two colours, as `zip` gives. |
| `Gradient.GetNextColor` | image_maker.py:74-82 | The appending loop builds exactly the stepped colour, channel by channel. |
| `Gradient.NextColorIsPixel` | image_maker.py:69-71 | Stepping between two pixels by a non-negative step gives three channels in 0..255. |
| `Gradient.NextColorBetween` | image_maker.py:74-82 | When a start channel is at most its target, the stepped channel lies between the two. |
| `Gradient.NextColorAboveTarget` | image_maker.py:78-79 | When a start channel is above its target, any non-negative step yields the target. |
| `Gradient.NextColorMonotone` | image_maker.py:74-82 | A larger step never gives a smaller channel. |
| `Gradient.NextColorEnds` | image_maker.py:74-82 | Step 0 gives the start. A step at least the distance gives the target. A smaller step gives start + step. |
| `Gradient.GradientColor` | image_maker.py:69-70 | Column y's colour has every channel at min(from + y // 2, to). |
| `Gradient.GradientImage` | image_maker.py:66-71 | The gradient image has the canvas's shape. |
| `Gradient.AddGradientAsBackground` | image_maker.py:66-71 | Afterwards the canvas equals the gradient image. Every pixel is overwritten with the colour of its column, whatever it held before. |
| `Gradient.GradientColumns` | image_maker.py:69-71 | All rows of a column hold the same colour, and columns 2k and 2k+1 are equal. |
| `Gradient.GradientRamp` | image_maker.py:66-82 | With start channels at most their targets, channels stay between start and target and never decrease left to right. A channel is at its target from column 2 * (to - from) on. |
| `Gradient.GradientStripExample` | image_maker.py:66-82 | On a strip from black to (10, 10, 10), column y holds min(y / 2, 10) in every channel. |
| `Overlay.IconOrigin` | image_maker.py:88-89 | For an icon no taller than the canvas, the origin row is non-negative and the icon ends inside the canvas. For an icon no wider than half the canvas, the origin column is non-negative and the icon ends inside the left half. |
| `Overlay.IconFitsLeftHalf` | image_maker.py:86-90 | An icon no taller than the canvas and no wider than half of it gets a non-negative origin. Its rectangle lies inside the left half. The spare rows above are a quarter of the spare rows (three times fewer than below, up to rounding). The spare columns of the left half are split evenly, with the odd one on the right. |
| `Overlay.ThresholdBinary` | image_maker.py:93 | The mask byte is 255 or 0. It is 255 exactly when the grey value is strictly above 225. |
| `Overlay.BitwiseNot` | image_maker.py:94 | The inverted mask byte and the mask byte sum to 255. |
| `Overlay.MaskedCopiesComplementary` | image_maker.py:93-97 | Above grey 225, the masked canvas copy keeps the canvas pixel and the masked icon copy is black. Otherwise the canvas copy is black and the icon copy keeps the icon pixel. |
| `Overlay.SaturatingAdd` | image_maker.py:98 | Each channel is at least both addends. It is their sum exactly when the sum is at most 255, and 255 otherwise. |
| `Overlay.SaturatingAddBlack` | image_maker.py:98 | Adding black on either side leaves a pixel unchanged. |
| `Overlay.BlendSelects` | image_maker.py:92-98 | `Blend` chains the threshold, inverted mask, masked copies and saturating add. Its sum never saturates. The result is the canvas pixel where the icon's grey value is above 225 and the icon pixel otherwise. |
| `Overlay.OverlayImage` | image_maker.py:85-99 | The overlaid image has the canvas's shape. |
| `Overlay.OverlayPixel` | image_maker.py:88-99 | Inside the icon rectangle, a pixel is the old canvas pixel where the icon's grey value is above 225 and the icon pixel otherwise. Outside the rectangle it is unchanged. The rectangle lies in the left half. |
| `Overlay.OverlayIdempotent` | image_maker.py:85-99 | Overlaying the same icon twice gives the same canvas as overlaying it once. |
| `Overlay.AddWeatherImageOnPostcard` | image_maker.py:85-99 | Afterwards the canvas is the overlay of its old contents with the icon. |
| `TextLayout.Trunc` | image_maker.py:135 | `int()` of a float drops the fraction toward zero. The result is within one of the value and no farther from zero. |
| `TextLayout.TextX` | image_maker.py:135 | A text line's column is within one pixel of (3 * p_cols - 2 * w) / 4, where a text of width w is centred on the right half. |
| `TextLayout.TextXCentredOnRightHalf` | image_maker.py:135 | For w <= p_cols / 2 the line starts in the right half and ends inside the canvas. |
| `TextLayout.DateX` | image_maker.py:143 | The date's column is within one pixel of (p_cols - 2 * w) / 4, where a text of width w is centred on the left half. |
| `TextLayout.DateXCentredOnLeftHalf` | image_maker.py:143 | For w <= p_cols / 2 the date lies inside the left half. |
| `TextLayout.Padded` | image_maker.py:106 | A zero-padded field has exactly the requested width, and every character is a digit. |
| `TextLayout.FormatDate` | image_maker.py:106 | The date string is 10 characters long, with dots at positions 2 and 5. |
| `TextLayout.FormatDateRoundTrip` | image_maker.py:106 | Parsing a date's `DD.MM.YYYY` string gives that date back. |
| `TextLayout.ParseDateRoundTrip` | image_maker.py:106 | A string that parses as a date is exactly that date's formatted string, so the format is one-to-one. |
| `TextLayout.PutTextOnImage` | image_maker.py:131-136 | The text is placed at the given row with its font and size. A text no wider than half the canvas lies in the right half. |
| `TextLayout.PutDateOnPostcard` | image_maker.py:138-144 | The date is placed at row 170 with its font and size. A date no wider than half the canvas lies in the left half. |
| `TextLayout.AddWeatherDescriptionOnPostcard` | image_maker.py:101-126 | The plan has seven texts: the date and the six lines. |
| `TextLayout.DescriptionLayout` | image_maker.py:106-126 | The date string is at row 170 in the general font. The condition, day and night values follow their labels at rows 30, 55, 105, 130, 155 and 180, which strictly increase. The two temperature values use the fixed-width font and the rest the general font. When every text fits in half the canvas, the date is in the left half and every line is in the right half. |
| `Postcard.CardImage` | image_maker.py:52-53 | The finished card has the canvas's shape. |
| `Postcard.CardPixel` | image_maker.py:52-53 | Outside the icon rectangle, a finished card's pixel is the gradient colour of its column. Inside, it is that colour where the icon is near-white and the icon pixel elsewhere. The rectangle is in the left half. |
| `Postcard.CreateWeatherCard` | image_maker.py:44-54 | Fails exactly when no state matches the lower-cased condition, and then leaves the canvas untouched. Otherwise the canvas becomes the matching state's gradient with its icon composited, and the result is the text plan. |

## Left out

- Reading files is left out: the template postcard and the icons (`cv2.imread`). The template arrives as the canvas and icons come from a `load` parameter.
- Showing the card in a window (`view_image`) and the `__main__` block are left out. Both are user-interface code.
- Font loading, text measurement and glyph drawing by PIL are left out. Text widths come from a `measure` parameter, and the model stops at the coordinates.
- In the source, text is drawn on a PIL copy of the canvas, and that copy is what gets shown. The model returns the text plan rather than a second raster.
- OpenCV's weighted BGR-to-grey conversion is a `grey` parameter. Only the strict threshold at 225 is modelled.
- Lower: models Python's `str.lower` only for Latin A-Z and Cyrillic U+0400-U+042F. Every other character stays unchanged, including the Latin-1 capitals À-Þ and the Cyrillic capitals above U+042F such as Ґ, which Python lowers. The Russian conditions the source receives use only the modelled letters.
- Search: models `re.search` only as literal substring search. Every table pattern is a literal without regular-expression metacharacters.
- AddWeatherImageOnPostcard: requires that the icon fit (rows at most the canvas's, columns at most half the canvas's). The source has no check. For an oversized icon the region sliced out of the canvas (image_maker.py:90) cannot have the icon's shape, so the masked copy at image_maker.py:96 fails on the mask size and the source raises. `Fits` excludes exactly those inputs.
- AddWeatherImageOnPostcard: writes the composite pixel by pixel instead of assigning a whole slice. Each pixel depends only on its old value and the icon, so the results agree. The icon is an immutable value, so aliasing between icon and canvas is not modelled.
- TextX: models float arithmetic as exact real arithmetic. For canvas and text widths below 2^52 these halvings are exact in binary floating point.
- TextXCentredOnRightHalf: inherits the exact-real model of TextX.
- DateX: models float arithmetic as exact real arithmetic, as TextX does (image_maker.py:143).
- DateXCentredOnLeftHalf: inherits the exact-real model of DateX.
- FormatDate: always pads the year to four digits. For years below 1000, Python's `%Y` depends on the platform. Day validity against the month is the date type's concern, so only 1..31 is modelled.
- Fetching and parsing the forecast (`weather_maker_yandex.py`), the SQLite cache and its staleness check (`src/database_updater.py`), the batch driver (`weather_handler.py`) and argument parsing (`main.py`) are not part of this model. They do network, database and command-line I/O.
