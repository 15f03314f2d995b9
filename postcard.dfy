/**
 * Postcard: create_weather_card, which puts the parts together in order.
 *
 * The condition is lower-cased and classified; with no matching weather state
 * the card is abandoned before anything is drawn. Otherwise the gradient of
 * the state fills the canvas, its icon is composited on top, and the
 * description text is laid out. Reading the template and icon files and
 * showing the finished card are done by collaborators: the template arrives
 * as the canvas, icons come from `load`, and the text plan is returned.
 */
module Postcard {
  import opened Wrappers
  import opened Pixels
  import opened Categories
  import opened Gradient
  import opened Overlay
  import opened TextLayout

  /** The RuntimeError raised when no weather state matches the condition. */
  datatype CardError = NoWeatherImage

  /** The canvas of a finished card: the state's gradient with its icon composited on top. */
  function CardImage(rows: nat, cols: nat, gradient: (Pixel, Pixel), icon: Image, grey: Pixel -> Byte): (img: Image)
    requires Fits(icon, rows, cols)
    ensures img.Valid() && img.rows == rows && img.cols == cols
  {
    OverlayImage(GradientImage(rows, cols, gradient.0, gradient.1), icon, grey)
  }

  /**
   * Every pixel of a finished card: outside the icon rectangle it is the
   * gradient colour of its column; inside, it is that gradient colour where
   * the icon is near-white and the icon's own pixel elsewhere. The icon
   * rectangle lies in the left half.
   */
  lemma CardPixel(rows: nat, cols: nat, gradient: (Pixel, Pixel), icon: Image, grey: Pixel -> Byte, i: nat, j: nat)
    requires Fits(icon, rows, cols) && i < rows && j < cols
    ensures var (x, y) := IconOrigin(rows, cols, icon.rows, icon.cols);
      var background := GradientColor(gradient.0, gradient.1, j);
      CardImage(rows, cols, gradient, icon, grey).pixels[i][j] ==
        if x <= i < x + icon.rows && y <= j < y + icon.cols then
          (if grey(icon.pixels[i - x][j - y]) > MaskThreshold then background else icon.pixels[i - x][j - y])
        else background
    ensures var (x, y) := IconOrigin(rows, cols, icon.rows, icon.cols);
      x <= i < x + icon.rows && y <= j < y + icon.cols ==> j < cols / 2
  {
    var background := GradientImage(rows, cols, gradient.0, gradient.1);
    assert background.pixels[i][j] == GradientColor(gradient.0, gradient.1, j);
    OverlayPixel(background, icon, grey, i, j);
  }

  /**
   * create_weather_card. On a condition that matches no weather state it fails
   * and leaves the canvas untouched; otherwise the canvas becomes the card
   * image of the first matching state, whatever it held before, and the result
   * is the text plan drawn over it.
   */
  method CreateWeatherCard(postcard: array2<Pixel>, date: Date, forecast: Forecast, load: string -> Image,
                           grey: Pixel -> Byte, measure: (string, Font, nat) -> nat)
    returns (result: Result<seq<Placement>, CardError>)
    requires ValidDate(date)
    requires var found := GetPathAndGradient(Lower(forecast.condition));
      found.Some? ==> Fits(load(found.value.0), postcard.Length0, postcard.Length1)
    modifies postcard
    ensures result.Failure? <==> GetPathAndGradient(Lower(forecast.condition)).None?
    ensures result.Failure? ==> unchanged(postcard)
    ensures result.Success? ==>
      var (path, gradient) := GetPathAndGradient(Lower(forecast.condition)).value;
      Snapshot(postcard) == CardImage(postcard.Length0, postcard.Length1, gradient, load(path), grey) &&
      result.value == AddWeatherDescriptionOnPostcard(postcard.Length1, date, forecast, measure)
  {
    var weatherDescriptions := GetPathAndGradient(Lower(forecast.condition));
    if weatherDescriptions.None? {
      return Failure(NoWeatherImage);
    }
    var pathToWeatherImg := weatherDescriptions.value.0;
    var weatherImg := load(pathToWeatherImg);
    var bgGradient := weatherDescriptions.value.1;
    AddGradientAsBackground(postcard, bgGradient.0, bgGradient.1);
    AddWeatherImageOnPostcard(postcard, weatherImg, grey);
    var plan := AddWeatherDescriptionOnPostcard(postcard.Length1, date, forecast, measure);
    result := Success(plan);
  }
}
