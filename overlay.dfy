/**
 * Overlay: icon placement and binary-mask compositing
 * (add_weather_image_on_postcard in image_maker.py).
 *
 * The icon goes into a rectangle of the canvas's left half, a quarter of the
 * free height from the top and centred across the free width. Inside that
 * rectangle a pixel keeps the canvas colour where the icon is near-white
 * (grey value above 225) and takes the icon colour elsewhere. The grey value
 * of a pixel comes from OpenCV's BGR-to-grey conversion, which is a parameter
 * `grey` here.
 */
module Overlay {
  import opened Pixels

  /** The grey level above which an icon pixel counts as background. */
  const MaskThreshold := 225

  /**
   * Top-left corner (row, column) of the icon rectangle. Python's `//` floors
   * and so does Dafny's `/` for a positive divisor, even for a negative
   * numerator.
   */
  function IconOrigin(pRows: int, pCols: int, wRows: int, wCols: int): (o: (int, int))
    ensures 0 <= wRows <= pRows ==> 0 <= o.0 && o.0 + wRows <= pRows
    ensures 0 <= wCols <= pCols / 2 ==> 0 <= o.1 && o.1 + wCols <= pCols / 2
  {
    ((pRows - wRows) / 4, (pCols / 2 - wCols) / 2)
  }

  /**
   * An icon no taller than the canvas and no wider than its left half lies
   * inside the left half: a quarter of the spare rows above it, three
   * quarters below (up to rounding), and the spare columns of the left half
   * split evenly on both sides (the right side gets the odd one).
   */
  lemma IconFitsLeftHalf(pRows: nat, pCols: nat, wRows: nat, wCols: nat)
    requires wRows <= pRows && wCols <= pCols / 2
    ensures var (x, y) := IconOrigin(pRows, pCols, wRows, wCols);
      0 <= x && x + wRows <= pRows && 0 <= y && y + wCols <= pCols / 2
    ensures var (x, y) := IconOrigin(pRows, pCols, wRows, wCols);
      3 * x <= pRows - (x + wRows) <= 3 * x + 3
    ensures var (x, y) := IconOrigin(pRows, pCols, wRows, wCols);
      y <= pCols / 2 - (y + wCols) <= y + 1
  {
  }

  // ---------------------------------------------------------------------
  // The per-pixel OpenCV operations
  // ---------------------------------------------------------------------

  /** cv2.threshold with THRESH_BINARY and maximum 255: 255 strictly above the threshold, else 0. */
  function ThresholdBinary(g: Byte): (m: Byte)
    ensures m == 255 || m == 0
    ensures m == 255 <==> g > MaskThreshold
  {
    if g > MaskThreshold then 255 else 0
  }

  /** cv2.bitwise_not on one mask byte. */
  function BitwiseNot(m: Byte): (n: Byte)
    ensures n as int + m as int == 255
  {
    var b := m as bv8;
    assert b as int == m;
    assert !b == 0xFF - b;
    (!b) as int
  }

  /** cv2.bitwise_and(p, p, mask=m): the pixel itself where the mask is set, black elsewhere. */
  function MaskedCopy(p: Pixel, m: Byte): Pixel {
    if m != 0 then p else Black
  }

  /**
   * Under a thresholded mask and its inverse, exactly one of the two masked
   * copies keeps its pixel and the other is black.
   */
  lemma MaskedCopiesComplementary(under: Pixel, icon: Pixel, g: Byte)
    ensures var mask := ThresholdBinary(g);
      g > MaskThreshold ==> MaskedCopy(under, mask) == under && MaskedCopy(icon, BitwiseNot(mask)) == Black
    ensures var mask := ThresholdBinary(g);
      g <= MaskThreshold ==> MaskedCopy(under, mask) == Black && MaskedCopy(icon, BitwiseNot(mask)) == icon
  {
  }

  /** cv2.add on two pixels: per-channel sum, saturating at 255. */
  function SaturatingAdd(p: Pixel, q: Pixel): (s: Pixel)
    ensures forall c :: 0 <= c < 3 ==> p[c] <= s[c] && q[c] <= s[c]
    ensures forall c :: 0 <= c < 3 ==> (s[c] == 255 || s[c] == p[c] as int + q[c] as int)
    ensures forall c :: 0 <= c < 3 ==> (p[c] as int + q[c] as int <= 255 <==> s[c] == p[c] as int + q[c] as int)
  {
    seq(3, c requires 0 <= c < 3 => Min(p[c] as int + q[c] as int, 255))
  }

  /** Adding black, on either side, changes nothing: the sum never saturates. */
  lemma SaturatingAddBlack(p: Pixel)
    ensures SaturatingAdd(p, Black) == p && SaturatingAdd(Black, p) == p
  {
  }

  /** The composite of one canvas pixel under one icon pixel, exactly as the OpenCV calls build it. */
  function Blend(under: Pixel, icon: Pixel, grey: Pixel -> Byte): Pixel {
    var mask := ThresholdBinary(grey(icon));
    var maskInv := BitwiseNot(mask);
    SaturatingAdd(MaskedCopy(under, mask), MaskedCopy(icon, maskInv))
  }

  /**
   * The two masks are complementary, so one addend is always black and the
   * saturating add never saturates: the composite is the canvas pixel where
   * the icon is near-white and the icon pixel elsewhere.
   */
  lemma BlendSelects(under: Pixel, icon: Pixel, grey: Pixel -> Byte)
    ensures Blend(under, icon, grey) == if grey(icon) > MaskThreshold then under else icon
  {
    MaskedCopiesComplementary(under, icon, grey(icon));
    SaturatingAddBlack(under);
    SaturatingAddBlack(icon);
  }

  // ---------------------------------------------------------------------
  // The whole overlay
  // ---------------------------------------------------------------------

  /** An icon that add_weather_image_on_postcard can place on a canvas of the given size. */
  ghost predicate Fits(icon: Image, rows: nat, cols: nat) {
    icon.Valid() && icon.rows <= rows && icon.cols <= cols / 2
  }

  /** Whether canvas pixel (i, j) is inside the icon rectangle. */
  predicate InIconRect(canvas: Image, icon: Image, i: int, j: int) {
    var (x, y) := IconOrigin(canvas.rows, canvas.cols, icon.rows, icon.cols);
    x <= i < x + icon.rows && y <= j < y + icon.cols
  }

  /** The canvas after add_weather_image_on_postcard. */
  function OverlayImage(canvas: Image, icon: Image, grey: Pixel -> Byte): (img: Image)
    requires canvas.Valid() && Fits(icon, canvas.rows, canvas.cols)
    ensures img.Valid() && img.rows == canvas.rows && img.cols == canvas.cols
  {
    var (x, y) := IconOrigin(canvas.rows, canvas.cols, icon.rows, icon.cols);
    IconFitsLeftHalf(canvas.rows, canvas.cols, icon.rows, icon.cols);
    Image(canvas.rows, canvas.cols,
          seq(canvas.rows, i requires 0 <= i < canvas.rows =>
            seq(canvas.cols, j requires 0 <= j < canvas.cols =>
              if InIconRect(canvas, icon, i, j)
              then Blend(canvas.pixels[i][j], icon.pixels[i - x][j - y], grey)
              else canvas.pixels[i][j])))
  }

  /**
   * The compositing rule: inside the icon rectangle a pixel is the old canvas
   * pixel where the icon's grey value is above 225 and the icon pixel
   * otherwise; outside the rectangle nothing changes. The rectangle lies in the
   * left half of the canvas.
   */
  lemma OverlayPixel(canvas: Image, icon: Image, grey: Pixel -> Byte, i: nat, j: nat)
    requires canvas.Valid() && Fits(icon, canvas.rows, canvas.cols)
    requires i < canvas.rows && j < canvas.cols
    ensures var (x, y) := IconOrigin(canvas.rows, canvas.cols, icon.rows, icon.cols);
      OverlayImage(canvas, icon, grey).pixels[i][j] ==
        if InIconRect(canvas, icon, i, j) then
          (if grey(icon.pixels[i - x][j - y]) > MaskThreshold then canvas.pixels[i][j] else icon.pixels[i - x][j - y])
        else canvas.pixels[i][j]
    ensures InIconRect(canvas, icon, i, j) ==> j < canvas.cols / 2
  {
  }

  /** Overlaying the same icon twice gives the same canvas as overlaying it once. */
  lemma OverlayIdempotent(canvas: Image, icon: Image, grey: Pixel -> Byte)
    requires canvas.Valid() && Fits(icon, canvas.rows, canvas.cols)
    ensures OverlayImage(OverlayImage(canvas, icon, grey), icon, grey) == OverlayImage(canvas, icon, grey)
  {
    var once := OverlayImage(canvas, icon, grey);
    var twice := OverlayImage(once, icon, grey);
    forall i, j | 0 <= i < canvas.rows && 0 <= j < canvas.cols
      ensures twice.pixels[i][j] == once.pixels[i][j]
    {
      OverlayPixel(canvas, icon, grey, i, j);
      OverlayPixel(once, icon, grey, i, j);
    }
    ImageEquality(twice, once);
  }

  /** Which canvas pixels the compositing loop has written once it is at icon row i, column j. */
  predicate Written(x: int, y: int, wCols: int, i: int, j: int, r: int, c: int) {
    (x <= r < x + i && y <= c < y + wCols) || (r == x + i && y <= c < y + j)
  }

  /**
   * The canvas with the first `i` icon rows and `j` pixels of row `i`
   * composited by `blend`, a per-pixel composite of (canvas pixel, icon pixel).
   */
  ghost predicate CompositedUpTo(postcard: array2<Pixel>, before: Image, icon: Image, blend: (Pixel, Pixel) -> Pixel,
                                 x: int, y: int, i: int, j: int)
    reads postcard
    requires before.Valid() && before.rows == postcard.Length0 && before.cols == postcard.Length1
    requires icon.Valid() && 0 <= x && x + icon.rows <= postcard.Length0 && 0 <= y && y + icon.cols <= postcard.Length1
    requires 0 <= i <= icon.rows && 0 <= j <= icon.cols && (i < icon.rows || j == 0)
  {
    forall r, c :: 0 <= r < postcard.Length0 && 0 <= c < postcard.Length1 ==>
      postcard[r, c] == if Written(x, y, icon.cols, i, j, r, c)
                        then blend(before.pixels[r][c], icon.pixels[r - x][c - y])
                        else before.pixels[r][c]
  }

  /** The inner loop of the compositing: one icon row. */
  method CompositeRow(postcard: array2<Pixel>, ghost before: Image, weatherImg: Image, blend: (Pixel, Pixel) -> Pixel,
                      xCord: int, yCord: int, i: int)
    requires before.Valid() && before.rows == postcard.Length0 && before.cols == postcard.Length1
    requires weatherImg.Valid() && 0 <= xCord && xCord + weatherImg.rows <= postcard.Length0
    requires 0 <= yCord && yCord + weatherImg.cols <= postcard.Length1
    requires 0 <= i < weatherImg.rows
    requires CompositedUpTo(postcard, before, weatherImg, blend, xCord, yCord, i, 0)
    modifies postcard
    ensures CompositedUpTo(postcard, before, weatherImg, blend, xCord, yCord, i + 1, 0)
  {
    var j := 0;
    while j < weatherImg.cols
      invariant 0 <= j <= weatherImg.cols
      invariant CompositedUpTo(postcard, before, weatherImg, blend, xCord, yCord, i, j)
    {
      postcard[xCord + i, yCord + j] := blend(postcard[xCord + i, yCord + j], weatherImg.pixels[i][j]);
      j := j + 1;
    }
  }

  /** Once every icon row is composited with Blend, the canvas is the overlay of the old canvas. */
  lemma CompositedAllIsOverlay(postcard: array2<Pixel>, before: Image, icon: Image, grey: Pixel -> Byte,
                               blend: (Pixel, Pixel) -> Pixel)
    requires before.Valid() && before.rows == postcard.Length0 && before.cols == postcard.Length1
    requires Fits(icon, before.rows, before.cols)
    requires forall u, w :: blend(u, w) == Blend(u, w, grey)
    requires var (x, y) := IconOrigin(before.rows, before.cols, icon.rows, icon.cols);
      0 <= x && x + icon.rows <= postcard.Length0 && 0 <= y && y + icon.cols <= postcard.Length1 &&
      CompositedUpTo(postcard, before, icon, blend, x, y, icon.rows, 0)
    ensures Snapshot(postcard) == OverlayImage(before, icon, grey)
  {
    var (x, y) := IconOrigin(before.rows, before.cols, icon.rows, icon.cols);
    var after := OverlayImage(before, icon, grey);
    var now := Snapshot(postcard);
    forall r, c | 0 <= r < before.rows && 0 <= c < before.cols
      ensures now.pixels[r][c] == after.pixels[r][c]
    {
      assert Written(x, y, icon.cols, icon.rows, 0, r, c) <==> InIconRect(before, icon, r, c);
    }
    ImageEquality(now, after);
  }

  /**
   * add_weather_image_on_postcard: composites the icon into its rectangle of
   * the canvas, in place. Every composite pixel depends only on the old canvas
   * pixel at the same place and on the icon, so writing them one by one gives
   * what the source's whole-region assignment gives.
   */
  method AddWeatherImageOnPostcard(postcard: array2<Pixel>, weatherImg: Image, grey: Pixel -> Byte)
    requires Fits(weatherImg, postcard.Length0, postcard.Length1)
    modifies postcard
    ensures Snapshot(postcard) == OverlayImage(old(Snapshot(postcard)), weatherImg, grey)
  {
    ghost var before := Snapshot(postcard);
    var wRows, wCols := weatherImg.rows, weatherImg.cols;
    var pRows, pCols := postcard.Length0, postcard.Length1;
    var (xCord, yCord) := IconOrigin(pRows, pCols, wRows, wCols);
    var blend := (under: Pixel, icon: Pixel) => Blend(under, icon, grey);
    var i := 0;
    while i < wRows
      invariant 0 <= i <= wRows
      invariant CompositedUpTo(postcard, before, weatherImg, blend, xCord, yCord, i, 0)
    {
      CompositeRow(postcard, before, weatherImg, blend, xCord, yCord, i);
      i := i + 1;
    }
    CompositedAllIsOverlay(postcard, before, weatherImg, grey, blend);
  }
}
