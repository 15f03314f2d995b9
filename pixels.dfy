/**
 * Pixels: the value types the postcard engine works on.
 *
 * A canvas in the source is an OpenCV raster, a rows x cols x 3 array of
 * unsigned bytes whose channels are in blue, green, red order. Here a pixel is
 * a sequence of three bytes in that same order, a mutable canvas is an
 * `array2<Pixel>`, and an immutable raster (an icon, or a snapshot of a
 * canvas) is an `Image` value.
 */
module Pixels {

  /** One unsigned 8-bit channel value. */
  type Byte = b: int | 0 <= b < 256

  /** One canvas pixel: three channels in OpenCV's blue, green, red order. */
  type Pixel = p: seq<Byte> | |p| == 3 witness [0, 0, 0]

  function Min(a: int, b: int): int { if a <= b then a else b }

  // The colour constants of image_maker.py, kept in BGR order.
  const Yellow: Pixel := [0, 255, 255]
  const Gray: Pixel := [90, 90, 90]
  const Blue: Pixel := [255, 255, 0]
  const DarkBlue: Pixel := [255, 0, 0]
  const White: Pixel := [255, 255, 255]

  /** The all-zero pixel that OpenCV's masked operations leave where the mask is 0. */
  const Black: Pixel := [0, 0, 0]

  /** A rectangular raster of `rows` rows of `cols` pixels each. */
  datatype Image = Image(rows: nat, cols: nat, pixels: seq<seq<Pixel>>) {
    ghost predicate Valid() {
      |pixels| == rows && forall i :: 0 <= i < rows ==> |pixels[i]| == cols
    }
  }

  /** The current contents of a canvas, as an image value. */
  ghost function Snapshot(a: array2<Pixel>): (img: Image)
    reads a
    ensures img.Valid() && img.rows == a.Length0 && img.cols == a.Length1
    ensures forall i, j :: 0 <= i < a.Length0 && 0 <= j < a.Length1 ==> img.pixels[i][j] == a[i, j]
  {
    Image(a.Length0, a.Length1,
          seq(a.Length0, i requires 0 <= i < a.Length0 reads a =>
            seq(a.Length1, j requires 0 <= j < a.Length1 reads a => a[i, j])))
  }

  /** Two images of the same shape that agree on every pixel are the same image. */
  lemma ImageEquality(x: Image, y: Image)
    requires x.Valid() && y.Valid() && x.rows == y.rows && x.cols == y.cols
    requires forall i, j :: 0 <= i < x.rows && 0 <= j < x.cols ==> x.pixels[i][j] == y.pixels[i][j]
    ensures x == y
  {
    forall i | 0 <= i < x.rows
      ensures x.pixels[i] == y.pixels[i]
    {
      assert |x.pixels[i]| == |y.pixels[i]|;
    }
    assert x.pixels == y.pixels;
  }
}
