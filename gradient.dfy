/**
 * Gradient: colour stepping (get_next_color) and the background fill
 * (add_gradient_as_background) of image_maker.py.
 *
 * Every channel moves `step` units from its start value toward its target and
 * stops there; column `y` of the canvas gets the colour for step `y / 2`.
 */
module Gradient {
  import opened Pixels

  /** One channel after `step` units toward `to`, stopping at `to`. */
  function Channel(from: int, to: int, step: int): (c: int)
    ensures c == Min(from + step, to)
  {
    if from + step >= to then to else from + step
  }

  /** The colour `step` units along, channel by channel over the shorter of the two colours. */
  function NextColor(from: seq<int>, to: seq<int>, step: int): (c: seq<int>)
    ensures |c| == Min(|from|, |to|)
  {
    seq(Min(|from|, |to|), i requires 0 <= i < Min(|from|, |to|) => Channel(from[i], to[i], step))
  }

  /**
   * get_next_color: walks the paired channels (Python's zip stops at the
   * shorter colour) and appends one stepped channel per pair.
   */
  method GetNextColor(from: seq<int>, to: seq<int>, step: int) returns (next: seq<int>)
    ensures next == NextColor(from, to, step)
  {
    var n := Min(|from|, |to|);
    next := [];
    var i := 0;
    while i < n
      invariant 0 <= i <= n
      invariant |next| == i
      invariant forall k :: 0 <= k < i ==> next[k] == Channel(from[k], to[k], step)
    {
      if from[i] + step >= to[i] {
        next := next + [to[i]];
      } else {
        next := next + [from[i] + step];
      }
      i := i + 1;
    }
  }

  /** Stepping between two pixels, by a non-negative step, gives a pixel. */
  lemma NextColorIsPixel(from: Pixel, to: Pixel, step: nat)
    ensures |NextColor(from, to, step)| == 3
    ensures forall c :: 0 <= c < 3 ==> 0 <= NextColor(from, to, step)[c] < 256
  {
  }

  /** Each channel lies between its start and its target, when the start is not above the target. */
  lemma NextColorBetween(from: seq<int>, to: seq<int>, step: nat, c: int)
    requires 0 <= c < Min(|from|, |to|) && from[c] <= to[c]
    ensures from[c] <= NextColor(from, to, step)[c] <= to[c]
  {
  }

  /** A start above its target yields the target at once. */
  lemma NextColorAboveTarget(from: seq<int>, to: seq<int>, step: nat, c: int)
    requires 0 <= c < Min(|from|, |to|) && from[c] > to[c]
    ensures NextColor(from, to, step)[c] == to[c]
  {
  }

  /** A larger step never gives a smaller channel. */
  lemma NextColorMonotone(from: seq<int>, to: seq<int>, s1: int, s2: int, c: int)
    requires 0 <= c < Min(|from|, |to|) && s1 <= s2
    ensures NextColor(from, to, s1)[c] <= NextColor(from, to, s2)[c]
  {
  }

  /** Step 0 leaves a channel at its start; a step of at least the distance reaches the target. */
  lemma NextColorEnds(from: seq<int>, to: seq<int>, step: int, c: int)
    requires 0 <= c < Min(|from|, |to|) && from[c] <= to[c]
    ensures NextColor(from, to, 0)[c] == from[c]
    ensures step >= to[c] - from[c] ==> NextColor(from, to, step)[c] == to[c]
    ensures 0 <= step < to[c] - from[c] ==> NextColor(from, to, step)[c] == from[c] + step
  {
  }

  /**
   * The colour of canvas column `y`: every channel has advanced one unit per
   * two columns from its start, up to its target.
   */
  function GradientColor(from: Pixel, to: Pixel, y: nat): (c: Pixel)
    ensures forall k :: 0 <= k < 3 ==> c[k] == Min(from[k] + y / 2, to[k])
  {
    NextColorIsPixel(from, to, y / 2);
    NextColor(from, to, y / 2)
  }

  /** The canvas that add_gradient_as_background leaves: every row is the same run of column colours. */
  function GradientImage(rows: nat, cols: nat, from: Pixel, to: Pixel): (img: Image)
    ensures img.Valid() && img.rows == rows && img.cols == cols
  {
    Image(rows, cols, seq(rows, _ => seq(cols, y requires 0 <= y => GradientColor(from, to, y))))
  }

  /**
   * add_gradient_as_background: overwrites every pixel of the canvas, column by
   * column, with the gradient colour of its column.
   */
  method AddGradientAsBackground(postcard: array2<Pixel>, from: Pixel, to: Pixel)
    modifies postcard
    ensures Snapshot(postcard) == GradientImage(postcard.Length0, postcard.Length1, from, to)
  {
    var postRows, postCols := postcard.Length0, postcard.Length1;
    var y := 0;
    while y < postCols
      invariant 0 <= y <= postCols
      invariant forall r, c :: 0 <= r < postRows && 0 <= c < y ==> postcard[r, c] == GradientColor(from, to, c)
    {
      var next := GetNextColor(from, to, y / 2);
      NextColorIsPixel(from, to, y / 2);
      var color: Pixel := next;
      var r := 0;
      while r < postRows
        invariant 0 <= r <= postRows
        invariant forall r', c :: 0 <= r' < postRows && 0 <= c < y ==> postcard[r', c] == GradientColor(from, to, c)
        invariant forall r' :: 0 <= r' < r ==> postcard[r', y] == color
      {
        postcard[r, y] := color;
        r := r + 1;
      }
      y := y + 1;
    }
    ImageEquality(Snapshot(postcard), GradientImage(postRows, postCols, from, to));
  }

  // ---------------------------------------------------------------------
  // Properties of the filled canvas
  // ---------------------------------------------------------------------

  /** All rows of a column hold the same colour, and columns 2k and 2k+1 are equal. */
  lemma GradientColumns(rows: nat, cols: nat, from: Pixel, to: Pixel, r1: nat, r2: nat, k: nat)
    requires r1 < rows && r2 < rows && 2 * k + 1 < cols
    ensures GradientImage(rows, cols, from, to).pixels[r1][2 * k] == GradientImage(rows, cols, from, to).pixels[r2][2 * k]
    ensures GradientImage(rows, cols, from, to).pixels[r1][2 * k] == GradientImage(rows, cols, from, to).pixels[r1][2 * k + 1]
  {
  }

  /**
   * When every start channel is at most its target (true of every table pair),
   * channels never decrease from left to right, stay between start and target,
   * and have reached the target from column 2 * (to - from) on.
   */
  lemma GradientRamp(rows: nat, cols: nat, from: Pixel, to: Pixel, r: nat, y1: nat, y2: nat, c: nat)
    requires r < rows && y1 <= y2 < cols && c < 3 && from[c] <= to[c]
    ensures var img := GradientImage(rows, cols, from, to);
      from[c] <= img.pixels[r][y1][c] <= img.pixels[r][y2][c] <= to[c]
    ensures y2 >= 2 * (to[c] as int - from[c] as int) ==> GradientImage(rows, cols, from, to).pixels[r][y2][c] == to[c]
  {
  }

  /** A one-row strip from black to (10, 10, 10): column y has min(y / 2, 10) in every channel. */
  lemma GradientStripExample(y: nat)
    requires y < 30
    ensures GradientImage(1, 30, [0, 0, 0], [10, 10, 10]).pixels[0][y] == [Min(y / 2, 10), Min(y / 2, 10), Min(y / 2, 10)]
  {
    var px := GradientImage(1, 30, [0, 0, 0], [10, 10, 10]).pixels[0][y];
    assert px == NextColor([0, 0, 0], [10, 10, 10], y / 2);
  }
}
