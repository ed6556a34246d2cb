/** The RGB drawing surface: clearing, clipped rectangles and box downsampling over one flat array. */
module Surface {
  import opened Crc32

  datatype Color = Color(r: Byte, g: Byte, b: Byte)

  /** Pixel number `p` of a flat array of RGB triples. */
  function PixelAt(s: seq<Byte>, p: nat): Color
    requires 3 * p + 2 < |s|
  {
    Color(s[3 * p], s[3 * p + 1], s[3 * p + 2])
  }

  predicate Shaped(s: seq<Byte>, width: nat, height: nat) {
    |s| == width * height * 3
  }

  /** Successive rows start a whole width apart. */
  lemma RowBelow(a: nat, b: nat, width: nat)
    requires a < b
    ensures a * width + width <= b * width
  {
    var k := b - a - 1;
    assert b == a + 1 + k;
    assert b * width == a * width + width + k * width;
  }

  lemma InRange(width: nat, height: nat, x: nat, y: nat)
    requires x < width && y < height
    ensures y * width + x < width * height
  {
    RowBelow(y, height, width);
  }

  function Pixel(s: seq<Byte>, width: nat, height: nat, x: nat, y: nat): Color
    requires Shaped(s, width, height) && x < width && y < height
  {
    InRange(width, height, x, y);
    PixelAt(s, y * width + x)
  }

  /** Rows do not overlap. */
  lemma RowsApart(width: nat, x: nat, y: nat, x0: nat, x1: nat, row: nat)
    requires x < width && x0 <= x1 <= width
    ensures row * width + x0 <= y * width + x < row * width + x1 <==> y == row && x0 <= x < x1
  {
    if y < row {
      RowBelow(y, row, width);
    } else if y > row {
      RowBelow(row, y, width);
    }
  }

  function Round(x: real): int {
    (x + 0.5).Floor
  }

  function Max(a: int, b: int): int {
    if a < b then b else a
  }

  function Min(a: int, b: int): int {
    if a < b then a else b
  }

  /** The pixels a rectangle covers: edges rounded half up, then clipped to the surface. */
  predicate Covers(width: nat, height: nat, x: real, y: real, w: real, h: real, px: nat, py: nat) {
    && Max(0, Round(x)) <= px < Min(width, Round(x + w))
    && Max(0, Round(y)) <= py < Min(height, Round(y + h))
  }

  // ----- Block means --------------------------------------------------------------------------

  /** The sum of one channel over `count` pixels from pixel `p` on. */
  function SpanSum(s: seq<Byte>, p: nat, count: nat, channel: nat): nat
    requires channel < 3 && 3 * (p + count) <= |s|
  {
    if count == 0 then 0
    else
      var v: nat := s[3 * (p + count - 1) + channel];
      SpanSum(s, p, count - 1, channel) + v
  }

  lemma SpanInside(width: nat, height: nat, x: nat, y: nat, count: nat)
    requires x + count <= width && y < height
    ensures 3 * (y * width + x + count) <= width * height * 3
  {
    RowBelow(y, height, width);
  }

  /** The sum of one channel over the first `rows` rows of the block at (x, y). */
  function BlockSum(s: seq<Byte>, width: nat, height: nat, x: nat, y: nat, factor: nat, rows: nat, channel: nat): nat
    requires Shaped(s, width, height) && channel < 3 && x + factor <= width && y + rows <= height
  {
    if rows == 0 then 0
    else
      SpanInside(width, height, x, y + rows - 1, factor);
      BlockSum(s, width, height, x, y, factor, rows - 1, channel)
      + SpanSum(s, (y + rows - 1) * width + x, factor, channel)
  }

  /** `sum / n` rounded to the nearest integer, halves up. */
  function Mean(sum: nat, n: nat): nat
    requires n > 0
  {
    (2 * sum + n) / (2 * n)
  }

  lemma MeanNearest(sum: nat, n: nat)
    requires n > 0
    ensures var m := Mean(sum, n); 2 * sum - n < 2 * (n * m) <= 2 * sum + n
  {
    var a, d := 2 * sum + n, 2 * n;
    var m := a / d;
    assert a == d * m + a % d;
    assert d * m == 2 * (n * m);
  }

  lemma MeanBetween(sum: nat, n: nat, lo: nat, hi: nat)
    requires n > 0 && n * lo <= sum <= n * hi
    ensures lo <= Mean(sum, n) <= hi
  {
    var m := Mean(sum, n);
    MeanNearest(sum, n);
    if m < lo {
      RowBelow(m, lo, n);
    }
    if m > hi {
      RowBelow(hi, m, n);
    }
  }

  predicate SpanBetween(s: seq<Byte>, p: nat, count: nat, channel: nat, lo: nat, hi: nat)
    requires channel < 3 && 3 * (p + count) <= |s|
  {
    forall q | p <= q < p + count :: lo <= ChannelAt(s, q, channel) <= hi
  }

  function ChannelAt(s: seq<Byte>, p: nat, channel: nat): Byte
    requires channel < 3 && 3 * p + 2 < |s|
  {
    s[3 * p + channel]
  }

  lemma {:induction false} SpanSumBetween(s: seq<Byte>, p: nat, count: nat, channel: nat, lo: nat, hi: nat)
    requires channel < 3 && 3 * (p + count) <= |s| && SpanBetween(s, p, count, channel, lo, hi)
    ensures count * lo <= SpanSum(s, p, count, channel) <= count * hi
  {
    if count > 0 {
      SpanSumBetween(s, p, count - 1, channel, lo, hi);
      assert lo <= ChannelAt(s, p + count - 1, channel) <= hi;
      assert count * lo == (count - 1) * lo + lo && count * hi == (count - 1) * hi + hi;
    }
  }

  /** Every sample of the block lies between `lo` and `hi`. */
  predicate BlockBetween(s: seq<Byte>, width: nat, height: nat, x: nat, y: nat, factor: nat, rows: nat,
                         channel: nat, lo: nat, hi: nat)
    requires Shaped(s, width, height) && channel < 3 && x + factor <= width && y + rows <= height
  {
    forall row | y <= row < y + rows :: RowBetween(s, width, height, x, row, factor, channel, lo, hi)
  }

  predicate RowBetween(s: seq<Byte>, width: nat, height: nat, x: nat, row: nat, factor: nat,
                       channel: nat, lo: nat, hi: nat)
    requires Shaped(s, width, height) && channel < 3 && x + factor <= width && row < height
  {
    SpanInside(width, height, x, row, factor);
    SpanBetween(s, row * width + x, factor, channel, lo, hi)
  }

  lemma OneMoreRow(rows: nat, each: nat)
    requires rows > 0
    ensures rows * each == (rows - 1) * each + each
  {
  }

  lemma {:induction false} BlockSumBetween(s: seq<Byte>, width: nat, height: nat, x: nat, y: nat, factor: nat,
                                           rows: nat, channel: nat, lo: nat, hi: nat)
    requires Shaped(s, width, height) && channel < 3 && x + factor <= width && y + rows <= height
    requires BlockBetween(s, width, height, x, y, factor, rows, channel, lo, hi)
    ensures rows * (factor * lo) <= BlockSum(s, width, height, x, y, factor, rows, channel) <= rows * (factor * hi)
  {
    if rows > 0 {
      var row := y + rows - 1;
      BlockSumBetween(s, width, height, x, y, factor, rows - 1, channel, lo, hi);
      assert RowBetween(s, width, height, x, row, factor, channel, lo, hi);
      SpanInside(width, height, x, row, factor);
      SpanSumBetween(s, row * width + x, factor, channel, lo, hi);
      OneMoreRow(rows, factor * lo);
      OneMoreRow(rows, factor * hi);
    }
  }

  function BlockMean(s: seq<Byte>, width: nat, height: nat, x: nat, y: nat, factor: nat, channel: nat): nat
    requires Shaped(s, width, height) && channel < 3 && factor > 0 && x + factor <= width && y + factor <= height
  {
    assert factor * factor > 0;
    Mean(BlockSum(s, width, height, x, y, factor, factor, channel), factor * factor)
  }

  /** The mean of a block lies between its smallest and its largest sample. */
  lemma BlockMeanBetween(s: seq<Byte>, width: nat, height: nat, x: nat, y: nat, factor: nat, channel: nat,
                         lo: nat, hi: nat)
    requires Shaped(s, width, height) && channel < 3 && factor > 0 && x + factor <= width && y + factor <= height
    requires BlockBetween(s, width, height, x, y, factor, factor, channel, lo, hi)
    ensures lo <= BlockMean(s, width, height, x, y, factor, channel) <= hi
  {
    BlockSumBetween(s, width, height, x, y, factor, factor, channel, lo, hi);
    Square(factor, lo);
    Square(factor, hi);
    MeanBetween(BlockSum(s, width, height, x, y, factor, factor, channel), factor * factor, lo, hi);
  }

  lemma Square(factor: nat, v: nat)
    ensures factor * (factor * v) == factor * factor * v
  {
  }

  lemma MeanIsByte(s: seq<Byte>, width: nat, height: nat, x: nat, y: nat, factor: nat, channel: nat)
    requires Shaped(s, width, height) && channel < 3 && factor > 0 && x + factor <= width && y + factor <= height
    ensures BlockMean(s, width, height, x, y, factor, channel) < 256
  {
    forall row | y <= row < y + factor
      ensures RowBetween(s, width, height, x, row, factor, channel, 0, 255)
    {
      SpanInside(width, height, x, row, factor);
    }
    BlockMeanBetween(s, width, height, x, y, factor, channel, 0, 255);
  }

  /** The reduced pixel for the block at (x, y). */
  function MeanColor(s: seq<Byte>, width: nat, height: nat, x: nat, y: nat, factor: nat): Color
    requires Shaped(s, width, height) && factor > 0 && x + factor <= width && y + factor <= height
  {
    MeanIsByte(s, width, height, x, y, factor, 0);
    MeanIsByte(s, width, height, x, y, factor, 1);
    MeanIsByte(s, width, height, x, y, factor, 2);
    Color(BlockMean(s, width, height, x, y, factor, 0),
          BlockMean(s, width, height, x, y, factor, 1),
          BlockMean(s, width, height, x, y, factor, 2))
  }

  lemma UniformChannel(s: seq<Byte>, width: nat, height: nat, x: nat, y: nat, factor: nat, color: Color,
                       channel: nat, v: Byte)
    requires Shaped(s, width, height) && factor > 0 && x + factor <= width && y + factor <= height && channel < 3
    requires forall px, py | x <= px < x + factor && y <= py < y + factor :: Pixel(s, width, height, px, py) == color
    requires v == [color.r, color.g, color.b][channel]
    ensures BlockMean(s, width, height, x, y, factor, channel) == v
  {
    forall row | y <= row < y + factor
      ensures RowBetween(s, width, height, x, row, factor, channel, v, v)
    {
      SpanInside(width, height, x, row, factor);
      forall q | row * width + x <= q < row * width + x + factor
        ensures v <= ChannelAt(s, q, channel) <= v
      {
        assert Pixel(s, width, height, q - row * width, row) == color;
      }
    }
    BlockMeanBetween(s, width, height, x, y, factor, channel, v, v);
  }

  /** A block of one colour reduces to that colour. */
  lemma UniformKept(s: seq<Byte>, width: nat, height: nat, x: nat, y: nat, factor: nat, color: Color)
    requires Shaped(s, width, height) && factor > 0 && x + factor <= width && y + factor <= height
    requires forall px, py | x <= px < x + factor && y <= py < y + factor :: Pixel(s, width, height, px, py) == color
    ensures MeanColor(s, width, height, x, y, factor) == color
  {
    UniformChannel(s, width, height, x, y, factor, color, 0, color.r);
    UniformChannel(s, width, height, x, y, factor, color, 1, color.g);
    UniformChannel(s, width, height, x, y, factor, color, 2, color.b);
  }

  /** A block inside a reduced pixel's row and column stays inside the surface. */
  lemma BlockInside(size: nat, factor: nat, k: nat)
    requires factor > 0 && k < size / factor
    ensures k * factor + factor <= size
  {
    var q := size / factor;
    assert size == q * factor + size % factor;
    RowBelow(k, q, factor);
  }

  /** What pixel (px, py) of the reduced surface is made of. */
  function Reduced(s: seq<Byte>, width: nat, height: nat, factor: nat, px: nat, py: nat): Color
    requires Shaped(s, width, height) && factor > 0 && px < width / factor && py < height / factor
  {
    BlockInside(width, factor, px);
    BlockInside(height, factor, py);
    MeanColor(s, width, height, px * factor, py * factor, factor)
  }

  // ----- The surface ----------------------------------------------------------------------------

  class Raster {
    const width: nat
    const height: nat
    const data: array<Byte>

    ghost predicate Valid()
      reads this
    {
      data.Length == width * height * 3
    }

    constructor (width: nat, height: nat, background: Color)
      ensures Valid() && this.width == width && this.height == height && fresh(data)
      ensures forall p | 0 <= p < width * height :: PixelAt(data[..], p) == background
    {
      this.width := width;
      this.height := height;
      this.data := new Byte[width * height * 3](_ => 0);
      new;
      Clear(background);
    }

    method Clear(color: Color)
      requires Valid()
      modifies data
      ensures forall p | 0 <= p < width * height :: PixelAt(data[..], p) == color
    {
      FillSpan(0, width * height, color);
    }

    /** Paint `count` pixels in a row, starting at pixel number `start`. */
    method FillSpan(start: nat, count: nat, color: Color)
      requires 3 * (start + count) <= data.Length
      modifies data
      ensures forall p: nat | 3 * p + 2 < data.Length ::
                PixelAt(data[..], p) == if start <= p < start + count then color else old(PixelAt(data[..], p))
    {
      var i := 3 * start;
      for k := 0 to count
        invariant i == 3 * (start + k)
        invariant forall p: nat | 3 * p + 2 < data.Length ::
                    PixelAt(data[..], p) == if start <= p < start + k then color else old(PixelAt(data[..], p))
      {
        ghost var before := data[..];
        data[i] := color.r;
        data[i + 1] := color.g;
        data[i + 2] := color.b;
        i := i + 3;
        assert forall p: nat | 3 * p + 2 < data.Length ::
            PixelAt(data[..], p) == if p == start + k then color else PixelAt(before, p);
      }
    }

    /** Paint the pixels from `x0` up to `x1` of one row. */
    method PaintRow(row: nat, x0: nat, x1: nat, color: Color)
      requires Valid() && row < height && x0 <= x1 <= width
      modifies data
      ensures forall px: nat, py: nat | px < width && py < height ::
                Pixel(data[..], width, height, px, py)
                == if py == row && x0 <= px < x1 then color else old(Pixel(data[..], width, height, px, py))
    {
      SpanInside(width, height, x0, row, x1 - x0);
      FillSpan(row * width + x0, x1 - x0, color);
      forall px: nat, py: nat | px < width && py < height
        ensures Pixel(data[..], width, height, px, py)
             == if py == row && x0 <= px < x1 then color else old(Pixel(data[..], width, height, px, py))
      {
        InRange(width, height, px, py);
        RowsApart(width, px, py, x0, x1, row);
      }
    }

    /** Exactly the clipped pixels take the colour; every other pixel keeps its own. */
    method Rect(x: real, y: real, w: real, h: real, color: Color)
      requires Valid()
      modifies data
      ensures forall px: nat, py: nat | px < width && py < height ::
                Pixel(data[..], width, height, px, py)
                == if Covers(width, height, x, y, w, h, px, py) then color
                   else old(Pixel(data[..], width, height, px, py))
    {
      var x0, y0 := Max(0, Round(x)), Max(0, Round(y));
      var x1, y1 := Min(width, Round(x + w)), Min(height, Round(y + h));
      if x0 >= x1 || y0 >= y1 {
        return;
      }
      for row := y0 to y1
        invariant forall px: nat, py: nat | px < width && py < height ::
                    Pixel(data[..], width, height, px, py)
                    == if x0 <= px < x1 && y0 <= py < row then color
                       else old(Pixel(data[..], width, height, px, py))
      {
        PaintRow(row, x0, x1, color);
      }
    }

    method SpanSums(p: nat, count: nat) returns (r: nat, g: nat, b: nat)
      requires 3 * (p + count) <= data.Length
      ensures r == SpanSum(data[..], p, count, 0)
      ensures g == SpanSum(data[..], p, count, 1)
      ensures b == SpanSum(data[..], p, count, 2)
    {
      r, g, b := 0, 0, 0;
      var i := 3 * p;
      for k := 0 to count
        invariant i == 3 * (p + k)
        invariant r == SpanSum(data[..], p, k, 0)
        invariant g == SpanSum(data[..], p, k, 1)
        invariant b == SpanSum(data[..], p, k, 2)
      {
        r, g, b := r + data[i], g + data[i + 1], b + data[i + 2];
        i := i + 3;
      }
    }

    method BlockSums(x: nat, y: nat, factor: nat) returns (r: nat, g: nat, b: nat)
      requires Valid() && x + factor <= width && y + factor <= height
      ensures r == BlockSum(data[..], width, height, x, y, factor, factor, 0)
      ensures g == BlockSum(data[..], width, height, x, y, factor, factor, 1)
      ensures b == BlockSum(data[..], width, height, x, y, factor, factor, 2)
    {
      r, g, b := 0, 0, 0;
      for sy := 0 to factor
        invariant r == BlockSum(data[..], width, height, x, y, factor, sy, 0)
        invariant g == BlockSum(data[..], width, height, x, y, factor, sy, 1)
        invariant b == BlockSum(data[..], width, height, x, y, factor, sy, 2)
      {
        SpanInside(width, height, x, y + sy, factor);
        var dr, dg, db := SpanSums((y + sy) * width + x, factor);
        r, g, b := r + dr, g + dg, b + db;
      }
    }

    /** The reduced colour of one block. */
    method BlockColor(x: nat, y: nat, factor: nat) returns (color: Color)
      requires Valid() && factor > 0 && x + factor <= width && y + factor <= height
      ensures color == MeanColor(data[..], width, height, x, y, factor)
    {
      var r, g, b := BlockSums(x, y, factor);
      var n := factor * factor;
      MeanIsByte(data[..], width, height, x, y, factor, 0);
      MeanIsByte(data[..], width, height, x, y, factor, 1);
      MeanIsByte(data[..], width, height, x, y, factor, 2);
      color := Color(Mean(r, n), Mean(g, n), Mean(b, n));
    }

    /** One row of a reduced surface. */
    method ReduceRow(out: Raster, factor: nat, y: nat)
      requires Valid() && out.Valid() && out.data != data
      requires factor > 0 && out.width == width / factor && out.height == height / factor && y < out.height
      modifies out.data
      ensures forall px: nat, py: nat | px < out.width && py < out.height ::
                Pixel(out.data[..], out.width, out.height, px, py)
                == if py == y then Reduced(data[..], width, height, factor, px, y)
                   else old(Pixel(out.data[..], out.width, out.height, px, py))
    {
      ghost var source := data[..];
      for x := 0 to out.width
        invariant data[..] == source
        invariant forall px: nat, py: nat | px < out.width && py < out.height ::
                    Pixel(out.data[..], out.width, out.height, px, py)
                    == if py == y && px < x then Reduced(source, width, height, factor, px, y)
                       else old(Pixel(out.data[..], out.width, out.height, px, py))
      {
        var color := ReducedColor(factor, x, y);
        out.PaintRow(y, x, x + 1, color);
      }
    }

    method ReducedColor(factor: nat, x: nat, y: nat) returns (color: Color)
      requires Valid() && factor > 0 && x < width / factor && y < height / factor
      ensures color == Reduced(data[..], width, height, factor, x, y)
    {
      BlockInside(width, factor, x);
      BlockInside(height, factor, y);
      color := BlockColor(x * factor, y * factor, factor);
    }

    /** Reduce by a whole factor: every pixel of the result is the rounded mean of its block here. */
    method Downsample(factor: int) returns (out: Raster)
      requires Valid()
      ensures factor <= 1 ==> out == this
      ensures factor > 1 ==>
                && fresh(out) && out.Valid() && out.width == width / factor && out.height == height / factor
                && forall px: nat, py: nat | px < out.width && py < out.height ::
                     Pixel(out.data[..], out.width, out.height, px, py)
                     == Reduced(data[..], width, height, factor, px, py)
    {
      if factor <= 1 {
        return this;
      }
      out := new Raster(width / factor, height / factor, Color(255, 255, 255));
      for y := 0 to out.height
        invariant data[..] == old(data[..])
        invariant forall px: nat, py: nat | px < out.width && py < y ::
                    Pixel(out.data[..], out.width, out.height, px, py)
                    == Reduced(data[..], width, height, factor, px, py)
      {
        ReduceRow(out, factor, y);
      }
    }
  }
}
