/**
 The 45-degree derotation of the demosaicked diagonal buffer. Each pixel
 (row, col) of the inflated target image is mapped back to a point (r, c) of
 the source plane; the pixel is then resampled bilinearly from the 2 x 2
 stencil whose top-left sample is the integer part of (r, c), or left as it
 was when that stencil would reach into the last row or column.
 */
module Derotation {
  import Planar

  /**
   The projection of one CFA step onto the source axes: the square root of
   one half, characterised by its square since reals have no square root.
   */
  predicate IsStep(step: real)
  {
    0.0 < step < 1.0 && step * step == 0.5
  }

  /** The number of whole steps that fit in a length, as the truncating cast to an integer type. */
  function Steps(length: nat, step: real): (n: nat)
    requires IsStep(step)
    ensures n as real * step <= length as real < (n + 1) as real * step
  {
    var q := length as real / step;
    assert q * step == length as real;
    var n := q.Floor;
    assert n as real * step <= q * step;
    assert q * step < (n + 1) as real * step;
    n
  }

  /** Width of the target image: the sensor width measured in steps. */
  function RotWidth(cfaWidth: nat, step: real): (n: nat)
    requires IsStep(step)
    ensures n as real * step <= cfaWidth as real < (n + 1) as real * step
  {
    Steps(cfaWidth, step)
  }

  /** Height of the target image: height - cfaWidth measured in steps. */
  function RotHeight(cfaWidth: nat, height: nat, step: real): (n: nat)
    requires IsStep(step) && cfaWidth <= height
    ensures n as real * step <= (height - cfaWidth) as real < (n + 1) as real * step
  {
    Steps(height - cfaWidth, step)
  }

  /** A point of the source plane, or of the target image when its coordinates are whole. */
  datatype Point = Point(r: real, c: real)

  /** The reverse map: where target pixel (row, col) falls in the source plane. */
  function SourcePoint(cfaWidth: nat, step: real, row: nat, col: nat): Point
  {
    Point(cfaWidth as real + (row as real - col as real) * step, (row + col) as real * step)
  }

  /** The forward map, from a source point to target coordinates. */
  function TargetPoint(cfaWidth: nat, step: real, p: Point): Point
  {
    Point(((p.r - cfaWidth as real) + p.c) * step, (p.c - (p.r - cfaWidth as real)) * step)
  }

  /** The reverse map undoes the rotation: mapping a target pixel back and forth returns it. */
  lemma ReverseMapInverse(cfaWidth: nat, step: real, row: nat, col: nat)
    requires IsStep(step)
    ensures TargetPoint(cfaWidth, step, SourcePoint(cfaWidth, step, row, col)) == Point(row as real, col as real)
  {
    var a, b := row as real - col as real, (row + col) as real;
    var p := SourcePoint(cfaWidth, step, row, col);
    assert p.r - cfaWidth as real == a * step;
    assert (a * step + b * step) * step == (a + b) * (step * step);
    assert (b * step - a * step) * step == (b - a) * (step * step);
  }

  /**
   The reverse map is a rotation: neighbouring target pixels, in a row or in
   a column, lie one source pixel apart.
   */
  lemma ReverseMapUnitSpacing(cfaWidth: nat, step: real, row: nat, col: nat)
    requires IsStep(step)
    ensures var p, e := SourcePoint(cfaWidth, step, row, col), SourcePoint(cfaWidth, step, row, col + 1);
            (e.r - p.r) * (e.r - p.r) + (e.c - p.c) * (e.c - p.c) == 1.0
    ensures var p, s := SourcePoint(cfaWidth, step, row, col), SourcePoint(cfaWidth, step, row + 1, col);
            (s.r - p.r) * (s.r - p.r) + (s.c - p.c) * (s.c - p.c) == 1.0
  {
    var p, e, s := SourcePoint(cfaWidth, step, row, col), SourcePoint(cfaWidth, step, row, col + 1),
                   SourcePoint(cfaWidth, step, row + 1, col);
    assert e.r - p.r == -step && e.c - p.c == step;
    assert s.r - p.r == step && s.c - p.c == step;
  }

  /** Every column of the target image maps to a source row of at least one step. */
  lemma SourceRowAtLeastStep(cfaWidth: nat, step: real, row: nat, col: nat)
    requires IsStep(step) && col < RotWidth(cfaWidth, step)
    ensures SourcePoint(cfaWidth, step, row, col).r >= step
  {
    var n := RotWidth(cfaWidth, step);
    ShiftedRowBound(cfaWidth as real, n as real, row as real, col as real, step);
  }

  /** The arithmetic behind SourceRowAtLeastStep, free of the step's defining equation. */
  lemma ShiftedRowBound(width: real, n: real, row: real, col: real, step: real)
    requires 0.0 < step && 0.0 <= row && col + 1.0 <= n && n * step <= width
    ensures width + (row - col) * step >= step
  {
    MulNonNegative(n - (col + 1.0), step);
    MulNonNegative(row, step);
    assert (row - col) * step == row * step - col * step;
    assert (n - (col + 1.0)) * step == n * step - col * step - step;
  }

  /** A product of two non-negative reals is non-negative. */
  lemma MulNonNegative(a: real, b: real)
    requires 0.0 <= a && 0.0 <= b
    ensures 0.0 <= a * b
  {
  }

  /** The whole source pixel a point falls in and the point's offset inside it. */
  datatype Tap = Tap(ur: nat, uc: nat, fr: real, fc: real)

  /** The casts ur = r and uc = c to an unsigned integer, and the remainders fr = r - ur, fc = c - uc. */
  function TapOf(p: Point): (t: Tap)
    requires 0.0 <= p.r && 0.0 <= p.c
    ensures t.ur as real + t.fr == p.r && t.uc as real + t.fc == p.c
    ensures 0.0 <= t.fr < 1.0 && 0.0 <= t.fc < 1.0
  {
    Tap(p.r.Floor, p.c.Floor, p.r - p.r.Floor as real, p.c - p.c.Floor as real)
  }

  /** The tap of target pixel (row, col). */
  function PixelTap(cfaWidth: nat, step: real, row: nat, col: nat): Tap
    requires IsStep(step) && col < RotWidth(cfaWidth, step)
  {
    SourceRowAtLeastStep(cfaWidth, step, row, col);
    TapOf(SourcePoint(cfaWidth, step, row, col))
  }

  const UnsignedModulus: int := 0x1_0000_0000

  /**
   The margin bound (unsigned)(length - 2): the subtraction wraps on the
   unsigned 64-bit length and the cast keeps the low 32 bits.
   */
  function Margin(length: nat): (m: nat)
    ensures m < UnsignedModulus
    ensures 2 <= length < UnsignedModulus + 2 ==> m == length - 2
    ensures length < 2 ==> m >= UnsignedModulus - 2
  {
    (length - 2) % UnsignedModulus
  }

  /** A margin never lets a stencil reach the last row or column of a plane of at least two rows. */
  lemma MarginBelowLength(length: nat)
    requires 2 <= length
    ensures Margin(length) <= length - 2
  {
  }

  /** The test that skips a pixel whose stencil would leave the source plane. */
  predicate Skipped(width: nat, height: nat, t: Tap)
  {
    t.ur > Margin(height) || t.uc > Margin(width)
  }

  /**
   The bilinear stencil on the top-left sample p, its east neighbour e, its
   south neighbour s and the south-east neighbour se: a weighted sum of the
   four samples whose weights are the areas of the opposite sub-rectangles
   of the unit cell, and so sum to 1.
   */
  function Bilinear(fr: real, fc: real, p: real, e: real, s: real, se: real): (v: real)
    ensures v == (1.0 - fr) * (1.0 - fc) * p + (1.0 - fr) * fc * e + fr * (1.0 - fc) * s + fr * fc * se
    ensures (1.0 - fr) * (1.0 - fc) + (1.0 - fr) * fc + fr * (1.0 - fc) + fr * fc == 1.0
  {
    (1.0 - fr) * ((1.0 - fc) * p + fc * e) + fr * ((1.0 - fc) * s + fc * se)
  }

  /** A weight in [0, 1] shrinks a non-negative amount. */
  lemma ScaleBelow(w: real, d: real)
    requires 0.0 <= w <= 1.0 && 0.0 <= d
    ensures 0.0 <= w * d <= d
  {
    assert d - w * d == (1.0 - w) * d;
  }

  /** A weighted mean of two values lies between any bounds of both. */
  lemma ConvexPair(t: real, a: real, b: real, lo: real, hi: real)
    requires 0.0 <= t <= 1.0 && lo <= a <= hi && lo <= b <= hi
    ensures lo <= (1.0 - t) * a + t * b <= hi
  {
    var d := b - a;
    var m := (1.0 - t) * a + t * b;
    assert m == a + t * d;
    if 0.0 <= d {
      ScaleBelow(t, d);
      assert a <= m <= b;
    } else {
      ScaleBelow(t, -d);
      assert t * (-d) == -(t * d);
      assert b <= m <= a;
    }
  }

  /** Bilinear resampling never leaves the range of its four samples. */
  lemma BilinearBetween(fr: real, fc: real, p: real, e: real, s: real, se: real, lo: real, hi: real)
    requires 0.0 <= fr <= 1.0 && 0.0 <= fc <= 1.0
    requires lo <= p <= hi && lo <= e <= hi && lo <= s <= hi && lo <= se <= hi
    ensures lo <= Bilinear(fr, fc, p, e, s, se) <= hi
  {
    ConvexPair(fc, p, e, lo, hi);
    ConvexPair(fc, s, se, lo, hi);
    ConvexPair(fr, (1.0 - fc) * p + fc * e, (1.0 - fc) * s + fc * se, lo, hi);
  }

  /** A point on a source pixel takes that pixel's value; a point on an edge, the mean along it. */
  lemma BilinearOnGrid(p: real, e: real, s: real, se: real)
    ensures Bilinear(0.0, 0.0, p, e, s, se) == p
    ensures Bilinear(0.0, 0.5, p, e, s, se) == (p + e) / 2.0
    ensures Bilinear(0.5, 0.0, p, e, s, se) == (p + s) / 2.0
  {
  }

  /** Any target pixel exists only when the source plane has at least two rows and two columns. */
  lemma PixelsNeedTwoRows(cfaWidth: nat, height: nat, step: real, row: nat, col: nat)
    requires IsStep(step) && cfaWidth <= height
    requires row < RotHeight(cfaWidth, height, step) && col < RotWidth(cfaWidth, step)
    ensures 1 <= cfaWidth && cfaWidth + 1 <= height && 2 <= height
  {
  }

  /** The input of the derotation: a square stack of three planes. */
  predicate SourceShape(width: nat, src: seq<real>)
  {
    |src| == 3 * (width * width)
  }

  /**
   The four reads of the stencil in plane `plane`: the sample at (ur, uc) and
   its east, south and south-east neighbours, all inside that plane. A tap
   with no fractional part reads back the sample at (ur, uc) itself.
   */
  function Interpolate(width: nat, src: seq<real>, plane: nat, t: Tap): (v: real)
    requires SourceShape(width, src) && plane < 3
    requires t.ur + 1 < width && t.uc + 1 < width
    ensures Planar.Offset(width, width, plane, t.ur, t.uc) < |src|
    ensures t.fr == 0.0 && t.fc == 0.0 ==> v == src[Planar.Offset(width, width, plane, t.ur, t.uc)]
  {
    Planar.OffsetBound(width, width, 3, plane, t.ur + 1, t.uc + 1);
    Planar.OffsetBound(width, width, 3, plane, t.ur, t.uc + 1);
    Bilinear(t.fr, t.fc,
             src[Planar.Offset(width, width, plane, t.ur, t.uc)],
             src[Planar.Offset(width, width, plane, t.ur, t.uc + 1)],
             src[Planar.Offset(width, width, plane, t.ur + 1, t.uc)],
             src[Planar.Offset(width, width, plane, t.ur + 1, t.uc + 1)])
  }

  /** The shape facts every derotation shares. */
  predicate Shapes(cfaWidth: nat, width: nat, step: real, src: seq<real>, init: seq<real>)
  {
    && IsStep(step) && cfaWidth <= width && SourceShape(width, src)
    && |init| == 3 * (RotWidth(cfaWidth, step) * RotHeight(cfaWidth, width, step))
  }

  /**
   Sample `plane` of target pixel (row, col): the bilinear resample when its
   stencil lies inside the source plane, the buffer's previous content
   `fallback` otherwise.
   */
  function PixelValue(cfaWidth: nat, width: nat, step: real, src: seq<real>, plane: nat, row: nat, col: nat, fallback: real): real
    requires IsStep(step) && cfaWidth <= width && SourceShape(width, src) && plane < 3
    requires row < RotHeight(cfaWidth, width, step) && col < RotWidth(cfaWidth, step)
  {
    var t := PixelTap(cfaWidth, step, row, col);
    if Skipped(width, width, t) then fallback
    else
      PixelsNeedTwoRows(cfaWidth, width, step, row, col);
      MarginBelowLength(width);
      Interpolate(width, src, plane, t)
  }

  /**
   The derotated image: three planes of RotWidth x RotHeight. The target
   buffer is not cleared beforehand, so a skipped pixel keeps whatever
   `init` held there.
   */
  function DerotatedImage(cfaWidth: nat, width: nat, step: real, src: seq<real>, init: seq<real>): (out: seq<real>)
    requires Shapes(cfaWidth, width, step, src, init)
    ensures |out| == |init|
  {
    var rw, rh := RotWidth(cfaWidth, step), RotHeight(cfaWidth, width, step);
    if rw == 0 || rh == 0 then []
    else
      seq(3 * (rw * rh), k requires 0 <= k < 3 * (rw * rh) =>
        var c := Planar.CoordOf(rw, rh, k);
        Planar.CoordOfPlaneBound(rw, rh, 3, k);
        PixelValue(cfaWidth, width, step, src, c.plane, c.row, c.col, init[k]))
  }

  /**
   The stencil of every pixel that is not skipped lies inside the source
   plane it reads: its four reads are offsets of samples of that plane.
   */
  lemma StencilInBounds(cfaWidth: nat, width: nat, step: real, row: nat, col: nat, plane: nat)
    requires IsStep(step) && cfaWidth <= width && plane < 3
    requires row < RotHeight(cfaWidth, width, step) && col < RotWidth(cfaWidth, step)
    requires !Skipped(width, width, PixelTap(cfaWidth, step, row, col))
    ensures var t := PixelTap(cfaWidth, step, row, col);
            && t.ur + 1 < width && t.uc + 1 < width
            && plane * (width * width) <= Planar.Offset(width, width, plane, t.ur, t.uc)
            && Planar.Offset(width, width, plane, t.ur + 1, t.uc + 1) < (plane + 1) * (width * width)
  {
    var t := PixelTap(cfaWidth, step, row, col);
    PixelsNeedTwoRows(cfaWidth, width, step, row, col);
    MarginBelowLength(width);
    Planar.OffsetInBlock(width, width, plane, t.ur, t.uc);
    Planar.OffsetInBlock(width, width, plane, t.ur + 1, t.uc + 1);
  }

  /**
   What the derotated image holds at sample `plane` of pixel (row, col):
   the previous content when the pixel is skipped, otherwise a value within
   any bounds of the source samples.
   */
  lemma DerotatedPixel(cfaWidth: nat, width: nat, step: real, src: seq<real>, init: seq<real>,
                       plane: nat, row: nat, col: nat, lo: real, hi: real)
    requires Shapes(cfaWidth, width, step, src, init)
    requires plane < 3 && row < RotHeight(cfaWidth, width, step) && col < RotWidth(cfaWidth, step)
    requires forall k | 0 <= k < |src| :: lo <= src[k] <= hi
    ensures var rw, rh := RotWidth(cfaWidth, step), RotHeight(cfaWidth, width, step);
            var k, out := Planar.Offset(rw, rh, plane, row, col), DerotatedImage(cfaWidth, width, step, src, init);
            && k < |out|
            && (Skipped(width, width, PixelTap(cfaWidth, step, row, col)) ==> out[k] == init[k])
            && (!Skipped(width, width, PixelTap(cfaWidth, step, row, col)) ==> lo <= out[k] <= hi)
  {
    var rw, rh := RotWidth(cfaWidth, step), RotHeight(cfaWidth, width, step);
    var k := Planar.Offset(rw, rh, plane, row, col);
    Planar.OffsetBound(rw, rh, 3, plane, row, col);
    Planar.CoordOfOffset(rw, rh, Planar.Coord(plane, row, col));
    var t := PixelTap(cfaWidth, step, row, col);
    if !Skipped(width, width, t) {
      StencilInBounds(cfaWidth, width, step, row, col, plane);
      Planar.OffsetBound(width, width, 3, plane, t.ur + 1, t.uc + 1);
      Planar.OffsetBound(width, width, 3, plane, t.ur, t.uc + 1);
      BilinearBetween(t.fr, t.fc,
                      src[Planar.Offset(width, width, plane, t.ur, t.uc)],
                      src[Planar.Offset(width, width, plane, t.ur, t.uc + 1)],
                      src[Planar.Offset(width, width, plane, t.ur + 1, t.uc)],
                      src[Planar.Offset(width, width, plane, t.ur + 1, t.uc + 1)], lo, hi);
    }
  }

  /** The position of pixel (row, col) in the scan order of the loops: row by row. */
  function ScanIndex(rw: nat, row: nat, col: nat): nat
  {
    row * rw + col
  }

  /** The target buffer once the pixels before position `done` of the scan have been visited. */
  ghost predicate RotatedBefore(cfaWidth: nat, width: nat, step: real, src: seq<real>, init: seq<real>,
                                done: nat, buf: seq<real>)
    requires Shapes(cfaWidth, width, step, src, init)
  {
    var rw, rh := RotWidth(cfaWidth, step), RotHeight(cfaWidth, width, step);
    && |buf| == |init|
    && (0 < rw && 0 < rh ==>
          forall k | 0 <= k < |buf| ::
            buf[k] == if ScanIndex(rw, Planar.CoordOf(rw, rh, k).row, Planar.CoordOf(rw, rh, k).col) < done
                      then DerotatedImage(cfaWidth, width, step, src, init)[k]
                      else init[k])
  }

  /** The inner colour loop for one pixel: the three stores of its planes, or none when it is skipped. */
  function StorePixel(cfaWidth: nat, width: nat, step: real, src: seq<real>, row: nat, col: nat, buf: seq<real>): (after: seq<real>)
    requires IsStep(step) && cfaWidth <= width && SourceShape(width, src)
    requires row < RotHeight(cfaWidth, width, step) && col < RotWidth(cfaWidth, step)
    requires |buf| == 3 * (RotWidth(cfaWidth, step) * RotHeight(cfaWidth, width, step))
    ensures var rw, rh := RotWidth(cfaWidth, step), RotHeight(cfaWidth, width, step);
            && |after| == |buf|
            && forall k | 0 <= k < |after| ::
                 after[k] == if k == Planar.Offset(rw, rh, 0, row, col)
                             then PixelValue(cfaWidth, width, step, src, 0, row, col, buf[k])
                             else if k == Planar.Offset(rw, rh, 1, row, col)
                             then PixelValue(cfaWidth, width, step, src, 1, row, col, buf[k])
                             else if k == Planar.Offset(rw, rh, 2, row, col)
                             then PixelValue(cfaWidth, width, step, src, 2, row, col, buf[k])
                             else buf[k]
  {
    var rw, rh := RotWidth(cfaWidth, step), RotHeight(cfaWidth, width, step);
    var t := PixelTap(cfaWidth, step, row, col);
    if Skipped(width, width, t) then buf
    else
      Planar.OffsetBound(rw, rh, 3, 2, row, col);
      PixelsNeedTwoRows(cfaWidth, width, step, row, col);
      MarginBelowLength(width);
      var at := row * rw + col;
      assert Planar.Offset(rw, rh, 0, row, col) == at;
      assert Planar.Offset(rw, rh, 1, row, col) == at + rw * rh;
      assert Planar.Offset(rw, rh, 2, row, col) == at + rw * rh * 2;
      buf[at := Interpolate(width, src, 0, t)]
         [at + rw * rh := Interpolate(width, src, 1, t)]
         [at + rw * rh * 2 := Interpolate(width, src, 2, t)]
  }

  /** Visiting one more pixel of the scan keeps RotatedBefore. */
  lemma RotateStep(cfaWidth: nat, width: nat, step: real, src: seq<real>, init: seq<real>,
                   row: nat, col: nat, buf: seq<real>)
    requires Shapes(cfaWidth, width, step, src, init)
    requires row < RotHeight(cfaWidth, width, step) && col < RotWidth(cfaWidth, step)
    requires RotatedBefore(cfaWidth, width, step, src, init, ScanIndex(RotWidth(cfaWidth, step), row, col), buf)
    ensures RotatedBefore(cfaWidth, width, step, src, init, ScanIndex(RotWidth(cfaWidth, step), row, col) + 1,
                          StorePixel(cfaWidth, width, step, src, row, col, buf))
  {
    var rw, rh := RotWidth(cfaWidth, step), RotHeight(cfaWidth, width, step);
    var after := StorePixel(cfaWidth, width, step, src, row, col, buf);
    var out := DerotatedImage(cfaWidth, width, step, src, init);
    var n := ScanIndex(rw, row, col);
    forall k | 0 <= k < |after|
      ensures after[k] == if ScanIndex(rw, Planar.CoordOf(rw, rh, k).row, Planar.CoordOf(rw, rh, k).col) < n + 1
                          then out[k] else init[k]
    {
      var c := Planar.CoordOf(rw, rh, k);
      Planar.CoordOfPlaneBound(rw, rh, 3, k);
      Planar.OffsetMatches(rw, rh, c, Planar.Coord(0, row, col));
      Planar.OffsetMatches(rw, rh, c, Planar.Coord(1, row, col));
      Planar.OffsetMatches(rw, rh, c, Planar.Coord(2, row, col));
      Planar.OffsetMatches(rw, rh, Planar.Coord(0, c.row, c.col), Planar.Coord(0, row, col));
    }
  }

  /** After the whole scan the buffer is the derotated image. */
  lemma RotateDone(cfaWidth: nat, width: nat, step: real, src: seq<real>, init: seq<real>, buf: seq<real>)
    requires Shapes(cfaWidth, width, step, src, init)
    requires RotatedBefore(cfaWidth, width, step, src, init,
                           RotHeight(cfaWidth, width, step) * RotWidth(cfaWidth, step), buf)
    ensures buf == DerotatedImage(cfaWidth, width, step, src, init)
  {
    var rw, rh := RotWidth(cfaWidth, step), RotHeight(cfaWidth, width, step);
    if 0 < rw && 0 < rh {
      forall k | 0 <= k < |buf|
        ensures buf[k] == DerotatedImage(cfaWidth, width, step, src, init)[k]
      {
        var c := Planar.CoordOf(rw, rh, k);
        Planar.InPlane(rw, rh, c.row, c.col);
      }
    }
  }

  /**
   The derotation loops of the source: rows of the target image, then
   columns, then the three colour planes, writing into the uncleared
   buffer `init`.
   */
  method Derotate(cfaWidth: nat, width: nat, step: real, src: seq<real>, init: seq<real>) returns (out: seq<real>)
    requires Shapes(cfaWidth, width, step, src, init)
    ensures out == DerotatedImage(cfaWidth, width, step, src, init)
  {
    var rw, rh := RotWidth(cfaWidth, step), RotHeight(cfaWidth, width, step);
    out := init;
    var row := 0;
    while row < rh
      invariant row <= rh
      invariant RotatedBefore(cfaWidth, width, step, src, init, ScanIndex(rw, row, 0), out)
    {
      var col := 0;
      while col < rw
        invariant col <= rw
        invariant RotatedBefore(cfaWidth, width, step, src, init, ScanIndex(rw, row, col), out)
      {
        RotateStep(cfaWidth, width, step, src, init, row, col, out);
        out := StorePixel(cfaWidth, width, step, src, row, col, out);
        col := col + 1;
      }
      assert ScanIndex(rw, row, rw) == ScanIndex(rw, row + 1, 0);
      row := row + 1;
    }
    assert ScanIndex(rw, rh, 0) == rh * rw;
    RotateDone(cfaWidth, width, step, src, init, out);
  }
}
