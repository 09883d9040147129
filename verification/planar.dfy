/**
 Every float buffer of the program is a stack of planes stored one after the
 other, each plane row-major: sample (row, col) of plane p sits at
 p * (cols * rows) + row * cols + col. This module states that layout once and
 proves the index arithmetic the stages rely on.
 */
module Planar {

  datatype Coord = Coord(plane: nat, row: nat, col: nat)

  /** Flat offset of sample (row, col) of plane `plane`. */
  function Offset(cols: nat, rows: nat, plane: nat, row: nat, col: nat): nat
  {
    plane * (cols * rows) + row * cols + col
  }

  lemma MulMonotone(a: int, b: int, c: int)
    requires a <= b && 0 <= c
    ensures a * c <= b * c
  {
    assert b * c - a * c == (b - a) * c;
  }

  /** Every number is its quotient times the divisor plus its remainder. */
  lemma DivModSplit(k: int, d: int)
    requires 0 < d
    ensures k == (k / d) * d + k % d
  {
  }

  /** Quotient and remainder are the only pair with these bounds. */
  lemma DivModUnique(k: int, d: int, q: int, r: int)
    requires 0 < d && 0 <= r < d && k == q * d + r
    ensures k / d == q && k % d == r
  {
    var q', r' := k / d, k % d;
    assert k == q' * d + r';
    assert (q - q') * d == r' - r;
    if q > q' {
      MulMonotone(1, q - q', d);
      assert false;
    } else if q < q' {
      MulMonotone(1, q' - q, d);
      assert false;
    }
  }

  /** A position inside a plane lies on one of its rows. */
  lemma QuotientBelow(m: nat, cols: nat, rows: nat)
    requires 0 < cols && m < cols * rows
    ensures m / cols < rows
  {
    if m / cols >= rows {
      MulMonotone(rows, m / cols, cols);
      assert false;
    }
  }

  /** Inside one plane, a row/column pair lies before the end of the plane. */
  lemma InPlane(cols: nat, rows: nat, row: nat, col: nat)
    requires row < rows && col < cols
    ensures row * cols + col < cols * rows
  {
    MulMonotone(row + 1, rows, cols);
  }

  /** The offset of a sample of plane p lies inside the p-th block of cols * rows samples. */
  lemma OffsetInBlock(cols: nat, rows: nat, plane: nat, row: nat, col: nat)
    requires row < rows && col < cols
    ensures plane * (cols * rows) <= Offset(cols, rows, plane, row, col) < (plane + 1) * (cols * rows)
  {
    var size := cols * rows;
    InPlane(cols, rows, row, col);
    assert (plane + 1) * size == plane * size + size;
  }

  /** Sample (row, col) of a single plane. */
  function PlaneSample(cols: nat, rows: nat, plane: seq<real>, row: nat, col: nat): real
    requires |plane| == cols * rows && row < rows && col < cols
  {
    InPlane(cols, rows, row, col);
    plane[row * cols + col]
  }

  /** Every offset of a sample in one of `planes` planes lies inside the buffer. */
  lemma OffsetBound(cols: nat, rows: nat, planes: nat, plane: nat, row: nat, col: nat)
    requires plane < planes && row < rows && col < cols
    ensures Offset(cols, rows, plane, row, col) < planes * (cols * rows)
  {
    InPlane(cols, rows, row, col);
    MulMonotone(plane + 1, planes, cols * rows);
  }

  /** Distinct samples have distinct offsets. */
  lemma OffsetInjective(cols: nat, rows: nat, a: Coord, b: Coord)
    requires a.row < rows && a.col < cols && b.row < rows && b.col < cols
    requires Offset(cols, rows, a.plane, a.row, a.col) == Offset(cols, rows, b.plane, b.row, b.col)
    ensures a == b
  {
    var k := Offset(cols, rows, a.plane, a.row, a.col);
    InPlane(cols, rows, a.row, a.col);
    InPlane(cols, rows, b.row, b.col);
    DivModUnique(k, cols * rows, a.plane, a.row * cols + a.col);
    DivModUnique(k, cols * rows, b.plane, b.row * cols + b.col);
    DivModUnique(a.row * cols + a.col, cols, a.row, a.col);
    DivModUnique(b.row * cols + b.col, cols, b.row, b.col);
  }

  /** Two samples share an offset exactly when they are the same sample. */
  lemma OffsetMatches(cols: nat, rows: nat, a: Coord, b: Coord)
    requires a.row < rows && a.col < cols && b.row < rows && b.col < cols
    ensures Offset(cols, rows, a.plane, a.row, a.col) == Offset(cols, rows, b.plane, b.row, b.col)
            <==> a == b
  {
    if Offset(cols, rows, a.plane, a.row, a.col) == Offset(cols, rows, b.plane, b.row, b.col) {
      OffsetInjective(cols, rows, a, b);
    }
  }

  /** The sample a flat offset designates: the inverse of Offset. */
  function CoordOf(cols: nat, rows: nat, k: nat): (c: Coord)
    requires 0 < cols && 0 < rows
    ensures c.row < rows && c.col < cols
    ensures Offset(cols, rows, c.plane, c.row, c.col) == k
  {
    var m := k % (cols * rows);
    var c := Coord(k / (cols * rows), m / cols, m % cols);
    QuotientBelow(m, cols, rows);
    c
  }

  /** Decoding the offset of a sample gives the sample back. */
  lemma CoordOfOffset(cols: nat, rows: nat, c: Coord)
    requires c.row < rows && c.col < cols
    ensures CoordOf(cols, rows, Offset(cols, rows, c.plane, c.row, c.col)) == c
  {
    var d := CoordOf(cols, rows, Offset(cols, rows, c.plane, c.row, c.col));
    OffsetInjective(cols, rows, c, d);
  }

  /** An offset below `planes` whole planes designates one of those planes. */
  lemma CoordOfPlaneBound(cols: nat, rows: nat, planes: nat, k: nat)
    requires 0 < cols && 0 < rows && k < planes * (cols * rows)
    ensures CoordOf(cols, rows, k).plane < planes
  {
    var c := CoordOf(cols, rows, k);
    if c.plane >= planes {
      MulMonotone(planes, c.plane, cols * rows);
      assert false;
    }
  }
}
