/**
 The diagonal photosite geometry of the EXR sensor. Photosite i of a raw
 frame of cfaWidth x cfaHeight samples (column i % cfaWidth, row
 i / cfaWidth) lands on a diagonal site of the square working buffer of side
 cfaWidth + cfaHeight; the second raw frame lands one column to the right of
 the first. The same site map serves both the raw two-frame merge and the
 pre-merged three-plane merge.
 */
module Geometry {
  import opened Results
  import Planar

  datatype Orientation = Landscape | Portrait

  /** The source picks the landscape map exactly when the sensor is wider than tall. */
  function OrientationOf(cfaWidth: nat, cfaHeight: nat): Orientation
  {
    if cfaWidth > cfaHeight then Landscape else Portrait
  }

  /** Side of the square working buffer. */
  function Side(cfaWidth: nat, cfaHeight: nat): nat
  {
    cfaWidth + cfaHeight
  }

  datatype Site = Site(row: nat, col: nat)

  /** Column and row of a photosite in its raw frame. */
  datatype Cell = Cell(col: nat, row: nat)

  /** Column i % cfaWidth and row i / cfaWidth of photosite i. */
  function CellOf(cfaWidth: nat, cfaHeight: nat, i: nat): (c: Cell)
    requires i < cfaWidth * cfaHeight
    ensures c.col < cfaWidth && c.row < cfaHeight
    ensures c.row * cfaWidth + c.col == i
  {
    Planar.QuotientBelow(i, cfaWidth, cfaHeight);
    Planar.DivModSplit(i, cfaWidth);
    Cell(i % cfaWidth, i / cfaWidth)
  }

  /** The photosite at column a and row b of the frame has index b * cfaWidth + a. */
  lemma FrameIndex(cfaWidth: nat, cfaHeight: nat, a: nat, b: nat)
    requires a < cfaWidth && b < cfaHeight
    ensures b * cfaWidth + a < cfaWidth * cfaHeight
    ensures (b * cfaWidth + a) % cfaWidth == a && (b * cfaWidth + a) / cfaWidth == b
  {
    Planar.InPlane(cfaWidth, cfaHeight, b, a);
    Planar.DivModUnique(b * cfaWidth + a, cfaWidth, b, a);
  }

  /**
   Site (y, x0) of the first frame's photosite at column a, row b:
   landscape (x0, y) = (a + b, cfaWidth - a - 1 + b), portrait
   (x0, y) = (cfaHeight - 1 + a - b, a + b). Both coordinates stay at least
   two below the buffer side, so the second frame's site x0 + 1 is inside the
   buffer too, and the unsigned subtractions of the source never wrap.
   */
  function SiteOfCell(cfaWidth: nat, cfaHeight: nat, a: nat, b: nat): (s: Site)
    requires a < cfaWidth && b < cfaHeight
    ensures s.row + 2 <= Side(cfaWidth, cfaHeight)
    ensures s.col + 2 <= Side(cfaWidth, cfaHeight)
  {
    if OrientationOf(cfaWidth, cfaHeight) == Landscape then Site(cfaWidth - a - 1 + b, a + b)
    else Site(a + b, cfaHeight - 1 + a - b)
  }

  /** Site (y, x0) of photosite i of the first frame. */
  function FirstSite(cfaWidth: nat, cfaHeight: nat, i: nat): (s: Site)
    requires i < cfaWidth * cfaHeight
    ensures s.row + 2 <= Side(cfaWidth, cfaHeight)
    ensures s.col + 2 <= Side(cfaWidth, cfaHeight)
  {
    var c := CellOf(cfaWidth, cfaHeight, i);
    SiteOfCell(cfaWidth, cfaHeight, c.col, c.row)
  }

  /** The photosite at column a, row b lands on the site SiteOfCell gives for (a, b). */
  lemma FirstSiteAt(cfaWidth: nat, cfaHeight: nat, a: nat, b: nat)
    requires a < cfaWidth && b < cfaHeight
    ensures b * cfaWidth + a < cfaWidth * cfaHeight
    ensures FirstSite(cfaWidth, cfaHeight, b * cfaWidth + a) == SiteOfCell(cfaWidth, cfaHeight, a, b)
  {
    FrameIndex(cfaWidth, cfaHeight, a, b);
  }

  /** Site (y, x1) of photosite i of the second frame: one column right of the first frame's. */
  function SecondSite(cfaWidth: nat, cfaHeight: nat, i: nat): (s: Site)
    requires i < cfaWidth * cfaHeight
    ensures s.row + 2 <= Side(cfaWidth, cfaHeight)
    ensures s.col + 1 <= Side(cfaWidth, cfaHeight)
  {
    var s0 := FirstSite(cfaWidth, cfaHeight, i);
    Site(s0.row, s0.col + 1)
  }

  /**
   The frame cell whose first-frame site is (row, col), if any: solving the
   site formulas of SiteOfCell for column a and row b gives 2a and 2b as
   differences of the site coordinates.
   */
  function OwnerCell(cfaWidth: nat, cfaHeight: nat, row: nat, col: nat): (o: Option<Cell>)
    ensures o.Some? ==> o.value.col < cfaWidth && o.value.row < cfaHeight
    ensures o.Some? ==> SiteOfCell(cfaWidth, cfaHeight, o.value.col, o.value.row) == Site(row, col)
  {
    if OrientationOf(cfaWidth, cfaHeight) == Landscape then
      SolveCell(cfaWidth, cfaHeight, col - row + cfaWidth - 1, col + row - cfaWidth + 1)
    else
      SolveCell(cfaWidth, cfaHeight, row + col - cfaHeight + 1, row - col + cfaHeight - 1)
  }

  /** The cell (a, b) with 2a == twiceA and 2b == twiceB, if it lies in the frame. */
  function SolveCell(cfaWidth: nat, cfaHeight: nat, twiceA: int, twiceB: int): (o: Option<Cell>)
    ensures o.Some? ==> o.value.col < cfaWidth && o.value.row < cfaHeight
    ensures o.Some? ==> twiceA == 2 * o.value.col && twiceB == 2 * o.value.row
    ensures o.None? ==> forall a: nat, b: nat :: !(twiceA == 2 * a && twiceB == 2 * b && a < cfaWidth && b < cfaHeight)
  {
    if twiceA % 2 == 0 && twiceB % 2 == 0 && 0 <= twiceA / 2 < cfaWidth && 0 <= twiceB / 2 < cfaHeight then
      Some(Cell(twiceA / 2, twiceB / 2))
    else
      None
  }

  /**
   The inverse of FirstSite: the photosite of the first frame that lands on
   (row, col), if any.
   */
  function FirstOwner(cfaWidth: nat, cfaHeight: nat, row: nat, col: nat): (o: Option<nat>)
    ensures o.Some? ==> o.value < cfaWidth * cfaHeight
    ensures o.Some? ==> FirstSite(cfaWidth, cfaHeight, o.value) == Site(row, col)
  {
    match OwnerCell(cfaWidth, cfaHeight, row, col)
    case None => None
    case Some(c) =>
      FirstSiteAt(cfaWidth, cfaHeight, c.col, c.row);
      Some(c.row * cfaWidth + c.col)
  }

  /** The inverse of SecondSite. */
  function SecondOwner(cfaWidth: nat, cfaHeight: nat, row: nat, col: nat): (o: Option<nat>)
    ensures o.Some? ==> o.value < cfaWidth * cfaHeight
    ensures o.Some? ==> SecondSite(cfaWidth, cfaHeight, o.value) == Site(row, col)
  {
    if col == 0 then None else FirstOwner(cfaWidth, cfaHeight, row, col - 1)
  }

  /** FirstOwner undoes SiteOfCell. */
  lemma FirstOwnerOfCell(cfaWidth: nat, cfaHeight: nat, a: nat, b: nat)
    requires a < cfaWidth && b < cfaHeight
    ensures var s := SiteOfCell(cfaWidth, cfaHeight, a, b);
            FirstOwner(cfaWidth, cfaHeight, s.row, s.col) == Some(b * cfaWidth + a)
  {
    var s := SiteOfCell(cfaWidth, cfaHeight, a, b);
    var twiceA := if cfaWidth > cfaHeight then s.col - s.row + cfaWidth - 1 else s.row + s.col - cfaHeight + 1;
    var twiceB := if cfaWidth > cfaHeight then s.col + s.row - cfaWidth + 1 else s.row - s.col + cfaHeight - 1;
    assert twiceA == 2 * a && twiceB == 2 * b;
    assert twiceA / 2 == a && twiceB / 2 == b;
  }

  /** FirstOwner undoes FirstSite. */
  lemma FirstOwnerOfFirstSite(cfaWidth: nat, cfaHeight: nat, i: nat)
    requires i < cfaWidth * cfaHeight
    ensures var s := FirstSite(cfaWidth, cfaHeight, i);
            FirstOwner(cfaWidth, cfaHeight, s.row, s.col) == Some(i)
  {
    var c := CellOf(cfaWidth, cfaHeight, i);
    FirstOwnerOfCell(cfaWidth, cfaHeight, c.col, c.row);
  }

  /** Distinct photosites of one frame land on distinct sites. */
  lemma FirstSiteInjective(cfaWidth: nat, cfaHeight: nat, i: nat, j: nat)
    requires i < cfaWidth * cfaHeight && j < cfaWidth * cfaHeight
    requires FirstSite(cfaWidth, cfaHeight, i) == FirstSite(cfaWidth, cfaHeight, j)
    ensures i == j
  {
    FirstOwnerOfFirstSite(cfaWidth, cfaHeight, i);
    FirstOwnerOfFirstSite(cfaWidth, cfaHeight, j);
  }

  /**
   All first-frame sites share one parity of row + col: that of
   cfaWidth - 1 in landscape and of cfaHeight - 1 in portrait.
   */
  lemma FirstSiteParity(cfaWidth: nat, cfaHeight: nat, i: nat)
    requires i < cfaWidth * cfaHeight
    ensures var s := FirstSite(cfaWidth, cfaHeight, i);
            (s.row + s.col) % 2
            == (if cfaWidth > cfaHeight then cfaWidth - 1 else cfaHeight - 1) % 2
  {
    var c := CellOf(cfaWidth, cfaHeight, i);
    var a, b := c.col, c.row;
    var s := SiteOfCell(cfaWidth, cfaHeight, a, b);
    if cfaWidth > cfaHeight {
      assert s.row + s.col == cfaWidth - 1 + 2 * b;
    } else {
      assert s.row + s.col == cfaHeight - 1 + 2 * a;
    }
  }

  /** No second-frame site is a first-frame site, so the two frames never overwrite each other. */
  lemma SecondSiteNeverFirst(cfaWidth: nat, cfaHeight: nat, i: nat, j: nat)
    requires i < cfaWidth * cfaHeight && j < cfaWidth * cfaHeight
    ensures SecondSite(cfaWidth, cfaHeight, i) != FirstSite(cfaWidth, cfaHeight, j)
  {
    FirstSiteParity(cfaWidth, cfaHeight, i);
    FirstSiteParity(cfaWidth, cfaHeight, j);
  }

  /** SecondOwner undoes SecondSite. */
  lemma SecondOwnerOfSecondSite(cfaWidth: nat, cfaHeight: nat, i: nat)
    requires i < cfaWidth * cfaHeight
    ensures var s := SecondSite(cfaWidth, cfaHeight, i);
            SecondOwner(cfaWidth, cfaHeight, s.row, s.col) == Some(i)
  {
    FirstOwnerOfFirstSite(cfaWidth, cfaHeight, i);
  }

  /** What a merge leaves at a site of the working buffer. */
  datatype Hit = Miss | First(index: nat) | Second(index: nat)

  /** The photosite, of either frame, that lands on (row, col). */
  function HitAt(cfaWidth: nat, cfaHeight: nat, row: nat, col: nat): (h: Hit)
    ensures h.First? ==> h.index < cfaWidth * cfaHeight
                         && FirstSite(cfaWidth, cfaHeight, h.index) == Site(row, col)
    ensures h.Second? ==> h.index < cfaWidth * cfaHeight
                          && SecondSite(cfaWidth, cfaHeight, h.index) == Site(row, col)
  {
    match FirstOwner(cfaWidth, cfaHeight, row, col)
    case Some(i) => First(i)
    case None =>
      match SecondOwner(cfaWidth, cfaHeight, row, col)
      case Some(i) => Second(i)
      case None => Miss
  }

  /** A site no photosite lands on is a Miss, and a Miss is a site no photosite lands on. */
  lemma HitAtComplete(cfaWidth: nat, cfaHeight: nat, row: nat, col: nat)
    ensures HitAt(cfaWidth, cfaHeight, row, col) == Miss
            <==> forall i | 0 <= i < cfaWidth * cfaHeight ::
                   FirstSite(cfaWidth, cfaHeight, i) != Site(row, col)
                   && SecondSite(cfaWidth, cfaHeight, i) != Site(row, col)
  {
    if HitAt(cfaWidth, cfaHeight, row, col) == Miss {
      forall i | 0 <= i < cfaWidth * cfaHeight
        ensures FirstSite(cfaWidth, cfaHeight, i) != Site(row, col)
        ensures SecondSite(cfaWidth, cfaHeight, i) != Site(row, col)
      {
        FirstOwnerOfFirstSite(cfaWidth, cfaHeight, i);
        SecondOwnerOfSecondSite(cfaWidth, cfaHeight, i);
      }
    }
  }

  /** The first frame's photosite i is found at its site. */
  lemma HitAtFirstSite(cfaWidth: nat, cfaHeight: nat, i: nat)
    requires i < cfaWidth * cfaHeight
    ensures var s := FirstSite(cfaWidth, cfaHeight, i);
            HitAt(cfaWidth, cfaHeight, s.row, s.col) == First(i)
  {
    FirstOwnerOfFirstSite(cfaWidth, cfaHeight, i);
  }

  /** The second frame's photosite i is found at its site. */
  lemma HitAtSecondSite(cfaWidth: nat, cfaHeight: nat, i: nat)
    requires i < cfaWidth * cfaHeight
    ensures var s := SecondSite(cfaWidth, cfaHeight, i);
            HitAt(cfaWidth, cfaHeight, s.row, s.col) == Second(i)
  {
    var s := SecondSite(cfaWidth, cfaHeight, i);
    var o := FirstOwner(cfaWidth, cfaHeight, s.row, s.col);
    if o.Some? {
      SecondSiteNeverFirst(cfaWidth, cfaHeight, i, o.value);
    }
    SecondOwnerOfSecondSite(cfaWidth, cfaHeight, i);
  }

  /** The colour planes of the working buffer, in their storage order. */
  datatype Channel = Red | Green | Blue

  function PlaneOf(c: Channel): nat
  {
    match c
    case Red => 0
    case Green => 1
    case Blue => 2
  }

  /**
   The plane a pre-merged landscape site pair comes from: green on even rows;
   on odd rows red when (x + y - 1) mod 4 is 0 or 1 and blue otherwise. The
   mod-4 test is reached only on odd rows, where x + y >= 1, so the unsigned
   subtraction never wraps.
   */
  function SiteChannel(s: Site): Channel
  {
    if s.row % 2 == 0 then Green
    else if (s.col + s.row - 1) % 4 == 0 || (s.col + s.row - 1) % 4 == 1 then Red
    else Blue
  }

  /**
   The plane choice repeats every four columns along a row. Even rows are
   all green; on an odd row two sites two columns apart come from the two
   different non-green planes.
   */
  lemma SiteChannelPattern(row: nat, col: nat)
    ensures SiteChannel(Site(row, col + 4)) == SiteChannel(Site(row, col))
    ensures row % 2 == 0 <==> SiteChannel(Site(row, col)) == Green
    ensures row % 2 == 1 ==> SiteChannel(Site(row, col)) != SiteChannel(Site(row, col + 2))
                             && SiteChannel(Site(row, col + 2)) != Green
  {
    assert (col + 4 + row - 1) % 4 == (col + row - 1) % 4;
  }
}
