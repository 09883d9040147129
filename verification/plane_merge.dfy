/**
 The pre-merged mode of the SSD decoder: the geometry cfaWidth x cfaHeight
 is stated on the command line and three colour planes of the already
 rotated sensor array are given. In landscape each site pair (x, x + 1) of a
 photosite is copied from exactly one plane, chosen by the row parity and the
 mod-4 rule; in portrait the raw two-frame formulas are reused with the red
 and green planes standing for the two frames.
 */
module PlaneMerge {
  import opened Results
  import opened Geometry
  import Planar
  import opened Images
  import RawMerge

  datatype Check = Pass | Fail(error: MergeError)

  /**
   The size checks of the pre-merged mode as the source writes them: the
   three planes must have one size and their width must be
   cfaWidth + cfaHeight. Their height is not checked.
   */
  function ValidatePlanes(cfaWidth: nat, cfaHeight: nat, red: Frame, green: Frame, blue: Frame): (c: Check)
    ensures c.Pass? <==> && red.nx == green.nx == blue.nx
                         && red.ny == green.ny == blue.ny
                         && red.nx == cfaWidth + cfaHeight
    ensures c == Fail(SizeMismatch) <==> !(red.nx == green.nx == blue.nx && red.ny == green.ny == blue.ny)
  {
    if || red.nx != green.nx || red.nx != blue.nx || green.nx != blue.nx
       || red.ny != green.ny || red.ny != blue.ny || green.ny != blue.ny
    then Fail(SizeMismatch)
    else if red.nx != cfaWidth + cfaHeight then Fail(GeometryMismatch)
    else Pass
  }

  /**
   The size checks with the missing height check added: the planes must be
   square of side cfaWidth + cfaHeight.
   */
  function ValidatePlanesStrict(cfaWidth: nat, cfaHeight: nat, red: Frame, green: Frame, blue: Frame): (c: Check)
    ensures c.Pass? <==> && red.nx == green.nx == blue.nx
                         && red.ny == green.ny == blue.ny
                         && red.nx == cfaWidth + cfaHeight
                         && red.ny == cfaWidth + cfaHeight
    ensures ValidatePlanes(cfaWidth, cfaHeight, red, green, blue).Fail? ==>
              c == ValidatePlanes(cfaWidth, cfaHeight, red, green, blue)
  {
    match ValidatePlanes(cfaWidth, cfaHeight, red, green, blue)
    case Fail(e) => Fail(e)
    case Pass => if red.ny != cfaWidth + cfaHeight then Fail(HeightMismatch) else Pass
  }

  /**
   The source's checks accept planes of the right width but a single row on
   every landscape sensor, although the site of photosite 0 lies on row
   cfaWidth - 1 and so past the end of such a plane.
   */
  lemma ValidatePlanesIgnoresHeight(cfaWidth: nat, cfaHeight: nat, red: Frame, green: Frame, blue: Frame)
    requires cfaWidth > cfaHeight >= 1
    requires WellFormed(red) && red.nx == cfaWidth + cfaHeight && red.ny == 1
    requires green == red && blue == red
    ensures ValidatePlanes(cfaWidth, cfaHeight, red, green, blue) == Pass
    ensures var s := FirstSite(cfaWidth, cfaHeight, 0);
            s.row * red.nx + s.col >= |red.data|
    ensures ValidatePlanesStrict(cfaWidth, cfaHeight, red, green, blue) == Fail(HeightMismatch)
  {
    var c := CellOf(cfaWidth, cfaHeight, 0);
    Planar.DivModUnique(0, cfaWidth, 0, 0);
    var s := FirstSite(cfaWidth, cfaHeight, 0);
    assert s.row == cfaWidth - 1;
    Planar.MulMonotone(1, s.row, red.nx);
  }

  /** The colour plane a pre-merged landscape photosite's pair is copied from. */
  function PairChannel(cfaWidth: nat, cfaHeight: nat, i: nat): Channel
    requires cfaWidth > cfaHeight && i < cfaWidth * cfaHeight
  {
    SiteChannel(FirstSite(cfaWidth, cfaHeight, i))
  }

  /**
   The index the source reads for the first site of the pair of photosite i
   (rix, gix or bix): the same index it writes, so it carries the offset of
   the destination plane and addresses plane PlaneOf(channel) of a
   three-plane buffer rather than a single input plane.
   */
  function AsWrittenReadIndex(cfaWidth: nat, cfaHeight: nat, i: nat): (k: nat)
    requires cfaWidth > cfaHeight && i < cfaWidth * cfaHeight
    ensures var width, p := cfaWidth + cfaHeight, PlaneOf(PairChannel(cfaWidth, cfaHeight, i));
            p * (width * width) <= k < (p + 1) * (width * width)
  {
    var width := cfaWidth + cfaHeight;
    var s := FirstSite(cfaWidth, cfaHeight, i);
    var p := PlaneOf(PairChannel(cfaWidth, cfaHeight, i));
    Planar.OffsetInBlock(width, width, p, s.row, s.col);
    Planar.Offset(width, width, p, s.row, s.col)
  }

  /**
   Every green or blue read of the landscape loop lies past the end of an
   input plane of width * width samples, and every landscape sensor has a
   green pair: photosite cfaWidth - 1 lands on row 0.
   */
  lemma AsWrittenReadOutsidePlane(cfaWidth: nat, cfaHeight: nat, i: nat)
    requires cfaWidth > cfaHeight >= 1 && i < cfaWidth * cfaHeight
    ensures PairChannel(cfaWidth, cfaHeight, cfaWidth - 1) == Green
    ensures PairChannel(cfaWidth, cfaHeight, i) != Red ==>
              AsWrittenReadIndex(cfaWidth, cfaHeight, i) >= (cfaWidth + cfaHeight) * (cfaWidth + cfaHeight)
  {
    Planar.MulMonotone(1, cfaHeight, cfaWidth);
    var c := CellOf(cfaWidth, cfaHeight, cfaWidth - 1);
    Planar.DivModUnique(cfaWidth - 1, cfaWidth, 0, cfaWidth - 1);
    assert FirstSite(cfaWidth, cfaHeight, cfaWidth - 1).row == 0;
  }

  /** The input plane a channel is read from. */
  function PlaneData(red: seq<real>, green: seq<real>, blue: seq<real>, ch: Channel): seq<real>
  {
    match ch
    case Red => red
    case Green => green
    case Blue => blue
  }

  /** The three input planes are square planes of side `width`. */
  predicate SquarePlanes(width: nat, red: seq<real>, green: seq<real>, blue: seq<real>)
  {
    |red| == |green| == |blue| == width * width
  }

  /**
   The value the completed landscape merge leaves at (row, col) of plane p,
   counting only the photosites before n: the site's own sample of the
   plane its pair is assigned to, zero in the other planes and off-site.
   */
  function MergedCellBefore(cfaWidth: nat, cfaHeight: nat, red: seq<real>, green: seq<real>, blue: seq<real>,
                            n: nat, p: nat, row: nat, col: nat): real
    requires cfaWidth > cfaHeight
    requires SquarePlanes(cfaWidth + cfaHeight, red, green, blue)
    requires row < cfaWidth + cfaHeight && col < cfaWidth + cfaHeight
  {
    var width := cfaWidth + cfaHeight;
    match HitAt(cfaWidth, cfaHeight, row, col)
    case First(i) =>
      var ch := PairChannel(cfaWidth, cfaHeight, i);
      if i < n && p == PlaneOf(ch) then Planar.PlaneSample(width, width, PlaneData(red, green, blue, ch), row, col) else 0.0
    case Second(i) =>
      var ch := PairChannel(cfaWidth, cfaHeight, i);
      if i < n && p == PlaneOf(ch) then Planar.PlaneSample(width, width, PlaneData(red, green, blue, ch), row, col) else 0.0
    case Miss => 0.0
  }

  /** The merged working buffer of a landscape sensor. */
  function MergedLandscapeBuffer(cfaWidth: nat, cfaHeight: nat, red: seq<real>, green: seq<real>, blue: seq<real>): (buf: seq<real>)
    requires cfaWidth > cfaHeight
    requires SquarePlanes(cfaWidth + cfaHeight, red, green, blue)
    ensures |buf| == 3 * ((cfaWidth + cfaHeight) * (cfaWidth + cfaHeight))
  {
    var width := cfaWidth + cfaHeight;
    seq(3 * (width * width), k requires 0 <= k < 3 * (width * width) =>
      var c := Planar.CoordOf(width, width, k);
      MergedCellBefore(cfaWidth, cfaHeight, red, green, blue, cfaWidth * cfaHeight, c.plane, c.row, c.col))
  }

  /** Writing the pair of photosite i changes exactly its two sites in the plane it is assigned to. */
  lemma MergedCellStep(cfaWidth: nat, cfaHeight: nat, red: seq<real>, green: seq<real>, blue: seq<real>,
                       i: nat, p: nat, row: nat, col: nat)
    requires cfaWidth > cfaHeight && i < cfaWidth * cfaHeight
    requires SquarePlanes(cfaWidth + cfaHeight, red, green, blue)
    requires row < cfaWidth + cfaHeight && col < cfaWidth + cfaHeight
    ensures var ch := PairChannel(cfaWidth, cfaHeight, i);
            MergedCellBefore(cfaWidth, cfaHeight, red, green, blue, i + 1, p, row, col)
            == if p == PlaneOf(ch) && (Site(row, col) == FirstSite(cfaWidth, cfaHeight, i)
                                       || Site(row, col) == SecondSite(cfaWidth, cfaHeight, i))
               then Planar.PlaneSample(cfaWidth + cfaHeight, cfaWidth + cfaHeight, PlaneData(red, green, blue, ch), row, col)
               else MergedCellBefore(cfaWidth, cfaHeight, red, green, blue, i, p, row, col)
  {
    if Site(row, col) == FirstSite(cfaWidth, cfaHeight, i) {
      HitAtFirstSite(cfaWidth, cfaHeight, i);
    } else if Site(row, col) == SecondSite(cfaWidth, cfaHeight, i) {
      HitAtSecondSite(cfaWidth, cfaHeight, i);
    }
  }

  /**
   One iteration of the landscape loop, with each read taken at the
   plane-local index of the site (the source reads frame1[gix] and
   frame2[bix], see AsWrittenReadIndex).
   */
  function StoreChannelPair(cfaWidth: nat, cfaHeight: nat, red: seq<real>, green: seq<real>, blue: seq<real>,
                            i: nat, buf: seq<real>): (after: seq<real>)
    requires cfaWidth > cfaHeight && i < cfaWidth * cfaHeight
    requires SquarePlanes(cfaWidth + cfaHeight, red, green, blue)
    requires |buf| == 3 * ((cfaWidth + cfaHeight) * (cfaWidth + cfaHeight))
    ensures var width, s, ch := cfaWidth + cfaHeight, FirstSite(cfaWidth, cfaHeight, i), PairChannel(cfaWidth, cfaHeight, i);
            var plane := PlaneData(red, green, blue, ch);
            |after| == |buf|
            && forall k | 0 <= k < |after| ::
                 after[k] == if k == Planar.Offset(width, width, PlaneOf(ch), s.row, s.col)
                             then Planar.PlaneSample(width, width, plane, s.row, s.col)
                             else if k == Planar.Offset(width, width, PlaneOf(ch), s.row, s.col + 1)
                             then Planar.PlaneSample(width, width, plane, s.row, s.col + 1)
                             else buf[k]
  {
    var width := cfaWidth + cfaHeight;
    var s := FirstSite(cfaWidth, cfaHeight, i);
    var x, y := s.col, s.row;
    Planar.OffsetBound(width, width, 3, 2, y, x + 1);
    Planar.InPlane(width, width, y, x + 1);
    var rix := y * width + x;
    var gix := y * width + x + width * width;
    var bix := y * width + x + width * width * 2;
    assert Planar.Offset(width, width, 0, y, x) == rix;
    assert Planar.Offset(width, width, 1, y, x) == gix;
    assert Planar.Offset(width, width, 2, y, x) == bix;
    assert forall plane: seq<real> | |plane| == width * width ::
      plane[rix] == Planar.PlaneSample(width, width, plane, y, x)
      && plane[rix + 1] == Planar.PlaneSample(width, width, plane, y, x + 1);
    if y % 2 == 0 then
      buf[gix := green[rix]][gix + 1 := green[rix + 1]]
    else if (x + y - 1) % 4 == 0 || (x + y - 1) % 4 == 1 then
      buf[rix := red[rix]][rix + 1 := red[rix + 1]]
    else
      buf[bix := blue[rix]][bix + 1 := blue[rix + 1]]
  }

  /** The buffer holds the landscape merge of the photosites before n. */
  ghost predicate MergedBefore(cfaWidth: nat, cfaHeight: nat, red: seq<real>, green: seq<real>, blue: seq<real>,
                               n: nat, buf: seq<real>)
    requires cfaWidth > cfaHeight
    requires SquarePlanes(cfaWidth + cfaHeight, red, green, blue)
  {
    var width := cfaWidth + cfaHeight;
    && |buf| == 3 * (width * width)
    && forall k | 0 <= k < |buf| ::
         buf[k] == MergedCellBefore(cfaWidth, cfaHeight, red, green, blue, n,
                                    Planar.CoordOf(width, width, k).plane,
                                    Planar.CoordOf(width, width, k).row,
                                    Planar.CoordOf(width, width, k).col)
  }

  /** One iteration of the landscape loop keeps MergedBefore. */
  lemma MergedStep(cfaWidth: nat, cfaHeight: nat, red: seq<real>, green: seq<real>, blue: seq<real>,
                   i: nat, before: seq<real>)
    requires cfaWidth > cfaHeight && i < cfaWidth * cfaHeight
    requires SquarePlanes(cfaWidth + cfaHeight, red, green, blue)
    requires MergedBefore(cfaWidth, cfaHeight, red, green, blue, i, before)
    ensures MergedBefore(cfaWidth, cfaHeight, red, green, blue, i + 1,
                         StoreChannelPair(cfaWidth, cfaHeight, red, green, blue, i, before))
  {
    var after := StoreChannelPair(cfaWidth, cfaHeight, red, green, blue, i, before);
    var width := cfaWidth + cfaHeight;
    forall k | 0 <= k < |after|
      ensures after[k] == MergedCellBefore(cfaWidth, cfaHeight, red, green, blue, i + 1,
                                           Planar.CoordOf(width, width, k).plane,
                                           Planar.CoordOf(width, width, k).row,
                                           Planar.CoordOf(width, width, k).col)
    {
      var c := Planar.CoordOf(width, width, k);
      MergedCellStep(cfaWidth, cfaHeight, red, green, blue, i, c.plane, c.row, c.col);
      StoreChannelPairAt(cfaWidth, cfaHeight, red, green, blue, i, before, c);
    }
  }

  /** One landscape iteration seen from one sample: only the pair's two sites in its plane change. */
  lemma StoreChannelPairAt(cfaWidth: nat, cfaHeight: nat, red: seq<real>, green: seq<real>, blue: seq<real>,
                           i: nat, buf: seq<real>, c: Planar.Coord)
    requires cfaWidth > cfaHeight && i < cfaWidth * cfaHeight
    requires SquarePlanes(cfaWidth + cfaHeight, red, green, blue)
    requires |buf| == 3 * ((cfaWidth + cfaHeight) * (cfaWidth + cfaHeight))
    requires c.row < cfaWidth + cfaHeight && c.col < cfaWidth + cfaHeight
    ensures var width, s, ch := cfaWidth + cfaHeight, FirstSite(cfaWidth, cfaHeight, i), PairChannel(cfaWidth, cfaHeight, i);
            var k := Planar.Offset(width, width, c.plane, c.row, c.col);
            k < |buf| ==>
              StoreChannelPair(cfaWidth, cfaHeight, red, green, blue, i, buf)[k]
              == if c.plane == PlaneOf(ch) && (Site(c.row, c.col) == s || Site(c.row, c.col) == Site(s.row, s.col + 1))
                 then Planar.PlaneSample(width, width, PlaneData(red, green, blue, ch), c.row, c.col)
                 else buf[k]
  {
    var width, s := cfaWidth + cfaHeight, FirstSite(cfaWidth, cfaHeight, i);
    var p := PlaneOf(PairChannel(cfaWidth, cfaHeight, i));
    Planar.OffsetMatches(width, width, c, Planar.Coord(p, s.row, s.col));
    Planar.OffsetMatches(width, width, c, Planar.Coord(p, s.row, s.col + 1));
  }

  /**
   The landscape loop of the pre-merged mode: zero the buffer, then for every
   photosite copy its site pair from the one plane the pair is assigned to.
   */
  method ScatterChannelPairs(cfaWidth: nat, cfaHeight: nat, red: seq<real>, green: seq<real>, blue: seq<real>)
    returns (buf: seq<real>)
    requires cfaWidth > cfaHeight
    requires SquarePlanes(cfaWidth + cfaHeight, red, green, blue)
    ensures buf == MergedLandscapeBuffer(cfaWidth, cfaHeight, red, green, blue)
  {
    var width := cfaWidth + cfaHeight;
    buf := seq(3 * (width * width), _ => 0.0);
    var i := 0;
    while i < cfaWidth * cfaHeight
      invariant i <= cfaWidth * cfaHeight
      invariant MergedBefore(cfaWidth, cfaHeight, red, green, blue, i, buf)
    {
      MergedStep(cfaWidth, cfaHeight, red, green, blue, i, buf);
      buf := StoreChannelPair(cfaWidth, cfaHeight, red, green, blue, i, buf);
      i := i + 1;
    }
  }

  /**
   The plane rule: the pair of photosite i, its first site (y, x0) and its
   second site (y, x0 + 1), is written into
   exactly the plane SiteChannel assigns it, as a copy of that plane's own
   samples, and holds zero in the two other planes.
   */
  lemma MergedLandscapePlaneRule(cfaWidth: nat, cfaHeight: nat, red: seq<real>, green: seq<real>, blue: seq<real>,
                                 i: nat, p: nat)
    requires cfaWidth > cfaHeight && i < cfaWidth * cfaHeight && p < 3
    requires SquarePlanes(cfaWidth + cfaHeight, red, green, blue)
    ensures var width, s, t := cfaWidth + cfaHeight, FirstSite(cfaWidth, cfaHeight, i), SecondSite(cfaWidth, cfaHeight, i);
            var buf, ch := MergedLandscapeBuffer(cfaWidth, cfaHeight, red, green, blue), PairChannel(cfaWidth, cfaHeight, i);
            var k0, k1 := Planar.Offset(width, width, p, s.row, s.col), Planar.Offset(width, width, p, t.row, t.col);
            var plane := PlaneData(red, green, blue, ch);
            && k0 < |buf| && k1 < |buf|
            && buf[k0] == (if p == PlaneOf(ch) then Planar.PlaneSample(width, width, plane, s.row, s.col) else 0.0)
            && buf[k1] == (if p == PlaneOf(ch) then Planar.PlaneSample(width, width, plane, t.row, t.col) else 0.0)
  {
    var s, t := FirstSite(cfaWidth, cfaHeight, i), SecondSite(cfaWidth, cfaHeight, i);
    MergedCellAtFirst(cfaWidth, cfaHeight, red, green, blue, i, p);
    MergedCellAtSecond(cfaWidth, cfaHeight, red, green, blue, i, p);
    MergedBufferAt(cfaWidth, cfaHeight, red, green, blue, p, s.row, s.col);
    MergedBufferAt(cfaWidth, cfaHeight, red, green, blue, p, t.row, t.col);
  }

  /** After the whole loop, the first site of photosite i holds its plane's sample in the chosen plane only. */
  lemma MergedCellAtFirst(cfaWidth: nat, cfaHeight: nat, red: seq<real>, green: seq<real>, blue: seq<real>,
                          i: nat, p: nat)
    requires cfaWidth > cfaHeight && i < cfaWidth * cfaHeight
    requires SquarePlanes(cfaWidth + cfaHeight, red, green, blue)
    ensures var width, s, ch := cfaWidth + cfaHeight, FirstSite(cfaWidth, cfaHeight, i), PairChannel(cfaWidth, cfaHeight, i);
            MergedCellBefore(cfaWidth, cfaHeight, red, green, blue, cfaWidth * cfaHeight, p, s.row, s.col)
            == if p == PlaneOf(ch) then Planar.PlaneSample(width, width, PlaneData(red, green, blue, ch), s.row, s.col) else 0.0
  {
    HitAtFirstSite(cfaWidth, cfaHeight, i);
  }

  /** After the whole loop, the second site of photosite i holds its plane's sample in the chosen plane only. */
  lemma MergedCellAtSecond(cfaWidth: nat, cfaHeight: nat, red: seq<real>, green: seq<real>, blue: seq<real>,
                           i: nat, p: nat)
    requires cfaWidth > cfaHeight && i < cfaWidth * cfaHeight
    requires SquarePlanes(cfaWidth + cfaHeight, red, green, blue)
    ensures var width, t, ch := cfaWidth + cfaHeight, SecondSite(cfaWidth, cfaHeight, i), PairChannel(cfaWidth, cfaHeight, i);
            MergedCellBefore(cfaWidth, cfaHeight, red, green, blue, cfaWidth * cfaHeight, p, t.row, t.col)
            == if p == PlaneOf(ch) then Planar.PlaneSample(width, width, PlaneData(red, green, blue, ch), t.row, t.col) else 0.0
  {
    HitAtSecondSite(cfaWidth, cfaHeight, i);
  }

  /** The merged landscape buffer holds the completed MergedCellBefore of every sample at its offset. */
  lemma MergedBufferAt(cfaWidth: nat, cfaHeight: nat, red: seq<real>, green: seq<real>, blue: seq<real>,
                       p: nat, row: nat, col: nat)
    requires cfaWidth > cfaHeight && p < 3
    requires SquarePlanes(cfaWidth + cfaHeight, red, green, blue)
    requires row < cfaWidth + cfaHeight && col < cfaWidth + cfaHeight
    ensures var width := cfaWidth + cfaHeight;
            var k := Planar.Offset(width, width, p, row, col);
            && k < 3 * (width * width)
            && MergedLandscapeBuffer(cfaWidth, cfaHeight, red, green, blue)[k]
               == MergedCellBefore(cfaWidth, cfaHeight, red, green, blue, cfaWidth * cfaHeight, p, row, col)
  {
    var width := cfaWidth + cfaHeight;
    Planar.OffsetBound(width, width, 3, p, row, col);
    Planar.CoordOfOffset(width, width, Planar.Coord(p, row, col));
  }

  /** Nothing else is written: a position off every site pair keeps the zero of the initial fill. */
  lemma MergedLandscapeZeroElsewhere(cfaWidth: nat, cfaHeight: nat, red: seq<real>, green: seq<real>, blue: seq<real>, k: nat)
    requires cfaWidth > cfaHeight
    requires SquarePlanes(cfaWidth + cfaHeight, red, green, blue)
    requires k < 3 * ((cfaWidth + cfaHeight) * (cfaWidth + cfaHeight))
    requires var width := cfaWidth + cfaHeight;
             var c := Planar.CoordOf(width, width, k);
             forall i | 0 <= i < cfaWidth * cfaHeight ::
               && Site(c.row, c.col) != FirstSite(cfaWidth, cfaHeight, i)
               && Site(c.row, c.col) != SecondSite(cfaWidth, cfaHeight, i)
    ensures MergedLandscapeBuffer(cfaWidth, cfaHeight, red, green, blue)[k] == 0.0
  {
    var width := cfaWidth + cfaHeight;
    var c := Planar.CoordOf(width, width, k);
    HitAtComplete(cfaWidth, cfaHeight, c.row, c.col);
  }

  /** The raw frame size a portrait merge reads with the red and green planes stays inside them. */
  lemma FrameFitsPlane(cfaWidth: nat, cfaHeight: nat)
    ensures cfaWidth * cfaHeight <= (cfaWidth + cfaHeight) * (cfaWidth + cfaHeight)
  {
    Planar.MulMonotone(cfaHeight, cfaWidth + cfaHeight, cfaWidth);
    Planar.MulMonotone(cfaWidth, cfaWidth + cfaHeight, cfaWidth + cfaHeight);
  }

  /**
   The pre-merged mode with square planes required. The landscape flag is
   set only inside the landscape loop, so it stays false for an empty
   sensor. The portrait branch reuses the raw merge with the red plane as
   frame 0 and the green plane as frame 1, reading them at the raw
   photosite index i, and never consults the blue plane.
   */
  function MergePlanes(cfaWidth: nat, cfaHeight: nat, red: Frame, green: Frame, blue: Frame): (r: Result<Working, MergeError>)
    requires WellFormed(red) && WellFormed(green) && WellFormed(blue)
    ensures r.Ok? <==> ValidatePlanesStrict(cfaWidth, cfaHeight, red, green, blue).Pass?
    ensures r.Err? ==> Fail(r.error) == ValidatePlanesStrict(cfaWidth, cfaHeight, red, green, blue)
    ensures r.Ok? ==> (r.value.landscape <==> cfaWidth > cfaHeight && cfaWidth * cfaHeight > 0)
    ensures r.Ok? ==> |r.value.data| == 3 * ((cfaWidth + cfaHeight) * (cfaWidth + cfaHeight))
    ensures r.Ok? && cfaWidth <= cfaHeight ==>
              cfaWidth * cfaHeight <= |red.data| && cfaWidth * cfaHeight <= |green.data|
              && r.value.data == RawMerge.RawWorkingBuffer(cfaWidth, cfaHeight,
                                                           red.data[..cfaWidth * cfaHeight],
                                                           green.data[..cfaWidth * cfaHeight])
    ensures r.Ok? && cfaWidth > cfaHeight ==>
              SquarePlanes(cfaWidth + cfaHeight, red.data, green.data, blue.data)
              && r.value.data == MergedLandscapeBuffer(cfaWidth, cfaHeight, red.data, green.data, blue.data)
  {
    match ValidatePlanesStrict(cfaWidth, cfaHeight, red, green, blue)
    case Fail(e) => Err(e)
    case Pass =>
      var width := cfaWidth + cfaHeight;
      if cfaWidth > cfaHeight then
        Ok(Working(cfaWidth, cfaHeight, cfaWidth * cfaHeight > 0,
                   MergedLandscapeBuffer(cfaWidth, cfaHeight, red.data, green.data, blue.data)))
      else
        FrameFitsPlane(cfaWidth, cfaHeight);
        Ok(Working(cfaWidth, cfaHeight, false,
                   RawMerge.RawWorkingBuffer(cfaWidth, cfaHeight,
                                             red.data[..cfaWidth * cfaHeight],
                                             green.data[..cfaWidth * cfaHeight])))
  }

  /**
   A portrait merge never consults the blue plane: two blue planes of the
   same size give the same working buffer.
   */
  lemma PortraitIgnoresBlue(cfaWidth: nat, cfaHeight: nat, red: Frame, green: Frame, blue: Frame, blue': Frame)
    requires WellFormed(red) && WellFormed(green) && WellFormed(blue) && WellFormed(blue')
    requires cfaWidth <= cfaHeight && blue.nx == blue'.nx && blue.ny == blue'.ny
    ensures MergePlanes(cfaWidth, cfaHeight, red, green, blue) == MergePlanes(cfaWidth, cfaHeight, red, green, blue')
  {
  }
}
