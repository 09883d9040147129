/**
 The raw two-frame merge of the SSD decoder: two raw frames of
 cfaWidth x cfaHeight photosites are interleaved into the diagonal layout of
 the EXR sensor. Photosite i of the first frame goes to site (y, x0) and
 photosite i of the second frame to (y, x0 + 1), in all three planes of a
 zeroed working buffer of side cfaWidth + cfaHeight.
 */
module RawMerge {
  import opened Results
  import opened Geometry
  import Planar
  import opened Images

  /** The value the completed raw merge leaves at (row, col); it is the same in every plane. */
  function RawCell(cfaWidth: nat, cfaHeight: nat, f0: seq<real>, f1: seq<real>, row: nat, col: nat): real
    requires |f0| == cfaWidth * cfaHeight && |f1| == cfaWidth * cfaHeight
  {
    match HitAt(cfaWidth, cfaHeight, row, col)
    case First(i) => f0[i]
    case Second(i) => f1[i]
    case Miss => 0.0
  }

  /** The value at (row, col) once the photosites before n have been written. */
  function RawCellBefore(cfaWidth: nat, cfaHeight: nat, f0: seq<real>, f1: seq<real>, n: nat, row: nat, col: nat): real
    requires |f0| == cfaWidth * cfaHeight && |f1| == cfaWidth * cfaHeight
  {
    match HitAt(cfaWidth, cfaHeight, row, col)
    case First(i) => if i < n then f0[i] else 0.0
    case Second(i) => if i < n then f1[i] else 0.0
    case Miss => 0.0
  }

  /** The merged working buffer, three planes of side cfaWidth + cfaHeight. */
  function RawWorkingBuffer(cfaWidth: nat, cfaHeight: nat, f0: seq<real>, f1: seq<real>): (buf: seq<real>)
    requires |f0| == cfaWidth * cfaHeight && |f1| == cfaWidth * cfaHeight
    ensures |buf| == 3 * (Side(cfaWidth, cfaHeight) * Side(cfaWidth, cfaHeight))
  {
    var n := Side(cfaWidth, cfaHeight);
    if n == 0 then []
    else
      seq(3 * (n * n), k requires 0 <= k < 3 * (n * n) =>
        var c := Planar.CoordOf(n, n, k);
        RawCell(cfaWidth, cfaHeight, f0, f1, c.row, c.col))
  }

  /** Writing photosite i changes exactly its two sites. */
  lemma RawCellStep(cfaWidth: nat, cfaHeight: nat, f0: seq<real>, f1: seq<real>, i: nat, row: nat, col: nat)
    requires |f0| == cfaWidth * cfaHeight && |f1| == cfaWidth * cfaHeight
    requires i < cfaWidth * cfaHeight
    ensures RawCellBefore(cfaWidth, cfaHeight, f0, f1, i + 1, row, col)
            == if Site(row, col) == FirstSite(cfaWidth, cfaHeight, i) then f0[i]
               else if Site(row, col) == SecondSite(cfaWidth, cfaHeight, i) then f1[i]
               else RawCellBefore(cfaWidth, cfaHeight, f0, f1, i, row, col)
  {
    if Site(row, col) == FirstSite(cfaWidth, cfaHeight, i) {
      HitAtFirstSite(cfaWidth, cfaHeight, i);
    } else if Site(row, col) == SecondSite(cfaWidth, cfaHeight, i) {
      HitAtSecondSite(cfaWidth, cfaHeight, i);
    }
  }

  /** The buffer holds the merge of the photosites before n, the state the merge loop keeps. */
  ghost predicate ScatteredBefore(cfaWidth: nat, cfaHeight: nat, f0: seq<real>, f1: seq<real>, n: nat, buf: seq<real>)
    requires |f0| == cfaWidth * cfaHeight && |f1| == cfaWidth * cfaHeight
  {
    var width := cfaWidth + cfaHeight;
    && |buf| == 3 * (width * width)
    && forall k | 0 <= k < |buf| ::
         buf[k] == RawCellBefore(cfaWidth, cfaHeight, f0, f1, n,
                                 Planar.CoordOf(width, width, k).row,
                                 Planar.CoordOf(width, width, k).col)
  }

  /** The six stores of one iteration of the merge loop, at the indices the source computes. */
  function StorePair(cfaWidth: nat, cfaHeight: nat, f0: seq<real>, f1: seq<real>, i: nat, buf: seq<real>): (after: seq<real>)
    requires |f0| == cfaWidth * cfaHeight && |f1| == cfaWidth * cfaHeight
    requires i < cfaWidth * cfaHeight
    requires |buf| == 3 * (Side(cfaWidth, cfaHeight) * Side(cfaWidth, cfaHeight))
    ensures var width, s := Side(cfaWidth, cfaHeight), FirstSite(cfaWidth, cfaHeight, i);
            |after| == |buf|
            && forall k | 0 <= k < |after| ::
                 after[k] == if k == Planar.Offset(width, width, 0, s.row, s.col) then f0[i]
                             else if k == Planar.Offset(width, width, 0, s.row, s.col + 1) then f1[i]
                             else if k == Planar.Offset(width, width, 1, s.row, s.col) then f0[i]
                             else if k == Planar.Offset(width, width, 1, s.row, s.col + 1) then f1[i]
                             else if k == Planar.Offset(width, width, 2, s.row, s.col) then f0[i]
                             else if k == Planar.Offset(width, width, 2, s.row, s.col + 1) then f1[i]
                             else buf[k]
  {
    var width := cfaWidth + cfaHeight;
    var s0 := FirstSite(cfaWidth, cfaHeight, i);
    var y, x0 := s0.row, s0.col;
    var x1 := x0 + 1;
    Planar.OffsetBound(width, width, 3, 2, y, x1);
    assert Planar.Offset(width, width, 0, y, x0) == y * width + x0;
    assert Planar.Offset(width, width, 1, y, x0) == y * width + x0 + width * width;
    assert Planar.Offset(width, width, 2, y, x0) == y * width + x0 + width * width * 2;
    buf[y * width + x0 := f0[i]][y * width + x1 := f1[i]]
       [y * width + x0 + width * width := f0[i]][y * width + x1 + width * width := f1[i]]
       [y * width + x0 + width * width * 2 := f0[i]][y * width + x1 + width * width * 2 := f1[i]]
  }

  /** One iteration of the merge loop keeps ScatteredBefore. */
  lemma ScatterStep(cfaWidth: nat, cfaHeight: nat, f0: seq<real>, f1: seq<real>, i: nat, before: seq<real>)
    requires |f0| == cfaWidth * cfaHeight && |f1| == cfaWidth * cfaHeight
    requires i < cfaWidth * cfaHeight
    requires ScatteredBefore(cfaWidth, cfaHeight, f0, f1, i, before)
    ensures ScatteredBefore(cfaWidth, cfaHeight, f0, f1, i + 1, StorePair(cfaWidth, cfaHeight, f0, f1, i, before))
  {
    var after := StorePair(cfaWidth, cfaHeight, f0, f1, i, before);
    var width := cfaWidth + cfaHeight;
    forall k | 0 <= k < |after|
      ensures after[k] == RawCellBefore(cfaWidth, cfaHeight, f0, f1, i + 1,
                                        Planar.CoordOf(width, width, k).row,
                                        Planar.CoordOf(width, width, k).col)
    {
      ScatterSlot(cfaWidth, cfaHeight, f0, f1, i, before, k);
    }
  }

  /** One sample of one merge iteration: the stores bring it from the merge before i to the merge before i + 1. */
  lemma ScatterSlot(cfaWidth: nat, cfaHeight: nat, f0: seq<real>, f1: seq<real>, i: nat, before: seq<real>, k: nat)
    requires |f0| == cfaWidth * cfaHeight && |f1| == cfaWidth * cfaHeight
    requires i < cfaWidth * cfaHeight
    requires |before| == 3 * (Side(cfaWidth, cfaHeight) * Side(cfaWidth, cfaHeight)) && k < |before|
    requires var c := Planar.CoordOf(Side(cfaWidth, cfaHeight), Side(cfaWidth, cfaHeight), k);
             before[k] == RawCellBefore(cfaWidth, cfaHeight, f0, f1, i, c.row, c.col)
    ensures var c := Planar.CoordOf(Side(cfaWidth, cfaHeight), Side(cfaWidth, cfaHeight), k);
            StorePair(cfaWidth, cfaHeight, f0, f1, i, before)[k]
            == RawCellBefore(cfaWidth, cfaHeight, f0, f1, i + 1, c.row, c.col)
  {
    var width := Side(cfaWidth, cfaHeight);
    var c := Planar.CoordOf(width, width, k);
    Planar.CoordOfPlaneBound(width, width, 3, k);
    RawCellStep(cfaWidth, cfaHeight, f0, f1, i, c.row, c.col);
    StorePairAt(cfaWidth, cfaHeight, f0, f1, i, before, c);
  }

  /** The six stores seen from one sample: only the two sites of photosite i change, in every plane. */
  lemma StorePairAt(cfaWidth: nat, cfaHeight: nat, f0: seq<real>, f1: seq<real>, i: nat, buf: seq<real>, c: Planar.Coord)
    requires |f0| == cfaWidth * cfaHeight && |f1| == cfaWidth * cfaHeight
    requires i < cfaWidth * cfaHeight
    requires |buf| == 3 * (Side(cfaWidth, cfaHeight) * Side(cfaWidth, cfaHeight))
    requires c.plane < 3 && c.row < Side(cfaWidth, cfaHeight) && c.col < Side(cfaWidth, cfaHeight)
    ensures var width := Side(cfaWidth, cfaHeight);
            var k := Planar.Offset(width, width, c.plane, c.row, c.col);
            && k < |buf|
            && StorePair(cfaWidth, cfaHeight, f0, f1, i, buf)[k]
               == if Site(c.row, c.col) == FirstSite(cfaWidth, cfaHeight, i) then f0[i]
                  else if Site(c.row, c.col) == SecondSite(cfaWidth, cfaHeight, i) then f1[i]
                  else buf[k]
  {
    var width, s := Side(cfaWidth, cfaHeight), FirstSite(cfaWidth, cfaHeight, i);
    var y, x0, x1 := s.row, s.col, s.col + 1;
    Planar.OffsetBound(width, width, 3, c.plane, c.row, c.col);
    Planar.OffsetMatches(width, width, c, Planar.Coord(0, y, x0));
    Planar.OffsetMatches(width, width, c, Planar.Coord(0, y, x1));
    Planar.OffsetMatches(width, width, c, Planar.Coord(1, y, x0));
    Planar.OffsetMatches(width, width, c, Planar.Coord(1, y, x1));
    Planar.OffsetMatches(width, width, c, Planar.Coord(2, y, x0));
    Planar.OffsetMatches(width, width, c, Planar.Coord(2, y, x1));
  }

  /** Once every photosite is written, each site holds its RawCell value. */
  lemma RawCellComplete(cfaWidth: nat, cfaHeight: nat, f0: seq<real>, f1: seq<real>, row: nat, col: nat)
    requires |f0| == cfaWidth * cfaHeight && |f1| == cfaWidth * cfaHeight
    ensures RawCellBefore(cfaWidth, cfaHeight, f0, f1, cfaWidth * cfaHeight, row, col)
            == RawCell(cfaWidth, cfaHeight, f0, f1, row, col)
  {
    match HitAt(cfaWidth, cfaHeight, row, col)
    case First(j) =>
    case Second(j) =>
    case Miss =>
  }

  /** Once every photosite is written the buffer is the merged working buffer. */
  lemma ScatterDone(cfaWidth: nat, cfaHeight: nat, f0: seq<real>, f1: seq<real>, buf: seq<real>)
    requires |f0| == cfaWidth * cfaHeight && |f1| == cfaWidth * cfaHeight
    requires ScatteredBefore(cfaWidth, cfaHeight, f0, f1, cfaWidth * cfaHeight, buf)
    ensures buf == RawWorkingBuffer(cfaWidth, cfaHeight, f0, f1)
  {
    var width := cfaWidth + cfaHeight;
    if width > 0 {
      forall k | 0 <= k < |buf|
        ensures buf[k] == RawWorkingBuffer(cfaWidth, cfaHeight, f0, f1)[k]
      {
        var c := Planar.CoordOf(width, width, k);
        RawCellComplete(cfaWidth, cfaHeight, f0, f1, c.row, c.col);
      }
    }
  }

  /**
   The merge loop of the source: zero the buffer, then for every photosite i
   write frame0[i] at (y, x0) and frame1[i] at (y, x0 + 1) of each plane.
   */
  method ScatterRawFrames(cfaWidth: nat, cfaHeight: nat, f0: seq<real>, f1: seq<real>) returns (buf: seq<real>)
    requires |f0| == cfaWidth * cfaHeight && |f1| == cfaWidth * cfaHeight
    ensures buf == RawWorkingBuffer(cfaWidth, cfaHeight, f0, f1)
  {
    var width := cfaWidth + cfaHeight;
    buf := seq(3 * (width * width), _ => 0.0);
    var i := 0;
    while i < cfaWidth * cfaHeight
      invariant i <= cfaWidth * cfaHeight
      invariant ScatteredBefore(cfaWidth, cfaHeight, f0, f1, i, buf)
    {
      ScatterStep(cfaWidth, cfaHeight, f0, f1, i, buf);
      buf := StorePair(cfaWidth, cfaHeight, f0, f1, i, buf);
      i := i + 1;
    }
    ScatterDone(cfaWidth, cfaHeight, f0, f1, buf);
  }

  /**
   Copy exactness and bounds: in each of the three planes the merged buffer
   holds frame0[i] at its site (y, x0) and frame1[i] at the second frame's
   site (y, x1) = (y, x0 + 1), and both flat
   indices y * width + x + p * width * width lie below 3 * width * width.
   */
  lemma RawMergeCopiesFrames(cfaWidth: nat, cfaHeight: nat, f0: seq<real>, f1: seq<real>, i: nat, p: nat)
    requires |f0| == cfaWidth * cfaHeight && |f1| == cfaWidth * cfaHeight
    requires i < cfaWidth * cfaHeight && p < 3
    ensures var width, s, t := Side(cfaWidth, cfaHeight), FirstSite(cfaWidth, cfaHeight, i), SecondSite(cfaWidth, cfaHeight, i);
            var buf := RawWorkingBuffer(cfaWidth, cfaHeight, f0, f1);
            && Planar.Offset(width, width, p, s.row, s.col) < 3 * (width * width)
            && Planar.Offset(width, width, p, t.row, t.col) < 3 * (width * width)
            && buf[Planar.Offset(width, width, p, s.row, s.col)] == f0[i]
            && buf[Planar.Offset(width, width, p, t.row, t.col)] == f1[i]
  {
    RawCopyFirst(cfaWidth, cfaHeight, f0, f1, i, p);
    RawCopySecond(cfaWidth, cfaHeight, f0, f1, i, p);
  }

  /** The first frame's half of RawMergeCopiesFrames. */
  lemma RawCopyFirst(cfaWidth: nat, cfaHeight: nat, f0: seq<real>, f1: seq<real>, i: nat, p: nat)
    requires |f0| == cfaWidth * cfaHeight && |f1| == cfaWidth * cfaHeight
    requires i < cfaWidth * cfaHeight && p < 3
    ensures var width, s := Side(cfaWidth, cfaHeight), FirstSite(cfaWidth, cfaHeight, i);
            var buf := RawWorkingBuffer(cfaWidth, cfaHeight, f0, f1);
            && Planar.Offset(width, width, p, s.row, s.col) < 3 * (width * width)
            && buf[Planar.Offset(width, width, p, s.row, s.col)] == f0[i]
  {
    var s := FirstSite(cfaWidth, cfaHeight, i);
    HitAtFirstSite(cfaWidth, cfaHeight, i);
    RawBufferAt(cfaWidth, cfaHeight, f0, f1, p, s.row, s.col);
  }

  /** The second frame's half of RawMergeCopiesFrames. */
  lemma RawCopySecond(cfaWidth: nat, cfaHeight: nat, f0: seq<real>, f1: seq<real>, i: nat, p: nat)
    requires |f0| == cfaWidth * cfaHeight && |f1| == cfaWidth * cfaHeight
    requires i < cfaWidth * cfaHeight && p < 3
    ensures var width, t := Side(cfaWidth, cfaHeight), SecondSite(cfaWidth, cfaHeight, i);
            var buf := RawWorkingBuffer(cfaWidth, cfaHeight, f0, f1);
            && Planar.Offset(width, width, p, t.row, t.col) < 3 * (width * width)
            && buf[Planar.Offset(width, width, p, t.row, t.col)] == f1[i]
  {
    var t := SecondSite(cfaWidth, cfaHeight, i);
    HitAtSecondSite(cfaWidth, cfaHeight, i);
    RawBufferAt(cfaWidth, cfaHeight, f0, f1, p, t.row, t.col);
  }

  /** The merged buffer holds RawCell of (row, col) at that site's offset in every plane. */
  lemma RawBufferAt(cfaWidth: nat, cfaHeight: nat, f0: seq<real>, f1: seq<real>, p: nat, row: nat, col: nat)
    requires |f0| == cfaWidth * cfaHeight && |f1| == cfaWidth * cfaHeight
    requires p < 3 && row < Side(cfaWidth, cfaHeight) && col < Side(cfaWidth, cfaHeight)
    ensures var width := Side(cfaWidth, cfaHeight);
            && Planar.Offset(width, width, p, row, col) < 3 * (width * width)
            && RawWorkingBuffer(cfaWidth, cfaHeight, f0, f1)[Planar.Offset(width, width, p, row, col)]
               == RawCell(cfaWidth, cfaHeight, f0, f1, row, col)
  {
    var width := Side(cfaWidth, cfaHeight);
    Planar.OffsetBound(width, width, 3, p, row, col);
    Planar.CoordOfOffset(width, width, Planar.Coord(p, row, col));
  }

  /** Every position that no photosite's site reaches keeps the zero of the initial fill. */
  lemma RawMergeZeroElsewhere(cfaWidth: nat, cfaHeight: nat, f0: seq<real>, f1: seq<real>, k: nat)
    requires |f0| == cfaWidth * cfaHeight && |f1| == cfaWidth * cfaHeight
    requires k < 3 * (Side(cfaWidth, cfaHeight) * Side(cfaWidth, cfaHeight))
    requires var width := Side(cfaWidth, cfaHeight);
             forall i, p | 0 <= i < cfaWidth * cfaHeight && 0 <= p < 3 ::
               && k != Planar.Offset(width, width, p, FirstSite(cfaWidth, cfaHeight, i).row, FirstSite(cfaWidth, cfaHeight, i).col)
               && k != Planar.Offset(width, width, p, SecondSite(cfaWidth, cfaHeight, i).row, SecondSite(cfaWidth, cfaHeight, i).col)
    ensures RawWorkingBuffer(cfaWidth, cfaHeight, f0, f1)[k] == 0.0
  {
    var width := Side(cfaWidth, cfaHeight);
    var c := Planar.CoordOf(width, width, k);
    Planar.CoordOfPlaneBound(width, width, 3, k);
    match HitAt(cfaWidth, cfaHeight, c.row, c.col)
    case First(j) =>
      assert false;
    case Second(j) =>
      assert false;
    case Miss =>
  }

  /**
   The raw-mode merge: the two frames must have the same size; their size
   fixes cfaWidth, cfaHeight and the orientation, and the working buffer is
   the merge of the two frames.
   */
  function MergeRaw(frame0: Frame, frame1: Frame): (r: Result<Working, MergeError>)
    requires WellFormed(frame0) && WellFormed(frame1)
    ensures r.Err? <==> frame0.nx != frame1.nx || frame0.ny != frame1.ny
    ensures r.Err? ==> r.error == SizeMismatch
    ensures r.Ok? ==> && r.value.cfaWidth == frame0.nx && r.value.cfaHeight == frame0.ny
                      && (r.value.landscape <==> OrientationOf(frame0.nx, frame0.ny) == Landscape)
                      && |r.value.data| == 3 * (Side(frame0.nx, frame0.ny) * Side(frame0.nx, frame0.ny))
  {
    if frame0.nx != frame1.nx || frame0.ny != frame1.ny then Err(SizeMismatch)
    else
      var cfaWidth, cfaHeight := frame0.nx, frame0.ny;
      Ok(Working(cfaWidth, cfaHeight, cfaWidth > cfaHeight,
                 RawWorkingBuffer(cfaWidth, cfaHeight, frame0.data, frame1.data)))
  }
}
