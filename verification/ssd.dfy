/**
 The SSD decoder as a whole: merge the input into the diagonal working
 buffer (from two raw frames, or from three pre-merged colour planes), hand
 it to the demosaicking chain with the sensor dimensions in long-side-first
 order, limit the result to the 16-bit range and derotate it by 45 degrees.
 */
module Ssd {
  import opened Results
  import opened Geometry
  import opened Images
  import Planar
  import RawMerge
  import PlaneMerge
  import Clamp
  import Derotation

  /** The two input modes of the decoder. */
  datatype Input =
    | RawFrames(frame0: Frame, frame1: Frame)
    | ColourPlanes(cfaWidth: nat, cfaHeight: nat, red: Frame, green: Frame, blue: Frame)

  predicate InputWellFormed(input: Input)
  {
    match input
    case RawFrames(f0, f1) => WellFormed(f0) && WellFormed(f1)
    case ColourPlanes(_, _, r, g, b) => WellFormed(r) && WellFormed(g) && WellFormed(b)
  }

  /** The merge step of the selected mode. */
  function Merge(input: Input): (r: Result<Working, MergeError>)
    requires InputWellFormed(input)
    ensures r.Ok? ==> |r.value.data| == 3 * (Side(r.value.cfaWidth, r.value.cfaHeight) * Side(r.value.cfaWidth, r.value.cfaHeight))
    ensures r.Ok? && input.RawFrames? ==> r.value.cfaWidth == input.frame0.nx && r.value.cfaHeight == input.frame0.ny
    ensures r.Ok? && input.ColourPlanes? ==> r.value.cfaWidth == input.cfaWidth && r.value.cfaHeight == input.cfaHeight
  {
    match input
    case RawFrames(f0, f1) => RawMerge.MergeRaw(f0, f1)
    case ColourPlanes(w, h, red, green, blue) =>
      match PlaneMerge.MergePlanes(w, h, red, green, blue)
      case Err(e) => Err(e)
      case Ok(working) => Ok(Working(w, h, working.landscape, working.data))
  }

  /** The geometry arguments of the demosaicking chain: plane size, then the sensor's two sides. */
  datatype DemosaicArgs = DemosaicArgs(width: nat, height: nat, cfaWidth: nat, cfaHeight: nat)

  /**
   The chain receives the square plane size and the sensor sides, swapped
   unless the landscape flag is set.
   */
  function DemosaicArgsOf(w: Working): (a: DemosaicArgs)
    ensures a.width == a.height == w.cfaWidth + w.cfaHeight
    ensures multiset{a.cfaWidth, a.cfaHeight} == multiset{w.cfaWidth, w.cfaHeight}
    ensures a.cfaWidth == w.cfaWidth <==> w.landscape || w.cfaWidth == w.cfaHeight
  {
    var n := w.cfaWidth + w.cfaHeight;
    DemosaicArgs(n, n, if w.landscape then w.cfaWidth else w.cfaHeight,
                       if w.landscape then w.cfaHeight else w.cfaWidth)
  }

  /**
   In raw mode the chain always receives the long side first: the landscape
   flag is set exactly when the frames are wider than tall.
   */
  lemma RawLongSideFirst(frame0: Frame, frame1: Frame)
    requires WellFormed(frame0) && WellFormed(frame1)
    requires RawMerge.MergeRaw(frame0, frame1).Ok?
    ensures var a := DemosaicArgsOf(RawMerge.MergeRaw(frame0, frame1).value);
            a.cfaWidth >= a.cfaHeight
            && a.cfaWidth == (if frame0.nx >= frame0.ny then frame0.nx else frame0.ny)
  {
  }

  /**
   In the pre-merged mode the same holds for every non-empty sensor; an
   empty landscape sensor (cfaHeight 0) never sets the flag, since it is
   set inside the merge loop, and so reaches the chain with its sides
   swapped.
   */
  lemma PlanesLongSideFirst(cfaWidth: nat, cfaHeight: nat, red: Frame, green: Frame, blue: Frame)
    requires WellFormed(red) && WellFormed(green) && WellFormed(blue)
    requires PlaneMerge.MergePlanes(cfaWidth, cfaHeight, red, green, blue).Ok?
    ensures var a := DemosaicArgsOf(PlaneMerge.MergePlanes(cfaWidth, cfaHeight, red, green, blue).value);
            (cfaWidth * cfaHeight > 0 ==> a.cfaWidth >= a.cfaHeight)
            && (cfaWidth > 0 && cfaHeight == 0 ==> a.cfaWidth < a.cfaHeight)
  {
  }

  /** The output of the decoder: three planes of width x height, written as RGB. */
  datatype Image = Image(width: nat, height: nat, data: seq<real>)

  /** The uncleared target buffer: whatever `garbage` says each position held. */
  function Uncleared(size: nat, garbage: nat -> real): (s: seq<real>)
    ensures |s| == size
  {
    seq(size, (k: int) requires 0 <= k < size => garbage(k))
  }

  /**
   Range limit then derotation of a demosaicked working buffer. The target
   buffer's previous contents are the parameter `garbage`.
   */
  function Develop(w: Working, demosaicked: seq<real>, step: real, garbage: nat -> real): (img: Image)
    requires Derotation.IsStep(step)
    requires |demosaicked| == 3 * (Side(w.cfaWidth, w.cfaHeight) * Side(w.cfaWidth, w.cfaHeight))
    ensures img.width == Derotation.RotWidth(w.cfaWidth, step)
    ensures img.height == Derotation.RotHeight(w.cfaWidth, Side(w.cfaWidth, w.cfaHeight), step)
    ensures |img.data| == 3 * (img.width * img.height)
  {
    var n := Side(w.cfaWidth, w.cfaHeight);
    var rw, rh := Derotation.RotWidth(w.cfaWidth, step), Derotation.RotHeight(w.cfaWidth, n, step);
    Image(rw, rh, Derotation.DerotatedImage(w.cfaWidth, n, step, Clamp.LimitAll(demosaicked),
                                            Uncleared(3 * (rw * rh), garbage)))
  }

  /**
   Every sample of the output whose stencil lies inside the source plane is
   within [0, 65535]; every other sample is what the target buffer held.
   */
  lemma DevelopInRange(w: Working, demosaicked: seq<real>, step: real, garbage: nat -> real,
                       plane: nat, row: nat, col: nat)
    requires Derotation.IsStep(step)
    requires |demosaicked| == 3 * (Side(w.cfaWidth, w.cfaHeight) * Side(w.cfaWidth, w.cfaHeight))
    requires plane < 3
    requires row < Derotation.RotHeight(w.cfaWidth, Side(w.cfaWidth, w.cfaHeight), step)
    requires col < Derotation.RotWidth(w.cfaWidth, step)
    ensures var img := Develop(w, demosaicked, step, garbage);
            var k := Planar.Offset(img.width, img.height, plane, row, col);
            var t := Derotation.PixelTap(w.cfaWidth, step, row, col);
            var n := Side(w.cfaWidth, w.cfaHeight);
            && k < |img.data|
            && (!Derotation.Skipped(n, n, t) ==> Clamp.InRange(img.data[k]))
            && (Derotation.Skipped(n, n, t) ==> img.data[k] == garbage(k))
  {
    var n := Side(w.cfaWidth, w.cfaHeight);
    var rw, rh := Derotation.RotWidth(w.cfaWidth, step), Derotation.RotHeight(w.cfaWidth, n, step);
    Derotation.DerotatedPixel(w.cfaWidth, n, step, Clamp.LimitAll(demosaicked),
                              Uncleared(3 * (rw * rh), garbage), plane, row, col, 0.0, Clamp.MaxSample);
  }

  /**
   A whole run: merge, demosaic through `chain` (outside the model; it
   keeps the buffer's size), limit and derotate. A run ends early exactly
   when the merge refuses its input.
   */
  function Run(input: Input, chain: (seq<real>, DemosaicArgs) -> seq<real>, step: real, garbage: nat -> real)
    : (r: Result<Image, MergeError>)
    requires InputWellFormed(input) && Derotation.IsStep(step)
    requires forall buf: seq<real>, a: DemosaicArgs :: |chain(buf, a)| == |buf|
    ensures r.Err? <==> Merge(input).Err?
    ensures r.Err? ==> r.error == Merge(input).error
    ensures r.Ok? ==> var working := Merge(input).value;
                      && r.value.width == Derotation.RotWidth(working.cfaWidth, step)
                      && r.value.height == Derotation.RotHeight(working.cfaWidth, Side(working.cfaWidth, working.cfaHeight), step)
  {
    match Merge(input)
    case Err(e) => Err(e)
    case Ok(working) =>
      Ok(Develop(working, chain(working.data, DemosaicArgsOf(working)), step, garbage))
  }

  /** Every sample a successful run produces is in range unless derotation skipped its pixel. */
  lemma RunInRange(input: Input, chain: (seq<real>, DemosaicArgs) -> seq<real>, step: real, garbage: nat -> real,
                   plane: nat, row: nat, col: nat)
    requires InputWellFormed(input) && Derotation.IsStep(step)
    requires forall buf: seq<real>, a: DemosaicArgs :: |chain(buf, a)| == |buf|
    requires Run(input, chain, step, garbage).Ok?
    requires var img := Run(input, chain, step, garbage).value;
             plane < 3 && row < img.height && col < img.width
    ensures var working, img := Merge(input).value, Run(input, chain, step, garbage).value;
            var n := Side(working.cfaWidth, working.cfaHeight);
            var k := Planar.Offset(img.width, img.height, plane, row, col);
            && k < |img.data|
            && (!Derotation.Skipped(n, n, Derotation.PixelTap(working.cfaWidth, step, row, col)) ==>
                  Clamp.InRange(img.data[k]))
  {
    var working := Merge(input).value;
    DevelopInRange(working, chain(working.data, DemosaicArgsOf(working)), step, garbage, plane, row, col);
  }
}
