# Fuji EXR super-sensitive decoder and Duran-Buades driver: a Dafny model

This project models two pieces of the Fuji EXR decoders:

- the geometric core of the SSD ("super-sensitive", dual-frame) decoder, `run_ssd`;
- the command-line driver of the Duran-Buades demosaicker.

The EXR sensor's photosites lie on a 45-degree diagonal lattice. The SSD decoder works in four steps:

1. It interleaves the sensor's two raw frames into a square working buffer of side `cfaWidth + cfaHeight`. That buffer has three colour planes, and the photosites sit on its diagonal sites. The input can also be three pre-merged colour planes.
2. It hands the buffer to a demosaicking chain.
3. It limits every sample to the 16-bit range.
4. It rotates the result back by 45 degrees. Each target pixel is bilinearly resampled from a 2 x 2 stencil of the demosaicked buffer.

The Duran-Buades driver does three things:

- it validates its arguments and the channel-correlation parameter beta;
- it derives the filtering threshold h from beta;
- it stacks the three demosaicked channels into one planar output buffer.

The modules follow the stages:

- `Planar`: the flat layout `plane * (cols * rows) + row * cols + col` that all buffers use, and its inverse.
- `Geometry`: the diagonal site map of photosite `i` in both orientations, and its inverse `FirstOwner`, which gives injectivity and the parity separation of the two frames. It also holds the plane choice of the pre-merged landscape merge.
- `RawMerge`: the raw two-frame merge.
  - The C loop is a method. It is proved equal to a declarative buffer.
  - Lemmas cover copy-exactness, bounds and "zero elsewhere".
- `PlaneMerge`: the pre-merged three-plane merge.
  - It has the dimension checks, the landscape per-pair plane rule, and the portrait reuse of the raw formulas.
  - The two source defects listed under Findings are modelled here.
- `Clamp`: the limit to [0, 65535].
- `Derotation`: the derotation.
  - The target size is counted in steps, where `step * step == 1/2`.
  - The reverse map and its inverse.
  - The truncating casts and the unsigned margin test.
  - The bilinear stencil and its convexity.
  - The row/column/plane loops, proved equal to a declarative image.
- `Ssd`: the decoder as a whole.
  - Mode selection.
  - The demosaic argument swap.
  - Clamp followed by derotation.
  - An end-to-end range lemma.
- `DuranBuades`: the Duran-Buades driver.

Two behaviours of the code are easy to misread, and the model follows the code in both:

- Skipped derotation pixels are not zeroed, because `data_rot` comes from `malloc` (fuji-exr-ssd/ssd.cpp:497) and nothing clears it. A skipped pixel keeps whatever the buffer held. The model takes that prior content as a parameter (`init`, or `garbage` in `Ssd`).
- The Duran-Buades driver accepts beta = 0, although its error message says the range is (0, 1]. The model accepts [0, 1], as the code does.

## Model

| member | source | states |
|---|---|---|
| Geometry.OrientationOf | fuji-exr-ssd/ssd.cpp:389 | the landscape site map is chosen exactly when `cfaWidth > cfaHeight`, the test repeated at lines 287 and 372 |
| Planar.Offset | fuji-exr-ssd/ssd.cpp:401-406 | the planar layout `plane * width * width + y * width + x` that the stores here, the reads at lines 298-300 and the stencil at lines 528-540 use |
| Geometry.CellOf | fuji-exr-ssd/ssd.cpp:398-400 | column `i % cfaWidth` and row `i / cfaWidth` of photosite i lie inside the frame and recombine to i |
| Geometry.FrameIndex | fuji-exr-ssd/ssd.cpp:398-400 | the photosite at column a, row b has index `b * cfaWidth + a`, and the index decomposes back to (a, b) |
| Geometry.SiteOfCell | fuji-exr-ssd/ssd.cpp:398-419 | both orientations' site formulas stay two below the buffer side, so `x1 = x0 + 1` fits and the unsigned subtractions never wrap |
| Geometry.FirstSite | fuji-exr-ssd/ssd.cpp:296-297 | the site (y, x) of photosite i lies inside the buffer with room for its pair partner |
| Geometry.SecondSite | fuji-exr-ssd/ssd.cpp:399 | the second frame's site is one column to the right and still inside the buffer |
| Geometry.FirstOwner | fuji-exr-ssd/ssd.cpp:398-400 | inverse site map: any photosite it returns lands on the given site |
| Geometry.SecondOwner | fuji-exr-ssd/ssd.cpp:398-400 | inverse of the second frame's site map |
| Geometry.FirstOwnerOfCell | fuji-exr-ssd/ssd.cpp:417-419 | the inverse map recovers every cell from its site, in both orientations |
| Geometry.FirstOwnerOfFirstSite | fuji-exr-ssd/ssd.cpp:398-400 | the inverse map recovers every photosite from its site |
| Geometry.FirstSiteInjective | fuji-exr-ssd/ssd.cpp:398-406 | distinct photosites of one frame land on distinct sites |
| Geometry.FirstSiteParity | fuji-exr-ssd/ssd.cpp:417-419 | all first-frame sites share the parity of `row + col`: that of `cfaWidth - 1` in landscape, `cfaHeight - 1` in portrait |
| Geometry.SecondSiteNeverFirst | fuji-exr-ssd/ssd.cpp:401-406 | no second-frame site is a first-frame site, so no store of one frame overwrites the other |
| Geometry.SecondOwnerOfSecondSite | fuji-exr-ssd/ssd.cpp:399-400 | the inverse map recovers every second-frame photosite from its site |
| Geometry.SiteChannel | fuji-exr-ssd/ssd.cpp:302-307 | the plane a pre-merged landscape pair is taken from: green on even rows, red on odd rows when `(x + y - 1) % 4` is 0 or 1, blue otherwise |
| Geometry.SiteChannelPattern | fuji-exr-ssd/ssd.cpp:302-307 | the plane choice repeats every four columns; a site is green exactly on even rows; on odd rows sites two columns apart come from red and blue in turn |
| Geometry.HitAt | fuji-exr-ssd/ssd.cpp:388-427 | the photosite of either frame found at a site really lands there |
| Geometry.HitAtComplete | fuji-exr-ssd/ssd.cpp:388-427 | a site is a Miss exactly when no photosite of either frame lands on it |
| Geometry.HitAtFirstSite | fuji-exr-ssd/ssd.cpp:401 | the first frame's photosite i is found at its own site |
| Geometry.HitAtSecondSite | fuji-exr-ssd/ssd.cpp:402 | the second frame's photosite i is found at its own site, never shadowed by a first-frame photosite |
| RawMerge.RawWorkingBuffer | fuji-exr-ssd/ssd.cpp:374-381 | the merged buffer has three square planes of side `cfaWidth + cfaHeight` |
| RawMerge.RawCellStep | fuji-exr-ssd/ssd.cpp:401-406 | writing photosite i changes exactly its two sites |
| RawMerge.StorePair | fuji-exr-ssd/ssd.cpp:401-406 | the six stores of one iteration, at the source's index expressions, hit exactly the (y, x0) and (y, x1) offsets of the three planes |
| RawMerge.ScatterStep | fuji-exr-ssd/ssd.cpp:388-427 | one loop iteration keeps "the buffer holds the merge of the photosites so far" |
| RawMerge.ScatterDone | fuji-exr-ssd/ssd.cpp:388-427 | after every photosite is written the buffer is the merged working buffer |
| RawMerge.ScatterRawFrames | fuji-exr-ssd/ssd.cpp:379-427 | the zero-fill loop plus merge loop compute the merged working buffer |
| RawMerge.RawMergeCopiesFrames | fuji-exr-ssd/ssd.cpp:398-425 | each plane holds `frame0[i]` at (y, x0) and `frame1[i]` at (y, x0 + 1), both offsets below `3 * width * width` |
| RawMerge.RawMergeZeroElsewhere | fuji-exr-ssd/ssd.cpp:379-381 | every position no photosite reaches keeps the 0 of the zero-fill loop |
| RawMerge.MergeRaw | fuji-exr-ssd/ssd.cpp:365-372 | fails, with a size mismatch, exactly when the frames differ in width or height; otherwise the geometry is the frame size and landscape holds exactly when `cfaWidth > cfaHeight` |
| PlaneMerge.ValidatePlanes | fuji-exr-ssd/ssd.cpp:259-266 | the planes pass exactly when all three share one size and their width is `cfaWidth + cfaHeight`; their height is never checked |
| PlaneMerge.ValidatePlanesStrict | fuji-exr-ssd/ssd.cpp:259-266 | the checks with the missing height check added; passing means square planes of side `cfaWidth + cfaHeight` |
| PlaneMerge.ValidatePlanesIgnoresHeight | fuji-exr-ssd/ssd.cpp:259-266 | landscape planes one row high pass the source's checks, yet photosite 0's site lies past their end |
| PlaneMerge.AsWrittenReadIndex | fuji-exr-ssd/ssd.cpp:298-313 | the index the source reads for a pair lies in the block of its destination plane, not in one input plane |
| PlaneMerge.AsWrittenReadOutsidePlane | fuji-exr-ssd/ssd.cpp:302-313 | every green or blue read lies past the end of a `width * width` input plane, and every landscape sensor has a green pair |
| PlaneMerge.MergedLandscapeBuffer | fuji-exr-ssd/ssd.cpp:277-316 | the corrected landscape merge, defined site by site: each pair's two sites hold that plane's own samples in the plane its row picks, and everything else is 0 |
| PlaneMerge.MergedCellStep | fuji-exr-ssd/ssd.cpp:302-315 | writing pair i changes exactly its two sites, in the one plane assigned to it |
| PlaneMerge.StoreChannelPair | fuji-exr-ssd/ssd.cpp:298-315 | one iteration writes the two sites of the chosen plane with that plane's own samples and nothing else |
| PlaneMerge.MergedStep | fuji-exr-ssd/ssd.cpp:286-316 | one landscape iteration keeps "the buffer holds the merge of the pairs so far" |
| PlaneMerge.ScatterChannelPairs | fuji-exr-ssd/ssd.cpp:277-316 | the zero-fill loop plus landscape merge loop compute the merged landscape buffer |
| PlaneMerge.MergedLandscapePlaneRule | fuji-exr-ssd/ssd.cpp:302-315 | each pair is written into exactly the plane the row-parity / mod-4 rule assigns, as a copy of that plane's samples, and holds 0 in the other two |
| PlaneMerge.MergedLandscapeZeroElsewhere | fuji-exr-ssd/ssd.cpp:277-279 | nothing else is written: positions off every pair keep 0 |
| PlaneMerge.FrameFitsPlane | fuji-exr-ssd/ssd.cpp:329-334 | the portrait reads `frame0[i]`, `frame1[i]` for `i < cfaWidth * cfaHeight` stay inside a square plane |
| PlaneMerge.MergePlanes | fuji-exr-ssd/ssd.cpp:257-336 | succeeds exactly when the (strict) checks pass; landscape is set exactly for a non-empty wide sensor; a landscape result is the site-by-site merged buffer, and a portrait result is the raw merge of the red and green planes |
| PlaneMerge.PortraitIgnoresBlue | fuji-exr-ssd/ssd.cpp:316-334 | a portrait merge's result does not depend on the blue plane's samples |
| Clamp.Limit | fuji-exr-ssd/ssd.cpp:470-473 | the result is in [0, 65535], and it equals the sample exactly when the sample already is in range |
| Clamp.LimitNearest | fuji-exr-ssd/ssd.cpp:470-473 | the limited value is the point of [0, 65535] nearest to the sample |
| Clamp.LimitAll | fuji-exr-ssd/ssd.cpp:466-475 | every sample ends in range, in-range samples are unchanged, the length is kept |
| Clamp.LimitAllIdempotent | fuji-exr-ssd/ssd.cpp:466-475 | limiting twice equals limiting once |
| Clamp.LimitBuffer | fuji-exr-ssd/ssd.cpp:466-475 | the walk over the buffer, with its two tests per sample, computes the limited buffer |
| Derotation.Steps | fuji-exr-ssd/ssd.cpp:494-495 | the truncated count n of steps satisfies `n * step <= length < (n + 1) * step` |
| Derotation.RotWidth | fuji-exr-ssd/ssd.cpp:494 | the target width n is the number of whole steps in `cfaWidth`: `n * step <= cfaWidth < (n + 1) * step` |
| Derotation.RotHeight | fuji-exr-ssd/ssd.cpp:495 | the target height n is the number of whole steps in `height - cfaWidth` |
| Derotation.SourcePoint | fuji-exr-ssd/ssd.cpp:508-509 | the reverse map of target pixel (row, col) to `r = cfaWidth + (row - col) * step`, `c = (row + col) * step` |
| Derotation.ReverseMapInverse | fuji-exr-ssd/ssd.cpp:508-509 | the forward rotation undoes the reverse map `(cfaWidth + (row - col) * step, (row + col) * step)` |
| Derotation.ReverseMapUnitSpacing | fuji-exr-ssd/ssd.cpp:485-509 | neighbouring target pixels map to source points exactly one pixel apart |
| Derotation.SourceRowAtLeastStep | fuji-exr-ssd/ssd.cpp:494-508 | for `col < rotWidth` the source row r is at least step > 0, so the unsigned truncation is defined |
| Derotation.TapOf | fuji-exr-ssd/ssd.cpp:508-515 | `ur + fr == r` and `uc + fc == c` with both fractions in [0, 1) |
| Derotation.Margin | fuji-exr-ssd/ssd.cpp:512 | `(unsigned)(length - 2)` is below 2^32, equals `length - 2` for lengths from 2 to 2^32 + 1, and wraps to at least 2^32 - 2 for lengths below 2 |
| Derotation.MarginBelowLength | fuji-exr-ssd/ssd.cpp:512 | the margin bound leaves room for the 2 x 2 stencil in a plane of at least two rows |
| Derotation.Skipped | fuji-exr-ssd/ssd.cpp:512 | a pixel is skipped exactly when `ur` or `uc` exceeds its unsigned margin |
| Derotation.Bilinear | fuji-exr-ssd/ssd.cpp:528-540 | the stencil is the convex combination of the four samples with weights `(1 - fr)(1 - fc)`, `(1 - fr) fc`, `fr (1 - fc)` and `fr fc`, which sum to 1 |
| Derotation.Interpolate | fuji-exr-ssd/ssd.cpp:528-540 | the stencil of one plane reads (ur, uc) and its east, south and south-east neighbours in that plane; its top-left read lies inside the buffer, and a tap with no fractional part returns exactly that sample |
| Derotation.PixelValue | fuji-exr-ssd/ssd.cpp:512-540 | a target sample is the buffer's previous content when the pixel is skipped, and the plane's stencil otherwise |
| Derotation.BilinearBetween | fuji-exr-ssd/ssd.cpp:528-541 | the stencil's weights are non-negative and sum to 1, so the result lies within any bounds of the four samples |
| Derotation.BilinearOnGrid | fuji-exr-ssd/ssd.cpp:528-541 | a point on a sample takes its value; a point midway along an edge takes the mean |
| Derotation.PixelsNeedTwoRows | fuji-exr-ssd/ssd.cpp:494-495 | any target pixel exists only when the plane has at least two rows, so the margin never wraps when it matters |
| Derotation.DerotatedImage | fuji-exr-ssd/ssd.cpp:497-543 | the target has three planes of `rotWidth x rotHeight` |
| Derotation.StencilInBounds | fuji-exr-ssd/ssd.cpp:512-541 | a pixel that is not skipped reads four samples inside the one plane it resamples, below `3 * width * height` |
| Derotation.DerotatedPixel | fuji-exr-ssd/ssd.cpp:503-543 | a skipped pixel keeps the buffer's previous content; any other lies within the bounds of the source samples |
| Derotation.StorePixel | fuji-exr-ssd/ssd.cpp:512-541 | one pixel writes its three planes when not skipped and nothing at all when skipped |
| Derotation.RotateStep | fuji-exr-ssd/ssd.cpp:503-543 | one pixel of the scan keeps "pixels so far derotated, the rest untouched" |
| Derotation.RotateDone | fuji-exr-ssd/ssd.cpp:503-543 | after the whole scan the buffer is the derotated image |
| Derotation.Derotate | fuji-exr-ssd/ssd.cpp:503-543 | the row, column and plane loops compute the derotated image |
| Ssd.Merge | fuji-exr-ssd/ssd.cpp:223-427 | each mode yields a working buffer of three square planes of side `cfaWidth + cfaHeight`, with the geometry from the frames (raw) or the command line (pre-merged) |
| Ssd.DemosaicArgsOf | fuji-exr-ssd/ssd.cpp:449-460 | the chain gets the square plane size and the two sensor sides, in order exactly when landscape is set (or the sides are equal) |
| Ssd.RawLongSideFirst | fuji-exr-ssd/ssd.cpp:458-459 | in raw mode the chain always receives the long side first |
| Ssd.PlanesLongSideFirst | fuji-exr-ssd/ssd.cpp:287-295 | in pre-merged mode the same holds for non-empty sensors; an empty wide sensor never sets the flag and is swapped |
| Ssd.Uncleared | fuji-exr-ssd/ssd.cpp:497 | the uninitialised target buffer has the allocated size |
| Ssd.Develop | fuji-exr-ssd/ssd.cpp:466-543 | clamp and derotation give an image of `rotWidth x rotHeight` in three planes |
| Ssd.DevelopInRange | fuji-exr-ssd/ssd.cpp:466-543 | every output sample whose stencil fits is in [0, 65535]; every other keeps the buffer's previous content |
| Ssd.Run | fuji-exr-ssd/ssd.cpp:223-543 | a run fails exactly when the merge refuses, with the merge's error, and otherwise yields the derotated size |
| Ssd.RunInRange | fuji-exr-ssd/ssd.cpp:466-543 | every sample of a successful run is in [0, 65535] unless its pixel was skipped |
| DuranBuades.CheckArgCount | DB_demosaicking_code/duran-buades.cpp:41-61 | fewer than four argv entries, and only then, end the run with the usage text |
| DuranBuades.CheckBeta | DB_demosaicking_code/duran-buades.cpp:87-90 | beta, the float narrowed at line 85, is accepted exactly on [0, 1], zero included |
| DuranBuades.Threshold | DB_demosaicking_code/duran-buades.cpp:93-97 | h is 0 at beta 0 and satisfies `3h + 214 = 310 beta` otherwise |
| DuranBuades.BetaOf | DB_demosaicking_code/duran-buades.cpp:96 | the inverse of the affine branch |
| DuranBuades.ThresholdInverse | DB_demosaicking_code/duran-buades.cpp:93-97 | a non-zero beta is recovered from its threshold |
| DuranBuades.ThresholdRange | DB_demosaicking_code/duran-buades.cpp:87-97 | on accepted non-zero beta, h lies in (-214/3, 32] and reaches 32 exactly at beta 1 |
| DuranBuades.ThresholdIncreasing | DB_demosaicking_code/duran-buades.cpp:95-96 | h grows strictly with beta away from zero |
| DuranBuades.ThresholdZeros | DB_demosaicking_code/duran-buades.cpp:93-97 | h vanishes exactly at beta 0 and beta 107/155, and is negative between them |
| DuranBuades.ChainParameters | DB_demosaicking_code/duran-buades.cpp:99-118 | the chain gets the given beta and its threshold |
| DuranBuades.ChainParametersFixed | DB_demosaicking_code/duran-buades.cpp:99-107 | apart from beta and h the chain's parameters are the same on every run |
| DuranBuades.Stack | DB_demosaicking_code/duran-buades.cpp:123-129 | `output_image[c * dim + i] == demosaicked[c][i]` for every channel c and index i |
| DuranBuades.Unstack | DB_demosaicking_code/duran-buades.cpp:123-129 | splitting a planar buffer gives channels with `channel[c][i] == buf[c * dim + i]` |
| DuranBuades.StackRoundTrip | DB_demosaicking_code/duran-buades.cpp:123-129 | stacking and splitting are mutually inverse |
| DuranBuades.Repack | DB_demosaicking_code/duran-buades.cpp:123-129 | the copy loops fill the stacked buffer and k ends at `3 * dim`, so every slot is written once |
| DuranBuades.StackIsPlanar | DB_demosaicking_code/duran-buades.cpp:80-82 | with `dim = width * height` the output is the planar stack of three width x height channels |
| DuranBuades.Run | DB_demosaicking_code/duran-buades.cpp:40-135 | usage error before any input is consulted, then read error, then beta error; success exactly when the chain and the writer succeed, writing the stacked channels |

## Left out

- TIFF reading and writing (`read_tiff_gray16_f32`, `write_tiff_rgb_f32`) are external I/O.
  - In the Duran-Buades driver their results are parameters of `DuranBuades.Run`: an `Option` for the read, which may fail, and a flag for the write.
  - `Ssd.Run` starts from frames already read, so it has no read failure. It returns the derotated image instead of writing it. The SSD decoder ignores the writer's result (fuji-exr-ssd/ssd.cpp:550) and exits with success whatever the writer returns (line 557), so the model has no write failure either.
- Command-line parsing with argp and the `sscanf` geometry parse are library plumbing. `cfaWidth` and `cfaHeight` are inputs of the pre-merged mode, and `beta` is the `float` the driver narrows `atof`'s double to (DB_demosaicking_code/duran-buades.cpp:85), taken as a real. The range check at line 87 runs on that float.
- `ssd_demosaic_chain` and `algorithm_chain` are foreign code and are function parameters. The SSD chain keeps its buffer's size. The Duran-Buades chain returns three channels of `dim` samples or reports failure.
- The CFA mask is not modelled. `cfa_mask` builds it from the unswapped `(cfaWidth, cfaHeight)` (fuji-exr-ssd/ssd.cpp:442), and the chain receives it next to the possibly swapped sides (lines 458-460). The `chain` parameter of `Ssd.Run` sees only the buffer and `Ssd.DemosaicArgs`. So the model says nothing about how the mask and the swapped sides interact.
- Timing (`clock`) and all logging are left out, because they have no behaviour to state.
- `malloc` failure paths are left out, because they are allocation, not logic.
- The unused `DIAG` and `DIAG12` macros are left out as dead code.
- Samples and coordinates are `real`, so IEEE float effects are not modelled:
  - the rounding of `sqrt(0.5)`: `step` is any real with `0 < step < 1` and `step * step == 1/2`;
  - rounding of the float coordinates r and c;
  - NaN samples in the clamp;
  - the narrowing of beta to `float` and the float arithmetic of h in the Duran-Buades driver (see the DuranBuades.CheckBeta line below).
- Derotation.Steps: the casts of `rotWidth` and `rotHeight` to `ushort` are not modelled. A double out of `ushort` range makes that conversion undefined in C, so the model's counts match the source only below 65536.
- Integer width: `unsigned long` and `int` overflow of `cfaWidth * cfaHeight`, `width * width * 3` and `dim = width * height` is not modelled. Indices are unbounded naturals.
- The second null check on the Bayer image in the Duran-Buades driver repeats the first and is unreachable. It is modelled as the same read error.
- The count of populated sites per plane is not stated as a set cardinality. Injectivity (`Geometry.FirstSiteInjective`) and frame separation (`Geometry.SecondSiteNeverFirst`) are the facts it rests on.
- DuranBuades.CheckBeta: beta is the value after the narrowing to `float` at DB_demosaicking_code/duran-buades.cpp:85, not the double `atof` returns. The narrowing is not modelled. A double slightly above 1 such as `1.00000001` rounds to `1.0f` and is accepted with h = 32. A tiny negative double such as `-1e-50` rounds to `-0.0f`, passes the check and takes the `beta == 0` branch. So "accepted exactly on [0, 1]" holds of the narrowed value, not of the text's double. `Threshold` computes h over the reals, while line 96 computes `(310.0f * beta - 214.0f) / 3.0f` in float arithmetic. Its results, such as the zero at 107/155 in `DuranBuades.ThresholdZeros`, are exact real values that the float computation only approximates. NaN is not modelled either. In the source a NaN beta (from `atof("nan")`) fails both `beta < 0` and `beta > 1` and so passes the check (DB_demosaicking_code/duran-buades.cpp:87). It then takes the affine branch because `beta != 0` holds (line 95), and the chain receives h = NaN. The claim "accepted exactly on [0, 1]" holds only for non-NaN beta.
- PlaneMerge.MergePlanes: models the corrected merge (see Findings), not the source's checks and reads. `Ssd.Merge` and `Ssd.Run` inherit the strict height check. A portrait input with cfaWidth 1, cfaHeight 2 and three 3 x 1 planes passes the checks at fuji-exr-ssd/ssd.cpp:259-266 and reads in bounds at lines 329-334, but the model's run ends with `HeightMismatch`.

## Findings

| source | as written | input that shows it | evidently intended | confidence | as-written member | corrected member |
|---|---|---|---|---|---|---|
| fuji-exr-ssd/ssd.cpp:302-313 | the pre-merged landscape loop reads `frame1[gix]` and `frame2[bix]`. Those indices already carry the `width * width` and `2 * width * width` plane offsets of the destination buffer. | cfaWidth 2, cfaHeight 1: photosite 1 lands on site (0, 1), an even row, so green. `gix = 0 * 3 + 1 + 9 = 10` lies past the 9 samples of a 3 x 3 input plane. | read each input plane at the plane-local index `rix`, as the red branch does | not executed | PlaneMerge.AsWrittenReadOutsidePlane | PlaneMerge.StoreChannelPair |
| fuji-exr-ssd/ssd.cpp:259-266 | the pre-merged mode checks that the three planes share a size and that their width is `cfaWidth + cfaHeight`, but never checks their height `ny0` | cfaWidth 2, cfaHeight 1, three 3 x 1 planes: the checks pass, but photosite 0 lands on row 1, at plane index 3, past the 3 samples of each plane | also require `ny0 == cfaWidth + cfaHeight` | not executed | PlaneMerge.ValidatePlanesIgnoresHeight | PlaneMerge.ValidatePlanesStrict |
