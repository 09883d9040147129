/** The rasters that flow between the stages of the SSD decoder. */
module Images {

  /**
   A 16-bit grayscale raster as the external reader returns it: nx columns,
   ny rows, samples widened to reals, row-major.
   */
  datatype Frame = Frame(nx: nat, ny: nat, data: seq<real>)

  /** The reader returns exactly nx * ny samples. */
  predicate WellFormed(f: Frame)
  {
    |f.data| == f.nx * f.ny
  }

  /**
   The merged working buffer: three square planes (red, green, blue) of side
   cfaWidth + cfaHeight, plus the orientation flag the run later hands to the
   demosaicker.
   */
  datatype Working = Working(cfaWidth: nat, cfaHeight: nat, landscape: bool, data: seq<real>)

  /** Why a merge refuses its inputs. */
  datatype MergeError =
    | SizeMismatch      // the input frames or planes differ in size
    | GeometryMismatch  // the stated geometry does not match the plane width
    | HeightMismatch    // the stated geometry does not match the plane height
}
