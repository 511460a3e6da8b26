/** Values shared by the stream-function engine and the Hadley-cell detector. */
module Common {

  /** A value that may be absent: a missing (NaN) wind sample, or a boundary that was not found. */
  datatype Option<T> = None | Some(value: T)

  /**
   * The ways a call of the pipeline can fail. Each stands for an exception the program
   * raises, with two exceptions to the rule: `AllMissing` stands for a NaN the program
   * carries on with, and `ShapeMismatch` on a 2-D coordinate also covers shapes numpy
   * would broadcast without raising.
   */
  datatype Error =
    | NoDecomposer      // non-global run while the wind-decomposition library is unavailable
    | ShapeMismatch     // a coordinate array cannot be reshaped or aligned to the wind grid
    | IndexOutOfRange   // indexing an empty array dimension
    | AllMissing        // every longitude of a (level, latitude) cell is missing
    | NoMidBand         // no pressure between 400 and 700 hPa
    | NoLowBand         // no pressure of at most 800 hPa (p <= 8e4 Pa)
    | NoNorth           // no latitude in the northern hemisphere
    | NoSouth           // no latitude in the southern hemisphere
    | NoCrossings       // the band-mean stream function has no zero crossing

  datatype Result<T> = Ok(value: T) | Err(error: Error)
}
