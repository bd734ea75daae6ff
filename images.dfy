/** What the image comparisons work on once decoding is abstracted away: a
    decoded picture is its size together with its grid of pixels, and a
    comparison either returns a value or stops with a failure. */
module Images {

  /** A decoded picture: `width` and `height` are its size, and `pixels` its
      rows, top to bottom, each holding one pixel per column. Pixels are
      opaque values that can only be compared for equality. */
  datatype Picture<P> = Picture(width: nat, height: nat, pixels: seq<seq<P>>)

  /** The pixel grid has the declared size. */
  predicate Valid<P>(p: Picture<P>)
  {
    |p.pixels| == p.height && forall i :: 0 <= i < |p.pixels| ==> |p.pixels[i]| == p.width
  }

  /** A picture whose grid has its declared size, as a decoder delivers it. */
  type Image<P> = p: Picture<P> | Valid(p) witness Picture(0, 0, [])

  /** Why a comparison stopped: an explicit exit with its message, or one of
      the exceptions the scans and conversions raise. */
  datatype Failure =
    | Exit(message: string)
    | KeyError(key: string)
    | ValueError(literal: string)
    | IndexError
    | ZeroDivisionError

  datatype Result<T> = Ok(value: T) | Err(failure: Failure)

  datatype Option<T> = None | Some(value: T)

  const DifferentImagesSize: string := "Images are incomparable: Different images size"
  const DifferentSize: string := "Images are incomparable: different size"
  const SvgWithoutSize: string := "Images are incomparable: the given svg image does not have the size"
  const ImagesNotSupported: string := "Images files are not supported"
  const AnimationsNotSupported: string := "The type of files are not supported"
  const DifferentFramesNumber: string := "Two gif files are incomparable: different frames number"
  const DifferentFrameSize: string := "Two gif files are incomparable: different frame size"

  /** `s` ends with `suffix`. */
  predicate EndsWith(s: string, suffix: string)
  {
    |suffix| <= |s| && s[|s| - |suffix|..] == suffix
  }
}
