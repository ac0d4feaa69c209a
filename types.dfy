/**
 * The records the handlers pass around: one image of a group as the external
 * grouping tool describes it, the metadata extracted from its file, and the
 * two together with a keep-score.
 */
module Types {

  const MinInt64: int := -0x8000_0000_0000_0000
  const MaxInt64: int := 0x7FFF_FFFF_FFFF_FFFF

  /** Go's `int64` (and `int` on the 64-bit targets the server runs on). */
  type Int64 = x: int | MinInt64 <= x <= MaxInt64

  /** Two's-complement wrap-around of a mathematical integer into `Int64`. */
  function Wrap64(x: int): (r: Int64)
    ensures MinInt64 <= x <= MaxInt64 ==> r == x
    ensures (r - x) % 0x1_0000_0000_0000_0000 == 0
  {
    (x - MinInt64) % 0x1_0000_0000_0000_0000 + MinInt64
  }

  /**
   * One member of a group (the `Image` struct). The opaque similarity hash and
   * similarity fields are not part of this model.
   */
  datatype Image = Image(path: string, size: Int64, width: Int64, height: Int64, modifiedDate: Int64)

  /** The metadata extracted from one file (the `ExifData` struct). */
  datatype ExifData = ExifData(
    dateTaken: string,
    cameraMake: string,
    cameraModel: string,
    fStop: string,
    subject: string,
    hasExif: bool)

  /** The descriptor of a file without usable metadata. */
  const NoExif := ExifData("", "", "", "", "", false)

  /** An image, its metadata and its keep-score (the `ImageWithExif` struct). */
  datatype ImageWithExif = ImageWithExif(image: Image, exif: ExifData, score: int)

  /** One entry of a group response: the scored image and its unmodified path. */
  datatype FrontendImage = FrontendImage(item: ImageWithExif, originalPath: string)
}
