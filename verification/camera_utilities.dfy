/** `CameraUtilities.GetExifOrientationForDeviceOrientation`: the orientation
    tag written into a captured photo for the way the phone was held. The
    PhotoOrientation values are those of the Exif Orientation tag (0x0112,
    section 4.6.4 A of Exif 2.3, CIPA DC-008), named by the counter-clockwise
    rotation that displays the image upright. */
module ExifOrientation {
  import opened Common

  /** Windows.Devices.Sensors.SimpleOrientation. */
  datatype SimpleOrientation =
    | NotRotated
    | Rotated90DegreesCounterclockwise
    | Rotated180DegreesCounterclockwise
    | Rotated270DegreesCounterclockwise
    | Faceup
    | Facedown

  /** Windows.Storage.FileProperties.PhotoOrientation, without Unspecified (0). */
  datatype PhotoOrientation =
    | Normal | FlipHorizontal | Rotate180 | FlipVertical
    | Transpose | Rotate270 | Transverse | Rotate90

  /** The tag value of each orientation. */
  function ExifCode(o: PhotoOrientation): (code: nat)
    ensures 1 <= code <= 8
  {
    match o
    case Normal => 1
    case FlipHorizontal => 2
    case Rotate180 => 3
    case FlipVertical => 4
    case Transpose => 5
    case Rotate270 => 6
    case Transverse => 7
    case Rotate90 => 8
  }

  /** Reads a tag value back; 0 and values above 8 name no orientation. */
  function FromExifCode(code: nat): (o: Option<PhotoOrientation>)
    ensures o.Some? <==> 1 <= code <= 8
    ensures o.Some? ==> ExifCode(o.value) == code
  {
    if code == 1 then Some(Normal)
    else if code == 2 then Some(FlipHorizontal)
    else if code == 3 then Some(Rotate180)
    else if code == 4 then Some(FlipVertical)
    else if code == 5 then Some(Transpose)
    else if code == 6 then Some(Rotate270)
    else if code == 7 then Some(Transverse)
    else if code == 8 then Some(Rotate90)
    else None
  }

  /** Every orientation is written as a tag value that reads back as itself,
      so distinct orientations never share a tag value. */
  lemma ExifCodeRoundTrip(o: PhotoOrientation, p: PhotoOrientation)
    ensures FromExifCode(ExifCode(o)) == Some(o)
    ensures ExifCode(o) == ExifCode(p) ==> o == p
  {
    assert FromExifCode(ExifCode(o)).Some?;
    assert FromExifCode(ExifCode(p)).Some?;
  }

  /** The mapping: upright portrait is tagged Rotate270, the two landscape
      holds Normal and FlipVertical, upside-down Rotate90, and the flat
      orientations fall back to Normal. */
  function ForDevice(d: SimpleOrientation): (o: PhotoOrientation)
    ensures d == NotRotated ==> ExifCode(o) == 6
    ensures d == Rotated90DegreesCounterclockwise ==> ExifCode(o) == 1
    ensures d == Rotated270DegreesCounterclockwise ==> ExifCode(o) == 4
    ensures d == Rotated180DegreesCounterclockwise ==> ExifCode(o) == 8
    ensures d == Faceup || d == Facedown ==> ExifCode(o) == 1
  {
    match d
    case NotRotated => Rotate270
    case Rotated90DegreesCounterclockwise => Normal
    case Rotated270DegreesCounterclockwise => FlipVertical
    case Rotated180DegreesCounterclockwise => Rotate90
    case _ => Normal
  }

  /** The four held orientations get four different tags; only the flat ones
      share the landscape tag. */
  lemma HeldOrientationsDistinct(a: SimpleOrientation, b: SimpleOrientation)
    requires a !in {Faceup, Facedown} && b !in {Faceup, Facedown}
    ensures ForDevice(a) == ForDevice(b) <==> a == b
  {
  }

  /** The tag written is Normal exactly for a 90-degree counter-clockwise
      hold or a flat phone. */
  lemma NormalExactly(d: SimpleOrientation)
    ensures ForDevice(d) == Normal <==> d in {Rotated90DegreesCounterclockwise, Faceup, Facedown}
  {
  }
}
