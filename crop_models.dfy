/**
 * The crop records and enumerations shared by the screens and overlays
 * (`ui/model/CropModels.kt`, duplicated as `ui/models/CropModels.kt`; one
 * copy here).
 */
module CropModels {

  /** A point in original-image pixel space, as stored in a crop. */
  datatype PointF = PointF(x: real, y: real)

  /** A crop in original-image pixel space: its top-left and bottom-right corners. */
  datatype CropRect = CropRect(topLeft: PointF, bottomRight: PointF)

  /** The two crop shapes; the ratio is width / height. */
  datatype CropAspect = Square | Ratio3x4 {
    function Ratio(): (a: real)
      ensures a > 0.0
      ensures this == Square ==> a == 1.0
      ensures this == Ratio3x4 ==> a * 4.0 == 3.0
    {
      match this
      case Square => 1.0
      case Ratio3x4 => 3.0 / 4.0
    }
  }

  /** What a gesture manipulates: the body, one of the four corners, or nothing. */
  datatype DragTarget = Body | TopLeft | TopRight | BottomLeft | BottomRight | NoTarget {
    predicate IsCorner() { TopLeft? || TopRight? || BottomLeft? || BottomRight? }
  }

  /** An integer pixel rectangle `(x, y, w, h)`; also the region `Bitmap.createBitmap` cuts. */
  datatype RectInt = RectInt(x: int, y: int, w: int, h: int) {
    /** The region lies wholly inside a `width` by `height` image and is not empty. */
    predicate InsideImage(width: int, height: int) {
      0 <= x && 0 <= y && 1 <= w && 1 <= h && x + w <= width && y + h <= height
    }
  }
}
