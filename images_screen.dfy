/**
 * The earlier square-only crop screen (`ImagesScreenContent` in
 * `ui/ImagesScreen.kt`): it keeps the screen crop rect reported by the square
 * overlay and, on every commit, recomputes the cropped preview with its own
 * square variant of the screen-to-original map.
 */
module ImagesScreen {
  import opened Nullable
  import opened Geometry
  import opened CropModels
  import opened CropMapping

  /**
   * The local `screenToOriginal`: the origin is rounded and clamped into the
   * image as in `CropMapping`, but one size (from the screen width) serves
   * both sides, limited by the room to the right and below and floored at
   * one pixel. The square lies inside the image exactly when its origin is
   * not on the image's far edges.
   */
  function SquareScreenToOriginal(ow: int, oh: int, cw: int, ch: int, screen: Rect): (r: RectInt)
    requires ow > 0 && oh > 0 && cw > 0 && ch > 0
    ensures 0 <= r.x <= ow && 0 <= r.y <= oh
    ensures r.w == r.h && r.w >= 1
    ensures r.InsideImage(ow, oh) <==> r.x < ow && r.y < oh
    ensures r.x < ow && r.y < oh ==> r.w <= RoundToInt(screen.Width() / FitOf(ow, oh, cw, ch).scale) || r.w == 1
  {
    var f := FitOf(ow, oh, cw, ch);
    var leftPx := CoerceInInt(RoundToInt((screen.left - f.dx) / f.scale), 0, ow);
    var topPx := CoerceInInt(RoundToInt((screen.top - f.dy) / f.scale), 0, oh);
    var sizePx := RoundToInt(screen.Width() / f.scale);
    var safeSize := MaxInt(MinInt(sizePx, MinInt(ow - leftPx, oh - topPx)), 1);
    RectInt(leftPx, topPx, safeSize, safeSize)
  }

  /**
   * The region `recomputeCrop` cuts for a screen rect: None when the bounds
   * are absent, the clamped rect is empty, or the square fails the
   * inside-the-bitmap check.
   */
  function SquareCropRegion(bitmap: Bitmap, container: IntSize, screen: Rect): (r: Option<RectInt>)
    ensures r.Some? ==> r.value.InsideImage(bitmap.width, bitmap.height) && r.value.w == r.value.h
    ensures ClampedToBounds(screen, bitmap, container).None? ==> r.None?
  {
    match ClampedToBounds(screen, bitmap, container)
    case None => None
    case Some(clamped) =>
      var crop := SquareScreenToOriginal(bitmap.width, bitmap.height, container.width, container.height, clamped);
      if crop.w > 0 && crop.h > 0 && crop.x >= 0 && crop.y >= 0 &&
         crop.x + crop.w <= bitmap.width && crop.y + crop.h <= bitmap.height
      then Some(crop)
      else None
  }

  /**
   * The square region starts where the general crop region starts: both
   * maps round and clamp the origin the same way, so a square region exists
   * exactly when the general one does.
   */
  lemma SquareRegionSharesOrigin(bitmap: Bitmap, container: IntSize, screen: Rect)
    ensures SquareCropRegion(bitmap, container, screen).Some? <==> CropBitmapFor(bitmap, container, screen).Some?
    ensures SquareCropRegion(bitmap, container, screen).Some? ==>
      SquareCropRegion(bitmap, container, screen).value.x == CropBitmapFor(bitmap, container, screen).value.x &&
      SquareCropRegion(bitmap, container, screen).value.y == CropBitmapFor(bitmap, container, screen).value.y
  {
    match ClampedToBounds(screen, bitmap, container)
    case None =>
    case Some(clamped) =>
      var ow, oh, cw, ch := bitmap.width, bitmap.height, container.width, container.height;
      var sq := SquareScreenToOriginal(ow, oh, cw, ch, clamped);
      var gen := ScreenToOriginal(ow, oh, cw, ch, clamped);
      assert sq.x == gen.x && sq.y == gen.y;
      assert SquareCropRegion(bitmap, container, screen) == if sq.InsideImage(ow, oh) then Some(sq) else None;
      assert CropBitmapFor(bitmap, container, screen) == if gen.InsideImage(ow, oh) then Some(gen) else None;
  }

  /** The state of the square crop screen for one decoded bitmap. */
  class ImagesScreenContent {
    const bitmap: Bitmap
    var containerSize: IntSize
    var cropRectScreen: Option<Rect>
    /** The region of the last preview cut from the bitmap. */
    var cropped: Option<RectInt>

    /** Every preview that was cut lies inside the bitmap. */
    ghost predicate Valid()
      reads this
    {
      cropped.Some? ==> cropped.value.InsideImage(bitmap.width, bitmap.height)
    }

    /** The state cells as `remember` creates them. */
    constructor (bitmap: Bitmap)
      ensures Valid()
      ensures this.bitmap == bitmap && containerSize == IntSize(0, 0)
      ensures cropRectScreen == None && cropped == None
    {
      this.bitmap := bitmap;
      containerSize := IntSize(0, 0);
      cropRectScreen := None;
      cropped := None;
    }

    /** `onGloballyPositioned`: the container's measured size. */
    method Layout(size: IntSize)
      modifies this`containerSize
      ensures containerSize == size
    {
      containerSize := size;
    }

    /** `onCropRectChanged`: the live rect is recorded; no crop is recomputed. */
    method OnCropRectChanged(r: Rect)
      modifies this`cropRectScreen
      ensures cropRectScreen == Some(r)
    {
      cropRectScreen := Some(r);
    }

    /** `onCropCommitted`: the rect is recorded and the preview recomputed. */
    method OnCropCommitted(r: Rect)
      requires Valid()
      modifies this`cropRectScreen, this`cropped
      ensures Valid()
      ensures cropRectScreen == Some(r)
      ensures cropped == if SquareCropRegion(bitmap, containerSize, r).Some? then SquareCropRegion(bitmap, containerSize, r) else old(cropped)
    {
      cropRectScreen := Some(r);
      RecomputeCrop();
    }

    /**
     * `recomputeCrop`: replaces the preview with the square region of the
     * current rect when there is one; otherwise the previous preview stays.
     */
    method RecomputeCrop()
      requires Valid()
      modifies this`cropped
      ensures Valid()
      ensures cropRectScreen.None? ==> cropped == old(cropped)
      ensures cropRectScreen.Some? ==>
        var region := SquareCropRegion(bitmap, containerSize, cropRectScreen.value);
        cropped == if region.Some? then region else old(cropped)
    {
      if cropRectScreen.None? {
        return;
      }
      var r := cropRectScreen.value;
      var bounds := ImageBoundsInContainer(bitmap, containerSize);
      if bounds.None? {
        return;
      }
      var b := bounds.value;
      var clamped := Rect(Max(r.left, b.left), Max(r.top, b.top), Min(r.right, b.right), Min(r.bottom, b.bottom));
      if clamped.Width() <= 0.0 || clamped.Height() <= 0.0 {
        return;
      }
      var crop := SquareScreenToOriginal(bitmap.width, bitmap.height, containerSize.width, containerSize.height, clamped);
      if crop.w > 0 && crop.h > 0 && crop.x >= 0 && crop.y >= 0 &&
         crop.x + crop.w <= bitmap.width && crop.y + crop.h <= bitmap.height {
        cropped := Some(crop);
      }
    }
  }
}
