/**
 * The image-loader transformation `RectCropTransformation`
 * (`ui/components/RectCropTransformation.kt`): it cuts a crop's region out
 * of the bitmap it is given, or hands the bitmap back unchanged when the
 * region would run past its right or bottom edge. The results below are
 * about the transformation applied to the full-size original bitmap, the
 * bitmap the crop's pixel coordinates refer to.
 */
module RectCropTransformation {
  import opened Nullable
  import opened Geometry
  import opened CropModels
  import opened CropMapping
  import opened ImageCropScreen

  /** What `transform` returns: the input bitmap itself, or the bitmap cut to a region. */
  datatype Transformed = Input | Cropped(region: RectInt)

  /**
   * The region `transform` asks for: the top-left truncated toward zero and
   * floored at 0, the size truncated and floored at one pixel.
   */
  function TransformRegion(crop: CropRect): (g: RectInt)
    ensures g.x >= 0 && g.y >= 0 && g.w >= 1 && g.h >= 1
  {
    RectInt(MaxInt(Truncate(crop.topLeft.x), 0), MaxInt(Truncate(crop.topLeft.y), 0),
            MaxInt(Truncate(crop.bottomRight.x - crop.topLeft.x), 1),
            MaxInt(Truncate(crop.bottomRight.y - crop.topLeft.y), 1))
  }

  /**
   * `transform`: the region when it lies inside the input, the input itself
   * otherwise; a cut never reaches outside the input bitmap.
   */
  function Transform(input: Bitmap, crop: CropRect): (r: Transformed)
    ensures r.Input? <==> !TransformRegion(crop).InsideImage(input.width, input.height)
    ensures r.Cropped? ==> r.region == TransformRegion(crop) && r.region.InsideImage(input.width, input.height)
  {
    var g := TransformRegion(crop);
    if g.x + g.w > input.width || g.y + g.h > input.height then Input
    else Cropped(g)
  }

  /** Truncating a non-negative number is taking its floor. */
  lemma TruncateNonNegative(v: real)
    requires v >= 0.0
    ensures Truncate(v) == v.Floor
  {
  }

  /** On a committed crop, the truncations `transform` takes are the floors of `PixelRegion`. */
  lemma TransformRegionOfCommitted(bitmap: Bitmap, crop: CropRect)
    requires CommittedCrop(crop, bitmap)
    ensures TransformRegion(crop).x == PixelRegion(crop).x && TransformRegion(crop).y == PixelRegion(crop).y
    ensures TransformRegion(crop).w == PixelRegion(crop).w && TransformRegion(crop).h == PixelRegion(crop).h
  {
    var tl, br := crop.topLeft, crop.bottomRight;
    TruncateNonNegative(tl.x);
    TruncateNonNegative(tl.y);
    TruncateNonNegative(br.x - tl.x);
    TruncateNonNegative(br.y - tl.y);
  }

  /**
   * One axis of a committed crop `[a, b]` of `[0, n]`: the pixel end stays
   * within `n` when the start is short of the far edge, and passes it when
   * the start is on the far edge.
   */
  lemma CommittedAxisEnd(a: real, b: real, n: int)
    requires IsWhole(a) && IsWhole(b) && 0.0 <= a <= n as real && b - a >= 1.0 && b <= Max(n as real, a + 1.0)
    ensures a < n as real ==> a.Floor + (b - a).Floor <= n
    ensures a == n as real ==> a.Floor + (b - a).Floor > n
  {
    WholeSpan(a, b);
  }

  /**
   * Applied to the full-size bitmap, the transformation cuts exactly the
   * committed crop, except that a crop starting on the image's far edge
   * (right or bottom) gives back the whole bitmap.
   */
  lemma TransformOfCommittedCrop(bitmap: Bitmap, crop: CropRect)
    requires bitmap.width >= 1 && bitmap.height >= 1 && CommittedCrop(crop, bitmap)
    ensures crop.topLeft.x < bitmap.width as real && crop.topLeft.y < bitmap.height as real ==>
      Transform(bitmap, crop) == Cropped(PixelRegion(crop))
    ensures crop.topLeft.x == bitmap.width as real || crop.topLeft.y == bitmap.height as real ==>
      Transform(bitmap, crop) == Input
  {
    TransformRegionOfCommitted(bitmap, crop);
    CommittedAxisEnd(crop.topLeft.x, crop.bottomRight.x, bitmap.width);
    CommittedAxisEnd(crop.topLeft.y, crop.bottomRight.y, bitmap.height);
    assert TransformRegion(crop) == PixelRegion(crop);
  }

  /**
   * For a committed crop that does not start on the far edge, the
   * transformation applied to the full-size bitmap and the crop screen's
   * preview cut the same region.
   */
  lemma TransformMatchesPreview(bitmap: Bitmap, crop: CropRect)
    requires bitmap.width >= 1 && bitmap.height >= 1 && CommittedCrop(crop, bitmap)
    requires crop.topLeft.x < bitmap.width as real && crop.topLeft.y < bitmap.height as real
    ensures Transform(bitmap, crop).Cropped? && CropBitmapOriginal(bitmap, crop) == Some(Transform(bitmap, crop).region)
  {
    TransformOfCommittedCrop(bitmap, crop);
    CommittedCropHasPreview(bitmap, crop);
  }
}
