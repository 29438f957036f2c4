/**
 * Mapping between container space (where the image is drawn on screen,
 * uniformly "fit"-scaled and centred) and original-image pixel space
 * (`util/CropMapping.kt`).
 */
module CropMapping {
  import opened Nullable
  import opened Geometry
  import opened CropModels

  /** The uniform scale and the centring offsets of a fitted image. */
  datatype Fit = Fit(scale: real, dx: real, dy: real)

  /**
   * `scale = min(cw / ow, ch / oh)` and the offsets that centre the drawn
   * image `(ow * scale, oh * scale)` in the container; every function of the
   * source recomputes this same fit.
   */
  function FitOf(ow: int, oh: int, cw: int, ch: int): (f: Fit)
    requires ow > 0 && oh > 0
    ensures cw > 0 && ch > 0 ==> f.scale > 0.0
  {
    var scale := Min(cw as real / ow as real, ch as real / oh as real);
    Fit(scale, (cw as real - ow as real * scale) / 2.0, (ch as real - oh as real * scale) / 2.0)
  }

  /** Where the bitmap is drawn inside the container, or None for a degenerate size. */
  function ImageBoundsInContainer(bitmap: Bitmap, container: IntSize): (r: Option<Rect>)
    ensures r.None? <==>
      container.width <= 0 || container.height <= 0 || bitmap.width <= 0 || bitmap.height <= 0
  {
    if container.width <= 0 || container.height <= 0 then None
    else if bitmap.width <= 0 || bitmap.height <= 0 then None
    else
      var f := FitOf(bitmap.width, bitmap.height, container.width, container.height);
      Some(Rect(f.dx, f.dy, f.dx + bitmap.width as real * f.scale, f.dy + bitmap.height as real * f.scale))
  }

  /** The edges of the image bounds in terms of the fit. */
  lemma BoundsOfFit(bitmap: Bitmap, container: IntSize)
    requires container.width > 0 && container.height > 0 && bitmap.width > 0 && bitmap.height > 0
    ensures
      var b := ImageBoundsInContainer(bitmap, container).value;
      var f := FitOf(bitmap.width, bitmap.height, container.width, container.height);
      && b.left == f.dx && b.right == f.dx + bitmap.width as real * f.scale
      && b.top == f.dy && b.bottom == f.dy + bitmap.height as real * f.scale
  {
  }

  /**
   * The bounds are the bitmap scaled by the fit scale: they keep the bitmap's
   * aspect ratio, lie inside the container, fill it along at least one axis
   * and leave equal margins on opposite sides.
   */
  lemma BoundsFitContainer(bitmap: Bitmap, container: IntSize)
    requires container.width > 0 && container.height > 0 && bitmap.width > 0 && bitmap.height > 0
    ensures
      var b := ImageBoundsInContainer(bitmap, container).value;
      var f := FitOf(bitmap.width, bitmap.height, container.width, container.height);
      var cw, ch := container.width as real, container.height as real;
      var ow, oh := bitmap.width as real, bitmap.height as real;
      && b.Width() == ow * f.scale && b.Height() == oh * f.scale
      && b.Width() * oh == b.Height() * ow
      && 0.0 <= b.left && b.right <= cw && 0.0 <= b.top && b.bottom <= ch
      && (b.Width() == cw || b.Height() == ch)
      && b.left == cw - b.right && b.top == ch - b.bottom
  {
    var f := FitOf(bitmap.width, bitmap.height, container.width, container.height);
    var cw, ch := container.width as real, container.height as real;
    var ow, oh := bitmap.width as real, bitmap.height as real;
    var sx, sy := cw / ow, ch / oh;
    assert ow * sx == cw && oh * sy == ch;
    if sx <= sy {
      assert f.scale == sx;
      MulMono(oh, sx, sy);
    } else {
      assert f.scale == sy;
      MulMono(ow, sy, sx);
    }
  }

  /** A 2000 x 1000 image in a 1000 x 1000 container is drawn at (0, 250)-(1000, 750). */
  lemma BoundsExample()
    ensures ImageBoundsInContainer(Bitmap(2000, 1000), IntSize(1000, 1000)) == Some(Rect(0.0, 250.0, 1000.0, 750.0))
  {
  }

  /**
   * Inverse of the fit map, rounded to whole pixels: the origin is clamped
   * into the image, and width and height never run past its far edge except
   * that they are floored at one pixel.
   */
  function ScreenToOriginal(ow: int, oh: int, cw: int, ch: int, screen: Rect): (r: RectInt)
    requires ow > 0 && oh > 0 && cw > 0 && ch > 0
    ensures 0 <= r.x <= ow && 0 <= r.y <= oh
    ensures r.w >= 1 && r.h >= 1
    ensures r.x + r.w <= MaxInt(ow, r.x + 1) && r.y + r.h <= MaxInt(oh, r.y + 1)
  {
    FitToPixels(FitOf(ow, oh, cw, ch), ow, oh, screen)
  }

  /** The body of `screenToOriginal` for a given fit of positive scale, one axis at a time. */
  function FitToPixels(f: Fit, ow: int, oh: int, screen: Rect): (r: RectInt)
    requires ow > 0 && oh > 0 && f.scale > 0.0
    ensures 0 <= r.x <= ow && 0 <= r.y <= oh
    ensures r.w >= 1 && r.h >= 1
    ensures r.x + r.w <= MaxInt(ow, r.x + 1) && r.y + r.h <= MaxInt(oh, r.y + 1)
  {
    var (leftPx, wPx) := AxisPixels(f.dx, f.scale, ow, screen.left, screen.right);
    var (topPx, hPx) := AxisPixels(f.dy, f.scale, oh, screen.top, screen.bottom);
    RectInt(leftPx, topPx, wPx, hPx)
  }

  /**
   * One axis of `screenToOriginal`: the screen interval `[a, b]` of an image
   * drawn from `d` at scale `s`, in pixel units.
   */
  function AxisPixels(d: real, s: real, n: int, a: real, b: real): (p: (int, int))
    requires n > 0 && s > 0.0
    ensures 0 <= p.0 <= n && p.1 >= 1 && p.0 + p.1 <= MaxInt(n, p.0 + 1)
  {
    PixelSpan((a - d) / s, (b - a) / s, n)
  }

  /**
   * The pixel start, rounded and clamped into `[0, n]`, and the pixel
   * length, rounded, limited by the room up to `n` and floored at one
   * pixel, of the interval from `lo` of length `len`.
   */
  function PixelSpan(lo: real, len: real, n: int): (p: (int, int))
    requires n > 0
    ensures 0 <= p.0 <= n && p.1 >= 1 && p.0 + p.1 <= MaxInt(n, p.0 + 1)
  {
    var start := CoerceInInt(RoundToInt(lo), 0, n);
    (start, MaxInt(MinInt(MaxInt(RoundToInt(len), 1), n - start), 1))
  }

  /** With the bounds above, the screen rect (100, 300)-(300, 500) is the original (200, 100)-(600, 500). */
  lemma ScreenToOriginalExample()
    ensures ScreenToOriginal(2000, 1000, 1000, 1000, Rect(100.0, 300.0, 300.0, 500.0)) == RectInt(200, 100, 400, 400)
  {
    var f := FitOf(2000, 1000, 1000, 1000);
    assert f == Fit(0.5, 0.0, 250.0);
  }

  /** The crop record for an integer pixel rectangle. */
  function CropRectOf(c: RectInt): (r: CropRect)
    ensures r.bottomRight.x - r.topLeft.x == c.w as real && r.bottomRight.y - r.topLeft.y == c.h as real
    ensures IsWhole(r.topLeft.x) && IsWhole(r.topLeft.y) && IsWhole(r.bottomRight.x) && IsWhole(r.bottomRight.y)
  {
    CropRect(PointF(c.x as real, c.y as real), PointF((c.x + c.w) as real, (c.y + c.h) as real))
  }

  /** The screen rect clamped to the image bounds, when both exist and the clamp is not empty. */
  function ClampedToBounds(screen: Rect, bitmap: Bitmap, container: IntSize): (r: Option<Rect>)
    ensures r.None? <==>
      ImageBoundsInContainer(bitmap, container).None? ||
      Intersect(screen, ImageBoundsInContainer(bitmap, container).value).Width() <= 0.0 ||
      Intersect(screen, ImageBoundsInContainer(bitmap, container).value).Height() <= 0.0
    ensures r.Some? ==> r.value.Within(ImageBoundsInContainer(bitmap, container).value) && r.value.Within(screen)
    ensures r.Some? ==> r.value == Intersect(screen, ImageBoundsInContainer(bitmap, container).value)
  {
    match ImageBoundsInContainer(bitmap, container)
    case None => None
    case Some(bounds) =>
      var clamped := Intersect(screen, bounds);
      if clamped.Width() <= 0.0 || clamped.Height() <= 0.0 then None else Some(clamped)
  }

  /**
   * The shape of every crop a commit produces: whole-pixel corners, the
   * top-left inside the image (possibly on its far edge), at least one pixel
   * each way, and never past the far edge except by the one-pixel floor.
   */
  predicate CommittedCrop(c: CropRect, bitmap: Bitmap) {
    var w, h := bitmap.width as real, bitmap.height as real;
    && IsWhole(c.topLeft.x) && IsWhole(c.topLeft.y) && IsWhole(c.bottomRight.x) && IsWhole(c.bottomRight.y)
    && 0.0 <= c.topLeft.x <= w && 0.0 <= c.topLeft.y <= h
    && c.bottomRight.x - c.topLeft.x >= 1.0 && c.bottomRight.y - c.topLeft.y >= 1.0
    && c.bottomRight.x <= Max(w, c.topLeft.x + 1.0) && c.bottomRight.y <= Max(h, c.topLeft.y + 1.0)
  }

  /** The integer pixel rectangle of a whole-pixel crop: the inverse of `CropRectOf`. */
  function PixelRegion(c: CropRect): RectInt
  {
    RectInt(c.topLeft.x.Floor, c.topLeft.y.Floor,
            (c.bottomRight.x - c.topLeft.x).Floor, (c.bottomRight.y - c.topLeft.y).Floor)
  }

  /** One axis of a whole-pixel crop: the floored start plus the floored length is the end. */
  lemma WholeSpan(a: real, b: real)
    requires IsWhole(a) && IsWhole(b)
    ensures (b - a).Floor == b.Floor - a.Floor
    ensures (a.Floor + (b - a).Floor) as real == b
  {
    assert b - a == (b.Floor - a.Floor) as real;
  }

  /** `PixelRegion` undoes `CropRectOf`. */
  lemma PixelRegionOfCropRect(g: RectInt)
    ensures PixelRegion(CropRectOf(g)) == g
  {
    assert ((g.x + g.w) as real - g.x as real).Floor == g.w;
    assert ((g.y + g.h) as real - g.y as real).Floor == g.h;
  }

  /** `CropRectOf` undoes `PixelRegion` on a crop whose corners are whole pixels. */
  lemma CropRectOfPixelRegion(c: CropRect)
    requires IsWhole(c.topLeft.x) && IsWhole(c.topLeft.y) && IsWhole(c.bottomRight.x) && IsWhole(c.bottomRight.y)
    ensures CropRectOf(PixelRegion(c)) == c
  {
    WholeSpan(c.topLeft.x, c.bottomRight.x);
    WholeSpan(c.topLeft.y, c.bottomRight.y);
  }

  /** `PixelRegion` undoes `CropRectOf`, and on committed crops `CropRectOf` undoes `PixelRegion`. */
  lemma PixelRegionInverse(g: RectInt, c: CropRect, bitmap: Bitmap)
    ensures PixelRegion(CropRectOf(g)) == g
    ensures CommittedCrop(c, bitmap) ==> CropRectOf(PixelRegion(c)) == c
  {
    PixelRegionOfCropRect(g);
    if CommittedCrop(c, bitmap) {
      CropRectOfPixelRegion(c);
    }
  }

  /**
   * `Rect.toCropRectOriginal`: the committed screen rect in original pixels,
   * or None when the bounds are absent or the rect misses the image.
   */
  function ToCropRectOriginal(screen: Rect, bitmap: Bitmap, container: IntSize): (r: Option<CropRect>)
    ensures r.None? <==> ClampedToBounds(screen, bitmap, container).None?
    ensures r.Some? ==> CommittedCrop(r.value, bitmap)
  {
    match ClampedToBounds(screen, bitmap, container)
    case None => None
    case Some(clamped) =>
      Some(CropRectOf(ScreenToOriginal(bitmap.width, bitmap.height, container.width, container.height, clamped)))
  }

  /** The original-pixel region that `cropBitmapFor` cuts, if it fits in the bitmap. */
  function CropBitmapFor(bitmap: Bitmap, container: IntSize, screen: Rect): (r: Option<RectInt>)
    ensures r.Some? ==> r.value.InsideImage(bitmap.width, bitmap.height)
    ensures ClampedToBounds(screen, bitmap, container).None? ==> r.None?
  {
    match ClampedToBounds(screen, bitmap, container)
    case None => None
    case Some(clamped) =>
      var crop := ScreenToOriginal(bitmap.width, bitmap.height, container.width, container.height, clamped);
      if crop.w <= 0 || crop.h <= 0 then None
      else if crop.x < 0 || crop.y < 0 then None
      else if crop.x + crop.w > bitmap.width || crop.y + crop.h > bitmap.height then None
      else Some(crop)
  }

  /**
   * `cropBitmapFor` and `toCropRectOriginal` agree: a region is cut exactly
   * when the crop rect exists and does not start on the image's far edge
   * (where the one-pixel floor would run past it), and it is that crop rect.
   */
  lemma CropBitmapForAgrees(bitmap: Bitmap, container: IntSize, screen: Rect)
    ensures
      var cut := CropBitmapFor(bitmap, container, screen);
      var crop := ToCropRectOriginal(screen, bitmap, container);
      && (cut.Some? <==> crop.Some? && crop.value.topLeft.x < bitmap.width as real
                                    && crop.value.topLeft.y < bitmap.height as real)
      && (cut.Some? ==> crop == Some(CropRectOf(cut.value)))
  {
    match ClampedToBounds(screen, bitmap, container)
    case None =>
    case Some(clamped) =>
      var c := ScreenToOriginal(bitmap.width, bitmap.height, container.width, container.height, clamped);
      assert ToCropRectOriginal(screen, bitmap, container) == Some(CropRectOf(c));
  }
}
