/**
 * The crop session screen (`ImageCropContent` in `ui/screens/ImageCropScreen.kt`):
 * one overlay whose aspect the user toggles, a committed crop per aspect in
 * original pixels with its preview, and a save that needs both crops. Also
 * the forward map from original pixels back to the screen, used to outline
 * the saved crops.
 */
module ImageCropScreen {
  import opened Nullable
  import opened Geometry
  import opened CropModels
  import opened CropMapping
  import opened PhotoUi

  /**
   * `originalToScreenRect`: each corner scaled by the fit scale and shifted
   * by the centring offset. In terms of the image bounds, original pixels
   * map affinely onto the bounds with one scale on both axes, the bounds'
   * size over the bitmap's size.
   */
  function OriginalToScreenRect(bitmap: Bitmap, container: IntSize, crop: CropRect): (r: Rect)
    requires bitmap.width > 0 && bitmap.height > 0
    ensures container.width > 0 && container.height > 0 ==>
      var b := ImageBoundsInContainer(bitmap, container).value;
      var k := b.Width() / bitmap.width as real;
      && k == b.Height() / bitmap.height as real
      && r.left == b.left + crop.topLeft.x * k && r.top == b.top + crop.topLeft.y * k
      && r.right == b.left + crop.bottomRight.x * k && r.bottom == b.top + crop.bottomRight.y * k
  {
    BoundsScale(bitmap, container);
    FitToScreen(FitOf(bitmap.width, bitmap.height, container.width, container.height), crop)
  }

  /** The image bounds start at the centring offsets and are the bitmap scaled by the fit scale. */
  lemma BoundsScale(bitmap: Bitmap, container: IntSize)
    requires bitmap.width > 0 && bitmap.height > 0
    ensures container.width > 0 && container.height > 0 ==>
      var b := ImageBoundsInContainer(bitmap, container).value;
      var f := FitOf(bitmap.width, bitmap.height, container.width, container.height);
      && b.left == f.dx && b.top == f.dy
      && b.Width() / bitmap.width as real == f.scale && b.Height() / bitmap.height as real == f.scale
  {
    if container.width > 0 && container.height > 0 {
      var b := ImageBoundsInContainer(bitmap, container).value;
      var f := FitOf(bitmap.width, bitmap.height, container.width, container.height);
      var ow, oh := bitmap.width as real, bitmap.height as real;
      assert b.Width() == ow * f.scale;
      assert b.Height() == oh * f.scale;
      DivBack(ow, f.scale);
      DivBack(oh, f.scale);
    }
  }

  lemma DivBack(w: real, s: real)
    requires w > 0.0
    ensures (w * s) / w == s
  {
  }

  /** The body of `originalToScreenRect` for a given fit. */
  function FitToScreen(f: Fit, crop: CropRect): Rect
  {
    Rect(ScreenEdge(f.dx, f.scale, crop.topLeft.x), ScreenEdge(f.dy, f.scale, crop.topLeft.y),
         ScreenEdge(f.dx, f.scale, crop.bottomRight.x), ScreenEdge(f.dy, f.scale, crop.bottomRight.y))
  }

  /** Original coordinate `v` of an axis drawn from `d` at scale `s`, in screen units. */
  function ScreenEdge(d: real, s: real, v: real): real
  {
    d + v * s
  }

  /** The whole image maps forward onto exactly the image bounds. */
  lemma FullImageMapsToBounds(bitmap: Bitmap, container: IntSize)
    requires bitmap.width > 0 && bitmap.height > 0 && container.width > 0 && container.height > 0
    ensures OriginalToScreenRect(bitmap, container, CropRect(PointF(0.0, 0.0), PointF(bitmap.width as real, bitmap.height as real)))
         == ImageBoundsInContainer(bitmap, container).value
  {
  }

  /** Shifting after scaling by a non-negative factor keeps the order. */
  lemma ShiftScaleMono(d: real, x: real, y: real, s: real)
    requires s >= 0.0 && x <= y
    ensures d + x * s <= d + y * s
  {
    ScaleMono(x, y, s);
  }

  /** A crop lying inside `[0, w] x [0, h]` is mapped by a fit inside the drawn image. */
  lemma FitWithin(f: Fit, w: real, h: real, crop: CropRect)
    requires f.scale >= 0.0
    requires 0.0 <= crop.topLeft.x <= crop.bottomRight.x <= w
    requires 0.0 <= crop.topLeft.y <= crop.bottomRight.y <= h
    ensures FitToScreen(f, crop).Within(Rect(f.dx, f.dy, f.dx + w * f.scale, f.dy + h * f.scale))
  {
    ShiftScaleMono(f.dx, 0.0, crop.topLeft.x, f.scale);
    ShiftScaleMono(f.dy, 0.0, crop.topLeft.y, f.scale);
    ShiftScaleMono(f.dx, crop.bottomRight.x, w, f.scale);
    ShiftScaleMono(f.dy, crop.bottomRight.y, h, f.scale);
  }

  /** A crop lying inside the image is outlined inside the image bounds. */
  lemma OutlineWithinBounds(bitmap: Bitmap, container: IntSize, crop: CropRect)
    requires bitmap.width > 0 && bitmap.height > 0 && container.width > 0 && container.height > 0
    requires 0.0 <= crop.topLeft.x <= crop.bottomRight.x <= bitmap.width as real
    requires 0.0 <= crop.topLeft.y <= crop.bottomRight.y <= bitmap.height as real
    ensures OriginalToScreenRect(bitmap, container, crop).Within(ImageBoundsInContainer(bitmap, container).value)
  {
    var f := FitOf(bitmap.width, bitmap.height, container.width, container.height);
    FitWithin(f, bitmap.width as real, bitmap.height as real, crop);
  }

  /**
   * One axis of the screen-to-original map: rounding the start and the
   * length of an interval `[lo, lo + len]` of `[0, n]` at least half a pixel
   * long moves the start by at most half a pixel and the end by at most one.
   */
  lemma AxisRoundTrip(lo: real, len: real, n: int)
    requires n > 0 && 0.0 <= lo && lo + len <= n as real && len >= 0.5
    ensures Abs(PixelSpan(lo, len, n).0 as real - lo) <= 0.5
    ensures Abs((PixelSpan(lo, len, n).0 + PixelSpan(lo, len, n).1) as real - (lo + len)) <= 1.0
  {
    var r := RoundToInt(lo);
    assert 0 <= r <= n;
    var wr := RoundToInt(len);
    assert wr >= 1;
  }

  /** `|a| <= c` scaled by a non-negative `s`. */
  lemma ScaleAbs(a: real, c: real, s: real)
    requires Abs(a) <= c && s >= 0.0
    ensures Abs(a * s) <= c * s
  {
    if a >= 0.0 {
      MulMono(s, a, c);
    } else {
      MulMono(s, -a, c);
    }
    assert s * a == a * s && s * c == c * s;
  }

  /**
   * A screen offset `p` and length `q` inside `n * s`, divided by the scale,
   * are a pixel offset and length inside `n`; multiplying back restores them.
   */
  lemma ToPixels(p: real, q: real, s: real, n: int)
    requires s > 0.0 && p >= 0.0 && q >= s / 2.0 && p + q <= n as real * s
    ensures p / s >= 0.0 && q / s >= 0.5 && p / s + q / s <= n as real
    ensures (p / s) * s == p && (q / s) * s == q
  {
  }

  /** A pixel value within `c` of `t`, scaled back, is within `c * s` of `t * s`. */
  lemma ToScreen(x: real, t: real, c: real, s: real)
    requires s > 0.0 && Abs(x - t) <= c
    ensures Abs(x * s - t * s) <= c * s
  {
    ScaleAbs(x - t, c, s);
    assert (x - t) * s == x * s - t * s;
  }

  /** The same, for a target given as the sum `t1 + t2`. */
  lemma ToScreenSum(x: real, t1: real, t2: real, c: real, s: real)
    requires s > 0.0 && Abs(x - (t1 + t2)) <= c
    ensures Abs(x * s - (t1 * s + t2 * s)) <= c * s
  {
    ToScreen(x, t1 + t2, c, s);
    assert (t1 + t2) * s == t1 * s + t2 * s;
  }

  /**
   * One axis in screen units, start edge: the interval `[a, b]` of the drawn
   * image `[d, d + n * s]` is `[lo, lo + len]` in pixels. When it is at least
   * half a pixel long, the pixel start `x`, mapped back, lies within `s / 2`
   * of `a`.
   */
  lemma ScreenAxisStart(d: real, s: real, n: int, a: real, lo: real, len: real, x: int)
    requires s > 0.0 && n > 0 && 0.0 <= lo && lo + len <= n as real && len >= 0.5
    requires lo * s == a - d
    requires x == PixelSpan(lo, len, n).0
    ensures Abs(ScreenEdge(d, s, x as real) - a) <= s / 2.0
  {
    AxisRoundTrip(lo, len, n);
    ToScreen(x as real, lo, 0.5, s);
  }

  /**
   * The same axis, end edge: the pixel start plus the pixel length `xw`,
   * mapped back, lies within `s` of `b`.
   */
  lemma ScreenAxisEnd(d: real, s: real, n: int, a: real, b: real, lo: real, len: real, xw: int)
    requires s > 0.0 && n > 0 && 0.0 <= lo && lo + len <= n as real && len >= 0.5
    requires lo * s == a - d && len * s == b - a
    requires xw == PixelSpan(lo, len, n).0 + PixelSpan(lo, len, n).1
    ensures Abs(ScreenEdge(d, s, xw as real) - b) <= s
  {
    AxisRoundTrip(lo, len, n);
    ToScreenSum(xw as real, lo, len, 1.0, s);
  }

  /** Start edge of one axis of the round trip, for the pixels `AxisPixels` picks. */
  lemma AxisBackStart(d: real, s: real, n: int, a: real, b: real)
    requires s > 0.0 && n > 0 && d <= a && b <= d + n as real * s && b - a >= s / 2.0
    ensures Abs(ScreenEdge(d, s, AxisPixels(d, s, n, a, b).0 as real) - a) <= s / 2.0
  {
    ToPixels(a - d, b - a, s, n);
    ScreenAxisStart(d, s, n, a, (a - d) / s, (b - a) / s, AxisPixels(d, s, n, a, b).0);
  }

  /** End edge of one axis of the round trip, for the pixels `AxisPixels` picks. */
  lemma AxisBackEnd(d: real, s: real, n: int, a: real, b: real)
    requires s > 0.0 && n > 0 && d <= a && b <= d + n as real * s && b - a >= s / 2.0
    ensures Abs(ScreenEdge(d, s, (AxisPixels(d, s, n, a, b).0 + AxisPixels(d, s, n, a, b).1) as real) - b) <= s
  {
    ToPixels(a - d, b - a, s, n);
    ScreenAxisEnd(d, s, n, a, b, (a - d) / s, (b - a) / s, AxisPixels(d, s, n, a, b).0 + AxisPixels(d, s, n, a, b).1);
  }

  /**
   * One axis of the round trip: the pixel start `x` and length `w` that
   * `AxisPixels` picks for `[a, b]`, mapped back, lie within `s / 2` of `a`
   * and within `s` of `b`.
   */
  lemma AxisBack(d: real, s: real, n: int, a: real, b: real, x: int, w: int)
    requires s > 0.0 && n > 0 && d <= a && b <= d + n as real * s && b - a >= s / 2.0
    requires x == AxisPixels(d, s, n, a, b).0 && w == AxisPixels(d, s, n, a, b).1
    ensures Abs(ScreenEdge(d, s, x as real) - a) <= s / 2.0
    ensures Abs(ScreenEdge(d, s, (x + w) as real) - b) <= s
  {
    AxisBackStart(d, s, n, a, b);
    AxisBackEnd(d, s, n, a, b);
  }

  /** A pixel rect mapped back to the screen by a fit: each edge is `ScreenEdge` of the pixel edge. */
  function FitBack(f: Fit, g: RectInt): (r: Rect)
    ensures r.left == ScreenEdge(f.dx, f.scale, g.x as real) && r.right == ScreenEdge(f.dx, f.scale, (g.x + g.w) as real)
    ensures r.top == ScreenEdge(f.dy, f.scale, g.y as real) && r.bottom == ScreenEdge(f.dy, f.scale, (g.y + g.h) as real)
  {
    FitToScreen(f, CropRectOf(g))
  }

  /**
   * The round trip for a given fit: a screen rect inside the drawn image
   * `[dx, dx + ow * scale] x [dy, dy + oh * scale]`, at least half a pixel
   * wide and high, mapped to pixels and back moves its left and top edges by
   * at most `scale / 2` and its right and bottom edges by at most `scale`.
   */
  lemma FitRoundTrip(f: Fit, ow: int, oh: int, screen: Rect)
    requires ow > 0 && oh > 0 && f.scale > 0.0
    requires f.dx <= screen.left && screen.right <= f.dx + ow as real * f.scale && screen.Width() >= f.scale / 2.0
    requires f.dy <= screen.top && screen.bottom <= f.dy + oh as real * f.scale && screen.Height() >= f.scale / 2.0
    ensures
      var back := FitBack(f, FitToPixels(f, ow, oh, screen));
      && Abs(back.left - screen.left) <= f.scale / 2.0 && Abs(back.top - screen.top) <= f.scale / 2.0
      && Abs(back.right - screen.right) <= f.scale && Abs(back.bottom - screen.bottom) <= f.scale
  {
    var g := FitToPixels(f, ow, oh, screen);
    AxisBack(f.dx, f.scale, ow, screen.left, screen.right, g.x, g.w);
    AxisBack(f.dy, f.scale, oh, screen.top, screen.bottom, g.y, g.h);
  }

  /**
   * Round trip of an arbitrary committed rect: the part of it inside the
   * image bounds (what `toCropRectOriginal` clamps to), when at least half an
   * original pixel wide and high, committed to original pixels and mapped
   * back, lands within half a pixel (on screen, `scale / 2`) of the clamped
   * rect's left and top edges and within one pixel (`scale`) of its right
   * and bottom edges.
   */
  lemma ClampedCommitRoundTrip(bitmap: Bitmap, container: IntSize, screen: Rect)
    requires ClampedToBounds(screen, bitmap, container).Some?
    requires
      var s := FitOf(bitmap.width, bitmap.height, container.width, container.height).scale;
      var c := ClampedToBounds(screen, bitmap, container).value;
      c.Width() >= s / 2.0 && c.Height() >= s / 2.0
    ensures ToCropRectOriginal(screen, bitmap, container).Some?
    ensures
      var s := FitOf(bitmap.width, bitmap.height, container.width, container.height).scale;
      var c := ClampedToBounds(screen, bitmap, container).value;
      var back := OriginalToScreenRect(bitmap, container, ToCropRectOriginal(screen, bitmap, container).value);
      && Abs(back.left - c.left) <= s / 2.0 && Abs(back.top - c.top) <= s / 2.0
      && Abs(back.right - c.right) <= s && Abs(back.bottom - c.bottom) <= s
  {
    var ow, oh := bitmap.width, bitmap.height;
    var f := FitOf(ow, oh, container.width, container.height);
    assert ImageBoundsInContainer(bitmap, container).Some?;
    BoundsOfFit(bitmap, container);
    var b := ImageBoundsInContainer(bitmap, container).value;
    var c := ClampedToBounds(screen, bitmap, container).value;
    assert c.Within(b);
    assert f.scale > 0.0;
    assert f.dx <= c.left && c.right <= f.dx + ow as real * f.scale;
    assert f.dy <= c.top && c.bottom <= f.dy + oh as real * f.scale;
    var g := FitToPixels(f, ow, oh, c);
    assert ToCropRectOriginal(screen, bitmap, container) == Some(CropRectOf(g));
    assert OriginalToScreenRect(bitmap, container, CropRectOf(g)) == FitBack(f, g);
    FitRoundTrip(f, ow, oh, c);
  }

  /**
   * Round trip: a screen rect inside the image bounds, at least half an
   * original pixel wide and high, committed to original pixels and mapped
   * back, lands within half a pixel (on screen, `scale / 2`) of its left
   * and top edges and within one pixel (`scale`) of its right and bottom
   * edges.
   */
  lemma CommitRoundTrip(bitmap: Bitmap, container: IntSize, screen: Rect)
    requires bitmap.width > 0 && bitmap.height > 0 && container.width > 0 && container.height > 0
    requires screen.Within(ImageBoundsInContainer(bitmap, container).value)
    requires
      var s := FitOf(bitmap.width, bitmap.height, container.width, container.height).scale;
      screen.Width() >= s / 2.0 && screen.Height() >= s / 2.0
    ensures ToCropRectOriginal(screen, bitmap, container).Some?
    ensures
      var s := FitOf(bitmap.width, bitmap.height, container.width, container.height).scale;
      var back := OriginalToScreenRect(bitmap, container, ToCropRectOriginal(screen, bitmap, container).value);
      && Abs(back.left - screen.left) <= s / 2.0 && Abs(back.top - screen.top) <= s / 2.0
      && Abs(back.right - screen.right) <= s && Abs(back.bottom - screen.bottom) <= s
  {
    var b := ImageBoundsInContainer(bitmap, container).value;
    assert Intersect(screen, b) == screen;
    assert ClampedToBounds(screen, bitmap, container) == Some(screen);
    ClampedCommitRoundTrip(bitmap, container, screen);
  }

  /**
   * The outline of a committed crop lies inside the image bounds unless the
   * crop starts on the image's far edge, where the one-pixel floor makes it
   * stick out by a pixel.
   */
  lemma CommittedOutlineWithin(bitmap: Bitmap, container: IntSize, c: CropRect)
    requires bitmap.width > 0 && bitmap.height > 0 && CommittedCrop(c, bitmap)
    ensures container.width > 0 && container.height > 0 &&
            c.topLeft.x < bitmap.width as real && c.topLeft.y < bitmap.height as real ==>
      OriginalToScreenRect(bitmap, container, c).Within(ImageBoundsInContainer(bitmap, container).value)
  {
    if container.width > 0 && container.height > 0 &&
       c.topLeft.x < bitmap.width as real && c.topLeft.y < bitmap.height as real {
      assert c.topLeft.x.Floor < bitmap.width && c.topLeft.y.Floor < bitmap.height;
      OutlineWithinBounds(bitmap, container, c);
    }
  }

  /**
   * The region `cropBitmapOriginal` asks for: the rounded origin clamped to
   * the last pixel column and row, and the rounded size floored at one.
   */
  function PreviewRegion(bitmap: Bitmap, crop: CropRect): (g: RectInt)
    requires bitmap.width >= 1 && bitmap.height >= 1
    ensures 0 <= g.x < bitmap.width && 0 <= g.y < bitmap.height && g.w >= 1 && g.h >= 1
  {
    RectInt(CoerceInInt(RoundToInt(crop.topLeft.x), 0, bitmap.width - 1),
            CoerceInInt(RoundToInt(crop.topLeft.y), 0, bitmap.height - 1),
            MaxInt(RoundToInt(crop.bottomRight.x - crop.topLeft.x), 1),
            MaxInt(RoundToInt(crop.bottomRight.y - crop.topLeft.y), 1))
  }

  /**
   * `cropBitmapOriginal`: the preview region when it fits in the bitmap,
   * None when it would run past the right or bottom edge.
   */
  function CropBitmapOriginal(bitmap: Bitmap, crop: CropRect): (r: Option<RectInt>)
    requires bitmap.width >= 1 && bitmap.height >= 1
    ensures r.None? <==> !PreviewRegion(bitmap, crop).InsideImage(bitmap.width, bitmap.height)
    ensures r.Some? ==> r.value == PreviewRegion(bitmap, crop) && r.value.InsideImage(bitmap.width, bitmap.height)
  {
    var g := PreviewRegion(bitmap, crop);
    if g.x + g.w > bitmap.width || g.y + g.h > bitmap.height then None
    else Some(g)
  }

  /** Rounding a whole number gives it back. */
  lemma RoundWhole(v: real)
    requires IsWhole(v)
    ensures RoundToInt(v) == v.Floor
  {
    assert v.Floor as real <= v + 0.5 < (v.Floor + 1) as real;
  }

  /**
   * One axis of the preview of a committed crop `[a, b]` of `[0, n]`: the
   * rounded start clamped to the last pixel and the rounded length floored
   * at one end within `n`. They are the crop's own start and length, or the
   * last pixel when the start is on the far edge.
   */
  lemma PreviewAxis(a: real, b: real, n: int)
    requires n >= 1 && IsWhole(a) && IsWhole(b) && 0.0 <= a <= n as real
    requires b - a >= 1.0 && b <= Max(n as real, a + 1.0)
    ensures CoerceInInt(RoundToInt(a), 0, n - 1) + MaxInt(RoundToInt(b - a), 1) <= n
    ensures a < n as real ==> CoerceInInt(RoundToInt(a), 0, n - 1) == a.Floor && MaxInt(RoundToInt(b - a), 1) == (b - a).Floor
    ensures a == n as real ==> CoerceInInt(RoundToInt(a), 0, n - 1) == n - 1 && MaxInt(RoundToInt(b - a), 1) == 1
  {
    RoundWhole(a);
    WholeSpan(a, b);
    RoundWhole(b - a);
  }

  /**
   * Every committed crop has a preview: it is the crop itself, except that
   * a crop starting on the image's far edge is previewed as the last pixel
   * column (or row).
   */
  lemma CommittedCropHasPreview(bitmap: Bitmap, crop: CropRect)
    requires bitmap.width >= 1 && bitmap.height >= 1 && CommittedCrop(crop, bitmap)
    ensures CropBitmapOriginal(bitmap, crop).Some?
    ensures
      var g := CropBitmapOriginal(bitmap, crop).value;
      && (crop.topLeft.x < bitmap.width as real ==>
            g.x == crop.topLeft.x.Floor && g.w == (crop.bottomRight.x - crop.topLeft.x).Floor)
      && (crop.topLeft.x == bitmap.width as real ==> g.x == bitmap.width - 1 && g.w == 1)
      && (crop.topLeft.y < bitmap.height as real ==>
            g.y == crop.topLeft.y.Floor && g.h == (crop.bottomRight.y - crop.topLeft.y).Floor)
      && (crop.topLeft.y == bitmap.height as real ==> g.y == bitmap.height - 1 && g.h == 1)
    ensures crop.topLeft.x < bitmap.width as real && crop.topLeft.y < bitmap.height as real ==>
      CropBitmapOriginal(bitmap, crop) == Some(PixelRegion(crop))
  {
    PreviewAxis(crop.topLeft.x, crop.bottomRight.x, bitmap.width);
    PreviewAxis(crop.topLeft.y, crop.bottomRight.y, bitmap.height);
    if crop.topLeft.x < bitmap.width as real && crop.topLeft.y < bitmap.height as real {
      assert PreviewRegion(bitmap, crop) == PixelRegion(crop);
    }
  }

  /**
   * For a committed screen rect whose crop does not start on the far edge,
   * the preview is exactly the region `cropBitmapFor` cuts.
   */
  lemma PreviewAgreesWithCropBitmapFor(bitmap: Bitmap, container: IntSize, screen: Rect)
    requires bitmap.width >= 1 && bitmap.height >= 1
    requires ToCropRectOriginal(screen, bitmap, container).Some?
    ensures
      var c := ToCropRectOriginal(screen, bitmap, container).value;
      c.topLeft.x < bitmap.width as real && c.topLeft.y < bitmap.height as real ==>
        CropBitmapOriginal(bitmap, c) == CropBitmapFor(bitmap, container, screen)
  {
    var c := ToCropRectOriginal(screen, bitmap, container).value;
    CommittedCropHasPreview(bitmap, c);
    CropBitmapForAgrees(bitmap, container, screen);
    if c.topLeft.x < bitmap.width as real && c.topLeft.y < bitmap.height as real {
      var g := CropBitmapFor(bitmap, container, screen).value;
      assert c == CropRectOf(g);
      assert g.x as real == c.topLeft.x && g.y as real == c.topLeft.y;
      assert (g.w as real).Floor == g.w && (g.h as real).Floor == g.h;
    }
  }

  /** The state of one crop session for a decoded bitmap. */
  class ImageCropContent {
    const bitmap: Bitmap
    const originalUri: string
    var containerSize: IntSize
    var activeAspect: CropAspect
    var activeRectScreen: Option<Rect>
    var savedSquareOriginal: Option<CropRect>
    var savedRectOriginal: Option<CropRect>
    /** The regions of the two previews. */
    var squarePreview: Option<RectInt>
    var rectPreview: Option<RectInt>

    /**
     * Each saved crop is a committed crop and its preview is present and
     * cut from it; with no saved crop there is no preview.
     */
    ghost predicate Valid()
      reads this
    {
      && bitmap.width >= 1 && bitmap.height >= 1
      && (savedSquareOriginal.None? ==> squarePreview.None?)
      && (savedSquareOriginal.Some? ==>
            CommittedCrop(savedSquareOriginal.value, bitmap) &&
            squarePreview == CropBitmapOriginal(bitmap, savedSquareOriginal.value) && squarePreview.Some?)
      && (savedRectOriginal.None? ==> rectPreview.None?)
      && (savedRectOriginal.Some? ==>
            CommittedCrop(savedRectOriginal.value, bitmap) &&
            rectPreview == CropBitmapOriginal(bitmap, savedRectOriginal.value) && rectPreview.Some?)
    }

    /** The state cells as `remember` creates them: square aspect, nothing saved. */
    constructor (bitmap: Bitmap, originalUri: string)
      requires bitmap.width >= 1 && bitmap.height >= 1
      ensures Valid()
      ensures this.bitmap == bitmap && this.originalUri == originalUri
      ensures containerSize == IntSize(0, 0) && activeAspect == Square && activeRectScreen == None
      ensures savedSquareOriginal == None && savedRectOriginal == None
      ensures squarePreview == None && rectPreview == None
    {
      this.bitmap := bitmap;
      this.originalUri := originalUri;
      containerSize := IntSize(0, 0);
      activeAspect := Square;
      activeRectScreen := None;
      savedSquareOriginal := None;
      savedRectOriginal := None;
      squarePreview := None;
      rectPreview := None;
    }

    /** `bothSelected`: the save button is enabled exactly when both crops are saved. */
    function BothSelected(): (both: bool)
      requires Valid()
      reads this
      ensures both <==> squarePreview.Some? && rectPreview.Some?
      ensures both ==> CommittedCrop(savedSquareOriginal.value, bitmap) && CommittedCrop(savedRectOriginal.value, bitmap)
    {
      savedSquareOriginal != None && savedRectOriginal != None
    }

    /**
     * The outline of a saved crop on screen, if that crop is saved; once the
     * container is measured it lies inside the image bounds unless the crop
     * starts on the image's far edge.
     */
    function SavedOutline(aspect: CropAspect): (r: Option<Rect>)
      requires Valid()
      reads this
      ensures r.Some? <==> (if aspect == Square then savedSquareOriginal else savedRectOriginal).Some?
      ensures r.Some? && containerSize.width > 0 && containerSize.height > 0 ==>
        var c := (if aspect == Square then savedSquareOriginal else savedRectOriginal).value;
        c.topLeft.x < bitmap.width as real && c.topLeft.y < bitmap.height as real ==>
          r.value.Within(ImageBoundsInContainer(bitmap, containerSize).value)
    {
      var saved := if aspect == Square then savedSquareOriginal else savedRectOriginal;
      match saved
      case None => None
      case Some(c) =>
        CommittedOutlineWithin(bitmap, containerSize, c);
        Some(OriginalToScreenRect(bitmap, containerSize, c))
    }

    /** `onGloballyPositioned`: the container's measured size. */
    method Layout(size: IntSize)
      requires Valid()
      modifies this`containerSize
      ensures Valid() && containerSize == size
    {
      containerSize := size;
    }

    /** `onAspectChange` of the aspect toggle. */
    method SelectAspect(aspect: CropAspect)
      requires Valid()
      modifies this`activeAspect
      ensures Valid() && activeAspect == aspect
    {
      activeAspect := aspect;
    }

    /** `onCropRectChanged` and `onCropCommitted` of the overlay: both record the live rect. */
    method OnCropRect(r: Rect)
      requires Valid()
      modifies this`activeRectScreen
      ensures Valid() && activeRectScreen == Some(r)
    {
      activeRectScreen := Some(r);
    }

    /** The crop the confirm button would save now. */
    function PendingCrop(): (c: Option<CropRect>)
      reads this
      ensures c.Some? ==> activeRectScreen.Some? && CommittedCrop(c.value, bitmap)
      ensures activeRectScreen.Some? ==>
        (c.None? <==> ClampedToBounds(activeRectScreen.value, bitmap, containerSize).None?)
    {
      match activeRectScreen
      case None => None
      case Some(r) => ToCropRectOriginal(r, bitmap, containerSize)
    }

    /**
     * The confirm button: the active rect, committed to original pixels,
     * becomes the saved crop of the active aspect and its preview is cut;
     * the other aspect is untouched. Nothing happens without a rect or a
     * crop.
     */
    method Confirm()
      requires Valid()
      modifies this`savedSquareOriginal, this`squarePreview, this`savedRectOriginal, this`rectPreview
      ensures Valid()
      ensures PendingCrop().None? ==> unchanged(this)
      ensures PendingCrop().Some? && activeAspect == Square ==>
        && savedSquareOriginal == PendingCrop() && squarePreview.Some?
        && savedRectOriginal == old(savedRectOriginal) && rectPreview == old(rectPreview)
      ensures PendingCrop().Some? && activeAspect == Ratio3x4 ==>
        && savedRectOriginal == PendingCrop() && rectPreview.Some?
        && savedSquareOriginal == old(savedSquareOriginal) && squarePreview == old(squarePreview)
    {
      if activeRectScreen.None? {
        return;
      }
      var r := activeRectScreen.value;
      var crop := ToCropRectOriginal(r, bitmap, containerSize);
      if crop.None? {
        return;
      }
      CommittedCropHasPreview(bitmap, crop.value);
      match activeAspect {
        case Square =>
          savedSquareOriginal := crop;
          squarePreview := CropBitmapOriginal(bitmap, crop.value);
        case Ratio3x4 =>
          savedRectOriginal := crop;
          rectPreview := CropBitmapOriginal(bitmap, crop.value);
      }
    }

    /** The reset button: clears the saved crop and preview of the active aspect only. */
    method ResetActive()
      requires Valid()
      modifies this`savedSquareOriginal, this`squarePreview, this`savedRectOriginal, this`rectPreview
      ensures Valid()
      ensures activeAspect == Square ==>
        && savedSquareOriginal == None && squarePreview == None
        && savedRectOriginal == old(savedRectOriginal) && rectPreview == old(rectPreview)
      ensures activeAspect == Ratio3x4 ==>
        && savedRectOriginal == None && rectPreview == None
        && savedSquareOriginal == old(savedSquareOriginal) && squarePreview == old(squarePreview)
    {
      match activeAspect {
        case Square =>
          savedSquareOriginal := None;
          squarePreview := None;
        case Ratio3x4 =>
          savedRectOriginal := None;
          rectPreview := None;
      }
    }

    /**
     * The save button, given a fresh id and the current time: a record with
     * both saved crops when both exist, nothing otherwise. The session is
     * not changed.
     */
    method Save(id: string, createdAt: int) returns (record: Option<PhotoUi>)
      requires Valid()
      ensures record.Some? <==> savedSquareOriginal.Some? && savedRectOriginal.Some?
      ensures record.Some? ==>
        && record.value.id == id && record.value.originalUri == originalUri && record.value.createdAt == createdAt
        && Some(record.value.squareCrop) == savedSquareOriginal && Some(record.value.rectCrop) == savedRectOriginal
        && CommittedCrop(record.value.squareCrop, bitmap) && CommittedCrop(record.value.rectCrop, bitmap)
    {
      record := None;
      var squareCrop := savedSquareOriginal;
      var rectCrop := savedRectOriginal;
      if squareCrop.Some? && rectCrop.Some? {
        record := Some(PhotoUi(id, originalUri, squareCrop.value, rectCrop.value, createdAt));
      }
    }
  }
}
