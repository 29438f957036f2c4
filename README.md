# ImageCropper crop geometry in Dafny

A model of the crop-geometry engine of the ImageCropper Android app, with
proofs. The user picks an image. The app draws it "fit"-scaled and centred in
a square container. Over it sits a draggable crop overlay, either square
(1:1) or 3:4, with four corner handles and a draggable body. A committed
overlay rectangle is converted from screen space to original-image pixels.
The crop session keeps one committed crop per aspect and shows a preview of
each. Saving needs both crops and produces a photo record. That record is
persisted through a domain and an entity layer. The app also holds an
image-loader transformation, `RectCropTransformation`, that cuts a saved crop
out of a bitmap; no screen applies it.

The project is organised as follows:

| file | module | what it holds |
|---|---|---|
| `nullable.dfy` | `Nullable` | the `Option` type that stands for Kotlin's nullable results |
| `geometry.dfy` | `Geometry` | `Offset`, `Rect`, `IntSize` and `Bitmap` (a bitmap is only its pixel size), plus the Kotlin numeric helpers `min`, `max`, `coerceIn`, `roundToInt` (nearest integer, ties upward) and `toInt` (truncation toward zero) |
| `crop_models.dfy` | `CropModels` | `PointF`, `CropRect`, `CropAspect` (ratio 1 or 3/4), `DragTarget` and `RectInt` |
| `crop_mapping.dfy` | `CropMapping` | where the image is drawn in the container, the inverse map to whole pixels, and the commit of a screen rect to a crop |
| `overlay_geometry.dfy` | `OverlayGeometry` | what both overlays share: handle positions, the prioritised hit test, and the clamp of a top-left corner into the bounds |
| `fixed_aspect_overlay.dfy` | `FixedAspectOverlay` | the fixed-aspect overlay, as a class over its state cells |
| `square_overlay.dfy` | `SquareOverlay` | the earlier square-only overlay, as a class |
| `images_screen.dfy` | `ImagesScreen` | the earlier square crop screen with its own square screen-to-original map |
| `image_crop_screen.dfy` | `ImageCropScreen` | the crop session as a class; the forward original-to-screen map and its round trip with the commit; the preview region |
| `rect_crop_transformation.dfy` | `RectCropTransformation` | the crop transformation `RectCropTransformation`, applied to the full-size bitmap |
| `photo_records.dfy` | `PhotoEntity`, `PhotoDomain`, `PhotoUi` | the three photo records and the field-for-field mappers between them |

Coordinates are Dafny `real`s. Kotlin `Float` arithmetic is taken as exact.
The dp-to-px handle radius and design minimum are positive parameters of
the overlays. The image bounds, press positions and drag deltas reach the
overlay methods as parameters. A hit test compares squared distances instead
of taking a square root; the two are equivalent for a non-negative threshold.

Where the code and its intent differ, the model follows the code:

- The fixed-aspect corner resize takes its candidate handle position from the
  latest drag delta (`handleStart + dragAmount`). The delta is still added to
  `dragAccum`.
- Its maximum height is the height of the whole bounds, not the room measured
  from the anchor.
- Its `coerceIn(minH, maxH)` throws when the bounds are less than one pixel
  tall at that aspect. That case is the outcome `CoerceInThrows`, and the
  state is then left as it was apart from `dragAccum`.

The main results are these:

- Every committed crop is whole-pixel, at least 1×1, and starts inside the
  image (`CropMapping.CommittedCrop`).
- Committing a screen rect and mapping it back lands within half an original
  pixel of the rect's left and top edges. It lands within one pixel of the
  right and bottom edges (`ImageCropScreen.CommitRoundTrip`).
- The preview and the region `cropBitmapFor` cuts are the same region for
  every committed crop not starting on the image's far edge. So is the region
  `RectCropTransformation` cuts from the full-size bitmap.
- A crop starting on the far edge is previewed as the last pixel column or
  row, but the transformation gives back the whole bitmap for it
  (`RectCropTransformation.TransformOfCommittedCrop`).
- Each overlay step keeps the rectangle inside the bounds under its own
  condition. A fixed-aspect corner resize always ends inside
  (`FixedAspectOverlay.CornerMove`). A fixed-aspect body drag ends inside
  whenever the height is at most the tallest fitting height
  (`FixedAspectOverlay.ClampedRectWithin`). A square body drag ends inside
  whenever the side fits in the bounds
  (`SquareOverlay.CutOutOverlay.MoveBody`). A square corner resize ends
  inside whenever its anchor is inside the bounds (`SquareOverlay.CornerMove`).
  The overlays do not keep the bounds, so no class invariant ties the
  rectangle to them.
- The record mappers round-trip exactly.

## Model

| member | source | states |
|---|---|---|
| Geometry.Intersect | app/src/main/java/com/example/imagecropper_android/util/CropMapping.kt:61-67 | a clamped rect of positive size lies inside both the screen rect and the bounds |
| Geometry.IntersectIsMeet | app/src/main/java/com/example/imagecropper_android/util/CropMapping.kt:88-93 | the clamp is the meet of the two rects: it holds exactly the points both hold, and every rect inside both lies inside it |
| Geometry.CoerceIn | app/src/main/java/com/example/imagecropper_android/ui/components/CutOutOverlayFixedAspect.kt:74-75 | the result lies in `[lo, hi]`; it is the value itself when already in range, else the nearer end |
| Geometry.RoundToInt | app/src/main/java/com/example/imagecropper_android/util/CropMapping.kt:45-48 | `roundToInt` is the integer within half a unit, ties upward: `x - 1/2 < r <= x + 1/2` |
| Geometry.Truncate | app/src/main/java/com/example/imagecropper_android/ui/components/RectCropTransformation.kt:16-19 | `toInt` truncates toward zero: the result is within one unit of `x`, on the side of zero |
| CropModels.CropAspect.Ratio | app/src/main/java/com/example/imagecropper_android/ui/models/CropModels.kt:21-24 | the ratio is positive: exactly 1 for Square and 3/4 for Ratio3x4 |
| CropMapping.FitOf | app/src/main/java/com/example/imagecropper_android/util/CropMapping.kt:21-25 | the fit scale is positive for a container of positive size |
| CropMapping.ImageBoundsInContainer | app/src/main/java/com/example/imagecropper_android/util/CropMapping.kt:13-27 | null exactly when a container or bitmap dimension is at most 0 |
| CropMapping.BoundsOfFit | app/src/main/java/com/example/imagecropper_android/util/CropMapping.kt:13-27 | the bounds start at the centring offsets `(dx, dy)` and extend `ow·scale` across and `oh·scale` down |
| CropMapping.BoundsFitContainer | app/src/main/java/com/example/imagecropper_android/util/CropMapping.kt:21-26 | the bounds are `(ow·scale, oh·scale)` and keep the bitmap's aspect ratio; they lie inside the container, fill it along at least one axis and are centred |
| CropMapping.BoundsExample | app/src/main/java/com/example/imagecropper_android/util/CropMapping.kt:24-26 | a 2000×1000 image in a 1000×1000 container is drawn at (0, 250)-(1000, 750) |
| CropMapping.ScreenToOriginal | app/src/main/java/com/example/imagecropper_android/util/CropMapping.kt:29-53 | left is in `[0, ow]` and top in `[0, oh]`; w and h are at least 1; `left + w <= max(ow, left + 1)`, and likewise for top |
| CropMapping.FitToPixels | app/src/main/java/com/example/imagecropper_android/util/CropMapping.kt:45-52 | for any fit of positive scale, the same bounds as `ScreenToOriginal` |
| CropMapping.AxisPixels | app/src/main/java/com/example/imagecropper_android/util/CropMapping.kt:45-51 | one axis of the inverse map: start in `[0, n]`, length at least 1, end at most `max(n, start + 1)` |
| CropMapping.PixelSpan | app/src/main/java/com/example/imagecropper_android/util/CropMapping.kt:45-51 | the rounded, clamped start and length meet the same three bounds |
| CropMapping.ScreenToOriginalExample | app/src/main/java/com/example/imagecropper_android/util/CropMapping.kt:29-53 | with the bounds above, the screen rect (100, 300)-(300, 500) is the original region (200, 100, 400, 400) |
| CropMapping.CropRectOf | app/src/main/java/com/example/imagecropper_android/util/CropMapping.kt:103-105 | the crop record has whole-pixel corners, and `bottomRight - topLeft` is the region's `(w, h)` |
| CropMapping.ClampedToBounds | app/src/main/java/com/example/imagecropper_android/util/CropMapping.kt:87-94 | null exactly when the bounds are absent or the clamped rect has no positive width or height; otherwise it is the intersection of the screen rect and the bounds, and lies inside both |
| CropMapping.PixelRegionInverse | app/src/main/java/com/example/imagecropper_android/util/CropMapping.kt:103-105 | the crop record and its pixel region are mutually inverse on committed crops |
| CropMapping.ToCropRectOriginal | app/src/main/java/com/example/imagecropper_android/util/CropMapping.kt:83-106 | null exactly when the clamp is null; otherwise a committed crop (whole pixels, top-left in `[0, W]×[0, H]`, at least 1×1, never past the far edge but for the one-pixel floor) |
| ImageCropScreen.ClampedCommitRoundTrip | app/src/main/java/com/example/imagecropper_android/util/CropMapping.kt:83-106 | for any screen rect whose part inside the bounds is at least half a pixel in size, the commit exists and `originalToScreenRect` brings it back within half a pixel of that part's left and top edges and within one pixel of its right and bottom edges |
| CropMapping.CropBitmapFor | app/src/main/java/com/example/imagecropper_android/util/CropMapping.kt:55-81 | a cut region lies wholly inside the bitmap; there is none when the clamp is null |
| CropMapping.CropBitmapForAgrees | app/src/main/java/com/example/imagecropper_android/util/CropMapping.kt:76-80 | a region is cut exactly when `toCropRectOriginal` succeeds with a top-left short of the far edges, and it is that crop |
| OverlayGeometry.Opposite | app/src/main/java/com/example/imagecropper_android/ui/components/CutOutOverlayFixedAspect.kt:113-118 | the anchor of a handle is another handle |
| OverlayGeometry.OppositeIsDiagonal | app/src/main/java/com/example/imagecropper_android/ui/components/CutOutOverlayFixedAspect.kt:113-118 | the anchor is diagonally across, in both coordinates, and opposite twice is the identity |
| OverlayGeometry.Corner | app/src/main/java/com/example/imagecropper_android/ui/components/CutOutOverlayFixedAspect.kt:80-83 | each handle is a corner of the rect and lies in it when the rect is well-formed; on a rect of positive width a handle is on the left edge exactly for TL and BL and on the right edge exactly for TR and BR, and likewise top and bottom |
| OverlayGeometry.HitRadius | app/src/main/java/com/example/imagecropper_android/ui/components/CutOutOverlayFixedAspect.kt:84 | a handle can be grabbed beyond its drawn radius: the reach exceeds a positive radius, and it is non-negative exactly when the radius is |
| OverlayGeometry.Priority | app/src/main/java/com/example/imagecropper_android/ui/components/CutOutOverlayFixedAspect.kt:85-89 | each handle has a place in the hit-test order TL, TR, BL, BR |
| OverlayGeometry.HitTest | app/src/main/java/com/example/imagecropper_android/ui/components/CutOutOverlayFixedAspect.kt:79-93 | a chosen handle is within 1.2·handleR of the press; BODY only for a press inside the inclusive rect |
| OverlayGeometry.HitTestPriority | app/src/main/java/com/example/imagecropper_android/ui/components/CutOutOverlayFixedAspect.kt:79-93 | a handle is chosen exactly when it is in reach and no earlier handle is; with none in reach, BODY exactly when inside, else NONE |
| OverlayGeometry.ClampTopLeft | app/src/main/java/com/example/imagecropper_android/ui/components/CutOutOverlayFixedAspect.kt:68-77 | x lies in `[b.left, b.right - w]` when that is non-empty, else it is pinned to `b.left`; a coordinate already in range is kept, one below the range becomes its low end and one above becomes its high end; y likewise |
| OverlayGeometry.ClampedWithin | app/src/main/java/com/example/imagecropper_android/ui/components/CutOutOverlayFixedAspect.kt:68-77 | a rectangle no larger than the bounds lies inside them after the clamp |
| FixedAspectOverlay.RectOf | app/src/main/java/com/example/imagecropper_android/ui/components/CutOutOverlayFixedAspect.kt:57-60 | the rectangle at the top-left with the given height has width `height·aspect` |
| FixedAspectOverlay.MaxHeightForBounds | app/src/main/java/com/example/imagecropper_android/ui/components/CutOutOverlayFixedAspect.kt:141 | `maxH` is the tallest height of this aspect that fits: it fits, and it fills the bounds along one axis |
| FixedAspectOverlay.MinHeightForBounds | app/src/main/java/com/example/imagecropper_android/ui/components/CutOutOverlayFixedAspect.kt:62-66 | `minH` is at least 1 and at most `max(1, design)` and `max(1, maxH)`; `minH <= maxH` exactly when `maxH >= 1` |
| FixedAspectOverlay.ResetRect | app/src/main/java/com/example/imagecropper_android/ui/components/CutOutOverlayFixedAspect.kt:41-54 | the height is `max(1, 0.6·maxH)` and the width is height·aspect; the rect is centred in the bounds |
| FixedAspectOverlay.ResetRectWithin | app/src/main/java/com/example/imagecropper_android/ui/components/CutOutOverlayFixedAspect.kt:46-52 | the reset rectangle lies inside the bounds exactly when `maxH >= 1` |
| FixedAspectOverlay.CandidateHeight | app/src/main/java/com/example/imagecropper_android/ui/components/CutOutOverlayFixedAspect.kt:136-139 | the candidate height is non-negative |
| FixedAspectOverlay.ResizedHeight | app/src/main/java/com/example/imagecropper_android/ui/components/CutOutOverlayFixedAspect.kt:141-144 | `coerceIn` throws exactly when `maxH < 1`; otherwise the height lies in `[minH, maxH]`: the candidate when it is in range, `minH` when it is below and `maxH` when it is above |
| FixedAspectOverlay.TopLeftFromAnchor | app/src/main/java/com/example/imagecropper_android/ui/components/CutOutOverlayFixedAspect.kt:145-151 | the rebuilt rectangle has the anchor as the corner opposite the dragged handle |
| FixedAspectOverlay.ClampedRectWithin | app/src/main/java/com/example/imagecropper_android/ui/components/CutOutOverlayFixedAspect.kt:126-152 | a rectangle no taller than `maxH` lies inside the bounds after the clamp, so a body drag or a corner resize keeps it inside |
| FixedAspectOverlay.CornerMove | app/src/main/java/com/example/imagecropper_android/ui/components/CutOutOverlayFixedAspect.kt:132-156 | the corner move throws exactly when `maxH < 1`; otherwise the height is `ResizedHeight` of the candidate height measured from the anchor to the moved handle, it lies in `[minH, maxH]`, and the rectangle lies inside the bounds. When the rectangle rebuilt from the anchor already fits, the anchor stays the corner opposite the dragged handle |
| FixedAspectOverlay.CutOutOverlay.constructor | app/src/main/java/com/example/imagecropper_android/ui/components/CutOutOverlayFixedAspect.kt:38-39 | the state cells start at zero, with target NONE |
| FixedAspectOverlay.CutOutOverlay.CurrentRect | app/src/main/java/com/example/imagecropper_android/ui/components/CutOutOverlayFixedAspect.kt:57-60 | the aspect invariant: width is `rectHeight·aspect` and height is `rectHeight` |
| FixedAspectOverlay.CutOutOverlay.Reset | app/src/main/java/com/example/imagecropper_android/ui/components/CutOutOverlayFixedAspect.kt:41-55 | with bounds of positive size the rect becomes the centred reset rect and is reported; otherwise nothing changes and nothing is reported |
| FixedAspectOverlay.CutOutOverlay.DragStart | app/src/main/java/com/example/imagecropper_android/ui/components/CutOutOverlayFixedAspect.kt:107-120 | the target is the hit test's and the accumulated delta is zeroed; for a corner the anchor is the opposite corner and the handle start is the grabbed one; with absent bounds nothing changes |
| FixedAspectOverlay.CutOutOverlay.DragMove | app/src/main/java/com/example/imagecropper_android/ui/components/CutOutOverlayFixedAspect.kt:121-160 | silent without bounds or target. A body drag keeps the height and clamps the moved top-left. A corner drag adds the delta to `dragAccum` and applies `CornerMove` to `handleStart + dragAmount`, or reports the throw |
| FixedAspectOverlay.CutOutOverlay.MoveBody | app/src/main/java/com/example/imagecropper_android/ui/components/CutOutOverlayFixedAspect.kt:126-130 | the new top-left is the clamped moved one and it is reported |
| FixedAspectOverlay.CutOutOverlay.MoveCorner | app/src/main/java/com/example/imagecropper_android/ui/components/CutOutOverlayFixedAspect.kt:132-156 | the new state is `CornerMove`'s result and is reported, or the throw with the rect unchanged |
| FixedAspectOverlay.CutOutOverlay.DragEnd | app/src/main/java/com/example/imagecropper_android/ui/components/CutOutOverlayFixedAspect.kt:161-164 | the target becomes NONE and the current rect is committed |
| FixedAspectOverlay.CutOutOverlay.DragCancel | app/src/main/java/com/example/imagecropper_android/ui/components/CutOutOverlayFixedAspect.kt:165-168 | identical to a drag end |
| SquareOverlay.SquareAt | app/src/main/java/com/example/imagecropper_android/ui/ImagesScreen.kt:397-398 | the square at the top-left has both sides equal to `side` |
| SquareOverlay.MinSideForBounds | app/src/main/java/com/example/imagecropper_android/ui/ImagesScreen.kt:400-401 | `minSide` is at least 1 and at most `max(1, min(bw, bh))` and `max(1, design)` |
| SquareOverlay.SideMaxForHandle | app/src/main/java/com/example/imagecropper_android/ui/ImagesScreen.kt:429-435 | the room from the anchor toward the dragged corner is non-negative |
| SquareOverlay.TopLeftFromAnchor | app/src/main/java/com/example/imagecropper_android/ui/ImagesScreen.kt:437-443 | the square built from it has the anchor as the corner opposite the dragged handle |
| SquareOverlay.SideMaxIsLargestFit | app/src/main/java/com/example/imagecropper_android/ui/ImagesScreen.kt:429-443 | for an anchor in the bounds, the square built toward the dragged corner fits exactly when its side is at most `sideMax`; the clamp then leaves it in place |
| SquareOverlay.ClampSide | app/src/main/java/com/example/imagecropper_android/ui/ImagesScreen.kt:517-522 | the side is in `(0, sideMax]` and at least `min(minSide, sideMax)`. It is the raw side when that is in range, `minSide` when the raw side is below it, and `sideMax` when the raw side is above it or the room is below the minimum |
| SquareOverlay.CornerMove | app/src/main/java/com/example/imagecropper_android/ui/ImagesScreen.kt:507-536 | no move exactly when `sideMax <= 0`; otherwise the side is `ClampSide` of the larger of the handle's distances from the anchor along x and y, with `sideMax` and the bounds' minimum. For an anchor in the bounds the square lies inside them, with the anchor as its opposite corner |
| SquareOverlay.ResetSquare | app/src/main/java/com/example/imagecropper_android/ui/ImagesScreen.kt:378-389 | the side is `0.6·min(bw, bh)`; the square is centred and lies inside the bounds |
| SquareOverlay.CutOutOverlay.constructor | app/src/main/java/com/example/imagecropper_android/ui/ImagesScreen.kt:375-376 | the state cells start at zero, with target NONE |
| SquareOverlay.CutOutOverlay.CurrentRect | app/src/main/java/com/example/imagecropper_android/ui/ImagesScreen.kt:397-398 | the current rect is a square of side `squareSide` |
| SquareOverlay.CutOutOverlay.Reset | app/src/main/java/com/example/imagecropper_android/ui/ImagesScreen.kt:378-390 | with bounds of positive size it becomes the reset square and is reported; otherwise nothing changes |
| SquareOverlay.CutOutOverlay.DragStart | app/src/main/java/com/example/imagecropper_android/ui/ImagesScreen.kt:455-484 | the target is the hit test's; for a corner it snapshots the opposite corner and the grabbed one; with absent bounds nothing changes |
| SquareOverlay.CutOutOverlay.DragMove | app/src/main/java/com/example/imagecropper_android/ui/ImagesScreen.kt:485-540 | silent without bounds or target. A body drag clamps the moved top-left (inside when the side fits). A corner drag accumulates the delta and applies `CornerMove` to `handleStart + dragAccum`, and is silent when `sideMax <= 0` |
| SquareOverlay.CutOutOverlay.MoveBody | app/src/main/java/com/example/imagecropper_android/ui/ImagesScreen.kt:490-505 | the new top-left is the clamped moved one and it is reported |
| SquareOverlay.CutOutOverlay.MoveCorner | app/src/main/java/com/example/imagecropper_android/ui/ImagesScreen.kt:507-536 | the new state is `CornerMove`'s result, or silence with the square unchanged |
| SquareOverlay.CutOutOverlay.DragEnd | app/src/main/java/com/example/imagecropper_android/ui/ImagesScreen.kt:541-545 | the target becomes NONE and the current square is committed |
| SquareOverlay.CutOutOverlay.DragCancel | app/src/main/java/com/example/imagecropper_android/ui/ImagesScreen.kt:546-550 | identical to a drag end |
| ImagesScreen.SquareScreenToOriginal | app/src/main/java/com/example/imagecropper_android/ui/ImagesScreen.kt:249-269 | left and top are clamped into the image; `w == h >= 1`. The square is inside the image exactly when its origin is short of the far edges, and then it is no larger than the rounded screen width (or 1) |
| ImagesScreen.SquareCropRegion | app/src/main/java/com/example/imagecropper_android/ui/ImagesScreen.kt:273-294 | a region is a square inside the bitmap; there is none when the clamp is null |
| ImagesScreen.SquareRegionSharesOrigin | app/src/main/java/com/example/imagecropper_android/ui/ImagesScreen.kt:263-264 | the square region exists exactly when the general `cropBitmapFor` region does, with the same origin |
| ImagesScreen.ImagesScreenContent.constructor | app/src/main/java/com/example/imagecropper_android/ui/ImagesScreen.kt:229-231 | no size, no rect, no preview |
| ImagesScreen.ImagesScreenContent.Layout | app/src/main/java/com/example/imagecropper_android/ui/ImagesScreen.kt:309-311 | the container size is the measured one |
| ImagesScreen.ImagesScreenContent.OnCropRectChanged | app/src/main/java/com/example/imagecropper_android/ui/ImagesScreen.kt:326 | the live rect is recorded |
| ImagesScreen.ImagesScreenContent.OnCropCommitted | app/src/main/java/com/example/imagecropper_android/ui/ImagesScreen.kt:327 | the rect is recorded and the preview is recomputed from it |
| ImagesScreen.ImagesScreenContent.RecomputeCrop | app/src/main/java/com/example/imagecropper_android/ui/ImagesScreen.kt:271-296 | the preview becomes the square region when there is one and otherwise stays; every preview lies inside the bitmap |
| ImageCropScreen.OriginalToScreenRect | app/src/main/java/com/example/imagecropper_android/ui/screens/ImageCropScreen.kt:478-497 | original pixels map affinely onto the image bounds: each edge is the bounds' left or top plus the coordinate times one factor, the bounds' size over the bitmap's size, the same on both axes |
| ImageCropScreen.BoundsScale | app/src/main/java/com/example/imagecropper_android/ui/screens/ImageCropScreen.kt:482-490 | the fit the forward map recomputes is the fit of the image bounds: they start at `(dx, dy)` and their size over the bitmap's size is the scale on both axes |
| ImageCropScreen.CommittedOutlineWithin | app/src/main/java/com/example/imagecropper_android/ui/screens/ImageCropScreen.kt:335-338 | the outline of a committed crop lies inside the image bounds unless the crop starts on the image's far edge |
| ImageCropScreen.FullImageMapsToBounds | app/src/main/java/com/example/imagecropper_android/ui/screens/ImageCropScreen.kt:478-497 | the forward map uses the fit of `imageBoundsInContainer`: the whole image maps onto exactly the bounds |
| ImageCropScreen.OutlineWithinBounds | app/src/main/java/com/example/imagecropper_android/ui/screens/ImageCropScreen.kt:478-497 | a crop inside the image is outlined inside the image bounds |
| ImageCropScreen.FitWithin | app/src/main/java/com/example/imagecropper_android/ui/screens/ImageCropScreen.kt:492-496 | for any fit, a crop inside `[0, W] x [0, H]` maps inside the drawn image `[dx, dx + W*scale] x [dy, dy + H*scale]` |
| ImageCropScreen.AxisRoundTrip | app/src/main/java/com/example/imagecropper_android/util/CropMapping.kt:45-51 | for an interval at least half a pixel long inside `[0, n]`, the rounded start is within 1/2 and the rounded end within 1 |
| ImageCropScreen.ScreenAxisStart | app/src/main/java/com/example/imagecropper_android/ui/screens/ImageCropScreen.kt:492-493 | one axis: the pixel start mapped back is within `scale/2` of the screen start |
| ImageCropScreen.ScreenAxisEnd | app/src/main/java/com/example/imagecropper_android/ui/screens/ImageCropScreen.kt:494-495 | one axis: the pixel end mapped back is within `scale` of the screen end |
| ImageCropScreen.AxisBackStart | app/src/main/java/com/example/imagecropper_android/ui/screens/ImageCropScreen.kt:492-493 | one axis, for the pixels `screenToOriginal` picks: the start mapped back is within `scale/2` of the screen start |
| ImageCropScreen.AxisBackEnd | app/src/main/java/com/example/imagecropper_android/ui/screens/ImageCropScreen.kt:494-495 | one axis, for the pixels `screenToOriginal` picks: the end mapped back is within `scale` of the screen end |
| ImageCropScreen.FitRoundTrip | app/src/main/java/com/example/imagecropper_android/ui/screens/ImageCropScreen.kt:492-495 | for any fit, the left and top edges of the round trip are within `scale/2`, and the right and bottom within `scale` |
| ImageCropScreen.CommitRoundTrip | app/src/main/java/com/example/imagecropper_android/ui/screens/ImageCropScreen.kt:478-497 | a rect inside the bounds and at least half a pixel in size always commits. `originalToScreenRect` brings it back within half a pixel at left and top, and within one pixel at right and bottom |
| ImageCropScreen.PreviewRegion | app/src/main/java/com/example/imagecropper_android/ui/screens/ImageCropScreen.kt:500-503 | x is in `[0, W-1]` and y in `[0, H-1]`; w and h are at least 1 |
| ImageCropScreen.CropBitmapOriginal | app/src/main/java/com/example/imagecropper_android/ui/screens/ImageCropScreen.kt:499-506 | null exactly when the region overflows the bitmap; otherwise it is the region, inside the bitmap |
| ImageCropScreen.PreviewAxis | app/src/main/java/com/example/imagecropper_android/ui/screens/ImageCropScreen.kt:500-504 | one axis of a committed crop: the clamped rounded start plus the floored rounded length never passes the edge. Short of the far edge they are the crop's own start and length; on the far edge, the last pixel |
| ImageCropScreen.CommittedCropHasPreview | app/src/main/java/com/example/imagecropper_android/ui/screens/ImageCropScreen.kt:499-506 | every committed crop has a preview. It is the crop's own pixel region, except that a start on the far edge becomes the last column or row, one pixel wide |
| ImageCropScreen.PreviewAgreesWithCropBitmapFor | app/src/main/java/com/example/imagecropper_android/ui/screens/ImageCropScreen.kt:499-506 | for a commit not starting on the far edge, the preview is exactly the region `cropBitmapFor` cuts |
| ImageCropScreen.ImageCropContent.constructor | app/src/main/java/com/example/imagecropper_android/ui/screens/ImageCropScreen.kt:292-300 | square aspect, no rect, nothing saved, no preview |
| ImageCropScreen.ImageCropContent.Layout | app/src/main/java/com/example/imagecropper_android/ui/screens/ImageCropScreen.kt:323 | the container size is the measured one |
| ImageCropScreen.ImageCropContent.SelectAspect | app/src/main/java/com/example/imagecropper_android/ui/screens/ImageCropScreen.kt:313 | the active aspect is the chosen one |
| ImageCropScreen.ImageCropContent.OnCropRect | app/src/main/java/com/example/imagecropper_android/ui/screens/ImageCropScreen.kt:347-348 | both overlay callbacks record the live rect |
| ImageCropScreen.ImageCropContent.PendingCrop | app/src/main/java/com/example/imagecropper_android/ui/screens/ImageCropScreen.kt:355-356 | a pending crop needs an active rect and is a committed crop; with an active rect it is absent exactly when the rect's clamp to the bounds is |
| ImageCropScreen.ImageCropContent.Confirm | app/src/main/java/com/example/imagecropper_android/ui/screens/ImageCropScreen.kt:355-369 | no-op without a rect or a crop. Otherwise the commit becomes the active aspect's saved crop with a present preview, and the other aspect is untouched. Each saved crop stays committed, with its preview cut from it |
| ImageCropScreen.ImageCropContent.ResetActive | app/src/main/java/com/example/imagecropper_android/ui/screens/ImageCropScreen.kt:378-388 | only the active aspect's crop and preview are cleared |
| ImageCropScreen.ImageCropContent.BothSelected | app/src/main/java/com/example/imagecropper_android/ui/screens/ImageCropScreen.kt:302 | the save button is enabled exactly when both previews exist, and then both saved crops are committed crops |
| ImageCropScreen.ImageCropContent.SavedOutline | app/src/main/java/com/example/imagecropper_android/ui/screens/ImageCropScreen.kt:335-338 | an outline exists exactly when the aspect's crop is saved; once the container is measured it lies inside the image bounds unless the crop starts on the far edge |
| ImageCropScreen.ImageCropContent.Save | app/src/main/java/com/example/imagecropper_android/ui/screens/ImageCropScreen.kt:455-470 | a record exists exactly when both crops are saved (`bothSelected`). It carries the id, uri and time given, the square crop as `squareCrop` and the 3:4 crop as `rectCrop`; both are committed crops |
| RectCropTransformation.TransformRegion | app/src/main/java/com/example/imagecropper_android/ui/components/RectCropTransformation.kt:16-19 | the truncated origin is at least 0 and the truncated size is at least 1 |
| RectCropTransformation.Transform | app/src/main/java/com/example/imagecropper_android/ui/components/RectCropTransformation.kt:15-24 | the input comes back exactly when the region overflows it; otherwise the cut is that region, inside the input |
| RectCropTransformation.TransformRegionOfCommitted | app/src/main/java/com/example/imagecropper_android/ui/components/RectCropTransformation.kt:16-19 | on a committed crop, the truncated and floored region is the crop's own pixel region |
| RectCropTransformation.CommittedAxisEnd | app/src/main/java/com/example/imagecropper_android/ui/components/RectCropTransformation.kt:21 | one axis of a committed crop: the region ends within the image exactly when it does not start on the far edge |
| RectCropTransformation.TransformOfCommittedCrop | app/src/main/java/com/example/imagecropper_android/ui/components/RectCropTransformation.kt:15-24 | applied to the full-size bitmap, a committed crop short of the far edges is cut as its own pixel region; one starting on a far edge gives back the whole bitmap |
| RectCropTransformation.TransformMatchesPreview | app/src/main/java/com/example/imagecropper_android/ui/components/RectCropTransformation.kt:15-24 | for such a crop, the transformation applied to the full-size bitmap and the crop-screen preview cut the same region |
| PhotoDomain.ToEntity | app/src/main/java/com/example/imagecropper_android/domain/photo/model/PhotoDomain.kt:25-32 | every field is copied to its own slot, crops and corners unswapped, coordinates exact |
| PhotoDomain.ToDomain | app/src/main/java/com/example/imagecropper_android/domain/photo/model/PhotoDomain.kt:34-41 | every field is copied to its own slot, crops and corners unswapped, coordinates exact |
| PhotoDomain.CropToEmbeddable | app/src/main/java/com/example/imagecropper_android/domain/photo/model/PhotoDomain.kt:43-47 | the four corner coordinates are copied to the embedded columns unswapped |
| PhotoDomain.CropFromEmbeddable | app/src/main/java/com/example/imagecropper_android/domain/photo/model/PhotoDomain.kt:49-53 | the four embedded coordinates are copied back unswapped |
| PhotoDomain.CropEmbeddableRoundTrip | app/src/main/java/com/example/imagecropper_android/domain/photo/model/PhotoDomain.kt:43-56 | the two crop mappings are inverse to each other |
| PhotoDomain.EntityRoundTrip | app/src/main/java/com/example/imagecropper_android/domain/photo/model/PhotoDomain.kt:25-56 | `toEntity` then `toDomain` is the identity |
| PhotoDomain.DomainRoundTrip | app/src/main/java/com/example/imagecropper_android/domain/photo/model/PhotoDomain.kt:25-56 | `toDomain` then `toEntity` is the identity |
| PhotoDomain.ToEntityInjective | app/src/main/java/com/example/imagecropper_android/domain/photo/model/PhotoDomain.kt:25-32 | distinct records are stored as distinct rows |
| PhotoUi.ToDomain | app/src/main/java/com/example/imagecropper_android/ui/model/PhotoUi.kt:15-22 | every field is copied to its own slot, crops and corners unswapped, coordinates exact |
| PhotoUi.ToUi | app/src/main/java/com/example/imagecropper_android/ui/model/PhotoUi.kt:24-31 | every field is copied to its own slot, crops and corners unswapped, coordinates exact |
| PhotoUi.CropToDomain | app/src/main/java/com/example/imagecropper_android/ui/model/PhotoUi.kt:33-36 | the four corner coordinates are copied to the domain crop unswapped |
| PhotoUi.CropToUi | app/src/main/java/com/example/imagecropper_android/ui/model/PhotoUi.kt:38-41 | the four domain coordinates are copied back unswapped |
| PhotoUi.CropDomainRoundTrip | app/src/main/java/com/example/imagecropper_android/ui/model/PhotoUi.kt:33-41 | the two crop mappings are inverse to each other |
| PhotoUi.UiRoundTrip | app/src/main/java/com/example/imagecropper_android/ui/model/PhotoUi.kt:15-41 | `toDomain` then `toUi` is the identity |
| PhotoUi.DomainRoundTrip | app/src/main/java/com/example/imagecropper_android/ui/model/PhotoUi.kt:15-41 | `toUi` then `toDomain` is the identity |
| PhotoUi.StorageRoundTrip | app/src/main/java/com/example/imagecropper_android/ui/model/PhotoUi.kt:15-41 | a saved record survives the trip through the domain and entity layers unchanged |

## Left out

- Rendering and UI wiring are not modelled: Canvas drawing, the aspect toggle, the saved-rect outline composable, the gallery list and the buttons' labels. `SavedOutline` only gives the outline rect.
- Image decoding, camera and picker launchers, and file I/O are not modelled. A bitmap is only its pixel size, and `Bitmap.createBitmap` is the region it would cut. Pixel contents are not modelled.
- Persistence (Room DAO, database, repository), dependency injection, ViewModels, coroutines and navigation are not modelled.
- IEEE `Float` behaviour is not modelled: rounding error, overflow, infinities and NaN. Coordinates are exact reals. `Int` and `Long` are unbounded integers.
- The square root of the hit test is replaced by a comparison of squared distances.
- The dp-to-px density conversion is not modelled; the handle radius and design minimum are positive parameters.
- UUID generation and `System.currentTimeMillis` are not modelled; `Save` takes the id and time as parameters.
- `RectCropTransformation` has no caller in the app: the gallery list loads each photo's `originalUri` without a transformation. Its results are stated for the full-size original bitmap, whose pixel coordinates the crops use; an image loader that hands it a downsampled bitmap is not modelled.
- `RectCropTransformation.cacheKey` is left out; its float-to-string formatting has no geometric content.
- Recomposition timing is not modelled. The square overlay reads its position and side through `rememberUpdatedState`, and the model reads the live fields, so a stale value between recompositions is not captured.
- The local `imageBoundsInContainer` of the square crop screen (`ui/ImagesScreen.kt:233-247`) is the same computation as `CropMapping.ImageBoundsInContainer`, which the model uses for both.
- `ImageCropScreen.ImageCropContent.OnCropRect` stands for both overlay callbacks, which do the same thing.
- Composing the overlay into the screens is not modelled. The overlay classes and the screen classes are separate, and the rect an overlay reports is what the screen's `OnCropRect` receives.
- SquareOverlay.SideMaxForHandle: requires a corner target. Its non-corner branch (positive infinity) is never reached from the drag handler.
- SquareOverlay.TopLeftFromAnchor: requires a corner target, for the same reason.
- FixedAspectOverlay.TopLeftFromAnchor: requires a corner target; the `else -> rectTopLeft` branch is never reached.
- CropMapping.ScreenToOriginal: requires positive image and container sizes. Every caller first obtains the image bounds, which fail otherwise.
- ImageCropScreen.CropBitmapOriginal: requires a bitmap of at least 1×1. Otherwise `coerceIn(0, W - 1)` throws, and decoded bitmaps are never empty.
- Geometry.CoerceIn: requires `lo <= hi`. Where the source can call it with an empty range, at the fixed-aspect corner resize, the model checks first and reports `CoerceInThrows`.
- ImageCropScreen.CommitRoundTrip: proved only for screen rects at least half an original pixel wide and high. A thinner rect can be rounded to a one-pixel crop that ends up to 1.5 pixels past its right or bottom edge.
- FixedAspectOverlay.CutOutOverlay.MoveBody: the contract gives the new corner but does not itself say the rectangle stays inside the bounds. `FixedAspectOverlay.ClampedRectWithin` states that for the same clamped corner, whenever the height is at most `maxH`.
- FixedAspectOverlay.CutOutOverlay.DragMove: the body branch is stated as `MoveBody` states it, without the containment, for the same reason.
