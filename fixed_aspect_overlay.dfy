/**
 * The fixed-aspect crop overlay (`ui/components/CutOutOverlayFixedAspect.kt`):
 * a draggable rectangle whose width is always its height times the aspect
 * ratio, with four resize handles and a body drag, kept inside the image
 * bounds. The bounds, the press position and the drag deltas come from the
 * hosting UI as parameters of the event methods.
 */
module FixedAspectOverlay {
  import opened Nullable
  import opened Geometry
  import opened CropModels
  import opened OverlayGeometry

  /** `currentRect()`: the rectangle at `topLeft` whose width is `height * aspect`. */
  function RectOf(topLeft: Offset, height: real, aspect: CropAspect): (r: Rect)
    ensures r.left == topLeft.x && r.top == topLeft.y && r.Height() == height
    ensures r.Width() == r.Height() * aspect.Ratio()
  {
    RectAt(topLeft, height * aspect.Ratio(), height)
  }

  /** `min(b.height, b.width / aspect)`: the tallest rectangle of this aspect that fits in `b`. */
  function MaxHeightForBounds(b: Rect, aspect: CropAspect): (h: real)
    ensures h <= b.Height() && h * aspect.Ratio() <= b.Width()
    ensures h == b.Height() || h * aspect.Ratio() == b.Width()
  {
    Min(b.Height(), b.Width() / aspect.Ratio())
  }

  /**
   * `minHeightForBounds`: the design minimum, lowered to what the bounds
   * allow, but never below one pixel. It is at most the maximum height
   * exactly when the maximum height is at least one pixel.
   */
  function MinHeightForBounds(b: Rect, aspect: CropAspect, minDesign: real): (h: real)
    ensures h >= 1.0
    ensures h <= Max(1.0, minDesign) && h <= Max(1.0, MaxHeightForBounds(b, aspect))
    ensures h <= MaxHeightForBounds(b, aspect) <==> MaxHeightForBounds(b, aspect) >= 1.0
  {
    Max(Min(minDesign, MaxHeightForBounds(b, aspect)), 1.0)
  }

  /** The reset rectangle: 60% of the tallest fitting height (at least 1), centred in `b`. */
  function ResetRect(b: Rect, aspect: CropAspect): (r: Rect)
    ensures r.Height() == Max(1.0, 0.6 * MaxHeightForBounds(b, aspect))
    ensures r.Width() == r.Height() * aspect.Ratio()
    ensures r.left - b.left == b.right - r.right && r.top - b.top == b.bottom - r.bottom
  {
    var h := Max(MaxHeightForBounds(b, aspect) * 0.6, 1.0);
    var w := h * aspect.Ratio();
    RectOf(Offset(b.left + (b.Width() - w) / 2.0, b.top + (b.Height() - h) / 2.0), h, aspect)
  }

  /**
   * The reset rectangle fits in the bounds exactly when the tallest fitting
   * height is at least one pixel; below that the one-pixel floor makes it
   * stick out.
   */
  lemma ResetRectWithin(b: Rect, aspect: CropAspect)
    ensures ResetRect(b, aspect).Within(b) <==> MaxHeightForBounds(b, aspect) >= 1.0
  {
    var maxH := MaxHeightForBounds(b, aspect);
    var r := ResetRect(b, aspect);
    var a := aspect.Ratio();
    if maxH >= 1.0 {
      assert r.Height() <= maxH;
      MulMono(a, r.Height(), maxH);
    } else {
      assert r.Height() == 1.0;
      if maxH != b.Height() {
        assert maxH * a == b.Width();
        MulMono(a, maxH, 1.0);
        assert maxH * a < 1.0 * a;
      }
    }
  }

  /** `max(|cand.x - anchor.x|, |cand.y - anchor.y|) / aspect`: the height the dragged handle asks for. */
  function CandidateHeight(cand: Offset, anchor: Offset, aspect: CropAspect): (h: real)
    ensures h >= 0.0
  {
    Max(Abs(cand.x - anchor.x), Abs(cand.y - anchor.y)) / aspect.Ratio()
  }

  /**
   * The new height of a corner resize: the candidate clamped into
   * `[minH, maxH]` with the bounds-wide `maxH`; None where `coerceIn`
   * throws because `minH > maxH`, which happens exactly when `maxH < 1`.
   */
  function ResizedHeight(candHeight: real, b: Rect, aspect: CropAspect, minDesign: real): (h: Option<real>)
    ensures h.None? <==> MaxHeightForBounds(b, aspect) < 1.0
    ensures h.Some? ==>
      MinHeightForBounds(b, aspect, minDesign) <= h.value <= MaxHeightForBounds(b, aspect)
    ensures h.Some? && MinHeightForBounds(b, aspect, minDesign) <= candHeight <= MaxHeightForBounds(b, aspect) ==>
      h.value == candHeight
    ensures h.Some? && candHeight < MinHeightForBounds(b, aspect, minDesign) ==>
      h.value == MinHeightForBounds(b, aspect, minDesign)
    ensures h.Some? && candHeight > MaxHeightForBounds(b, aspect) ==>
      h.value == MaxHeightForBounds(b, aspect)
  {
    var maxH := MaxHeightForBounds(b, aspect);
    var minH := MinHeightForBounds(b, aspect, minDesign);
    if minH > maxH then None else Some(CoerceIn(candHeight, minH, maxH))
  }

  /** The top-left corner that puts `anchor` at the corner opposite the dragged handle. */
  function TopLeftFromAnchor(anchor: Offset, h: real, target: DragTarget, aspect: CropAspect): (p: Offset)
    requires target.IsCorner()
    ensures Corner(RectOf(p, h, aspect), Opposite(target)) == anchor
  {
    var w := h * aspect.Ratio();
    match target
    case TopLeft => Offset(anchor.x - w, anchor.y - h)
    case TopRight => Offset(anchor.x, anchor.y - h)
    case BottomLeft => Offset(anchor.x - w, anchor.y)
    case BottomRight => anchor
  }

  /**
   * A rectangle of this aspect no taller than the tallest fitting height is
   * inside the bounds once its top-left corner is clamped (the containment
   * invariant of body drags and corner resizes).
   */
  lemma ClampedRectWithin(topLeft: Offset, h: real, b: Rect, aspect: CropAspect)
    requires 0.0 <= h <= MaxHeightForBounds(b, aspect)
    ensures RectOf(ClampTopLeft(topLeft, h * aspect.Ratio(), h, b), h, aspect).Within(b)
  {
    assert h * aspect.Ratio() <= b.Width() by {
      var m, r := MaxHeightForBounds(b, aspect), aspect.Ratio();
      assert m * r <= b.Width();
      ScaleMono(h, m, r);
    }
    ClampedWithin(topLeft, h * aspect.Ratio(), h, b);
  }

  /** The live rectangle: top-left corner and height (the width follows from the aspect). */
  datatype Live = Live(topLeft: Offset, height: real)

  /**
   * The corner branch of `onDrag` as a function of the snapshot taken at drag
   * start and the candidate handle position: the resized height and the
   * top-left corner rebuilt from the anchor and clamped into the bounds, or
   * None where `coerceIn` throws. The result lies inside the bounds, its
   * height is the resized candidate height, and whenever the rectangle
   * rebuilt from the anchor already fits, the clamp leaves it in place so
   * the anchor stays the corner opposite the dragged handle.
   */
  function CornerMove(target: DragTarget, anchor: Offset, cand: Offset, b: Rect, aspect: CropAspect, minDesign: real): (m: Option<Live>)
    requires target.IsCorner()
    ensures m.None? <==> MaxHeightForBounds(b, aspect) < 1.0
    ensures m.Some? ==>
      && MinHeightForBounds(b, aspect, minDesign) <= m.value.height <= MaxHeightForBounds(b, aspect)
      && RectOf(m.value.topLeft, m.value.height, aspect).Within(b)
    ensures m.Some? ==>
      m.value.height == ResizedHeight(CandidateHeight(cand, anchor, aspect), b, aspect, minDesign).value
    ensures m.Some? && RectOf(TopLeftFromAnchor(anchor, m.value.height, target, aspect), m.value.height, aspect).Within(b) ==>
      Corner(RectOf(m.value.topLeft, m.value.height, aspect), Opposite(target)) == anchor
  {
    match ResizedHeight(CandidateHeight(cand, anchor, aspect), b, aspect, minDesign)
    case None => None
    case Some(h) =>
      var tl := TopLeftFromAnchor(anchor, h, target, aspect);
      ClampedRectWithin(tl, h, b, aspect);
      Some(Live(ClampTopLeft(tl, h * aspect.Ratio(), h, b), h))
  }

  /** The live state of one overlay: the rectangle and the drag bookkeeping. */
  class CutOutOverlay {
    const handleRadius: real
    const minSidePxDesign: real
    var aspect: CropAspect
    var rectTopLeft: Offset
    var rectHeight: real
    var currentDragTarget: DragTarget
    var dragAccum: Offset
    var handleStart: Offset
    var anchor: Offset

    ghost predicate Valid()
      reads this
    {
      handleRadius > 0.0 && minSidePxDesign > 0.0 && rectHeight >= 0.0
    }

    /** The state cells as `remember` creates them. */
    constructor (handleRadius: real, minSidePxDesign: real, aspect: CropAspect)
      requires handleRadius > 0.0 && minSidePxDesign > 0.0
      ensures Valid()
      ensures this.handleRadius == handleRadius && this.minSidePxDesign == minSidePxDesign
      ensures this.aspect == aspect && rectTopLeft == Origin && rectHeight == 0.0
      ensures currentDragTarget == NoTarget && dragAccum == Origin
      ensures handleStart == Origin && anchor == Origin
    {
      this.handleRadius := handleRadius;
      this.minSidePxDesign := minSidePxDesign;
      this.aspect := aspect;
      rectTopLeft := Origin;
      rectHeight := 0.0;
      currentDragTarget := NoTarget;
      dragAccum := Origin;
      handleStart := Origin;
      anchor := Origin;
    }

    /** `currentRect()`: the rectangle always has the aspect's shape, `width = rectHeight * aspect`. */
    function CurrentRect(): (r: Rect)
      reads this
      ensures r.left == rectTopLeft.x && r.top == rectTopLeft.y && r.Height() == rectHeight
      ensures r.Width() == rectHeight * aspect.Ratio()
    {
      RectOf(rectTopLeft, rectHeight, aspect)
    }

    /**
     * The reset effect, run whenever the container size, the bounds or the
     * aspect change: with bounds of positive size the rectangle becomes the
     * centred reset rectangle and is reported; otherwise nothing changes.
     */
    method Reset(bounds: Option<Rect>, newAspect: CropAspect) returns (changed: Option<Rect>)
      requires Valid()
      modifies this`aspect, this`rectTopLeft, this`rectHeight
      ensures Valid() && aspect == newAspect
      ensures bounds.Some? && bounds.value.Width() > 0.0 && bounds.value.Height() > 0.0 ==>
        CurrentRect() == ResetRect(bounds.value, newAspect) && changed == Some(CurrentRect())
      ensures !(bounds.Some? && bounds.value.Width() > 0.0 && bounds.value.Height() > 0.0) ==>
        rectTopLeft == old(rectTopLeft) && rectHeight == old(rectHeight) && changed == None
    {
      aspect := newAspect;
      changed := None;
      if bounds.None? {
        return;
      }
      var b := bounds.value;
      var bw, bh := b.Width(), b.Height();
      if bw > 0.0 && bh > 0.0 {
        var maxH := Min(bh, bw / aspect.Ratio());
        var initH := maxH * 0.6;
        rectHeight := Max(initH, 1.0);
        var rectW := rectHeight * aspect.Ratio();
        var left := b.left + (bw - rectW) / 2.0;
        var top := b.top + (bh - rectHeight) / 2.0;
        rectTopLeft := Offset(left, top);
        changed := Some(Rect(left, top, left + rectW, top + rectHeight));
      }
    }

    /**
     * `onDragStart`: hit-test the press against the current rectangle; for a
     * handle, snapshot the opposite corner as the anchor and the handle's own
     * position as its start. Ignored when the bounds are absent.
     */
    method DragStart(bounds: Option<Rect>, downPos: Offset)
      requires Valid()
      modifies this`currentDragTarget, this`dragAccum, this`anchor, this`handleStart
      ensures Valid()
      ensures bounds.None? ==> unchanged(this)
      ensures bounds.Some? ==>
        && currentDragTarget == HitTest(downPos, CurrentRect(), handleRadius)
        && dragAccum == Origin
        && (currentDragTarget.IsCorner() ==>
              anchor == Corner(CurrentRect(), Opposite(currentDragTarget)) &&
              handleStart == Corner(CurrentRect(), currentDragTarget))
        && (!currentDragTarget.IsCorner() ==> anchor == old(anchor) && handleStart == old(handleStart))
    {
      if bounds.None? {
        return;
      }
      var r := CurrentRect();
      currentDragTarget := HitTest(downPos, r, handleRadius);
      dragAccum := Origin;
      match currentDragTarget {
        case TopLeft => anchor := Offset(r.right, r.bottom); handleStart := Offset(r.left, r.top);
        case TopRight => anchor := Offset(r.left, r.bottom); handleStart := Offset(r.right, r.top);
        case BottomLeft => anchor := Offset(r.right, r.top); handleStart := Offset(r.left, r.bottom);
        case BottomRight => anchor := Offset(r.left, r.top); handleStart := Offset(r.right, r.bottom);
        case Body =>
        case NoTarget =>
      }
    }

    /**
     * `onDrag`: a body drag moves the rectangle by the delta, clamped into
     * the bounds. A corner drag adds the delta to `dragAccum` but, as
     * written, takes the candidate handle position from the latest delta
     * alone; the height is that candidate's clamped into `[minH, maxH]` (or
     * `coerceIn` throws), and the rectangle is rebuilt from the anchor and
     * clamped into the bounds.
     */
    method DragMove(bounds: Option<Rect>, dragAmount: Offset) returns (outcome: MoveOutcome)
      requires Valid()
      modifies this`rectTopLeft, this`rectHeight, this`dragAccum
      ensures Valid()
      ensures bounds.None? || currentDragTarget == NoTarget ==> outcome == Silent && unchanged(this)
      ensures bounds.Some? && currentDragTarget == Body ==>
        && rectHeight == old(rectHeight) && dragAccum == old(dragAccum)
        && rectTopLeft == ClampTopLeft(old(rectTopLeft).Plus(dragAmount), rectHeight * aspect.Ratio(), rectHeight, bounds.value)
        && outcome == Changed(CurrentRect())
      ensures bounds.Some? && currentDragTarget.IsCorner() ==>
        var m := CornerMove(currentDragTarget, anchor, handleStart.Plus(dragAmount), bounds.value, aspect, minSidePxDesign);
        && dragAccum == old(dragAccum).Plus(dragAmount)
        && (m.None? ==> outcome == CoerceInThrows && rectTopLeft == old(rectTopLeft) && rectHeight == old(rectHeight))
        && (m.Some? ==> rectTopLeft == m.value.topLeft && rectHeight == m.value.height && outcome == Changed(CurrentRect()))
    {
      outcome := Silent;
      if bounds.None? {
        return;
      }
      if currentDragTarget == Body {
        outcome := MoveBody(bounds.value, dragAmount);
      } else if currentDragTarget.IsCorner() {
        outcome := MoveCorner(bounds.value, dragAmount);
      }
    }

    /**
     * The body branch of `onDrag`: translate by the delta, clamped into the
     * bounds. `ClampedRectWithin` shows the result lies inside the bounds
     * whenever the height fits them.
     */
    method MoveBody(b: Rect, dragAmount: Offset) returns (outcome: MoveOutcome)
      requires Valid()
      modifies this`rectTopLeft
      ensures Valid()
      ensures rectTopLeft == ClampTopLeft(old(rectTopLeft).Plus(dragAmount), rectHeight * aspect.Ratio(), rectHeight, b)
      ensures outcome == Changed(CurrentRect())
    {
      var moved := rectTopLeft.Plus(dragAmount);
      rectTopLeft := ClampTopLeft(moved, rectHeight * aspect.Ratio(), rectHeight, b);
      outcome := Changed(CurrentRect());
    }

    /** The corner branch of `onDrag`, for a handle target. */
    method MoveCorner(b: Rect, dragAmount: Offset) returns (outcome: MoveOutcome)
      requires Valid() && currentDragTarget.IsCorner()
      modifies this`rectTopLeft, this`rectHeight, this`dragAccum
      ensures Valid()
      ensures dragAccum == old(dragAccum).Plus(dragAmount)
      ensures
        var m := CornerMove(currentDragTarget, anchor, handleStart.Plus(dragAmount), b, aspect, minSidePxDesign);
        && (m.None? ==> outcome == CoerceInThrows && rectTopLeft == old(rectTopLeft) && rectHeight == old(rectHeight))
        && (m.Some? ==> rectTopLeft == m.value.topLeft && rectHeight == m.value.height && outcome == Changed(CurrentRect()))
    {
      dragAccum := dragAccum.Plus(dragAmount);
      var m := CornerMove(currentDragTarget, anchor, handleStart.Plus(dragAmount), b, aspect, minSidePxDesign);
      match m {
        case None =>
          outcome := CoerceInThrows;
        case Some(live) =>
          rectTopLeft := live.topLeft;
          rectHeight := live.height;
          outcome := Changed(CurrentRect());
      }
    }

    /** `onDragEnd`: the drag is over and the current rectangle is committed. */
    method DragEnd() returns (committed: Rect)
      requires Valid()
      modifies this`currentDragTarget
      ensures Valid()
      ensures currentDragTarget == NoTarget && committed == CurrentRect()
    {
      currentDragTarget := NoTarget;
      committed := CurrentRect();
    }

    /** `onDragCancel`: handled exactly as a drag end; the rectangle is not rolled back. */
    method DragCancel() returns (committed: Rect)
      requires Valid()
      modifies this`currentDragTarget
      ensures Valid()
      ensures currentDragTarget == NoTarget && committed == CurrentRect()
    {
      currentDragTarget := NoTarget;
      committed := CurrentRect();
    }
  }
}
