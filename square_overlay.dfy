/**
 * The earlier square-only crop overlay (`CutOutOverlay` in `ui/ImagesScreen.kt`).
 * It shares the hit test and the top-left clamp with the fixed-aspect
 * overlay but resizes differently: the candidate handle follows the
 * accumulated drag, the maximum side is measured from the anchor toward the
 * dragged corner, and the side is pinned to that maximum when the bounds are
 * too small for the minimum.
 */
module SquareOverlay {
  import opened Nullable
  import opened Geometry
  import opened CropModels
  import opened OverlayGeometry

  /** The square with top-left corner `tl` and side `side`. */
  function SquareAt(tl: Offset, side: real): (r: Rect)
    ensures r.left == tl.x && r.top == tl.y && r.Width() == side && r.Height() == side
  {
    RectAt(tl, side, side)
  }

  /** `minSideForBounds`: the design minimum lowered to the smaller side of the bounds, never below one pixel. */
  function MinSideForBounds(b: Rect, minDesign: real): (s: real)
    ensures s >= 1.0
    ensures s <= Max(1.0, Min(b.Width(), b.Height()))
    ensures s <= Max(1.0, minDesign)
  {
    Max(Min(minDesign, Min(b.Width(), b.Height())), 1.0)
  }

  /** `sideMaxForHandle`: the room between the anchor and the bounds edges toward the dragged corner, at least 0. */
  function SideMaxForHandle(anchor: Offset, which: DragTarget, b: Rect): (s: real)
    requires which.IsCorner()
    ensures s >= 0.0
  {
    var room :=
      match which
      case TopLeft => Min(anchor.x - b.left, anchor.y - b.top)
      case TopRight => Min(b.right - anchor.x, anchor.y - b.top)
      case BottomLeft => Min(anchor.x - b.left, b.bottom - anchor.y)
      case BottomRight => Min(b.right - anchor.x, b.bottom - anchor.y);
    Max(room, 0.0)
  }

  /** `topLeftFromAnchor`: the top-left corner that makes `anchor` the corner opposite the dragged handle. */
  function TopLeftFromAnchor(anchor: Offset, side: real, which: DragTarget): (p: Offset)
    requires which.IsCorner()
    ensures Corner(SquareAt(p, side), Opposite(which)) == anchor
  {
    match which
    case TopLeft => Offset(anchor.x - side, anchor.y - side)
    case TopRight => Offset(anchor.x, anchor.y - side)
    case BottomLeft => Offset(anchor.x - side, anchor.y)
    case BottomRight => anchor
  }

  /**
   * `sideMaxForHandle` is exactly the largest side that fits: for an anchor
   * inside the bounds, the square built from it toward the dragged corner
   * lies inside the bounds if and only if its side is at most that maximum,
   * and then the clamp leaves it where it is.
   */
  lemma SideMaxIsLargestFit(anchor: Offset, which: DragTarget, b: Rect, side: real)
    requires which.IsCorner() && b.Contains(anchor) && side >= 0.0
    ensures SquareAt(TopLeftFromAnchor(anchor, side, which), side).Within(b) <==> side <= SideMaxForHandle(anchor, which, b)
    ensures side <= SideMaxForHandle(anchor, which, b) ==>
      ClampTopLeft(TopLeftFromAnchor(anchor, side, which), side, side, b) == TopLeftFromAnchor(anchor, side, which)
  {
  }

  /**
   * The side of a corner resize with room `sideMax > 0`: pinned to `sideMax`
   * when that is below the minimum, otherwise the raw side clamped into
   * `[minSide, sideMax]` (the minimum is always positive). Never more than the room and never less than the
   * smaller of the minimum and the room.
   */
  function ClampSide(sideRaw: real, sideMax: real, minSide: real): (s: real)
    requires sideMax > 0.0 && minSide > 0.0
    ensures 0.0 < s <= sideMax
    ensures s >= Min(minSide, sideMax)
    ensures minSide <= sideRaw <= sideMax ==> s == sideRaw
    ensures sideRaw < minSide <= sideMax ==> s == minSide
    ensures minSide <= sideMax < sideRaw ==> s == sideMax
    ensures sideMax < minSide ==> s == sideMax
  {
    if sideMax < minSide then sideMax else CoerceIn(sideRaw, minSide, sideMax)
  }

  /** The live square: top-left corner and side. */
  datatype Live = Live(topLeft: Offset, side: real)

  /**
   * The corner branch of `onDrag` as a function of the snapshot and the
   * candidate handle position: None when there is no room (`sideMax <= 0`),
   * otherwise the clamped side and the top-left rebuilt from the anchor. For
   * an anchor inside the bounds the square stays inside them and keeps the
   * anchor as its opposite corner.
   */
  function CornerMove(which: DragTarget, anchor: Offset, handleCand: Offset, b: Rect, minDesign: real): (m: Option<Live>)
    requires which.IsCorner()
    ensures m.None? <==> SideMaxForHandle(anchor, which, b) <= 0.0
    ensures m.Some? ==>
      && m.value.side <= SideMaxForHandle(anchor, which, b)
      && m.value.side >= Min(MinSideForBounds(b, minDesign), SideMaxForHandle(anchor, which, b))
    ensures m.Some? && b.Contains(anchor) ==>
      && SquareAt(m.value.topLeft, m.value.side).Within(b)
      && Corner(SquareAt(m.value.topLeft, m.value.side), Opposite(which)) == anchor
    ensures m.Some? ==>
      m.value.side == ClampSide(Max(Abs(handleCand.x - anchor.x), Abs(handleCand.y - anchor.y)),
                                SideMaxForHandle(anchor, which, b), MinSideForBounds(b, minDesign))
  {
    var sideRaw := Max(Abs(handleCand.x - anchor.x), Abs(handleCand.y - anchor.y));
    var sideMax := SideMaxForHandle(anchor, which, b);
    if sideMax <= 0.0 then None
    else
      var side := ClampSide(sideRaw, sideMax, MinSideForBounds(b, minDesign));
      var tl := TopLeftFromAnchor(anchor, side, which);
      if b.Contains(anchor) then
        SideMaxIsLargestFit(anchor, which, b, side);
        Some(Live(ClampTopLeft(tl, side, side, b), side))
      else
        Some(Live(ClampTopLeft(tl, side, side, b), side))
  }

  /** The reset square: 60% of the smaller bounds side, centred; it always lies inside bounds of positive size. */
  function ResetSquare(b: Rect): (r: Rect)
    requires b.Width() > 0.0 && b.Height() > 0.0
    ensures r.Width() == r.Height() == 0.6 * Min(b.Width(), b.Height())
    ensures r.left - b.left == b.right - r.right && r.top - b.top == b.bottom - r.bottom
    ensures r.Within(b)
  {
    var side := Min(b.Width(), b.Height()) * 0.6;
    SquareAt(Offset(b.left + (b.Width() - side) / 2.0, b.top + (b.Height() - side) / 2.0), side)
  }

  /** The live state of the square overlay. */
  class CutOutOverlay {
    const handleRadius: real
    const minSidePxDesign: real
    var squareTopLeft: Offset
    var squareSide: real
    var currentDragTarget: DragTarget
    var dragAccum: Offset
    var handleStart: Offset
    var anchor: Offset

    ghost predicate Valid()
      reads this
    {
      handleRadius > 0.0 && minSidePxDesign > 0.0 && squareSide >= 0.0
    }

    /** The state cells as `remember` creates them. */
    constructor (handleRadius: real, minSidePxDesign: real)
      requires handleRadius > 0.0 && minSidePxDesign > 0.0
      ensures Valid()
      ensures this.handleRadius == handleRadius && this.minSidePxDesign == minSidePxDesign
      ensures squareTopLeft == Origin && squareSide == 0.0
      ensures currentDragTarget == NoTarget && dragAccum == Origin
      ensures handleStart == Origin && anchor == Origin
    {
      this.handleRadius := handleRadius;
      this.minSidePxDesign := minSidePxDesign;
      squareTopLeft := Origin;
      squareSide := 0.0;
      currentDragTarget := NoTarget;
      dragAccum := Origin;
      handleStart := Origin;
      anchor := Origin;
    }

    /** `currentRect()`: always a square of side `squareSide`. */
    function CurrentRect(): (r: Rect)
      reads this
      ensures r.left == squareTopLeft.x && r.top == squareTopLeft.y
      ensures r.Width() == squareSide && r.Height() == squareSide
    {
      SquareAt(squareTopLeft, squareSide)
    }

    /**
     * The reset effect: with bounds of positive size the square becomes the
     * centred reset square and is reported; otherwise nothing changes.
     */
    method Reset(bounds: Option<Rect>) returns (changed: Option<Rect>)
      requires Valid()
      modifies this`squareTopLeft, this`squareSide
      ensures Valid()
      ensures bounds.Some? && bounds.value.Width() > 0.0 && bounds.value.Height() > 0.0 ==>
        CurrentRect() == ResetSquare(bounds.value) && changed == Some(CurrentRect())
      ensures !(bounds.Some? && bounds.value.Width() > 0.0 && bounds.value.Height() > 0.0) ==>
        unchanged(this) && changed == None
    {
      changed := None;
      if bounds.None? {
        return;
      }
      var b := bounds.value;
      var bw, bh := b.Width(), b.Height();
      if bw > 0.0 && bh > 0.0 {
        var side := Min(bw, bh) * 0.6;
        squareSide := side;
        var left := b.left + (bw - side) / 2.0;
        var top := b.top + (bh - side) / 2.0;
        squareTopLeft := Offset(left, top);
        changed := Some(Rect(left, top, left + side, top + side));
      }
    }

    /**
     * `onDragStart`: hit-test the press; for a handle, snapshot the opposite
     * corner as the anchor and the handle's own position as its start.
     * Ignored when the bounds are absent.
     */
    method DragStart(bounds: Option<Rect>, downPos: Offset)
      requires Valid()
      modifies this`currentDragTarget, this`dragAccum, this`anchor, this`handleStart
      ensures Valid()
      ensures bounds.None? ==> unchanged(this)
      ensures bounds.Some? ==>
        && currentDragTarget == HitTest(downPos, CurrentRect(), handleRadius)
        && dragAccum == Origin
        && (currentDragTarget.IsCorner() ==>
              anchor == Corner(CurrentRect(), Opposite(currentDragTarget)) &&
              handleStart == Corner(CurrentRect(), currentDragTarget))
        && (!currentDragTarget.IsCorner() ==> anchor == old(anchor) && handleStart == old(handleStart))
    {
      if bounds.None? {
        return;
      }
      var rect := CurrentRect();
      currentDragTarget := HitTest(downPos, rect, handleRadius);
      dragAccum := Origin;
      match currentDragTarget {
        case TopLeft => anchor := Offset(rect.right, rect.bottom); handleStart := Offset(rect.left, rect.top);
        case TopRight => anchor := Offset(rect.left, rect.bottom); handleStart := Offset(rect.right, rect.top);
        case BottomLeft => anchor := Offset(rect.right, rect.top); handleStart := Offset(rect.left, rect.bottom);
        case BottomRight => anchor := Offset(rect.left, rect.top); handleStart := Offset(rect.right, rect.bottom);
        case Body =>
        case NoTarget =>
      }
    }

    /**
     * `onDrag`: a body drag moves the square by the delta, clamped into the
     * bounds; a corner drag accumulates the delta and resizes from the
     * anchor with the candidate `handleStart + dragAccum`.
     */
    method DragMove(bounds: Option<Rect>, dragAmount: Offset) returns (outcome: MoveOutcome)
      requires Valid()
      modifies this`squareTopLeft, this`squareSide, this`dragAccum
      ensures Valid()
      ensures bounds.None? || currentDragTarget == NoTarget ==> outcome == Silent && unchanged(this)
      ensures bounds.Some? && currentDragTarget == Body ==>
        && squareSide == old(squareSide) && dragAccum == old(dragAccum)
        && squareTopLeft == ClampTopLeft(old(squareTopLeft).Plus(dragAmount), squareSide, squareSide, bounds.value)
        && outcome == Changed(CurrentRect())
        && (squareSide <= Min(bounds.value.Width(), bounds.value.Height()) ==> CurrentRect().Within(bounds.value))
      ensures bounds.Some? && currentDragTarget.IsCorner() ==>
        var m := CornerMove(currentDragTarget, anchor, handleStart.Plus(dragAccum), bounds.value, minSidePxDesign);
        && dragAccum == old(dragAccum).Plus(dragAmount)
        && (m.None? ==> outcome == Silent && squareTopLeft == old(squareTopLeft) && squareSide == old(squareSide))
        && (m.Some? ==> squareTopLeft == m.value.topLeft && squareSide == m.value.side && outcome == Changed(CurrentRect()))
    {
      outcome := Silent;
      if bounds.None? {
        return;
      }
      if currentDragTarget == Body {
        outcome := MoveBody(bounds.value, dragAmount);
      } else if currentDragTarget.IsCorner() {
        outcome := MoveCorner(bounds.value, dragAmount);
      }
    }

    /** The body branch of `onDrag`. */
    method MoveBody(b: Rect, dragAmount: Offset) returns (outcome: MoveOutcome)
      requires Valid()
      modifies this`squareTopLeft
      ensures Valid()
      ensures squareTopLeft == ClampTopLeft(old(squareTopLeft).Plus(dragAmount), squareSide, squareSide, b)
      ensures outcome == Changed(CurrentRect())
      ensures squareSide <= Min(b.Width(), b.Height()) ==> CurrentRect().Within(b)
    {
      var moved := squareTopLeft.Plus(dragAmount);
      if squareSide <= Min(b.Width(), b.Height()) {
        ClampedWithin(moved, squareSide, squareSide, b);
      }
      squareTopLeft := ClampTopLeft(moved, squareSide, squareSide, b);
      outcome := Changed(CurrentRect());
    }

    /** The corner branch of `onDrag`, for a handle target. */
    method MoveCorner(b: Rect, dragAmount: Offset) returns (outcome: MoveOutcome)
      requires Valid() && currentDragTarget.IsCorner()
      modifies this`squareTopLeft, this`squareSide, this`dragAccum
      ensures Valid()
      ensures dragAccum == old(dragAccum).Plus(dragAmount)
      ensures
        var m := CornerMove(currentDragTarget, anchor, handleStart.Plus(dragAccum), b, minSidePxDesign);
        && (m.None? ==> outcome == Silent && squareTopLeft == old(squareTopLeft) && squareSide == old(squareSide))
        && (m.Some? ==> squareTopLeft == m.value.topLeft && squareSide == m.value.side && outcome == Changed(CurrentRect()))
    {
      dragAccum := dragAccum.Plus(dragAmount);
      var m := CornerMove(currentDragTarget, anchor, handleStart.Plus(dragAccum), b, minSidePxDesign);
      match m {
        case None =>
          outcome := Silent;
        case Some(live) =>
          squareTopLeft := live.topLeft;
          squareSide := live.side;
          outcome := Changed(CurrentRect());
      }
    }

    /** `onDragEnd`: the drag is over and the current square is committed. */
    method DragEnd() returns (committed: Rect)
      requires Valid()
      modifies this`currentDragTarget
      ensures Valid()
      ensures currentDragTarget == NoTarget && committed == CurrentRect()
    {
      currentDragTarget := NoTarget;
      committed := CurrentRect();
    }

    /** `onDragCancel`: handled exactly as a drag end. */
    method DragCancel() returns (committed: Rect)
      requires Valid()
      modifies this`currentDragTarget
      ensures Valid()
      ensures currentDragTarget == NoTarget && committed == CurrentRect()
    {
      currentDragTarget := NoTarget;
      committed := CurrentRect();
    }
  }
}
