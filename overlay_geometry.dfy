/**
 * Geometry shared by the two crop overlays (the fixed-aspect overlay and the
 * earlier square-only one): the four handles of a rectangle, the hit test
 * that picks a drag target, and the clamp that keeps a rectangle's top-left
 * corner inside the image bounds. The two overlays carry identical copies of
 * `hitTest` and of the clamp (one with `w = height * aspect`, one with
 * `w = h = side`); here each is defined once.
 */
module OverlayGeometry {
  import opened Geometry
  import opened CropModels

  /**
   * What one drag-move event reports: nothing, a changed rectangle (the
   * `onCropRectChanged` notification), or the `IllegalArgumentException`
   * that Kotlin's `coerceIn` throws when its range is empty.
   */
  datatype MoveOutcome = Silent | Changed(rect: Rect) | CoerceInThrows

  /** The position of handle `t` on rectangle `r`. */
  function Corner(r: Rect, t: DragTarget): (c: Offset)
    requires t.IsCorner()
    ensures r.left <= r.right && r.top <= r.bottom ==> r.Contains(c)
    ensures r.Width() > 0.0 ==> (c.x == r.left <==> t == TopLeft || t == BottomLeft)
    ensures r.Width() > 0.0 ==> (c.x == r.right <==> t == TopRight || t == BottomRight)
    ensures r.Height() > 0.0 ==> (c.y == r.top <==> t == TopLeft || t == TopRight)
    ensures r.Height() > 0.0 ==> (c.y == r.bottom <==> t == BottomLeft || t == BottomRight)
  {
    match t
    case TopLeft => Offset(r.left, r.top)
    case TopRight => Offset(r.right, r.top)
    case BottomLeft => Offset(r.left, r.bottom)
    case BottomRight => Offset(r.right, r.bottom)
  }

  /** The handle diagonally opposite `t`: the anchor of a resize from `t`. */
  function Opposite(t: DragTarget): (o: DragTarget)
    requires t.IsCorner()
    ensures o.IsCorner() && o != t
  {
    match t
    case TopLeft => BottomRight
    case TopRight => BottomLeft
    case BottomLeft => TopRight
    case BottomRight => TopLeft
  }

  /** The opposite corner is diagonally across: it differs from `t` in both coordinates. */
  lemma OppositeIsDiagonal(r: Rect, t: DragTarget)
    requires t.IsCorner()
    ensures Opposite(Opposite(t)) == t
    ensures Corner(r, Opposite(t)).x == (if Corner(r, t).x == r.left then r.right else r.left)
    ensures Corner(r, Opposite(t)).y == (if Corner(r, t).y == r.top then r.bottom else r.top)
  {
  }

  /** The handles in the order the hit test tries them. */
  const HandleOrder: seq<DragTarget> := [TopLeft, TopRight, BottomLeft, BottomRight]

  /**
   * `(p - c).getDistance() <= thr`, compared on squares so that no square
   * root is needed; a negative threshold is never met.
   */
  predicate Near(p: Offset, c: Offset, thr: real) {
    thr >= 0.0 && (p.x - c.x) * (p.x - c.x) + (p.y - c.y) * (p.y - c.y) <= thr * thr
  }

  /** Handle number `i` (in hit-test order) is within reach of `pos`. */
  predicate HandleNear(pos: Offset, r: Rect, thr: real, i: int)
    requires 0 <= i < 4
  {
    Near(pos, Corner(r, HandleOrder[i]), thr)
  }

  /** The hit radius: 1.2 times the drawn handle radius, so a handle can be grabbed a little outside its dot. */
  function HitRadius(handleR: real): (thr: real)
    ensures handleR > 0.0 ==> thr > handleR
    ensures thr >= 0.0 <==> handleR >= 0.0
  {
    handleR * 1.2
  }

  /** The position of handle `t` in the hit-test order. */
  function Priority(t: DragTarget): (i: int)
    requires t.IsCorner()
    ensures 0 <= i < 4 && HandleOrder[i] == t
  {
    match t
    case TopLeft => 0
    case TopRight => 1
    case BottomLeft => 2
    case BottomRight => 3
  }

  /**
   * `hitTest`: the first handle within reach in the order TopLeft, TopRight,
   * BottomLeft, BottomRight; otherwise the body if the press is inside the
   * inclusive rectangle; otherwise nothing.
   */
  function HitTest(pos: Offset, r: Rect, handleR: real): (t: DragTarget)
    ensures t.IsCorner() ==> Near(pos, Corner(r, t), HitRadius(handleR))
    ensures t == Body ==> r.Contains(pos)
  {
    var thr := HitRadius(handleR);
    if Near(pos, Offset(r.left, r.top), thr) then TopLeft
    else if Near(pos, Offset(r.right, r.top), thr) then TopRight
    else if Near(pos, Offset(r.left, r.bottom), thr) then BottomLeft
    else if Near(pos, Offset(r.right, r.bottom), thr) then BottomRight
    else if r.left <= pos.x <= r.right && r.top <= pos.y <= r.bottom then Body
    else NoTarget
  }

  /**
   * The hit test honours the handle priority: a handle is chosen exactly
   * when it is within reach and no handle before it is; with no handle in
   * reach the result is the body when the press is inside the rectangle and
   * nothing otherwise.
   */
  lemma HitTestPriority(pos: Offset, r: Rect, handleR: real)
    ensures
      var t := HitTest(pos, r, handleR);
      var thr := HitRadius(handleR);
      && (t.IsCorner() ==>
            HandleNear(pos, r, thr, Priority(t)) &&
            forall j :: 0 <= j < Priority(t) ==> !HandleNear(pos, r, thr, j))
      && (!t.IsCorner() ==> forall i :: 0 <= i < 4 ==> !HandleNear(pos, r, thr, i))
      && (!t.IsCorner() ==> (t == Body <==> r.Contains(pos)))
  {
    var thr := HitRadius(handleR);
    assert HandleNear(pos, r, thr, 0) == Near(pos, Offset(r.left, r.top), thr);
    assert HandleNear(pos, r, thr, 1) == Near(pos, Offset(r.right, r.top), thr);
    assert HandleNear(pos, r, thr, 2) == Near(pos, Offset(r.left, r.bottom), thr);
    assert HandleNear(pos, r, thr, 3) == Near(pos, Offset(r.right, r.bottom), thr);
  }

  /**
   * The top-left corner that keeps a `w` by `h` rectangle inside `b`: each
   * coordinate is clamped into `[b.left, b.right - w]` (resp. the vertical
   * range) when that range is not empty, and pinned to its minimum otherwise.
   */
  function ClampTopLeft(topLeft: Offset, w: real, h: real, b: Rect): (p: Offset)
    ensures b.left <= b.right - w ==> b.left <= p.x <= b.right - w
    ensures b.left > b.right - w ==> p.x == b.left
    ensures b.top <= b.bottom - h ==> b.top <= p.y <= b.bottom - h
    ensures b.top > b.bottom - h ==> p.y == b.top
    ensures b.left <= topLeft.x <= b.right - w ==> p.x == topLeft.x
    ensures b.top <= topLeft.y <= b.bottom - h ==> p.y == topLeft.y
    ensures topLeft.x < b.left <= b.right - w ==> p.x == b.left
    ensures b.left <= b.right - w < topLeft.x ==> p.x == b.right - w
    ensures topLeft.y < b.top <= b.bottom - h ==> p.y == b.top
    ensures b.top <= b.bottom - h < topLeft.y ==> p.y == b.bottom - h
  {
    var minX, minY := b.left, b.top;
    var maxX, maxY := b.right - w, b.bottom - h;
    var x := if maxX >= minX then CoerceIn(topLeft.x, minX, maxX) else minX;
    var y := if maxY >= minY then CoerceIn(topLeft.y, minY, maxY) else minY;
    Offset(x, y)
  }

  /** A rectangle no larger than the bounds is inside them once its top-left is clamped. */
  lemma ClampedWithin(topLeft: Offset, w: real, h: real, b: Rect)
    requires 0.0 <= w <= b.Width() && 0.0 <= h <= b.Height()
    ensures RectAt(ClampTopLeft(topLeft, w, h, b), w, h).Within(b)
  {
  }
}
