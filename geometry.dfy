/**
 * The plane geometry the crop engine is written against: Compose's `Offset`,
 * `Rect` and `IntSize`, an Android `Bitmap` reduced to its pixel size, and the
 * Kotlin numeric helpers the engine uses (`min`, `max`, `coerceIn`,
 * `roundToInt`, `toInt`). Coordinates are reals: no floating-point rounding.
 */
module Geometry {

  /** A point or a displacement (Compose `Offset`). */
  datatype Offset = Offset(x: real, y: real) {
    function Plus(d: Offset): Offset { Offset(x + d.x, y + d.y) }
  }

  const Origin := Offset(0.0, 0.0)

  /** An axis-aligned rectangle given by its four edges (Compose `Rect`). */
  datatype Rect = Rect(left: real, top: real, right: real, bottom: real) {
    function Width(): real { right - left }
    function Height(): real { bottom - top }

    /** `pos.x in left..right && pos.y in top..bottom`: inclusive containment. */
    predicate Contains(p: Offset) { left <= p.x <= right && top <= p.y <= bottom }

    /** This rectangle lies wholly inside `b`. */
    predicate Within(b: Rect) {
      b.left <= left && right <= b.right && b.top <= top && bottom <= b.bottom
    }
  }

  /** The rectangle with top-left corner `tl`, width `w` and height `h`. */
  function RectAt(tl: Offset, w: real, h: real): (r: Rect)
    ensures r.left == tl.x && r.top == tl.y && r.Width() == w && r.Height() == h
  {
    Rect(tl.x, tl.y, tl.x + w, tl.y + h)
  }

  /** `Rect(max(l, b.l), max(t, b.t), min(r, b.r), min(bt, b.bt))`: `r` clamped to `b`. */
  function Intersect(r: Rect, b: Rect): (c: Rect)
    ensures c.Width() > 0.0 && c.Height() > 0.0 ==> c.Within(b) && c.Within(r)
  {
    Rect(Max(r.left, b.left), Max(r.top, b.top), Min(r.right, b.right), Min(r.bottom, b.bottom))
  }

  /**
   * `intersect` is the meet of the two rectangles: it holds exactly the
   * points both hold, and every rectangle inside both is inside it.
   */
  lemma IntersectIsMeet(r: Rect, b: Rect)
    ensures forall p :: Intersect(r, b).Contains(p) <==> r.Contains(p) && b.Contains(p)
    ensures forall q: Rect :: q.Within(r) && q.Within(b) ==> q.Within(Intersect(r, b))
  {
  }

  /** A size in whole pixels (Compose `IntSize`). */
  datatype IntSize = IntSize(width: int, height: int)

  /** An Android `Bitmap`, of which only the pixel size matters here. */
  datatype Bitmap = Bitmap(width: int, height: int)

  function Min(a: real, b: real): (m: real)
    ensures m <= a && m <= b && (m == a || m == b)
  {
    if a <= b then a else b
  }

  function Max(a: real, b: real): (m: real)
    ensures m >= a && m >= b && (m == a || m == b)
  {
    if a >= b then a else b
  }

  function Abs(a: real): (m: real)
    ensures m >= 0.0 && (m == a || m == -a)
  {
    if a >= 0.0 then a else -a
  }

  /** Kotlin `coerceIn(lo, hi)`; it throws when `lo > hi`, hence the precondition. */
  function CoerceIn(v: real, lo: real, hi: real): (r: real)
    requires lo <= hi
    ensures lo <= r <= hi
    ensures lo <= v <= hi ==> r == v
    ensures v < lo ==> r == lo
    ensures v > hi ==> r == hi
  {
    if v < lo then lo else if v > hi then hi else v
  }

  /*
   * The integer versions below repeat `Min`, `Max` and `CoerceIn` for the
   * pixel arithmetic on `Int` (`roundToInt`, `coerceIn`, `coerceAtLeast`):
   * Dafny has no numeric type class over which one definition could serve
   * both `int` and `real`.
   */

  function MinInt(a: int, b: int): (m: int)
    ensures m <= a && m <= b && (m == a || m == b)
  {
    if a <= b then a else b
  }

  function MaxInt(a: int, b: int): (m: int)
    ensures m >= a && m >= b && (m == a || m == b)
  {
    if a >= b then a else b
  }

  /** Kotlin `coerceIn(lo, hi)` on `Int`. */
  function CoerceInInt(v: int, lo: int, hi: int): (r: int)
    requires lo <= hi
    ensures lo <= r <= hi
    ensures lo <= v <= hi ==> r == v
    ensures v < lo ==> r == lo
    ensures v > hi ==> r == hi
  {
    if v < lo then lo else if v > hi then hi else v
  }

  /** Kotlin `roundToInt`: the nearest integer, ties toward positive infinity. */
  function RoundToInt(x: real): (r: int)
    ensures x - 0.5 < r as real <= x + 0.5
  {
    (x + 0.5).Floor
  }

  /** Kotlin `toInt` on a floating-point value: truncation toward zero. */
  function Truncate(x: real): (r: int)
    ensures x >= 0.0 ==> 0 <= r && r as real <= x < r as real + 1.0
    ensures x < 0.0 ==> r <= 0 && r as real - 1.0 < x <= r as real
  {
    if x >= 0.0 then x.Floor else -((-x).Floor)
  }

  /** `a * x <= a * y` for a non-negative factor (a step Z3 does not always take on its own). */
  lemma MulMono(a: real, x: real, y: real)
    requires a >= 0.0 && x <= y
    ensures a * x <= a * y
  {
  }

  /** Scaling on the right by a non-negative factor keeps the order. */
  lemma ScaleMono(x: real, y: real, s: real)
    requires s >= 0.0 && x <= y
    ensures x * s <= y * s
  {
  }

  /** `v` is a whole number, as the coordinates of a committed crop are. */
  predicate IsWhole(v: real) { v.Floor as real == v }
}
