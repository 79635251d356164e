/** Numeric helpers shared by every component: the JavaScript `Math.min`,
    `Math.max`, `Math.round` and `Math.abs` on exact reals, plus points and
    axis-aligned rectangles in document (canvas backing-store) pixels. */
module Geometry {

  datatype Point = Point(x: real, y: real)

  /** A rectangle as `strokeRect(left, top, width, height)` receives it. */
  datatype Rect = Rect(left: real, top: real, width: real, height: real)

  function Min(a: real, b: real): (r: real)
    ensures r <= a && r <= b
    ensures r == a || r == b
  {
    if a <= b then a else b
  }

  function Max(a: real, b: real): (r: real)
    ensures r >= a && r >= b
    ensures r == a || r == b
  {
    if a >= b then a else b
  }

  function Abs(a: real): (r: real)
    ensures r >= 0.0
    ensures r == a || r == -a
  {
    if a < 0.0 then -a else a
  }

  /** `Math.max(lo, Math.min(v, hi))`. For `lo <= hi` this is also
      `Math.min(Math.max(v, lo), hi)`, the order the zoom code writes. */
  function Clamp(v: real, lo: real, hi: real): (r: real)
    ensures lo <= r
    ensures lo <= hi ==> r <= hi
    ensures lo <= v <= hi ==> r == v
    ensures v < lo ==> r == lo
    ensures lo <= hi < v ==> r == hi
  {
    Max(lo, Min(v, hi))
  }

  /** `Math.round`: the nearest integer, halves rounded up. */
  function Round(v: real): (r: int)
    ensures v - 0.5 < r as real <= v + 0.5
  {
    (v + 0.5).Floor
  }

  /** `Math.round` is determined by its rounding window: no other integer
      lies within half a unit (halves going up). */
  lemma RoundUnique(v: real, n: int)
    requires v - 0.5 < n as real <= v + 0.5
    ensures Round(v) == n
  {
    var r := Round(v);
    assert r as real - n as real < 1.0 && n as real - r as real < 1.0;
  }
}
