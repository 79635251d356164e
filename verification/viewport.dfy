/** The on-screen view of the canvas: the CSS zoom factor and the pan
    translation. Neither touches the document. */
module Viewport {
  import opened Geometry

  const MinZoom: real := 0.05
  const MaxZoom: real := 3.0
  /** What one press of a zoom button adds or removes. */
  const ZoomStep: real := 0.1
  /** `fitToScreen` leaves a tenth of the container free. */
  const FitMargin: real := 0.9

  predicate InRange(z: real) {
    MinZoom <= z <= MaxZoom
  }

  /** `fitToScreen`'s zoom for a container of `cw` x `ch` CSS pixels and a
      `w` x `h` document: the largest zoom at which the document fills at
      most 90% of the container in both directions. The pan goes back to
      (0, 0) alongside. */
  function FitZoom(cw: real, ch: real, w: int, h: int): (z: real)
    requires w > 0 && h > 0
    ensures z * w as real <= FitMargin * cw && z * h as real <= FitMargin * ch
    ensures z * w as real == FitMargin * cw || z * h as real == FitMargin * ch
  {
    Min(cw / w as real, ch / h as real) * FitMargin
  }

  /** No larger zoom keeps the document inside 90% of the container. */
  lemma FitZoomIsLargest(cw: real, ch: real, w: int, h: int, z: real)
    requires w > 0 && h > 0
    requires z * w as real <= FitMargin * cw && z * h as real <= FitMargin * ch
    ensures z <= FitZoom(cw, ch, w, h)
  {
    var f := FitZoom(cw, ch, w, h);
    if f * w as real == FitMargin * cw {
      assert z * w as real <= f * w as real;
    } else {
      assert z * h as real <= f * h as real;
    }
  }

  /** The zoom-in button: `Math.min(z + 0.1, 3)`. */
  function ZoomIn(z: real): (r: real)
    ensures r <= MaxZoom
    ensures r >= z || r == MaxZoom
    ensures InRange(z) ==> InRange(r)
    ensures z + ZoomStep <= MaxZoom ==> r == z + ZoomStep
    ensures z + ZoomStep >= MaxZoom ==> r == MaxZoom
  {
    Min(z + ZoomStep, MaxZoom)
  }

  /** The zoom-out button: `Math.max(z - 0.1, 0.05)`. */
  function ZoomOut(z: real): (r: real)
    ensures r >= MinZoom
    ensures r <= z || r == MinZoom
    ensures InRange(z) ==> InRange(r)
    ensures z - ZoomStep >= MinZoom ==> r == z - ZoomStep
    ensures z - ZoomStep <= MinZoom ==> r == MinZoom
  {
    Max(z - ZoomStep, MinZoom)
  }

  /** Away from the limits, the two buttons undo each other. */
  lemma ZoomOutUndoesZoomIn(z: real)
    requires MinZoom + ZoomStep <= z + ZoomStep <= MaxZoom
    ensures ZoomOut(ZoomIn(z)) == z
  {
  }

  /** A two-finger move: the zoom is scaled by `dist / previous` and kept
      within the limits, when the previous distance is positive. The new
      distance becomes the next frame's `previous` alongside. */
  function Pinch(z: real, previous: real, dist: real): (r: real)
    ensures previous > 0.0 ==> InRange(r)
    ensures previous > 0.0 && InRange(z * dist / previous) ==> r == z * dist / previous
    ensures previous > 0.0 && z * dist / previous > MaxZoom ==> r == MaxZoom
    ensures previous > 0.0 && z * dist / previous < MinZoom ==> r == MinZoom
    ensures previous <= 0.0 ==> r == z
  {
    if previous > 0.0 then Clamp(z * (dist / previous), MinZoom, MaxZoom) else z
  }

  /** Continuous rebasing: two unclamped pinch frames scale the zoom by the
      ratio of the last distance to the first. */
  lemma PinchTelescopes(z: real, d0: real, d1: real, d2: real)
    requires d0 > 0.0 && d1 > 0.0
    requires InRange(z * d1 / d0) && InRange(z * d1 / d0 * d2 / d1)
    ensures Pinch(Pinch(z, d0, d1), d1, d2) == z * d2 / d0
  {
    var z1 := z * d1 / d0;
    assert Pinch(z, d0, d1) == z1;
    calc {
      z1 * d2 / d1;
      (z * d1 * d2) / (d0 * d1);
      z * d2 / d0;
    }
  }

  /** One pan frame: the offset moves by the pointer's movement since the
      last frame, and the current pointer becomes the next frame's start. */
  function Pan(offset: Point, last: Point, pointer: Point): (r: (Point, Point))
    ensures r.0.x - offset.x == pointer.x - last.x
    ensures r.0.y - offset.y == pointer.y - last.y
    ensures r.1 == pointer
  {
    (Point(offset.x + (pointer.x - last.x), offset.y + (pointer.y - last.y)), pointer)
  }

  /** Rebasing makes a drag's total pan independent of how many frames it
      was reported in. */
  lemma PanComposes(offset: Point, p0: Point, p1: Point, p2: Point)
    ensures var (o1, l1) := Pan(offset, p0, p1);
            Pan(o1, l1, p2).0 == Pan(offset, p0, p2).0
  {
  }
}
