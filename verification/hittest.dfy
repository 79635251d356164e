/** Pointer hit testing: mapping a pointer to canvas pixels, the padded box
    around an element, and the topmost-element scan of `handlePointerDown`. */
module HitTest {
  import opened Wrappers
  import opened Geometry
  import opened Document
  import opened Layout

  /** Extra margin around the text block that still counts as a hit. */
  const Padding: real := 40.0

  /** The canvas's `getBoundingClientRect()` in CSS pixels. */
  datatype ScreenBox = ScreenBox(left: real, top: real, width: real, height: real)

  /** `getCanvasCoordinates`: a pointer in CSS pixels to canvas backing-store
      pixels, for a `canvasW` x `canvasH` canvas shown in `box`. The box's
      corners map to the canvas's corners, and a point inside the box lands
      on the canvas. */
  function ToCanvas(client: Point, box: ScreenBox, canvasW: int, canvasH: int): (p: Point)
    requires box.width > 0.0 && box.height > 0.0
    ensures client == Point(box.left, box.top) ==> p == Point(0.0, 0.0)
    ensures client == Point(box.left + box.width, box.top + box.height) ==>
      p == Point(canvasW as real, canvasH as real)
    ensures canvasW >= 0 && box.left <= client.x <= box.left + box.width ==>
      0.0 <= p.x <= canvasW as real
    ensures canvasH >= 0 && box.top <= client.y <= box.top + box.height ==>
      0.0 <= p.y <= canvasH as real
  {
    var scaleX := canvasW as real / box.width;
    var scaleY := canvasH as real / box.height;
    ScaleWithin(client.x - box.left, box.width, canvasW as real);
    ScaleWithin(client.y - box.top, box.height, canvasH as real);
    Point((client.x - box.left) * scaleX, (client.y - box.top) * scaleY)
  }

  /** An offset within a span, rescaled from the span to a length, stays
      within the length. */
  lemma ScaleWithin(d: real, span: real, len: real)
    requires span > 0.0
    ensures 0.0 <= d <= span && len >= 0.0 ==> 0.0 <= d * (len / span) <= len
  {
    if 0.0 <= d <= span && len >= 0.0 {
      var k := len / span;
      assert k >= 0.0;
      assert d * k <= span * k;
      assert span * k == len;
    }
  }

  /** `getCanvasCoordinates` is one linear scaling per axis: moving the
      pointer by some CSS pixels moves the canvas point by that distance
      times the ratio of canvas pixels to on-screen pixels. With the top-left
      corner going to `(0, 0)` this fixes the mapping entirely. */
  lemma ToCanvasScales(c1: Point, c2: Point, box: ScreenBox, canvasW: int, canvasH: int)
    requires box.width > 0.0 && box.height > 0.0
    ensures ToCanvas(c2, box, canvasW, canvasH).x - ToCanvas(c1, box, canvasW, canvasH).x
      == (c2.x - c1.x) * (canvasW as real / box.width)
    ensures ToCanvas(c2, box, canvasW, canvasH).y - ToCanvas(c1, box, canvasW, canvasH).y
      == (c2.y - c1.y) * (canvasH as real / box.height)
  {
    var kx := canvasW as real / box.width;
    var ky := canvasH as real / box.height;
    assert (c2.x - box.left) * kx - (c1.x - box.left) * kx == (c2.x - c1.x) * kx;
    assert (c2.y - box.top) * ky - (c1.y - box.top) * ky == (c2.y - c1.y) * ky;
  }

  /** `isHit`: the point lies in the inclusive box of the element's widest
      line by its block height, centred on the element and padded by 40. */
  predicate IsHit(p: Point, e: Element, m: Measure)
  {
    var w := DisplayWidth(e, m);
    var h := BoxHeight(e);
    && p.x >= e.x - w / 2.0 - Padding
    && p.x <= e.x + w / 2.0 + Padding
    && p.y >= e.y - h / 2.0 - Padding
    && p.y <= e.y + h / 2.0 + Padding
  }

  /** The hit box as distances from the element's centre: half the display
      width plus 40 across, half of `lines * 1.2 * size` plus 40 down. */
  lemma IsHitByDistance(p: Point, e: Element, m: Measure)
    ensures IsHit(p, e, m) <==>
      && Abs(p.x - e.x) <= DisplayWidth(e, m) / 2.0 + Padding
      && Abs(p.y - e.y) <= BoxHeight(e) / 2.0 + Padding
    ensures BoxHeight(e) == |LinesOf(e)| as real * LineHeight(e.size)
  {
    BoxHeightIsStack(e);
  }

  /** An element's own anchor always hits it. */
  lemma AnchorHits(e: Element, m: Measure)
    requires e.size >= 0
    ensures IsHit(Point(e.x, e.y), e, m)
  {
    BoxHeightIsStack(e);
    assert BoxHeight(e) >= 0.0;
  }

  /** The scan over `[...xs].reverse()` that stops at the first match: the
      highest index satisfying `hit`, if any. */
  function Topmost<T>(xs: seq<T>, hit: T -> bool): (r: Option<nat>)
    ensures r.Some? ==>
      && r.value < |xs|
      && hit(xs[r.value])
      && forall j :: r.value < j < |xs| ==> !hit(xs[j])
    ensures r.None? <==> forall j :: 0 <= j < |xs| ==> !hit(xs[j])
  {
    if |xs| == 0 then None
    else if hit(xs[|xs| - 1]) then Some(|xs| - 1)
    else
      var below := xs[..|xs| - 1];
      assert forall j :: 0 <= j < |below| ==> below[j] == xs[j];
      Topmost(below, hit)
  }

  /** `handlePointerDown`'s hit search: the highest (last drawn) element
      whose box holds the point; none when no box does. */
  function TopmostHit(es: seq<Element>, p: Point, m: Measure): (r: Option<nat>)
    ensures r.Some? ==>
      && r.value < |es|
      && IsHit(p, es[r.value], m)
      && forall j :: r.value < j < |es| ==> !IsHit(p, es[j], m)
    ensures r.None? <==> forall j :: 0 <= j < |es| ==> !IsHit(p, es[j], m)
  {
    Topmost(es, e => IsHit(p, e, m))
  }

  /** A point in an element's box with no element above it hit selects
      that element. */
  lemma UnobstructedHitWins(es: seq<Element>, i: nat, p: Point, m: Measure)
    requires i < |es| && IsHit(p, es[i], m)
    requires forall j :: i < j < |es| ==> !IsHit(p, es[j], m)
    ensures TopmostHit(es, p, m) == Some(i)
  {
  }
}
