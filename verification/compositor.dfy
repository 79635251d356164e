/** Where `drawCanvas` puts things: each element's lines, its outline width,
    its two-pass strike-through segment and its dashed selection box. The
    pixels themselves (fills, strokes, shadows, dashes) are not modelled;
    this is the geometry handed to the 2D context. */
module Compositor {
  import opened Wrappers
  import opened Geometry
  import opened Document
  import opened Layout

  /** How far the strike-through runs past each end of the line. */
  const StrikeOverhang: real := 25.0
  /** Selection box margin left and right, and above and below. */
  const BoxPadX: real := 20.0
  const BoxPadY: real := 10.0

  /** `currentY` of line `i` of `n`: the stack of lines, `1.2 * size` apart,
      is centred on the element's `y`. */
  function LineY(y: real, size: int, n: nat, i: nat): real {
    var lh := LineHeight(size);
    var startY := y - ((n - 1) as real * lh) / 2.0;
    startY + i as real * lh
  }

  /** Consecutive lines are one line height apart. */
  lemma LineSpacing(y: real, size: int, n: nat, i: nat)
    requires i + 1 < n
    ensures LineY(y, size, n, i + 1) - LineY(y, size, n, i) == LineHeight(size)
  {
  }

  /** Line `i` and line `n - 1 - i` sit symmetrically about `y`, so the
      first and last lines (and a single line) are centred on it. */
  lemma LinesCentred(y: real, size: int, n: nat, i: nat)
    requires i < n
    ensures LineY(y, size, n, i) + LineY(y, size, n, n - 1 - i) == 2.0 * y
  {
    var lh := LineHeight(size);
    calc {
      LineY(y, size, n, i) + LineY(y, size, n, n - 1 - i);
      2.0 * y - (n - 1) as real * lh + i as real * lh + (n - 1 - i) as real * lh;
      2.0 * y;
    }
  }

  datatype Segment = Segment(from: Point, to: Point)

  /** The strike-through segment over a line of measured width `w` drawn at
      `cy`: it runs 25 pixels past both ends of the text, rising by a tenth
      of the font size on each side, and is centred on the line's anchor. */
  function StrikeSegment(x: real, cy: real, size: int, w: real): (s: Segment)
    ensures (s.from.x + s.to.x) / 2.0 == x && (s.from.y + s.to.y) / 2.0 == cy
    ensures s.to.x - s.from.x == w + 2.0 * StrikeOverhang
    ensures s.from.y - s.to.y == size as real / 5.0
  {
    var slant := size as real * 0.1;
    Segment(Point(x - w / 2.0 - StrikeOverhang, cy + slant),
            Point(x + w / 2.0 + StrikeOverhang, cy - slant))
  }

  /** Width of the white halo pass: `Math.max(8, size / 5)`. */
  function HaloWidth(size: int): (r: real)
    ensures r >= 8.0 && r >= size as real / 5.0
    ensures r == 8.0 || r == size as real / 5.0
  {
    Max(8.0, size as real / 5.0)
  }

  /** Width of the red accent pass: `Math.max(4, size / 9)`. It never
      exceeds the halo, so the accent always lies on its white backing. */
  function AccentWidth(size: int): (r: real)
    ensures r >= 4.0 && r >= size as real / 9.0
    ensures r == 4.0 || r == size as real / 9.0
    ensures r <= HaloWidth(size)
  {
    Max(4.0, size as real / 9.0)
  }

  /** Width of the text outline: `Math.max(2, strokeWidth)`. */
  function OutlineWidth(strokeWidth: int): (r: real)
    ensures r >= 2.0 && r >= strokeWidth as real
    ensures strokeWidth >= 2 ==> r == strokeWidth as real
    ensures strokeWidth < 2 ==> r == 2.0
  {
    Max(2.0, strokeWidth as real)
  }

  datatype Strike = Strike(segment: Segment, halo: real, accent: real)

  /** One line as drawn: its text, its `currentY`, the outline width when
      the element is outlined, and the strike mark when struck through. */
  datatype LinePlan = LinePlan(text: string, y: real, outline: Option<real>, strike: Option<Strike>)

  /** One element as drawn: its lines, centred on `x`, and the dashed box
      when it is shown selected. */
  datatype ElementPlan = ElementPlan(x: real, lines: seq<LinePlan>, box: Option<Rect>)

  /** The dashed rectangle around a selected element. */
  function SelectionBox(e: Element, m: Measure): (r: Rect)
    ensures r.width == DisplayWidth(e, m) + 2.0 * BoxPadX
    ensures r.height == BoxHeight(e) + 2.0 * BoxPadY
    ensures r.left + r.width / 2.0 == e.x
    ensures r.top + r.height / 2.0 == e.y + e.size as real / 10.0
  {
    var lh := LineHeight(e.size);
    var dw := DisplayWidth(e, m);
    var dh := BoxHeight(e);
    Rect(e.x - dw / 2.0 - BoxPadX,
         e.y - dh / 2.0 - BoxPadY + (lh / 2.0) - (e.size as real / 2.0),
         dw + 2.0 * BoxPadX,
         dh + 2.0 * BoxPadY)
  }

  /** Every line, centred on `x`, lies inside the selection box with at
      least 20 pixels to spare on each side. */
  lemma SelectionBoxEnclosesLines(e: Element, m: Measure, i: nat)
    requires i < |LinesOf(e)|
    ensures var r := SelectionBox(e, m);
            var w := m(e.font, e.size, LinesOf(e)[i]);
            && r.left + BoxPadX <= e.x - w / 2.0
            && e.x + w / 2.0 <= r.left + r.width - BoxPadX
  {
    DisplayWidthCoversLines(e, m);
  }

  /** `drawCanvas`'s work for one element. The box is drawn when the element
      is selected or being dragged, and never while exporting. */
  function DrawElement(e: Element, m: Measure, selected: Option<string>, dragging: Option<string>,
                       exporting: bool): (r: ElementPlan)
    ensures r.x == e.x
    ensures |r.lines| == |LinesOf(e)|
    ensures forall i :: 0 <= i < |r.lines| ==>
      && r.lines[i].text == LinesOf(e)[i]
      && r.lines[i].y == LineY(e.y, e.size, |LinesOf(e)|, i)
      && (r.lines[i].outline.Some? <==> e.stroke)
      && (r.lines[i].outline.Some? ==> r.lines[i].outline.value == OutlineWidth(e.strokeWidth))
      && (r.lines[i].strike.Some? <==> e.strikethrough)
      && (r.lines[i].strike.Some? ==>
            r.lines[i].strike.value ==
              Strike(StrikeSegment(e.x, r.lines[i].y, e.size, m(e.font, e.size, LinesOf(e)[i])),
                     HaloWidth(e.size), AccentWidth(e.size)))
    ensures r.box.Some? <==> !exporting && (dragging == Some(e.id) || selected == Some(e.id))
    ensures r.box.Some? ==> r.box.value == SelectionBox(e, m)
  {
    var ls := LinesOf(e);
    var n := |ls|;
    var lines := seq(n, i requires 0 <= i < n =>
      var cy := LineY(e.y, e.size, n, i);
      LinePlan(ls[i], cy,
               if e.stroke then Some(OutlineWidth(e.strokeWidth)) else None,
               if e.strikethrough
               then Some(Strike(StrikeSegment(e.x, cy, e.size, m(e.font, e.size, ls[i])),
                                HaloWidth(e.size), AccentWidth(e.size)))
               else None));
    var shown := (dragging == Some(e.id) || selected == Some(e.id)) && !exporting;
    ElementPlan(e.x, lines, if shown then Some(SelectionBox(e, m)) else None)
  }

  /** All elements in array order, so later elements are drawn on top. */
  function Draw(c: Config, m: Measure, selected: Option<string>, dragging: Option<string>,
                exporting: bool): (r: seq<ElementPlan>)
    ensures |r| == |c.elements|
    ensures forall i :: 0 <= i < |r| ==> r[i] == DrawElement(c.elements[i], m, selected, dragging, exporting)
  {
    seq(|c.elements|, i requires 0 <= i < |c.elements| =>
      DrawElement(c.elements[i], m, selected, dragging, exporting))
  }

  /** An export shows no selection, and does not depend on what is selected
      or dragged: the selection overlay is the only mode-dependent output. */
  lemma ExportIgnoresSelection(c: Config, m: Measure,
                               s1: Option<string>, d1: Option<string>,
                               s2: Option<string>, d2: Option<string>)
    ensures Draw(c, m, s1, d1, true) == Draw(c, m, s2, d2, true)
    ensures forall i :: 0 <= i < |c.elements| ==> Draw(c, m, s1, d1, true)[i].box == None
  {
    var a, b := Draw(c, m, s1, d1, true), Draw(c, m, s2, d2, true);
    forall i | 0 <= i < |c.elements| ensures a[i] == b[i] {
      assert a[i].lines == b[i].lines;
    }
  }

  /** Outside an export, the drawing differs from the export only by the
      selection boxes. */
  lemma ScreenMatchesExport(c: Config, m: Measure, s: Option<string>, d: Option<string>)
    ensures forall i :: 0 <= i < |c.elements| ==>
      Draw(c, m, s, d, false)[i].lines == Draw(c, m, s, d, true)[i].lines
  {
  }
}
