/** Worked examples: concrete runs of the editor from its initial state,
    each checked against the figures the program's behaviour implies. */
module Scenarios {
  import opened Wrappers
  import opened Geometry
  import opened Document
  import opened Layout
  import Lines
  import opened Viewport
  import opened HitTest
  import opened Compositor
  import Editor

  /** The id `Date.now().toString()` might produce. */
  const NewId: string := "1700000000000"

  /** Adding an element to the initial document gives a fourth element,
      108 pixels tall (a tenth of 1080, rounded) and reading "جديد"; undo
      brings back the initial document and redo the four-element one. */
  lemma AddUndoRedo()
    ensures NewId !in Ids(Initial.elements)
    ensures
      var a1 := Editor.AddElement(Editor.Start, NewId);
      var a2 := Editor.Undo(a1);
      && |a1.config.elements| == 4
      && a1.config.elements[3].size == 108
      && a1.config.elements[3].text == NewText
      && a1.config.elements[3].x == 540.0 && a1.config.elements[3].y == 540.0
      && a1.selected == Some(NewId)
      && a2.config == Initial
      && |a2.config.elements| == 3
      && Editor.Redo(a2) == a1
  {
    NewIdFresh();
    var a1 := Editor.AddElement(Editor.Start, NewId);
    AddOnSquare(Editor.Start, NewId);
    Editor.UndoAfterSnapshot(Editor.Start, a1);
  }

  lemma NewIdFresh()
    ensures NewId !in Ids(Initial.elements)
  {
    var es := Initial.elements;
    assert es[0].id == "t1" && es[1].id == "p1" && es[2].id == "p2";
  }

  /** On a 1080 x 1080 canvas the added element is 108 pixels tall and
      sits at the centre. */
  lemma AddOnSquare(a: Editor.App, id: string)
    requires id !in Ids(a.config.elements)
    requires a.config.width == 1080 && a.config.height == 1080
    ensures var r := Editor.AddElement(a, id);
            var e := r.config.elements[|a.config.elements|];
            && e.size == 108 && e.text == NewText && e.x == 540.0 && e.y == 540.0
  {
    assert Min(1080.0, 1080.0) == 1080.0;
  }

  /** Only the first line of a one-line text exists, and with a known size
      its block height follows. */
  lemma OneLine(e: Element)
    requires Lines.IsLine(e.text)
    ensures LinesOf(e) == [e.text]
    ensures BoxHeight(e) == LineHeight(e.size)
  {
    Lines.SplitLine(e.text);
    BoxHeightIsStack(e);
  }

  /** A one-line element whose padded box ends below the point misses it. */
  lemma MissesAbove(p: Point, e: Element, m: Measure)
    requires Lines.IsLine(e.text)
    requires p.y < e.y - LineHeight(e.size) / 2.0 - Padding
    ensures !IsHit(p, e, m)
  {
    OneLine(e);
  }

  /** Pressing on the title at (540, 300) of the initial document, shown
      at its own size, hits the title and neither price above it. */
  lemma PressOnTitle(m: Measure)
    ensures
      var ev := Editor.PointerEvent(Point(540.0, 300.0), false, 0.0, true);
      var box := ScreenBox(0.0, 0.0, 1080.0, 1080.0);
      && Editor.CanvasPoint(Editor.Start, ev, box) == Point(540.0, 300.0)
      && TopmostHit(Initial.elements, Point(540.0, 300.0), m) == Some(0)
  {
    var es := Initial.elements;
    assert es[0].x == 540.0 && es[0].y == 300.0 && es[0].size == 80;
    assert es[1].text == "250" && es[1].y == 500.0 && es[1].size == 60;
    assert es[2].text == "199" && es[2].y == 650.0 && es[2].size == 110;
    HitsAnchorBelowTwo(es, Point(540.0, 300.0), m);
  }

  /** In a three-element list, a press on the bottom element's anchor with
      both one-line elements above it lying further down than their padded
      half height finds the bottom element. */
  lemma HitsAnchorBelowTwo(es: seq<Element>, p: Point, m: Measure)
    requires |es| == 3
    requires p == Point(es[0].x, es[0].y) && es[0].size >= 0
    requires Lines.IsLine(es[1].text) && p.y < es[1].y - LineHeight(es[1].size) / 2.0 - Padding
    requires Lines.IsLine(es[2].text) && p.y < es[2].y - LineHeight(es[2].size) / 2.0 - Padding
    ensures TopmostHit(es, p, m) == Some(0)
  {
    AnchorHits(es[0], m);
    MissesAbove(p, es[1], m);
    MissesAbove(p, es[2], m);
    UnobstructedHitWins(es, 0, p, m);
  }

  /** After the press the title is snapshotted, selected and grabbed at its
      anchor. */
  lemma TitleGrabbed(m: Measure)
    ensures
      var down := Editor.PointerDown(Editor.Start, Editor.PointerEvent(Point(540.0, 300.0), false, 0.0, true),
                                     ScreenBox(0.0, 0.0, 1080.0, 1080.0), m);
      && Editor.Snapshots(Editor.Start, down)
      && down.config == Initial
      && down.selected == Some("t1")
      && down.gesture == Editor.Gesture(Some("t1"), false, Point(0.0, 0.0), None)
  {
    PressOnTitle(m);
  }

  /** Dragging the title from (540, 300) by (50, -20) and letting go moves
      it to (590, 280); the other elements stay put. */
  lemma DragByDelta(m: Measure)
    ensures
      var box := ScreenBox(0.0, 0.0, 1080.0, 1080.0);
      var down := Editor.PointerDown(Editor.Start, Editor.PointerEvent(Point(540.0, 300.0), false, 0.0, true), box, m);
      var moved := Editor.PointerMove(down, Editor.PointerEvent(Point(590.0, 280.0), false, 0.0, true), box);
      var up := Editor.PointerUp(moved);
      && |up.config.elements| == 3
      && up.config.elements[0] == Initial.elements[0].(x := 590.0, y := 280.0)
      && up.config.elements[1] == Initial.elements[1]
      && up.config.elements[2] == Initial.elements[2]
  {
    TitleGrabbed(m);
    var down := Editor.PointerDown(Editor.Start, Editor.PointerEvent(Point(540.0, 300.0), false, 0.0, true),
                                   ScreenBox(0.0, 0.0, 1080.0, 1080.0), m);
    DragTitleBy(down);
  }

  /** The drag frame from any state holding the initial document with the
      title grabbed at its anchor. */
  lemma DragTitleBy(d: Editor.App)
    requires d.config == Initial
    requires d.gesture == Editor.Gesture(Some("t1"), false, Point(0.0, 0.0), None)
    ensures
      var box := ScreenBox(0.0, 0.0, 1080.0, 1080.0);
      var rs := Editor.PointerUp(Editor.PointerMove(d, Editor.PointerEvent(Point(590.0, 280.0), false, 0.0, true), box)).config.elements;
      && |rs| == 3
      && rs[0] == Initial.elements[0].(x := 590.0, y := 280.0)
      && rs[1] == Initial.elements[1]
      && rs[2] == Initial.elements[2]
  {
    var box := ScreenBox(0.0, 0.0, 1080.0, 1080.0);
    var ev := Editor.PointerEvent(Point(590.0, 280.0), false, 0.0, true);
    var es := Initial.elements;
    assert es[0].id == "t1" && es[1].id == "p1" && es[2].id == "p2";
    assert Initial.width == 1080 && Initial.height == 1080;
    DragTargetIsPointer(d, ev, box);
    DragMovesFirstOfThree(d, ev, box);
  }

  /** After the same drag and release the title is still selected, nothing
      is being dragged, and one undo brings back the initial document. */
  lemma DragReleased(m: Measure)
    ensures
      var box := ScreenBox(0.0, 0.0, 1080.0, 1080.0);
      var down := Editor.PointerDown(Editor.Start, Editor.PointerEvent(Point(540.0, 300.0), false, 0.0, true), box, m);
      var moved := Editor.PointerMove(down, Editor.PointerEvent(Point(590.0, 280.0), false, 0.0, true), box);
      var up := Editor.PointerUp(moved);
      && up.selected == Some("t1")
      && up.gesture.dragging == None
      && Editor.Undo(up).config == Initial
  {
    var box := ScreenBox(0.0, 0.0, 1080.0, 1080.0);
    TitleGrabbed(m);
    var down := Editor.PointerDown(Editor.Start, Editor.PointerEvent(Point(540.0, 300.0), false, 0.0, true), box, m);
    var ev2 := Editor.PointerEvent(Point(590.0, 280.0), false, 0.0, true);
    Editor.UndoAfterSnapshot(Editor.Start, Editor.PointerUp(Editor.PointerMove(down, ev2, box)));
  }

  /** Shown at its own size, with the element grabbed at its anchor, an
      on-canvas pointer is where the element goes. */
  lemma DragTargetIsPointer(d: Editor.App, ev: Editor.PointerEvent, box: ScreenBox)
    requires box == ScreenBox(0.0, 0.0, d.config.width as real, d.config.height as real)
    requires d.config.width > 0 && d.config.height > 0
    requires d.gesture.dragStart == Point(0.0, 0.0)
    requires 0.0 <= ev.client.x <= d.config.width as real && 0.0 <= ev.client.y <= d.config.height as real
    ensures Editor.DragTarget(d, Editor.CanvasPoint(d, ev, box)) == ev.client
  {
    UnitScale(ev.client.x, d.config.width as real);
    UnitScale(ev.client.y, d.config.height as real);
  }

  lemma UnitScale(x: real, w: real)
    requires w > 0.0
    ensures x * (w / w) == x
  {
    assert w / w == 1.0;
  }

  /** A drag frame on a three-element document whose first element alone
      has the dragged id moves that element and no other. */
  lemma DragMovesFirstOfThree(d: Editor.App, ev: Editor.PointerEvent, box: ScreenBox)
    requires box.width > 0.0 && box.height > 0.0
    requires !Editor.Pinching(d, ev) && Editor.Dragging(d)
    requires |d.config.elements| == 3
    requires d.config.elements[0].id == d.gesture.dragging.value
    requires d.config.elements[1].id != d.gesture.dragging.value
    requires d.config.elements[2].id != d.gesture.dragging.value
    ensures var t := Editor.DragTarget(d, Editor.CanvasPoint(d, ev, box));
            var es := d.config.elements;
            var rs := Editor.PointerMove(d, ev, box).config.elements;
            && |rs| == 3
            && rs[0] == es[0].(x := t.x, y := t.y) && rs[1] == es[1] && rs[2] == es[2]
  {
    Editor.DragMovesOnlyDragged(d, ev, box, 0);
    Editor.DragMovesOnlyDragged(d, ev, box, 1);
    Editor.DragMovesOnlyDragged(d, ev, box, 2);
  }

  /** A struck-through "199" at size 110 and measured width `w`: the strike
      runs from (x - w/2 - 25, y + 11) to (x + w/2 + 25, y - 11). */
  lemma StrikeOverPrice(e: Element, m: Measure)
    requires e.strikethrough && e.size == 110 && e.text == "199"
    ensures
      var plan := DrawElement(e, m, None, None, false);
      var w := m(e.font, 110, "199");
      && |plan.lines| == 1
      && plan.lines[0].strike.Some?
      && plan.lines[0].strike.value.segment ==
           Segment(Point(e.x - w / 2.0 - 25.0, e.y + 11.0), Point(e.x + w / 2.0 + 25.0, e.y - 11.0))
  {
    OneLine(e);
    assert LineY(e.y, 110, 1, 0) == e.y;
  }

  /** Fitting the initial 1080 x 1080 document into an 800 x 600 container
      gives zoom min(800/1080, 600/1080) * 0.9 = 0.5 and no pan. */
  lemma FitExample()
    ensures Editor.FitPressed(Editor.Start, 800.0, 600.0).zoom == Min(800.0 / 1080.0, 600.0 / 1080.0) * 0.9
    ensures Editor.FitPressed(Editor.Start, 800.0, 600.0).zoom == 0.5
    ensures Editor.FitPressed(Editor.Start, 800.0, 600.0).pan == Point(0.0, 0.0)
  {
    assert Min(800.0 / 1080.0, 600.0 / 1080.0) == 600.0 / 1080.0;
  }

  /** A pinch asking for zoom 5 gets 3, one asking for 0.001 gets 0.05,
      and the zoom-in button at 2.95 stops at 3. */
  lemma ZoomClamps()
    ensures Pinch(1.0, 100.0, 500.0) == 3.0
    ensures Pinch(1.0, 1000.0, 1.0) == 0.05
    ensures ZoomIn(2.95) == 3.0
    ensures ZoomOut(0.1) == 0.05
  {
  }
}
