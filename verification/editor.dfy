/** The editor's state and its event handlers, as a reducer: every handler
    of the `App` component is a function from the state before the event to
    the state after it, with React's state setters applied in order.

    Two things the program does through closures are modelled explicitly.
    A background decode (template or upload) finishes later, with the
    values its callback captured when it was started; those values travel
    in `Pending`. And the program lets every decode that finishes apply,
    in whatever order; the model applies only the latest request's decode
    (see `TemplateDecoded`, and `TemplateLoadedAsWritten` for the code as
    it stands). */
module Editor {
  import opened Wrappers
  import opened Geometry
  import opened Document
  import opened Layout
  import H = History
  import opened Viewport
  import opened HitTest
  import opened Templates

  /** A decoded background image; only its pixel size matters here. */
  datatype Image = Image(width: int, height: int)

  /** `draggingEl`, `isPanning`, `dragStart` and `pinchInitialDist`. */
  datatype Gesture = Gesture(dragging: Option<string>, panning: bool, dragStart: Point, pinch: Option<real>)

  /** A background decode in flight, with what its callback captured: the
      request number, and the document (and template) of the render in
      which it was started. */
  datatype Pending =
    | LoadingTemplate(token: nat, template: Template, captured: Config)
    | LoadingUpload(token: nat, captured: Config, templateId: string)

  /** The component's state. `requests` numbers background requests so
      that only the latest one's decode applies. */
  datatype App = App(
    config: Config,
    history: H.Stacks<Config>,
    background: Option<Image>,
    activeTemplate: string,
    zoom: real,
    pan: Point,
    selected: Option<string>,
    gesture: Gesture,
    requests: nat,
    pending: Option<Pending>)

  /** What a pointer or touch event carries: the first contact point, whether
      two fingers are down and, if so, their distance (`Math.hypot`), and
      whether the target lies inside the canvas container. */
  datatype PointerEvent = PointerEvent(client: Point, twoFinger: bool, dist: real, inContainer: bool)

  const Idle: Gesture := Gesture(None, false, Point(0.0, 0.0), None)

  /** The state on mount: the initial document, empty history, no
      background, the `custom` template, zoom 1 and no pan. */
  const Start: App := App(Initial, H.Stacks([], []), None, CustomId, 1.0, Point(0.0, 0.0),
                          None, Idle, 0, None)

  // ---------------------------------------------------------------------
  // Well-formedness

  predicate AllValid(cs: seq<Config>) {
    forall i :: 0 <= i < |cs| ==> ValidConfig(cs[i])
  }

  predicate PendingValid(p: Option<Pending>) {
    match p
    case None => true
    case Some(LoadingTemplate(_, t, c)) => t in Catalogue && ValidConfig(c)
    case Some(LoadingUpload(_, c, _)) => ValidConfig(c)
  }

  /** Every document the state holds (current, undoable, redoable, awaiting
      a decode) has a positive size and unique ids, and the history keeps
      its bound. */
  predicate Valid(a: App) {
    && ValidConfig(a.config)
    && H.Bounded(a.history)
    && AllValid(a.history.past)
    && AllValid(a.history.future)
    && PendingValid(a.pending)
  }

  lemma StartValid()
    ensures Valid(Start)
  {
    InitialValid();
  }

  lemma SaveKeepsValid(h: H.Stacks<Config>, c: Config)
    requires AllValid(h.past) && ValidConfig(c)
    ensures AllValid(H.Save(h, c).past) && AllValid(H.Save(h, c).future)
  {
    var s := h.past + [c];
    assert AllValid(s);
    var n := H.Save(h, c).past;
    forall i | 0 <= i < |n| ensures ValidConfig(n[i]) {
      if |s| > H.Cap {
        assert n[i] == s[|s| - H.Cap + i];
      }
    }
  }

  // ---------------------------------------------------------------------
  // History

  /** `saveToHistory` then the handler's own change: the document as it was
      before the handler ran became the newest snapshot, and redo was
      cleared. */
  predicate Snapshots(a: App, r: App) {
    r.history == H.Save(a.history, a.config)
  }

  /** `saveToHistory` on its own. */
  function SaveToHistory(a: App): (r: App)
    ensures Snapshots(a, r)
    ensures r.config == a.config && r.history.future == []
    ensures r.history.past[|r.history.past| - 1] == a.config
    ensures r.(history := a.history) == a
  {
    a.(history := H.Save(a.history, a.config))
  }

  /** `handleUndo`: the newest snapshot comes back and the current document
      becomes the next redo; nothing happens with no snapshot. */
  function Undo(a: App): (r: App)
    ensures |a.history.past| == 0 ==> r == a
    ensures |a.history.past| > 0 ==>
      && r.config == a.history.past[|a.history.past| - 1]
      && r.history.past == a.history.past[..|a.history.past| - 1]
      && r.history.future == [a.config] + a.history.future
    ensures r.(config := a.config, history := a.history) == a
    ensures Valid(a) ==> Valid(r)
  {
    var (c, h) := H.Undo(a.history, a.config);
    assert Valid(a) ==> ValidConfig(c) && AllValid(h.past) && AllValid(h.future) by {
      if Valid(a) && |a.history.past| > 0 {
        assert AllValid(h.past) by {
          forall i | 0 <= i < |h.past| ensures ValidConfig(h.past[i]) {
            assert h.past[i] == a.history.past[i];
          }
        }
        assert AllValid(h.future) by {
          forall i | 0 <= i < |h.future| ensures ValidConfig(h.future[i]) {
            if i > 0 { assert h.future[i] == a.history.future[i - 1]; }
          }
        }
      }
    }
    a.(config := c, history := h)
  }

  /** `handleRedo`: the next redo comes back and the current document
      becomes the newest snapshot; nothing happens with nothing to redo. */
  function Redo(a: App): (r: App)
    ensures |a.history.future| == 0 ==> r == a
    ensures |a.history.future| > 0 ==>
      && r.config == a.history.future[0]
      && r.history.past == a.history.past + [a.config]
      && r.history.future == a.history.future[1..]
    ensures r.(config := a.config, history := a.history) == a
    ensures Valid(a) ==> Valid(r)
  {
    var (c, h) := H.Redo(a.history, a.config);
    assert Valid(a) ==> ValidConfig(c) && AllValid(h.past) && AllValid(h.future) by {
      if Valid(a) && |a.history.future| > 0 {
        assert AllValid(h.past) by {
          forall i | 0 <= i < |h.past| ensures ValidConfig(h.past[i]) {
            if i < |a.history.past| { assert h.past[i] == a.history.past[i]; }
          }
        }
        assert AllValid(h.future) by {
          forall i | 0 <= i < |h.future| ensures ValidConfig(h.future[i]) {
            assert h.future[i] == a.history.future[i + 1];
          }
        }
      }
    }
    a.(config := c, history := h)
  }

  /** Redo after undo puts the whole state back. */
  lemma RedoAfterUndoApp(a: App)
    requires |a.history.past| > 0
    ensures Redo(Undo(a)) == a
  {
    H.RedoAfterUndo(a.history, a.config);
  }

  /** Any handler that snapshots first is undone by one undo, which brings
      back the document from before the handler, and redone by the redo
      after it. */
  lemma UndoAfterSnapshot(a: App, r: App)
    requires Snapshots(a, r)
    ensures Undo(r).config == a.config
    ensures Undo(r).history.future == [r.config]
    ensures Redo(Undo(r)) == r
  {
    H.UndoAfterSave(a.history, a.config, r.config);
  }

  // ---------------------------------------------------------------------
  // Element editing

  /** `addElement`, with `newId` standing for `Date.now().toString()`: a
      snapshot, one new element on top, and the new element selected. */
  function AddElement(a: App, newId: string): (r: App)
    requires newId !in Ids(a.config.elements)
    ensures Snapshots(a, r)
    ensures r.config.width == a.config.width && r.config.height == a.config.height
    ensures |r.config.elements| == |a.config.elements| + 1
    ensures r.config.elements[..|a.config.elements|] == a.config.elements
    ensures r.config.elements[|a.config.elements|] == NewElement(a.config, newId)
    ensures r.selected == Some(newId)
    ensures r.(config := a.config, history := a.history, selected := a.selected) == a
    ensures Valid(a) ==> Valid(r)
  {
    assert Valid(a) ==> AllValid(H.Save(a.history, a.config).past) by {
      if Valid(a) { SaveKeepsValid(a.history, a.config); }
    }
    SaveToHistory(a).(config := Document.AddElement(a.config, newId), selected := Some(newId))
  }

  /** `deleteElement`: a snapshot, every element with the id gone, and the
      selection cleared if it was that element. */
  function DeleteElement(a: App, id: string): (r: App)
    ensures Snapshots(a, r)
    ensures forall e :: e in r.config.elements <==> e in a.config.elements && e.id != id
    ensures r.config.width == a.config.width && r.config.height == a.config.height
    ensures Valid(a) ==>
      forall k :: 0 <= k < |a.config.elements| && a.config.elements[k].id == id ==>
        r.config.elements == a.config.elements[..k] + a.config.elements[k + 1..]
    ensures r.config == Document.DeleteElement(a.config, id)
    ensures a.selected == Some(id) ==> r.selected == None
    ensures a.selected != Some(id) ==> r.selected == a.selected
    ensures r.(config := a.config, history := a.history, selected := a.selected) == a
    ensures Valid(a) ==> Valid(r)
  {
    assert Valid(a) ==> AllValid(H.Save(a.history, a.config).past) && UniqueIds(Without(a.config.elements, id)) by {
      if Valid(a) {
        SaveKeepsValid(a.history, a.config);
        WithoutKeepsUnique(a.config.elements, id);
      }
    }
    SaveToHistory(a).(config := Document.DeleteElement(a.config, id),
                      selected := if a.selected == Some(id) then None else a.selected)
  }

  /** The delete button is rendered only next to an element that is not one
      of the three defaults. */
  predicate Deletable(c: Config, id: string) {
    exists i :: 0 <= i < |c.elements| && c.elements[i].id == id && !c.elements[i].isDefault
  }

  /** Pressing a delete button: only a non-default element can go. */
  function DeletePressed(a: App, id: string): (r: App)
    ensures !Deletable(a.config, id) ==> r == a
    ensures Deletable(a.config, id) ==> r == DeleteElement(a, id)
    ensures Valid(a) ==> Valid(r)
  {
    if Deletable(a.config, id) then DeleteElement(a, id) else a
  }

  /** The three default elements survive any press of a delete button, and
      with unique ids the element pressed is the only one removed. */
  lemma DefaultsSurviveDelete(a: App, id: string)
    requires UniqueIds(a.config.elements)
    ensures forall e :: e in a.config.elements && e.isDefault ==> e in DeletePressed(a, id).config.elements
    ensures Deletable(a.config, id) ==> id !in Ids(DeletePressed(a, id).config.elements)
  {
    if Deletable(a.config, id) {
      var r := DeletePressed(a, id).config.elements;
      forall e | e in a.config.elements && e.isDefault ensures e in r {
        var es := a.config.elements;
        var i :| 0 <= i < |es| && es[i].id == id && !es[i].isDefault;
        var k :| 0 <= k < |es| && es[k] == e;
        assert k == i || es[k].id != es[i].id;
      }
      forall j | 0 <= j < |r| ensures r[j].id != id {
        assert r[j] in r;
      }
    }
  }

  /** Clicking an element's card in the side panel selects it, without a
      snapshot. */
  function SelectCard(a: App, id: string): (r: App)
    ensures r.selected == Some(id)
    ensures r.(selected := a.selected) == a
  {
    a.(selected := Some(id))
  }

  /** An `onChange` edit: `updateElement` without a snapshot. */
  function Edit(a: App, id: string, u: Update): (r: App)
    ensures r.history == a.history
    ensures r.config.width == a.config.width && r.config.height == a.config.height
    ensures SameIds(a.config.elements, r.config.elements)
    ensures forall i, f :: 0 <= i < |a.config.elements| ==>
      Get(r.config.elements[i], f) ==
        if a.config.elements[i].id == id && f == FieldOf(u) then ValueOf(u) else Get(a.config.elements[i], f)
    ensures r.(config := a.config) == a
    ensures Valid(a) ==> Valid(r)
  {
    var c := UpdateElement(a.config, id, u);
    assert Valid(a) ==> UniqueIds(c.elements) by {
      if Valid(a) { SameIdsKeepUnique(a.config.elements, c.elements); }
    }
    a.(config := c)
  }

  /** `handleInputFocus`: focusing a text box that still shows one of the
      stock texts snapshots and empties it; any other text is left alone. */
  function InputFocus(a: App, id: string, currentText: string): (r: App)
    ensures currentText !in DefaultTexts ==> r == a
    ensures currentText in DefaultTexts ==>
      && Snapshots(a, r)
      && SameIds(a.config.elements, r.config.elements)
      && forall i, f :: 0 <= i < |a.config.elements| ==>
        Get(r.config.elements[i], f) ==
          if a.config.elements[i].id == id && f == Text then Str("") else Get(a.config.elements[i], f)
    ensures currentText in DefaultTexts ==>
      && r.config.width == a.config.width && r.config.height == a.config.height
      && r.(config := a.config, history := a.history) == a
    ensures Valid(a) ==> Valid(r)
  {
    if currentText in DefaultTexts then
      assert Valid(a) ==> AllValid(H.Save(a.history, a.config).past) by {
        if Valid(a) { SaveKeepsValid(a.history, a.config); }
      }
      Edit(SaveToHistory(a), id, SetText(""))
    else a
  }

  /** The centring button: a snapshot, then the element's `x` set to half
      the canvas width. */
  function Centre(a: App, id: string): (r: App)
    ensures Snapshots(a, r)
    ensures SameIds(a.config.elements, r.config.elements)
    ensures forall i :: 0 <= i < |a.config.elements| && a.config.elements[i].id == id ==>
      r.config.elements[i].x == a.config.width as real / 2.0
    ensures forall i, f :: 0 <= i < |a.config.elements| && (a.config.elements[i].id != id || f != X) ==>
      Get(r.config.elements[i], f) == Get(a.config.elements[i], f)
    ensures r.config.width == a.config.width && r.config.height == a.config.height
    ensures r.(config := a.config, history := a.history) == a
    ensures Valid(a) ==> Valid(r)
  {
    assert Valid(a) ==> AllValid(H.Save(a.history, a.config).past) by {
      if Valid(a) { SaveKeepsValid(a.history, a.config); }
    }
    var r := Edit(SaveToHistory(a), id, SetX(a.config.width as real / 2.0));
    assert forall i :: 0 <= i < |a.config.elements| && a.config.elements[i].id == id ==>
      Get(r.config.elements[i], X) == Num(a.config.width as real / 2.0);
    r
  }

  // ---------------------------------------------------------------------
  // Viewport buttons

  function ZoomInPressed(a: App): (r: App)
    ensures r.zoom == ZoomIn(a.zoom)
    ensures r.zoom <= MaxZoom && (InRange(a.zoom) ==> InRange(r.zoom))
    ensures r.(zoom := a.zoom) == a
  {
    a.(zoom := ZoomIn(a.zoom))
  }

  function ZoomOutPressed(a: App): (r: App)
    ensures r.zoom == ZoomOut(a.zoom)
    ensures r.zoom >= MinZoom && (InRange(a.zoom) ==> InRange(r.zoom))
    ensures r.(zoom := a.zoom) == a
  {
    a.(zoom := ZoomOut(a.zoom))
  }

  /** The fit button, with the container's client size: the current document
      fills 90% of the container along one side and fits along the other;
      the pan resets. */
  function FitPressed(a: App, cw: real, ch: real): (r: App)
    requires a.config.width > 0 && a.config.height > 0
    ensures r.zoom * a.config.width as real <= FitMargin * cw
    ensures r.zoom * a.config.height as real <= FitMargin * ch
    ensures r.zoom * a.config.width as real == FitMargin * cw || r.zoom * a.config.height as real == FitMargin * ch
    ensures r.pan == Point(0.0, 0.0)
    ensures r.(zoom := a.zoom, pan := a.pan) == a
  {
    a.(zoom := FitZoom(cw, ch, a.config.width, a.config.height), pan := Point(0.0, 0.0))
  }

  // ---------------------------------------------------------------------
  // Pointer gestures

  /** The canvas position of a pointer over the canvas shown in `box`. */
  function CanvasPoint(a: App, ev: PointerEvent, box: ScreenBox): Point
    requires box.width > 0.0 && box.height > 0.0
  {
    ToCanvas(ev.client, box, a.config.width, a.config.height)
  }

  /** `handlePointerDown`. Two fingers start a pinch. Otherwise, inside the
      container, the topmost element whose padded box holds the point is
      snapshotted, selected and grabbed at its offset from the pointer; a
      press on no element clears the selection and starts a pan. */
  function PointerDown(a: App, ev: PointerEvent, box: ScreenBox, m: Measure): (r: App)
    requires box.width > 0.0 && box.height > 0.0
    ensures ev.twoFinger ==> r == a.(gesture := a.gesture.(pinch := Some(ev.dist)))
    ensures !ev.twoFinger && !ev.inContainer ==> r == a
    ensures r.config == a.config
    ensures !ev.twoFinger && ev.inContainer ==>
      var p := CanvasPoint(a, ev, box);
      var hit := TopmostHit(a.config.elements, p, m);
      && (hit.Some? ==>
           var e := a.config.elements[hit.value];
           && Snapshots(a, r)
           && r.selected == Some(e.id)
           && r.gesture == a.gesture.(dragging := Some(e.id), dragStart := Point(p.x - e.x, p.y - e.y)))
      && (hit.None? ==>
           && r.history == a.history
           && r.selected == None
           && r.gesture == a.gesture.(panning := true, dragStart := ev.client))
    ensures r.(history := a.history, selected := a.selected, gesture := a.gesture) == a
    ensures Valid(a) ==> Valid(r)
  {
    if ev.twoFinger then a.(gesture := a.gesture.(pinch := Some(ev.dist)))
    else if !ev.inContainer then a
    else
      var p := CanvasPoint(a, ev, box);
      var es := a.config.elements;
      match TopmostHit(es, p, m)
      case Some(i) =>
        assert Valid(a) ==> AllValid(H.Save(a.history, a.config).past) by {
          if Valid(a) { SaveKeepsValid(a.history, a.config); }
        }
        var s := SaveToHistory(a);
        s.(selected := Some(es[i].id),
           gesture := s.gesture.(dragging := Some(es[i].id), dragStart := Point(p.x - es[i].x, p.y - es[i].y)))
      case None =>
        a.(selected := None, gesture := a.gesture.(panning := true, dragStart := ev.client))
  }

  /** A press on an element's box with no element above it there grabs
      that element: it is snapshotted, selected and dragged, held at the
      pointer's offset from its anchor. */
  lemma PressGrabsTopmost(a: App, ev: PointerEvent, box: ScreenBox, m: Measure, i: nat)
    requires box.width > 0.0 && box.height > 0.0 && !ev.twoFinger && ev.inContainer
    requires i < |a.config.elements| && IsHit(CanvasPoint(a, ev, box), a.config.elements[i], m)
    requires forall j :: i < j < |a.config.elements| ==> !IsHit(CanvasPoint(a, ev, box), a.config.elements[j], m)
    ensures var r := PointerDown(a, ev, box, m);
            var p := CanvasPoint(a, ev, box);
            var e := a.config.elements[i];
            && Snapshots(a, r)
            && r.selected == Some(e.id) && r.gesture.dragging == Some(e.id)
            && r.gesture.dragStart == Point(p.x - e.x, p.y - e.y)
  {
    UnobstructedHitWins(a.config.elements, i, CanvasPoint(a, ev, box), m);
  }

  /** A press that hits no element starts a pan from the pointer and clears
      the selection, without a snapshot. */
  lemma PressOnNothingPans(a: App, ev: PointerEvent, box: ScreenBox, m: Measure)
    requires box.width > 0.0 && box.height > 0.0 && !ev.twoFinger && ev.inContainer
    requires forall j :: 0 <= j < |a.config.elements| ==> !IsHit(CanvasPoint(a, ev, box), a.config.elements[j], m)
    ensures var r := PointerDown(a, ev, box, m);
            && r.history == a.history && r.selected == None
            && r.gesture.panning && r.gesture.dragStart == ev.client
  {
  }

  /** Whether a move continues a pinch: two fingers and a recorded,
      non-zero starting distance (`pinchInitialDist` is truthy). */
  predicate Pinching(a: App, ev: PointerEvent) {
    ev.twoFinger && a.gesture.pinch.Some? && a.gesture.pinch.value != 0.0
  }

  /** Whether a move drags an element (`draggingEl` is a non-empty id). */
  predicate Dragging(a: App) {
    a.gesture.dragging.Some? && a.gesture.dragging.value != ""
  }

  /** The element's new position during a drag: the pointer less the grab
      offset, kept on the canvas. */
  function DragTarget(a: App, p: Point): (t: Point)
    ensures 0.0 <= t.x && (a.config.width >= 0 ==> t.x <= a.config.width as real)
    ensures 0.0 <= t.y && (a.config.height >= 0 ==> t.y <= a.config.height as real)
    ensures 0.0 <= p.x - a.gesture.dragStart.x <= a.config.width as real ==> t.x == p.x - a.gesture.dragStart.x
    ensures 0.0 <= p.y - a.gesture.dragStart.y <= a.config.height as real ==> t.y == p.y - a.gesture.dragStart.y
    ensures p.x - a.gesture.dragStart.x < 0.0 ==> t.x == 0.0
    ensures p.y - a.gesture.dragStart.y < 0.0 ==> t.y == 0.0
    ensures 0 <= a.config.width && a.config.width as real < p.x - a.gesture.dragStart.x ==>
      t.x == a.config.width as real
    ensures 0 <= a.config.height && a.config.height as real < p.y - a.gesture.dragStart.y ==>
      t.y == a.config.height as real
  {
    Point(Clamp(p.x - a.gesture.dragStart.x, 0.0, a.config.width as real),
          Clamp(p.y - a.gesture.dragStart.y, 0.0, a.config.height as real))
  }

  /** `handlePointerMove`. A pinch rescales the zoom within its limits and
      rebases the distance; a drag moves every element with the dragged id
      to the clamped target and changes nothing else; a pan shifts the view
      by the pointer's movement. */
  function PointerMove(a: App, ev: PointerEvent, box: ScreenBox): (r: App)
    requires box.width > 0.0 && box.height > 0.0
    ensures Pinching(a, ev) ==>
      r == a.(zoom := Pinch(a.zoom, a.gesture.pinch.value, ev.dist), gesture := a.gesture.(pinch := Some(ev.dist)))
    ensures !Pinching(a, ev) && Dragging(a) ==>
      var t := DragTarget(a, CanvasPoint(a, ev, box));
      var es := a.config.elements;
      && r.(config := a.config) == a
      && r.config.width == a.config.width && r.config.height == a.config.height
      && SameIds(es, r.config.elements)
      && forall i, f :: 0 <= i < |es| ==>
        Get(r.config.elements[i], f) ==
          if es[i].id != a.gesture.dragging.value then Get(es[i], f)
          else if f == X then Num(t.x)
          else if f == Y then Num(t.y)
          else Get(es[i], f)
    ensures !Pinching(a, ev) && !Dragging(a) && a.gesture.panning ==>
      && r.config == a.config
      && r.pan.x - a.pan.x == ev.client.x - a.gesture.dragStart.x
      && r.pan.y - a.pan.y == ev.client.y - a.gesture.dragStart.y
      && r.(pan := a.pan) == a.(gesture := a.gesture.(dragStart := ev.client))
    ensures !Pinching(a, ev) && !Dragging(a) && !a.gesture.panning ==> r == a
    ensures Valid(a) ==> Valid(r)
  {
    var g := a.gesture;
    if Pinching(a, ev) then
      a.(zoom := Pinch(a.zoom, g.pinch.value, ev.dist), gesture := g.(pinch := Some(ev.dist)))
    else if Dragging(a) then
      var t := DragTarget(a, CanvasPoint(a, ev, box));
      var patch := MoveTo(t.x, t.y);
      MoveToWrites(t.x, t.y);
      assert Id !in Written(patch) by {
        if Id in Written(patch) { WrittenHasValue(patch, Id); }
      }
      var es := PatchWhere(a.config.elements, g.dragging.value, patch);
      assert Valid(a) ==> UniqueIds(es) by {
        if Valid(a) { SameIdsKeepUnique(a.config.elements, es); }
      }
      a.(config := a.config.(elements := es))
    else if g.panning then
      var (pan, start) := Pan(a.pan, g.dragStart, ev.client);
      a.(pan := pan, gesture := g.(dragStart := start))
    else a
  }

  /** A drag frame moves the dragged element to the target and leaves every
      other element exactly as it was. */
  lemma DragMovesOnlyDragged(a: App, ev: PointerEvent, box: ScreenBox, i: nat)
    requires box.width > 0.0 && box.height > 0.0
    requires !Pinching(a, ev) && Dragging(a) && i < |a.config.elements|
    ensures var t := DragTarget(a, CanvasPoint(a, ev, box));
            var e := a.config.elements[i];
            PointerMove(a, ev, box).config.elements[i] ==
              if e.id == a.gesture.dragging.value then e.(x := t.x, y := t.y) else e
  {
    var t := DragTarget(a, CanvasPoint(a, ev, box));
    var e := a.config.elements[i];
    var r := PointerMove(a, ev, box).config.elements[i];
    var want := if e.id == a.gesture.dragging.value then e.(x := t.x, y := t.y) else e;
    assert forall f :: Get(r, f) == Get(want, f);
    Extensionality(r, want);
  }

  /** `handlePointerUp` (also the mouse leaving): every gesture ends. */
  function PointerUp(a: App): (r: App)
    ensures r.gesture.dragging == None && !r.gesture.panning && r.gesture.pinch == None
    ensures r.gesture.dragStart == a.gesture.dragStart
    ensures r.(gesture := a.gesture) == a
  {
    a.(gesture := a.gesture.(dragging := None, panning := false, pinch := None))
  }

  // ---------------------------------------------------------------------
  // Backgrounds

  /** `handleSelectTemplate`: a snapshot and the new active template at once.
      `custom` drops the background; any other template starts decoding its
      background, and that decode becomes the only one that may apply. */
  function SelectTemplate(a: App, id: string): (r: App)
    requires Find(id).Some?
    ensures Snapshots(a, r)
    ensures r.activeTemplate == id
    ensures r.config == a.config
    ensures r.requests == a.requests + 1
    ensures id == CustomId ==> r.background == None && r.pending == None
    ensures id != CustomId ==>
      && r.background == a.background
      && r.pending == Some(LoadingTemplate(r.requests, Find(id).value, a.config))
    ensures r.(history := a.history, activeTemplate := a.activeTemplate, background := a.background,
               requests := a.requests, pending := a.pending) == a
    ensures Valid(a) ==> Valid(r)
  {
    var t := Find(id).value;
    CatalogueWellFormed();
    assert Valid(a) ==> AllValid(H.Save(a.history, a.config).past) by {
      if Valid(a) { SaveKeepsValid(a.history, a.config); }
    }
    var s := SaveToHistory(a).(activeTemplate := id, requests := a.requests + 1);
    if id == CustomId then s.(background := None, pending := None)
    else
      assert t.background.Some?;
      s.(pending := Some(LoadingTemplate(s.requests, t, a.config)))
  }

  /** Whether a decode with this token is the latest request's. */
  predicate Current(a: App, token: nat) {
    a.pending.Some? && a.pending.value.token == token
  }

  /** The template background's `onload`, applied only when it answers the
      latest request. The template's layout is spread over the document as
      it was when the template was chosen, the canvas takes the template's
      size, and the view is fitted to that new size. */
  function TemplateDecoded(a: App, token: nat, image: Image, cw: real, ch: real): (r: App)
    requires Valid(a)
    ensures !(Current(a, token) && a.pending.value.LoadingTemplate?) ==> r == a
    ensures Current(a, token) && a.pending.value.LoadingTemplate? ==>
      var p := a.pending.value;
      && r.background == Some(image)
      && r.pending == None
      && (p.template.layout.Some? ==> r.config == ApplyLayout(p.captured, p.template))
      && (p.template.layout.None? ==> r.config == a.config)
      && r.zoom * r.config.width as real <= FitMargin * cw
      && r.zoom * r.config.height as real <= FitMargin * ch
      && r.pan == Point(0.0, 0.0)
      && r.(config := a.config, background := a.background, zoom := a.zoom, pan := a.pan,
            pending := a.pending) == a
    ensures Valid(r)
    ensures Current(a, token) && a.pending.value.LoadingTemplate? ==>
      r.zoom == FitZoom(cw, ch, r.config.width, r.config.height)
  {
    if Current(a, token) && a.pending.value.LoadingTemplate? then
      var p := a.pending.value;
      CatalogueWellFormed();
      var c := if p.template.layout.Some? then ApplyLayout(p.captured, p.template) else a.config;
      assert ValidConfig(c) by {
        if p.template.layout.Some? { SameIdsKeepUnique(p.captured.elements, c.elements); }
      }
      a.(config := c, background := Some(image), zoom := FitZoom(cw, ch, c.width, c.height),
         pan := Point(0.0, 0.0), pending := None)
    else a
  }

  /** `handleImageUpload` once the file has been read: the decode that
      follows captures the current document and active template. */
  function UploadChosen(a: App): (r: App)
    ensures r.requests == a.requests + 1
    ensures r.pending == Some(LoadingUpload(r.requests, a.config, a.activeTemplate))
    ensures r.(requests := a.requests, pending := a.pending) == a
    ensures Valid(a) ==> Valid(r)
  {
    a.(requests := a.requests + 1, pending := Some(LoadingUpload(a.requests + 1, a.config, a.activeTemplate)))
  }

  /** The uploaded image's `onload`, applied only when it answers the latest
      request: the document from the time of the upload is snapshotted, the
      image becomes the background, and under `custom` the canvas takes the
      image's size with every element at its centre. The view is fitted to
      the resulting size. */
  function UploadDecoded(a: App, token: nat, image: Image, cw: real, ch: real): (r: App)
    requires Valid(a)
    requires image.width > 0 && image.height > 0
    ensures !(Current(a, token) && a.pending.value.LoadingUpload?) ==> r == a
    ensures Current(a, token) && a.pending.value.LoadingUpload? ==>
      var p := a.pending.value;
      && r.history == H.Save(a.history, p.captured)
      && r.background == Some(image)
      && r.pending == None
      && (p.templateId == CustomId ==>
           && r.config == Recentre(p.captured, image.width, image.height)
           && r.config.width == image.width && r.config.height == image.height
           && SameIds(p.captured.elements, r.config.elements)
           && forall i :: 0 <= i < |r.config.elements| ==>
                r.config.elements[i].x == image.width as real / 2.0
                && r.config.elements[i].y == image.height as real / 2.0)
      && (p.templateId != CustomId ==> r.config == a.config)
      && r.zoom * r.config.width as real <= FitMargin * cw
      && r.zoom * r.config.height as real <= FitMargin * ch
      && r.pan == Point(0.0, 0.0)
      && r.(history := a.history, config := a.config, background := a.background, zoom := a.zoom,
            pan := a.pan, pending := a.pending) == a
    ensures Valid(r)
    ensures Current(a, token) && a.pending.value.LoadingUpload? ==>
      r.zoom == FitZoom(cw, ch, r.config.width, r.config.height)
  {
    if Current(a, token) && a.pending.value.LoadingUpload? then
      var p := a.pending.value;
      var c := if p.templateId == CustomId then Recentre(p.captured, image.width, image.height) else a.config;
      assert ValidConfig(c) by {
        if p.templateId == CustomId { SameIdsKeepUnique(p.captured.elements, c.elements); }
      }
      SaveKeepsValid(a.history, p.captured);
      a.(history := H.Save(a.history, p.captured), config := c, background := Some(image),
         zoom := FitZoom(cw, ch, c.width, c.height), pan := Point(0.0, 0.0), pending := None)
    else a
  }

  /** A decode that is not the latest request's changes nothing: the last
      choice of template or upload is the one that shows. */
  lemma StaleDecodeIgnored(a: App, token: nat, image: Image, cw: real, ch: real)
    requires Valid(a) && !Current(a, token)
    requires image.width > 0 && image.height > 0
    ensures TemplateDecoded(a, token, image, cw, ch) == a
    ensures UploadDecoded(a, token, image, cw, ch) == a
  {
  }

  /** Once a request is made, no decode of an earlier one can apply. */
  lemma NewerRequestSupersedes(a: App, id: string, token: nat)
    requires Find(id).Some? && token <= a.requests
    ensures !Current(SelectTemplate(a, id), token)
    ensures !Current(UploadChosen(a), token)
  {
  }

  // ---------------------------------------------------------------------
  // The program as written

  /** The template background's `onload` as the program has it. It applies
      whenever its decode finishes, with the document and the `fitToScreen`
      captured when the template was chosen; that `fitToScreen` reads the
      captured document's size, not the new one. */
  function TemplateLoadedAsWritten(a: App, t: Template, captured: Config, image: Image,
                                   cw: real, ch: real): (r: App)
    requires captured.width > 0 && captured.height > 0
    ensures r.background == Some(image)
    ensures t.layout.Some? ==> r.config == ApplyLayout(captured, t)
    ensures t.layout.None? ==> r.config == a.config
    ensures r.zoom == FitZoom(cw, ch, captured.width, captured.height)
    ensures r.zoom * captured.width as real <= FitMargin * cw
    ensures r.zoom * captured.height as real <= FitMargin * ch
    ensures r.zoom * captured.width as real == FitMargin * cw || r.zoom * captured.height as real == FitMargin * ch
    ensures r.pan == Point(0.0, 0.0)
    ensures r.(config := a.config, background := a.background, zoom := a.zoom, pan := a.pan) == a
  {
    var c := if t.layout.Some? then ApplyLayout(captured, t) else a.config;
    a.(config := c, background := Some(image), zoom := FitZoom(cw, ch, captured.width, captured.height),
       pan := Point(0.0, 0.0))
  }

  /** Choosing A4 and then the shelf label, with the shelf image decoding
      first: the A4 decode lands last and leaves an A4-sized document under
      the shelf template. */
  lemma StaleLoadWins(img: Image, cw: real, ch: real)
    ensures
      && Find("a4_land") == Some(A4) && Find("shelf") == Some(Shelf)
      && var s1 := SelectTemplate(Start, "a4_land");
         var s2 := SelectTemplate(s1, "shelf");
         var s3 := TemplateLoadedAsWritten(s2, Shelf, s1.config, img, cw, ch);
         var s4 := TemplateLoadedAsWritten(s3, A4, Start.config, img, cw, ch);
         && s4.activeTemplate == "shelf"
         && s4.config.width == 3508 && Shelf.width == 1772
  {
    FindEach();
  }

  /** With only the latest request's decode applying, two template choices
      in a row end with the second template's size, whichever decode
      finishes first. */
  lemma LatestLoadWins(a: App, first: string, second: string, img: Image, cw: real, ch: real)
    requires Valid(a) && Find(first).Some? && Find(second).Some? && second != CustomId
    ensures
      var s2 := SelectTemplate(SelectTemplate(a, first), second);
      var s3 := TemplateDecoded(s2, s2.requests, img, cw, ch);
      && TemplateDecoded(s3, s2.requests - 1, img, cw, ch) == s3
      && TemplateDecoded(TemplateDecoded(s2, s2.requests - 1, img, cw, ch), s2.requests, img, cw, ch) == s3
      && s3.activeTemplate == second
      && s3.config.width == Find(second).value.width && s3.config.height == Find(second).value.height
  {
    CatalogueWellFormed();
    var t := Find(second).value;
    assert WellFormed(t);
  }

  /** A 1080 x 1080 document in an 800 x 600 container, switched to A4: the
      refit still uses 1080 x 1080 and gives zoom 0.5, at which the 3508
      pixel wide A4 canvas is 1754 pixels across, more than twice the
      container. */
  lemma RefitUsesOldSize(img: Image)
    ensures
      var r := TemplateLoadedAsWritten(Start, A4, Initial, img, 800.0, 600.0);
      && r.zoom == 0.5
      && r.config.width == 3508
      && r.zoom * r.config.width as real > 800.0
  {
    assert Min(800.0 / 1080.0, 600.0 / 1080.0) == 600.0 / 1080.0;
  }

  /** With the refit reading the new size, a template's canvas always fits
      in 90% of the container. */
  lemma LoadedTemplateFits(a: App, token: nat, image: Image, cw: real, ch: real)
    requires Valid(a) && Current(a, token) && a.pending.value.LoadingTemplate?
    ensures var r := TemplateDecoded(a, token, image, cw, ch);
            && r.zoom * r.config.width as real <= FitMargin * cw
            && r.zoom * r.config.height as real <= FitMargin * ch
            && (a.pending.value.template.layout.Some? ==> r.config.width == a.pending.value.template.width)
  {
  }

  /** The uploaded image's `onload` as the program has it. It applies
      whenever its decode finishes, with the document, active template and
      `fitToScreen` captured when the file was chosen: the captured document
      is snapshotted, and the refit reads the captured document's size. */
  function UploadLoadedAsWritten(a: App, captured: Config, templateId: string, image: Image,
                                 cw: real, ch: real): (r: App)
    requires captured.width > 0 && captured.height > 0
    ensures r.history == H.Save(a.history, captured)
    ensures r.background == Some(image)
    ensures templateId == CustomId ==> r.config == Recentre(captured, image.width, image.height)
    ensures templateId != CustomId ==> r.config == a.config
    ensures r.zoom == FitZoom(cw, ch, captured.width, captured.height)
    ensures r.pan == Point(0.0, 0.0)
    ensures r.(history := a.history, config := a.config, background := a.background, zoom := a.zoom,
               pan := a.pan) == a
  {
    var c := if templateId == CustomId then Recentre(captured, image.width, image.height) else a.config;
    a.(history := H.Save(a.history, captured), config := c, background := Some(image),
       zoom := FitZoom(cw, ch, captured.width, captured.height), pan := Point(0.0, 0.0))
  }

  /** Two uploads under `custom`, chosen one after the other, with the
      second image decoding first: the first image's decode lands last and
      its size is the canvas's, although the second file was the last one
      chosen. */
  lemma StaleUploadWins(a: App, first: Image, second: Image, cw: real, ch: real)
    requires a.config.width > 0 && a.config.height > 0
    ensures
      var s1 := UploadLoadedAsWritten(a, a.config, CustomId, second, cw, ch);
      var s2 := UploadLoadedAsWritten(s1, a.config, CustomId, first, cw, ch);
      && s2.config.width == first.width && s2.config.height == first.height
      && s2.background == Some(first)
  {
  }

  /** With only the latest request's decode applying, two uploads in a row
      under `custom` end with the second image's size, whichever decode
      finishes first. */
  lemma LatestUploadWins(a: App, first: Image, second: Image, cw: real, ch: real)
    requires Valid(a) && a.activeTemplate == CustomId
    requires first.width > 0 && first.height > 0 && second.width > 0 && second.height > 0
    ensures
      var s2 := UploadChosen(UploadChosen(a));
      var s3 := UploadDecoded(s2, s2.requests, second, cw, ch);
      && UploadDecoded(s3, s2.requests - 1, first, cw, ch) == s3
      && UploadDecoded(UploadDecoded(s2, s2.requests - 1, first, cw, ch), s2.requests, second, cw, ch) == s3
      && s3.config.width == second.width && s3.config.height == second.height
      && s3.background == Some(second)
  {
  }

  /** A 2000 x 1000 upload on the initial 1080 x 1080 document in an
      800 x 600 container: the refit still uses 1080 x 1080 and gives zoom
      0.5, at which the new canvas is 1000 pixels across, wider than the
      container. */
  lemma UploadRefitUsesOldSize()
    ensures
      var r := UploadLoadedAsWritten(Start, Initial, CustomId, Image(2000, 1000), 800.0, 600.0);
      && r.zoom == 0.5
      && r.config.width == 2000
      && r.zoom * r.config.width as real > 800.0
  {
    assert Min(800.0 / 1080.0, 600.0 / 1080.0) == 600.0 / 1080.0;
  }

  /** With the refit reading the new size, an uploaded image's canvas always
      fits in 90% of the container. */
  lemma UploadedImageFits(a: App, token: nat, image: Image, cw: real, ch: real)
    requires Valid(a) && Current(a, token) && a.pending.value.LoadingUpload?
    requires image.width > 0 && image.height > 0
    ensures var r := UploadDecoded(a, token, image, cw, ch);
            && r.zoom * r.config.width as real <= FitMargin * cw
            && r.zoom * r.config.height as real <= FitMargin * ch
            && (a.pending.value.templateId == CustomId ==> r.config.width == image.width)
  {
  }

  // ---------------------------------------------------------------------
  // Every event

  datatype Action =
    | UndoPressed
    | RedoPressed
    | ZoomInClicked
    | ZoomOutClicked
    | FitClicked(cw: real, ch: real)
    | ChooseTemplate(templateId: string)
    | TemplateLoaded(token: nat, image: Image, cw: real, ch: real)
    | ChooseUpload
    | UploadLoaded(token: nat, image: Image, cw: real, ch: real)
    | Add(newId: string)
    | DeleteClicked(id: string)
    | CentreClicked(id: string)
    | CardClicked(id: string)
    | Focus(id: string, currentText: string)
    | Change(id: string, update: Update)
    | Down(event: PointerEvent, box: ScreenBox)
    | Move(event: PointerEvent, box: ScreenBox)
    | Up

  /** What the browser guarantees about an event: a template chosen from the
      catalogue, a decoded image with a size, an id no element has, and a
      canvas laid out with a size. */
  predicate Allowed(a: App, act: Action) {
    match act
    case ChooseTemplate(id) => Find(id).Some?
    case UploadLoaded(_, image, _, _) => image.width > 0 && image.height > 0
    case Add(id) => id !in Ids(a.config.elements)
    case Down(_, box) => box.width > 0.0 && box.height > 0.0
    case Move(_, box) => box.width > 0.0 && box.height > 0.0
    case _ => true
  }

  function Step(a: App, act: Action, m: Measure): (r: App)
    requires Valid(a) && Allowed(a, act)
    ensures Valid(r)
  {
    match act
    case UndoPressed => Undo(a)
    case RedoPressed => Redo(a)
    case ZoomInClicked => ZoomInPressed(a)
    case ZoomOutClicked => ZoomOutPressed(a)
    case FitClicked(cw, ch) => FitPressed(a, cw, ch)
    case ChooseTemplate(id) => SelectTemplate(a, id)
    case TemplateLoaded(token, image, cw, ch) => TemplateDecoded(a, token, image, cw, ch)
    case ChooseUpload => UploadChosen(a)
    case UploadLoaded(token, image, cw, ch) => UploadDecoded(a, token, image, cw, ch)
    case Add(id) => AddElement(a, id)
    case DeleteClicked(id) => DeletePressed(a, id)
    case CentreClicked(id) => Centre(a, id)
    case CardClicked(id) => SelectCard(a, id)
    case Focus(id, text) => InputFocus(a, id, text)
    case Change(id, u) => Edit(a, id, u)
    case Down(ev, box) => PointerDown(a, ev, box, m)
    case Move(ev, box) => PointerMove(a, ev, box)
    case Up => PointerUp(a)
  }

  /** Whether each event of a run is allowed in the state it meets. */
  predicate AllowedRun(a: App, acts: seq<Action>, m: Measure)
    requires Valid(a)
    decreases |acts|
  {
    |acts| == 0 || (Allowed(a, acts[0]) && AllowedRun(Step(a, acts[0], m), acts[1..], m))
  }

  /** A run of events from a well-formed state, such as `Start`, ends in a
      well-formed state: no two elements share an id, every canvas has a
      size, and the history stays within twenty entries. */
  function Run(a: App, acts: seq<Action>, m: Measure): (r: App)
    requires Valid(a) && AllowedRun(a, acts, m)
    ensures Valid(r)
    decreases |acts|
  {
    if |acts| == 0 then a else Run(Step(a, acts[0], m), acts[1..], m)
  }
}
