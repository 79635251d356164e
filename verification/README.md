# Price-tag maker: the document-state core in Dafny

The price-tag maker is a single React component, `App` in `src/App.jsx`. It
edits a price tag: a canvas of a given pixel size holding a list of text
elements (a product name, an old struck-through price, a new price, and any
extra texts the user adds), drawn over a background image. The background
is either one of three fixed templates (A4, A5, shelf banner) or an uploaded
picture. This project models the component's state and event handlers as a
reducer. Every handler is a pure function from the state before the event
to the state after it, and the properties the program relies on are proved
about those functions.

Modules, one per file:

| file | module | what it holds |
|---|---|---|
| `wrappers.dfy` | `Wrappers` | `Option` |
| `geometry.dfy` | `Geometry` | points, rectangles, `Math.min`/`max`/`abs`, clamping, `Math.round` |
| `lines.dfy` | `Lines` | splitting a text on `'\n'`, its inverse, the widest line |
| `document.dfy` | `Document` | elements, field updates and patches, the element-list operations, the initial document |
| `history.dfy` | `History` | the twenty-entry undo stack and the redo stack |
| `viewport.dfy` | `Viewport` | fit-to-screen, zoom buttons, pinch and pan |
| `layout.dfy` | `Layout` | lines, line height, display width and block height of an element |
| `hittest.dfy` | `HitTest` | pointer to canvas mapping, the padded hit box, the topmost-hit scan |
| `compositor.dfy` | `Compositor` | where `drawCanvas` puts lines, outlines, strike marks and the selection box |
| `templates.dfy` | `Templates` | the template catalogue, the layout merge, upload re-centring |
| `editor.dfy` | `Editor` | the component state, every handler, and the well-formedness invariant |
| `scenarios.dfy` | `Scenarios` | concrete runs from the initial state |

Things that are outside the model become parameters:
- Text measurement (`ctx.measureText`) is a function `Measure` from font, size and line to a width.
- The canvas's on-screen box (`getBoundingClientRect`) is a `ScreenBox` argument.
- A two-finger distance (`Math.hypot`) is a real input.
- The container's client size is two real inputs.
- The new element's id (`Date.now()`) is an argument that must not already be in use.
- A decoded image is its pixel size.

Numbers are exact reals: `x * 1.2`, `/ 2` and `* 0.9` carry no rounding error.
`Math.round(v)` is `floor(v + 1/2)`.

The model follows the code, with two exceptions. In both, the code
evidently does not do what it intends (see Findings). There the model uses
the intended behaviour and keeps the code as written alongside as its own
member. The places where the model departs from the code, or where the code
does something easy to misread, are these:
- **Snapshot timing.** Choosing a template takes its undo snapshot at once (`src/App.jsx:274`), not when the background has loaded.
- **Stale template decodes.** The program has no guard against a stale template decode: each decode that completes applies, in completion order. The model keeps only the latest request's decode, and `TemplateLoadedAsWritten` shows what the code does instead (Findings, row 1).
- **Stale upload decodes.** The same holds for uploads (`src/App.jsx:450-460`): every upload decode that completes applies, with the document and template captured when its file was chosen. The model keeps only the latest request's decode, and `UploadLoadedAsWritten` shows what the code does instead (Findings, row 3).
- **Stale refit.** The refit after a load is the `fitToScreen` of the render that started the load, so it reads the document size from before the load (Findings, row 2). The upload refit at line 459 has the same defect (Findings, row 4). The window-resize listener is registered once at mount and reads the initial 1080 x 1080 for the same reason. Resizing is not modelled.
- **Hit height fallback.** The hit box height is `lines * 1.2 * size || size`. Every text has at least one line, so the fallback can only fire when the size is 0, where both readings give 0 (`Layout.BoxHeightIsStack`).
- **Fit does not clamp.** `fitToScreen` does not clamp its zoom into [0.05, 3]; only the buttons and the pinch do.

## Model

| member | source | states |
|---|---|---|
| `Geometry.Clamp` | src/App.jsx:384-385 | `Math.max(lo, Math.min(v, hi))` is at least `lo`, at most `hi` when `lo <= hi`, `v` itself when in range, and the nearer bound otherwise |
| `Geometry.Round` | src/App.jsx:428 | `Math.round(v)` is the integer within half a unit of `v` (rounding half up) |
| `Geometry.RoundUnique` | src/App.jsx:428 | any integer in `(v - 1/2, v + 1/2]` is `Math.round(v)` |
| `Lines.Split` | src/App.jsx:164 | `text.split('\n')` gives at least one piece and no piece contains a newline |
| `Lines.JoinSplit` | src/App.jsx:164 | joining the pieces with newlines gives the text back |
| `Lines.SplitJoin` | src/App.jsx:164 | splitting newline-joined lines gives the lines back |
| `Lines.SplitLine` | src/App.jsx:164 | a text with no newline splits into itself alone |
| `Lines.MaxWidth` | src/App.jsx:224-228 | the running maximum starting at 0 is at least every width and 0, and equals 0 or one of the widths |
| `Document.Extensionality` | src/App.jsx:74-76 | two elements that read the same in every field are equal |
| `Document.Apply` | src/App.jsx:408 | `{ ...el, [field]: value }` sets that field and leaves every other field as it was |
| `Document.Merge` | src/App.jsx:288 | `{ ...el, ...patch }`: each field reads the patch's last value for it, or the element's own when the patch has none |
| `Document.MergeKeepsUnwritten` | src/App.jsx:288 | fields the patch does not write are untouched by the spread |
| `Document.MoveToMoves` | src/App.jsx:388 | `{ ...el, x, y }` is the element with only `x` and `y` replaced |
| `Document.PatchWhere` | src/App.jsx:408 | mapping a spread over the elements with one id keeps the length, order and ids, changes those elements as the patch says, and no other element |
| `Document.UpdateElement` | src/App.jsx:405-410 | `updateElement` changes only the named field of elements with the id; the canvas size, the list length, the order and the ids are kept |
| `Document.NewElement` | src/App.jsx:423-430 | the added element has the new id, is not a default, reads "جديد", sits at the canvas centre, is `Math.round(min(w, h) * 0.1)` pixels tall, and is white Cairo text with a black stroke 4 wide, no strikethrough and no alignment |
| `Document.AddElement` | src/App.jsx:431 | exactly one element is appended on top, earlier elements are untouched, and ids stay unique for a fresh id |
| `Document.Without` | src/App.jsx:439 | the filter keeps exactly the elements whose id differs |
| `Document.WithoutPresent` | src/App.jsx:439 | with unique ids, deleting a present id removes exactly that element and keeps the rest in order |
| `Document.WithoutAbsent` | src/App.jsx:439 | deleting an id nobody has changes nothing |
| `Document.WithoutKeepsUnique` | src/App.jsx:439 | deleting keeps ids unique |
| `Document.DeleteElement` | src/App.jsx:437-440 | the document change of `deleteElement`: canvas size kept, an element survives exactly when its id differs, and the survivors keep their drawing order (with unique ids, exactly the element at the deleted position is cut out; an absent id changes nothing) |
| `Document.InitialValid` | src/App.jsx:70-78 | the initial 1080 x 1080 document has unique ids, three default elements, and each text is one the focus handler clears |
| `History.Save` | src/App.jsx:245-253 | the current value becomes the newest snapshot, the oldest goes once there are more than 20, and the future is emptied |
| `History.SaveDropsOldest` | src/App.jsx:248-249 | the kept snapshots are the newest ones, in order |
| `History.Undo` | src/App.jsx:255-262 | no change with no past; otherwise the newest snapshot comes back, the past shrinks by one and the replaced value heads the future; the 20-entry bound is kept |
| `History.Redo` | src/App.jsx:264-271 | no change with no future; otherwise the next redo comes back and the replaced value becomes the newest snapshot; the bound is kept |
| `History.RedoAfterUndo` | src/App.jsx:255-271 | redo after undo restores value, past and future |
| `History.UndoAfterRedo` | src/App.jsx:255-271 | undo after redo restores value, past and future |
| `History.UndoAfterSave` | src/App.jsx:245-262 | a change that snapshots first is reverted by one undo and restored by the redo after it |
| `History.NewestAppend` | src/App.jsx:248-249 | trimming to 20 before or after appending gives the same list |
| `History.SaveAllPast` | src/App.jsx:245-253 | after any run of saves the past is the newest 20 of all snapshots taken |
| `History.SaveAllKeepsNewest` | src/App.jsx:245-253 | after 20 or more saves the past is exactly the 20 most recent snapshots and the future is empty |
| `Viewport.FitZoom` | src/App.jsx:122-133 | the fitted document takes at most 90% of the container both ways and exactly 90% one way |
| `Viewport.FitZoomIsLargest` | src/App.jsx:130 | no larger zoom keeps the document within 90% of the container |
| `Viewport.ZoomIn` | src/App.jsx:499 | the zoom-in button never exceeds 3, keeps an in-range zoom in range, adds exactly 0.1 below the cap, and gives exactly 3 at or past it |
| `Viewport.ZoomOut` | src/App.jsx:501 | the zoom-out button never goes below 0.05, keeps an in-range zoom in range, removes exactly 0.1 above the floor, and gives exactly 0.05 at or past it |
| `Viewport.ZoomOutUndoesZoomIn` | src/App.jsx:499-501 | away from the limits the two buttons undo each other |
| `Viewport.Pinch` | src/App.jsx:366-374 | with a positive previous distance the zoom is scaled by the distance ratio when that stays in [0.05, 3], and goes to the nearer limit otherwise; with no positive previous distance it is unchanged |
| `Viewport.PinchTelescopes` | src/App.jsx:366-374 | two unclamped pinch frames scale the zoom by the last distance over the first |
| `Viewport.Pan` | src/App.jsx:392-395 | the pan moves by the pointer's movement and the pointer becomes the next start |
| `Viewport.PanComposes` | src/App.jsx:390-395 | the total pan of a drag does not depend on how many frames report it |
| `Layout.LinesOf` | src/App.jsx:316 | an element always has at least one line |
| `Layout.LineWidths` | src/App.jsx:224-227 | one measured width per line, each the measurement of that line in the element's font and size |
| `Layout.DisplayWidth` | src/App.jsx:317-322 | `maxWidth or 50` is always positive (see `Layout.DisplayWidthCoversLines`) |
| `Layout.BoxHeight` | src/App.jsx:323 | `(lines * 1.2 * size) or size`, the block height, which always equals the stack of lines (see `Layout.BoxHeightIsStack`) |
| `Layout.DisplayWidthCoversLines` | src/App.jsx:317-322 | the display width is at least every line's width; it is 50 exactly when no line has a positive width, and otherwise it is the width of some line, so the widest one |
| `Layout.BoxHeightIsStack` | src/App.jsx:323 | the hit height, `lines * 1.2 * size` with `size` as the fallback for 0, always equals `lines * 1.2 * size` |
| `HitTest.ToCanvas` | src/App.jsx:302-311 | the canvas's on-screen corners map to `(0, 0)` and `(width, height)`, and a pointer inside the on-screen box lands on the canvas |
| `HitTest.ToCanvasScales` | src/App.jsx:302-311 | moving the pointer moves the canvas point by the same distance times canvas width over on-screen width (height over on-screen height for y); with the corner clause this fixes the mapping |
| `HitTest.IsHit` | src/App.jsx:313-331 | the inclusive box test of `isHit`: display width by block height, centred on the element and padded by 40 (characterised by `HitTest.IsHitByDistance`) |
| `HitTest.IsHitByDistance` | src/App.jsx:313-331 | a hit is exactly `abs(px - x) <= w/2 + 40` and `abs(py - y) <= h/2 + 40`, with `h = lines * 1.2 * size` |
| `HitTest.AnchorHits` | src/App.jsx:313-331 | an element's own anchor hits it whenever its font size is not negative |
| `HitTest.Topmost` | src/App.jsx:346-357 | the reversed scan finds the highest index that matches, and none exactly when nothing matches |
| `HitTest.TopmostHit` | src/App.jsx:346-357 | the press finds the topmost element whose box holds the point, and none exactly when no box does |
| `HitTest.UnobstructedHitWins` | src/App.jsx:346-357 | a hit with nothing hit above it is the one found |
| `Compositor.LineSpacing` | src/App.jsx:165-169 | consecutive lines are `1.2 * size` apart |
| `Compositor.LinesCentred` | src/App.jsx:166-169 | line `i` and line `n - 1 - i` are symmetric about `y`, so the stack is centred on the element |
| `Compositor.LineY` | src/App.jsx:165-169 | `currentY` of line `i`: the stack starts half its height above `y` and steps by `1.2 * size` (see the two lemmas above) |
| `Compositor.StrikeSegment` | src/App.jsx:184-190 | the strike segment is centred on `(x, cy)`, runs 25 past each end of the text, and drops `size / 5` from right to left |
| `Compositor.HaloWidth` | src/App.jsx:200 | the white pass is `max(8, size / 5)` wide: at least both, and equal to one of them |
| `Compositor.AccentWidth` | src/App.jsx:209 | the red pass is `max(4, size / 9)` wide: at least both and equal to one of them, and never wider than the white pass |
| `Compositor.OutlineWidth` | src/App.jsx:173 | the outline is `max(2, strokeWidth)`: the element's width from 2 up, and 2 below that |
| `Compositor.SelectionBox` | src/App.jsx:229-237 | the box is `displayWidth + 40` by `displayHeight + 20`, horizontally centred on `x`, vertically centred on `y + size / 10` |
| `Compositor.SelectionBoxEnclosesLines` | src/App.jsx:224-237 | every line lies inside the box with 20 pixels to spare at both ends |
| `Compositor.DrawElement` | src/App.jsx:164-238 | one drawn line per text line at its `currentY`; outlined iff `stroke`, with the outline width; struck iff `isStrikethrough`, with that line's strike segment and pass widths; and a box iff selected or dragged and not exporting, which is the selection box |
| `Compositor.Draw` | src/App.jsx:158 | the elements are drawn in list order, later ones on top |
| `Compositor.ExportIgnoresSelection` | src/App.jsx:218-219 | an export shows no selection box and does not depend on selection or drag |
| `Compositor.ScreenMatchesExport` | src/App.jsx:218-219 | the screen and the export draw the same lines |
| `Templates.Find` | src/App.jsx:275 | `TEMPLATES.find` returns the template with that id exactly when there is one |
| `Templates.FindEach` | src/App.jsx:15-67 | each of the four ids finds its own catalogue entry |
| `Templates.FindOnlyCatalogue` | src/App.jsx:15-67 | no other id finds a template |
| `Templates.CatalogueWellFormed` | src/App.jsx:15-67 | every template has a positive size; only `custom` has no background and no layout; no layout entry writes an id |
| `Templates.ApplyLayout` | src/App.jsx:286-291 | listed elements take only the patched fields, unlisted elements and fields are unchanged, ids and order are kept, and the canvas takes the template's size |
| `Templates.Recentre` | src/App.jsx:453-457 | every element moves to the image centre and nothing else about it changes; the canvas takes the image's size |
| `Editor.SaveKeepsValid` | src/App.jsx:245-253 | snapshotting a well-formed document keeps every snapshot well formed |
| `Editor.Valid` | src/App.jsx:245-465 | the invariant every handler keeps: the current, undoable, redoable and pending documents have positive sizes and unique ids, the history holds at most 20 entries, and a pending template is from the catalogue |
| `Editor.SaveToHistory` | src/App.jsx:245-253 | only the history changes, and the current document is the newest snapshot with nothing to redo |
| `Editor.Undo` | src/App.jsx:255-262 | `handleUndo` on the whole state: only document and history change, as the history says, and well-formedness is kept |
| `Editor.Redo` | src/App.jsx:264-271 | `handleRedo` on the whole state, likewise |
| `Editor.RedoAfterUndoApp` | src/App.jsx:255-271 | redo after undo restores the whole state |
| `Editor.UndoAfterSnapshot` | src/App.jsx:245-271 | every handler that snapshots first is reverted by one undo and restored by the redo after it |
| `Editor.AddElement` | src/App.jsx:420-433 | snapshot, one element appended as the new element, the new element selected, nothing else changed |
| `Editor.DeleteElement` | src/App.jsx:435-442 | snapshot; the document becomes `Document.DeleteElement`'s, so an element survives iff its id differs and the survivors keep their order; the selection becomes none when it was the deleted id and is kept otherwise; nothing else changes |
| `Editor.DeletePressed` | src/App.jsx:592-595 | the delete button does nothing unless the element is not a default |
| `Editor.DefaultsSurviveDelete` | src/App.jsx:592-595 | with unique ids, every default element survives any delete press, and a permitted delete removes the id |
| `Editor.SelectCard` | src/App.jsx:575 | clicking a card selects that element and changes nothing else |
| `Editor.Edit` | src/App.jsx:611 | an `onChange` edit changes only that field of that element and takes no snapshot |
| `Editor.InputFocus` | src/App.jsx:412-418 | focusing a stock text snapshots and empties that element's text, changing nothing else in the state; any other text leaves the state alone |
| `Editor.Centre` | src/App.jsx:585 | snapshot, then the element's `x` is half the canvas width; no other field, element or part of the state changes |
| `Editor.ZoomInPressed` | src/App.jsx:499 | the zoom becomes the zoom-in button's value, never above 3, and nothing else changes |
| `Editor.ZoomOutPressed` | src/App.jsx:501 | the zoom becomes the zoom-out button's value, never below 0.05, and nothing else changes |
| `Editor.FitPressed` | src/App.jsx:502 | the fit button fits the current document and resets the pan; nothing else changes |
| `Editor.PointerDown` | src/App.jsx:333-363 | two fingers record the distance; outside the container nothing happens; otherwise the topmost hit is snapshotted, selected and grabbed at its offset, and no hit clears the selection and starts a pan |
| `Editor.PressGrabsTopmost` | src/App.jsx:346-357 | a press inside an element's box with nothing hit above grabs and selects that element |
| `Editor.PressOnNothingPans` | src/App.jsx:358-362 | a press that hits nothing clears the selection and pans from the pointer, without a snapshot |
| `Editor.DragTarget` | src/App.jsx:382-385 | the dragged position is pointer minus grab offset when that lies on the canvas, and the nearer edge (0, or the width or height) when it lies off it |
| `Editor.PointerMove` | src/App.jsx:365-397 | a pinch rescales the zoom and rebases the distance; a drag moves only the dragged element's `x` and `y`; a pan shifts the view by the pointer movement and rebases the start, changing nothing else; otherwise nothing changes |
| `Editor.DragMovesOnlyDragged` | src/App.jsx:386-389 | each element after a drag frame is the dragged one moved to the target, or unchanged |
| `Editor.PointerUp` | src/App.jsx:399-403 | every gesture ends and nothing else changes |
| `Editor.SelectTemplate` | src/App.jsx:273-300 | snapshot and new active template at once, document unchanged; `custom` drops the background; other templates start the one decode that may apply |
| `Editor.TemplateDecoded` | src/App.jsx:284-293 | only the latest request's decode applies: background set, layout merged into the document captured at selection, canvas size from the template, zoom fitted to the new size and pan reset, nothing else changed |
| `Editor.UploadChosen` | src/App.jsx:444-449 | an upload captures the current document and active template and supersedes earlier requests |
| `Editor.UploadDecoded` | src/App.jsx:450-460 | only the latest request's decode applies: the captured document is snapshotted, the image is the background, under `custom` the captured document is re-centred on an image-sized canvas, the zoom is fitted to the resulting size and the pan reset, and nothing else changes |
| `Editor.StaleDecodeIgnored` | src/App.jsx:284-294 | a decode that is not the latest request's changes nothing |
| `Editor.NewerRequestSupersedes` | src/App.jsx:273-300 | after a new template choice or upload no earlier decode can apply |
| `Editor.TemplateLoadedAsWritten` | src/App.jsx:284-293 | the program's own `onload`: layout merged into the captured document, background set, zoom fitted to the captured document's size, pan reset, nothing else changed |
| `Editor.StaleLoadWins` | src/App.jsx:284-293 | in the program, choosing A4 then shelf with shelf decoding first ends with an A4-sized canvas under the shelf template |
| `Editor.LatestLoadWins` | src/App.jsx:273-300 | with the latest-wins rule, two choices in a row end with the second template's size in either completion order |
| `Editor.RefitUsesOldSize` | src/App.jsx:122-133 | in the program, switching a 1080 x 1080 document to A4 in an 800 x 600 container gives zoom 0.5 and a 1754-pixel-wide canvas |
| `Editor.LoadedTemplateFits` | src/App.jsx:122-133 | fitted to the new size, a loaded template stays within 90% of the container |
| `Editor.UploadLoadedAsWritten` | src/App.jsx:450-460 | the program's own upload `onload`: the captured document is snapshotted, the image is the background, under `custom` the captured document is re-centred, and the zoom is fitted to the captured document's size |
| `Editor.StaleUploadWins` | src/App.jsx:450-460 | in the program, two uploads in a row under `custom` with the second decoding first end with the first image's size and background |
| `Editor.LatestUploadWins` | src/App.jsx:444-460 | with the latest-wins rule, two uploads in a row under `custom` end with the second image's size and background in either completion order |
| `Editor.UploadRefitUsesOldSize` | src/App.jsx:459 | in the program, a 2000 x 1000 upload on the initial document in an 800 x 600 container gives zoom 0.5 and a 1000-pixel-wide canvas |
| `Editor.UploadedImageFits` | src/App.jsx:459 | fitted to the new size, an uploaded image's canvas stays within 90% of the container |
| `Editor.Step` | src/App.jsx:245-465 | every handler keeps the state well formed: unique ids, positive canvas sizes and at most 20 history entries in every document it holds |
| `Editor.Run` | src/App.jsx:245-465 | any run of events from a well-formed state ends well formed |
| `Scenarios.AddUndoRedo` | src/App.jsx:420-433 | adding to the initial document gives a fourth, 108-pixel "جديد" at the centre; undo gives back the initial document and redo the four-element state |
| `Scenarios.PressOnTitle` | src/App.jsx:346-357 | a press at (540, 300) on the initial document hits the title and no price |
| `Scenarios.DragByDelta` | src/App.jsx:333-403 | dragging the title by (50, -20) and letting go moves it to (590, 280) and leaves the prices alone |
| `Scenarios.DragReleased` | src/App.jsx:245-262 | after that drag the title is still selected, nothing is dragged, and one undo gives back the initial document |
| `Scenarios.StrikeOverPrice` | src/App.jsx:184-190 | a struck "199" at size 110 is crossed from `(x - w/2 - 25, y + 11)` to `(x + w/2 + 25, y - 11)` |
| `Scenarios.FitExample` | src/App.jsx:122-133 | a 1080 x 1080 document in an 800 x 600 container fits at `min(800/1080, 600/1080) * 0.9 = 0.5` with no pan |
| `Scenarios.ZoomClamps` | src/App.jsx:371 | a pinch asking for 5 gets 3, one asking for 0.001 gets 0.05, and the buttons stop at their limits |

## Left out

- Pixel output: background drawing, fills, outlines, shadows and dash patterns (`src/App.jsx:145-156`, `192-214`, `220-222`). Only the coordinates and widths handed to the 2D context are modelled.
- Font loading through an injected stylesheet, and `scrollIntoView` of the selected card. Neither affects state.
- Export and download: `toBlob`, the link and the timestamped file name are browser I/O. The export rendering is covered by the `exporting` flag of `Compositor.Draw`.
- `Date.now()`, `measureText`, `getBoundingClientRect` and `Math.hypot` are inputs, as described above.
- Timing: image decoding, `FileReader` and the 50 ms `setTimeout` before a refit are asynchronous in the program. The model treats a decode's completion, refit included, as one event.
- A failed decode (`onerror`) is modelled as no event: the snapshot taken when the template was chosen stays.
- Resizing is not modelled: the window resize listener and the mount-time fit.
- The early return of `fitToScreen` when the container is not mounted. The container is always mounted once events arrive.
- The element `type` decides between a textarea and a numeric input. This is presentation; `Kind` is kept only as data.
- The `label || "نص إضافي #idx"` caption and all other JSX and styling.
- The range limits of the size and outline sliders (10 to `width / 2`, 1 to 30) live in the markup. `Editor.Edit` accepts any value, as `updateElement` does.
- Floating point: coordinates and zooms are exact reals, so `NaN`, infinities and rounding error are not represented.
- `Editor.TemplateLoadedAsWritten`, `Editor.UploadLoadedAsWritten`: the program's refit divides by the captured document's size, so these members require it to be positive, which every reachable state has.
- `Editor.FitPressed`, `Editor.TemplateDecoded`, `Editor.UploadDecoded`: the program divides by the canvas size and would produce an infinite zoom for a zero-sized canvas or image. `Editor.FitPressed` requires a positive canvas size. `Editor.TemplateDecoded` and `Editor.UploadDecoded` require the whole state invariant `Editor.Valid`, which includes positive sizes and holds in every reachable state (`Editor.Step`, `Editor.Run`); `Editor.UploadDecoded` also requires a positive image size.
- `Editor.PointerDown`, `Editor.PointerMove`: a canvas with no on-screen size would give infinite canvas coordinates. These members require a positive `ScreenBox`.
- `Editor.Valid` does not require the selected id to exist. Undoing an add leaves the removed element's id selected, as the program does, and nothing reads it except the highlight.

## Findings

| source | as written | input that shows it | evidently intended | confidence | as-written member | corrected member |
|---|---|---|---|---|---|---|
| src/App.jsx:281-294 | every template background that finishes decoding applies its layout and canvas size, in completion order, whatever was chosen since | choose `a4_land`, then `shelf`; the shelf image decodes first, then the A4 image | only the latest choice's decode applies, so the shelf template keeps a 1772 x 591 canvas | not executed; the ordering needs a slow first decode | `Editor.TemplateLoadedAsWritten`, `Editor.StaleLoadWins` | `Editor.TemplateDecoded`, `Editor.LatestLoadWins`, `Editor.StaleDecodeIgnored` |
| src/App.jsx:293 | the refit after a template load is the `fitToScreen` closure of the render that started the load, which reads that render's width and height | a 1080 x 1080 document in an 800 x 600 container, choose `a4_land`: zoom 0.5, so the 3508-pixel canvas is shown 1754 pixels wide | the refit uses the loaded canvas size, so the canvas fits in 90% of the container | not executed; follows from closure capture in React | `Editor.TemplateLoadedAsWritten`, `Editor.RefitUsesOldSize` | `Editor.TemplateDecoded`, `Editor.LoadedTemplateFits` |
| src/App.jsx:450-460 | every uploaded image that finishes decoding applies its size and background, in completion order, whatever was uploaded since | under `custom`, upload a 2000 x 1000 picture, then a 500 x 500 one; the second decodes first, then the first | only the latest upload's decode applies, so the canvas is 500 x 500 with the second picture | not executed; the ordering needs a slow first decode | `Editor.UploadLoadedAsWritten`, `Editor.StaleUploadWins` | `Editor.UploadDecoded`, `Editor.LatestUploadWins`, `Editor.StaleDecodeIgnored` |
| src/App.jsx:459 | the refit after an upload is the `fitToScreen` closure of the render where the file was chosen, which reads that render's width and height | under `custom`, the initial 1080 x 1080 document in an 800 x 600 container, upload a 2000 x 1000 picture: zoom 0.5, so the canvas is shown 1000 pixels wide | the refit uses the uploaded image's size, so the canvas fits in 90% of the container | not executed; follows from closure capture in React | `Editor.UploadLoadedAsWritten`, `Editor.UploadRefitUsesOldSize` | `Editor.UploadDecoded`, `Editor.UploadedImageFits` |
