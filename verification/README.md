# DrawOn overlay engine, modelled in Dafny

DrawOn is a transparent, always-on-top annotation overlay. The user draws over the
screen with freehand strokes, straight lines, outlined rectangles and filled
rectangles. There is an erase mode and a bounded undo history. This project models
the engine inside `OverlayWindow` (`DrawOn.py`) without its Qt wiring. That engine
is a sequential, integer-only state machine over:

- the four gesture flags `drawing`, `drawing_line`, `drawing_rect` and `drawing_filled_rect`;
- the `erasing` toggle;
- the positions `start_pos` and `end_pos`;
- the pen colour and the two clamped thickness counters;
- the surface `image` and the undo stack of snapshots.

Every event handler is a pure function from the old state to the new one.

Pixels are abstracted. A surface (`Canvas.Image`) is the ordered log of the paint
commands applied to the blank, transparent surface:

- `Line(a, b, pen, clear)`;
- `OutlineRect(rect, pen)`;
- `FillRect(rect, colour)`;
- `ClearRect(rect)`.

Two surfaces are equal when the same commands were painted in the same order.
Snapshots are values, so the source's `copy()` calls need nothing extra.

Modules:

- `Geometry`: points, rectangles and the drag-direction-independent `GetRect`.
- `Canvas`: colours, pens, paint commands, the surface as a paint log, and the
  "adds only clear operations" relation between surfaces.
- `History`: `SaveState` and `Undo` over the bounded stack (capacity 10), with the
  theorem that any number of saves keeps exactly the newest ten entries.
- `Thickness`: the wheel step, clamped to [1, 20] for the pen and [1, 50] for the eraser.
- `Input`: buttons, modifiers and keys. "Ctrl" means the modifiers are exactly Ctrl,
  as the source's `event.modifiers() == Qt.ControlModifier` test requires.
- `Overlay`: the state record and the handlers for press, move, release, keys, wheel,
  sliders, colour choice and repaint preview.
- `Session`: sequences of events and the invariants that hold over whole sessions.

The model follows the code as written. Some consequences of that code:

- The four gesture flags are independent booleans, so several can be set at once.
  For example, a right press during a left freehand gesture also sets `drawing_line`.
  A release commits only the first matching branch of the source's if/elif chain
  (`Overlay.ReleaseCommitsFirstMatch`).
- Pressing E flips erase mode and leaves any gesture in progress alive (DrawOn.py:202-204).
  As a result, a filled rectangle started in drawing mode and released after E still
  paints its colour while the overlay is in erase mode (`Overlay.ToggleKeepsPendingFill`).
  So "erasing never adds colour" holds only for gestures that do not carry a pending
  filled rectangle into erase mode (`Session.ErasingSessionOnlyErases`).
- Any modifier set other than exactly Ctrl counts as no Ctrl (DrawOn.py:100, 103, 114, 119).
  For example, Shift+Left starts a freehand stroke, and so does Ctrl+Shift+Left.
- A wheel event whose vertical delta is exactly 0 thins the active counter. A purely
  horizontal scroll is such an event.
- The live preview always uses the pen colour and pen thickness, never clear mode,
  even while erasing (DrawOn.py:209-223). A pending erase line is therefore previewed
  as a coloured line.
- The slider setters store the value without clamping. The model takes the sliders'
  bounds as their precondition (DrawOn.py:47-48, 63-64).

## Model

| member | source | states |
|---|---|---|
| Geometry.GetRect | DrawOn.py:187-189 | The rectangle's width and height are never negative. Its left and right edges are exactly the two x coordinates of the drag, and its top and bottom edges exactly the two y coordinates. |
| Geometry.GetRectSymmetric | DrawOn.py:187-189 | Swapping the start and end of a drag yields the same rectangle, so the drag direction does not matter. |
| Geometry.GetRectIsBoundingBox | DrawOn.py:187-189 | The rectangle covers both ends of the drag and lies inside every rectangle that covers both. |
| Geometry.GetRectBackwardDrag | DrawOn.py:187-189 | A drag from (100,100) to (40,40) gives the rectangle at (40,40) with width and height 60. |
| History.SaveState | DrawOn.py:225-228 | The snapshot becomes the newest entry. The length grows by one below capacity and stays the same at capacity. The earlier entries keep their order, and only the oldest may be dropped. A history with 1 to 10 entries still has 1 to 10 afterwards. |
| History.Undo | DrawOn.py:230-234 | With one entry nothing changes. With more, exactly the newest entry is removed and the surface becomes the entry now on top. The 1-to-10 bound is kept. |
| History.UndoAtFloorIdempotent | DrawOn.py:230-234 | At the single-entry floor, undo changes nothing, and applying it again changes nothing either. |
| History.UndoAfterSave | DrawOn.py:225-234 | Below capacity, a save followed by an undo restores the previous history exactly. The surface becomes the previous newest snapshot. |
| History.UndoAfterSaveAtCapacity | DrawOn.py:225-234 | At capacity, a save followed by an undo leaves the history without its former oldest entry, which cannot be recovered. |
| History.SaveIsNewest | DrawOn.py:225-228 | On a history with 1 to 10 entries, one save keeps the newest ten of the old entries followed by the new snapshot. |
| History.NewestAfterSave | DrawOn.py:225-228 | Saving one snapshot and then keeping the newest ten entries of the result followed by further snapshots gives the same history as keeping the newest ten of the old entries followed by all the snapshots. |
| History.SaveAllKeepsNewest | DrawOn.py:225-228 | After any number of saves, the history holds exactly the newest ten entries of the starting history followed by the saved snapshots, in order. |
| History.TwelveCommits | DrawOn.py:225-228 | Twelve commits on a single-entry history keep exactly the third through the twelfth. The seed and the first two commits are gone. |
| Thickness.Adjust | DrawOn.py:239-248 | A positive delta never exceeds the cap, and any other delta, zero included, never goes below 1. An in-range thickness stays in range and moves by at most one, in the direction of the delta. |
| Thickness.UpThenDown | DrawOn.py:239-248 | Below the cap, a notch up followed by a notch down returns to the original thickness. |
| Thickness.DownThenUp | DrawOn.py:239-248 | Above 1, a notch down followed by a notch up returns to the original thickness. |
| Thickness.ScrollUpSaturates | DrawOn.py:239-240 | Scrolling up n notches from an in-range thickness t gives the smaller of t+n and the cap. |
| Thickness.ScrollDownSaturates | DrawOn.py:241-242 | Scrolling down n notches, or with a zero delta, from an in-range thickness t gives the larger of t-n and 1. |
| Overlay.Init | DrawOn.py:17-32 | A new window has no gesture and is in drawing mode. Its thicknesses are in range. Its surface is blank, and the history holds exactly that blank surface. |
| Overlay.Stroke | DrawOn.py:127-133 | A segment clears pixels exactly when the overlay is erasing. In drawing mode it uses the pen colour and pen thickness. While erasing it has the eraser's thickness. |
| Overlay.PressedGesture | DrawOn.py:100-121 | The press handler's nested branches choose exactly the gesture the dispatch table gives for the mode, the button and whether the modifiers are exactly Ctrl. |
| Overlay.Press | DrawOn.py:96-122 | Both positions move to the press point in every case. Exactly the flag chosen by the dispatch table is added and no other flag changes. Ctrl+Right while erasing chooses nothing. The surface, history and tools are unchanged. |
| Overlay.PressWhileErasingNeverFills | DrawOn.py:100-111 | No press in erase mode starts a filled rectangle. |
| Overlay.Move | DrawOn.py:124-141 | With a freehand gesture and Left held, exactly one segment from the previous point to the pointer is painted and the previous point advances. Otherwise the surface is untouched, and only a tracking line or rectangle gesture moves its end point. The flags, tools and history never change. |
| Overlay.CommitPaint | DrawOn.py:143-185 | A freehand commit paints nothing. A line commit paints the anchor-to-end segment in the current mode. A rectangle commit paints the normalised rectangle: a filled one with the pen colour, and an outline in drawing mode with the drawing pen. The paint only removes colour exactly when the overlay is erasing and the gesture is a line or an outline rectangle. |
| Overlay.Commit | DrawOn.py:144-185 | Committing an active gesture clears exactly its flag and applies its paint. It keeps positions and tools, pushes one snapshot of the new surface, and leaves the surface equal to the newest snapshot. |
| Overlay.Release | DrawOn.py:143-185 | The state changes exactly when some active gesture is committed by this button. No flag is set, and at most one is cleared. Positions and tools are kept. When something fires, exactly one snapshot of the new surface is pushed, and the surface equals the newest snapshot. |
| Overlay.ReleaseCommitsFirstMatch | DrawOn.py:143-185 | The gesture committed is the first matching one in branch order. Exactly its flag is cleared, its paint is applied, and the result is snapshotted. |
| Overlay.ReleaseFreehand | DrawOn.py:144-146 | A left release during a freehand gesture commits the freehand gesture. |
| Overlay.ReleaseLine | DrawOn.py:147-158 | A right release during a line gesture commits the line, whatever else is pending. |
| Overlay.ReleaseOutline | DrawOn.py:159-175 | A left release during an outline-rectangle gesture, with no freehand gesture pending, commits the rectangle in either mode. |
| Overlay.ReleaseFilled | DrawOn.py:176-185 | A right release during a filled-rectangle gesture, with no line gesture pending, commits the filled rectangle. |
| Overlay.UndoLast | DrawOn.py:230-234 | With one snapshot the state is unchanged. With more, the history loses its newest entry and the surface equals the new newest entry. Gestures, positions and tools are untouched. |
| Overlay.KeyPress | DrawOn.py:191-204 | Escape, and only Escape, requests close. S, and only S, toggles the settings panel. Ctrl+Z undoes. E flips erase mode and changes nothing else. Every other key leaves the state unchanged. |
| Overlay.ToggleEraseTwice | DrawOn.py:202-204 | Pressing E twice restores the state exactly. |
| Overlay.UndoKeyAtFloor | DrawOn.py:200-201 | Ctrl+Z on a single-entry history leaves the state unchanged, however often it is pressed. |
| Overlay.ToggleKeepsPendingFill | DrawOn.py:176-204 | A filled rectangle pending when E switches to erase mode is still committed with the pen colour on the next right release. |
| Overlay.Wheel | DrawOn.py:236-250 | The active mode's thickness takes one clamped step and the other mode's thickness is unchanged. Nothing else changes, and the ranges are kept. |
| Overlay.SetPenThickness | DrawOn.py:90-91 | The pen thickness becomes the slider value and nothing else changes. A valid state stays valid. |
| Overlay.SetEraserThickness | DrawOn.py:93-94 | The eraser thickness becomes the slider value and nothing else changes. A valid state stays valid. |
| Overlay.ChooseColor | DrawOn.py:85-88 | A valid choice replaces only the pen colour. A cancelled dialog changes nothing. |
| Overlay.Preview | DrawOn.py:209-223 | A preview exists exactly when a line or rectangle gesture is pending. A line takes precedence and runs from the anchor to the end point. Otherwise the preview is the normalised rectangle, outlined exactly when `drawing_rect` is set. It always uses the pen colour and pen thickness and never clears pixels. |
| Overlay.Compose | DrawOn.py:206-208 | A repaint shows the surface unchanged. A pending shape is drawn on top exactly when a line or rectangle gesture is in progress, and it never clears pixels. |
| Overlay.PreviewMatchesCommit | DrawOn.py:206-223 | In drawing mode, the preview is exactly what the release will paint for the gesture it shows. |
| Session.Step | DrawOn.py:96-250 | Each event keeps the overlay consistent. The thicknesses and history size stay in range, and an idle overlay's surface equals its newest snapshot. |
| Session.Run | DrawOn.py:96-250 | Any sequence of events keeps the overlay consistent. |
| Session.SessionConsistent | DrawOn.py:17-32 | Every session that starts from a new window is consistent after every event. |
| Session.ErasingStep | DrawOn.py:96-185 | In erase mode, with no filled rectangle pending, each press, move or release only adds clearing paints. Erase mode stays on and no filled rectangle becomes pending. |
| Session.ErasingMove | DrawOn.py:124-135 | A move in erase mode adds at most one clearing segment. |
| Session.ErasingRelease | DrawOn.py:143-166 | A release in erase mode, with no filled rectangle pending, adds at most one clearing paint. |
| Session.PointerOnlyAdmissible | DrawOn.py:96-185 | Pointer events carry no slider value, so every sequence of presses, moves and releases is admissible. |
| Session.ErasingSessionOnlyErases | DrawOn.py:96-185 | In erase mode, with no filled rectangle pending, any sequence of pointer events only appends paints that clear pixels. It never adds colour. |
| Session.BackwardRectangleScenario | DrawOn.py:96-189 | On an idle overlay in drawing mode, a Ctrl+Left drag from (100,100) to (40,40) commits the outline of the 60-by-60 rectangle at (40,40) with the drawing pen. It pushes one snapshot and leaves the overlay idle. |
| Session.FreehandUndoScenario | DrawOn.py:96-234 | On an idle overlay below capacity, a freehand stroke paints one segment and pushes one snapshot. Ctrl+Z then restores the surface from before the stroke. |

## Left out

- Window setup (frameless, always-on-top, translucent, full-screen geometry; DrawOn.py:10-15) is left out. It is Qt plumbing with no engine state.
- The settings panel (DrawOn.py:37-83) is left out as UI wiring. Its construction, layout, show/hide on S and the sliders' `setValue` feedback in the wheel handler (DrawOn.py:243, 249) are all widget calls. The S key is modelled only as the `SettingsToggled` request, with the engine state unchanged.
- The colour dialog itself (DrawOn.py:86) is left out as a foreign call. Its outcome is the input of `Overlay.ChooseColor`: `Some(colour)` for a valid choice, `None` for a cancelled one.
- Pixel rasterisation by `QPainter` is not modelled. This covers round caps and joins, antialiasing, the pixel effect of the clear composition mode, and the pixel extent of `drawRect`. Paints are recorded as abstract commands.
- `self.update()` repaint scheduling and the window teardown behind `self.close()` are not modelled. They are Qt event-loop calls. Escape is modelled as the `CloseRequested` request.
- main.py is not part of this model. It is a freehand-only subset of the same engine with no undo, no clamping and no gesture dispatch.
- The surface's pixel size (the screen extent) is not modelled, because the paint-log abstraction does not need it.
- Overlay.SetPenThickness: the setter stores any value the slider emits without checking it. Its contract assumes the slider's bounds [1, 20] rather than modelling an unbounded value.
- Overlay.SetEraserThickness: the setter stores any value the slider emits without checking it. Its contract assumes the slider's bounds [1, 50] rather than modelling an unbounded value.
