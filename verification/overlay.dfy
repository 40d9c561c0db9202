/**
 The overlay engine: the state of the annotation window and its response to each
 pointer, keyboard and wheel event. Every handler is a pure function from the old
 state to the new one; the surface is the abstract paint log of module Canvas.
 */
module Overlay {
  import opened Options
  import opened Geometry
  import opened Canvas
  import opened Input
  import History
  import Thickness

  /** Everything the overlay window keeps between events. The four gesture flags are
      independent: more than one may be set at once. */
  datatype State = State(
    drawing: bool,
    drawingLine: bool,
    drawingRect: bool,
    drawingFilledRect: bool,
    erasing: bool,
    startPos: Point,
    endPos: Point,
    image: Image,
    penColor: Color,
    penThickness: int,
    eraserThickness: int,
    undoStack: seq<Image>)

  /** The kinds of gesture, one per flag. */
  datatype Gesture = Freehand | StraightLine | RectOutline | RectFilled

  /** The gestures whose flag is set. */
  function Active(s: State): set<Gesture> {
    (if s.drawing then {Freehand} else {})
    + (if s.drawingLine then {StraightLine} else {})
    + (if s.drawingRect then {RectOutline} else {})
    + (if s.drawingFilledRect then {RectFilled} else {})
  }

  /** No gesture is in progress. */
  predicate Idle(s: State) {
    Active(s) == {}
  }

  /** The four gesture flags of `a` and `b` agree. */
  predicate SameFlags(a: State, b: State) {
    a.drawing == b.drawing && a.drawingLine == b.drawingLine
    && a.drawingRect == b.drawingRect && a.drawingFilledRect == b.drawingFilledRect
  }

  /** The tool configuration of `a` and `b` agree: mode, colour and both thicknesses. */
  predicate SameTools(a: State, b: State) {
    a.erasing == b.erasing && a.penColor == b.penColor
    && a.penThickness == b.penThickness && a.eraserThickness == b.eraserThickness
  }

  /** The ranges the overlay keeps: a bounded history and both thicknesses within their sliders' bounds. */
  predicate Valid(s: State) {
    History.Bounded(s.undoStack)
    && Thickness.InRange(s.penThickness, Thickness.PenCap)
    && Thickness.InRange(s.eraserThickness, Thickness.EraserCap)
  }

  /** The surface holds exactly the newest snapshot. */
  predicate Synced(s: State) {
    |s.undoStack| > 0 && s.image == History.Last(s.undoStack)
  }

  /** The window as created: no gesture, drawing mode, a blank surface, green pen of
      width 5, eraser of width 10 and a history holding only the blank surface. */
  function Init(): (s: State)
    ensures Valid(s) && Idle(s) && !s.erasing
    ensures s.image == Blank && s.undoStack == [s.image]
  {
    State(false, false, false, false, false, Origin, Origin, Blank, Green, 5, 10, [Blank])
  }

  // ---------------------------------------------------------------------------
  // Pens

  /** The pen used for shapes and for the preview: the chosen colour and pen thickness. */
  function DrawPen(s: State): Pen {
    Pen(s.penColor, s.penThickness)
  }

  /** A freehand or straight-line segment in the current mode: painted with the drawing pen,
      or, while erasing, cleared with a transparent pen of the eraser's thickness. */
  function Stroke(s: State, from: Point, to: Point): (p: Paint)
    ensures p.Line? && p.from == from && p.to == to
    ensures p.Erases() <==> s.erasing
    ensures !s.erasing ==> p.pen == DrawPen(s)
    ensures s.erasing ==> p.pen.width == s.eraserThickness
  {
    if s.erasing then Line(from, to, Pen(Transparent, s.eraserThickness), true)
    else Line(from, to, DrawPen(s), false)
  }

  // ---------------------------------------------------------------------------
  // Press

  /** Which gesture a press starts, as a table over mode, button and whether the
      modifiers are exactly Ctrl. Ctrl+Right while erasing starts nothing. */
  function Dispatch(erasing: bool, b: Button, ctrl: bool): Option<Gesture> {
    match b
    case Left => if ctrl then Some(RectOutline) else Some(Freehand)
    case Right =>
      if !ctrl then Some(StraightLine)
      else if erasing then None
      else Some(RectFilled)
    case _ => None
  }

  /** The gestures an optional dispatch result adds. */
  function Started(o: Option<Gesture>): set<Gesture> {
    match o
    case None => {}
    case Some(g) => {g}
  }

  /** Raises the flag of gesture `g`. */
  function RaiseFlag(s: State, g: Gesture): (r: State)
    ensures Active(r) == Active(s) + {g}
    ensures r.startPos == s.startPos && r.endPos == s.endPos && SameTools(s, r)
    ensures r.image == s.image && r.undoStack == s.undoStack
  {
    match g
    case Freehand => s.(drawing := true)
    case StraightLine => s.(drawingLine := true)
    case RectOutline => s.(drawingRect := true)
    case RectFilled => s.(drawingFilledRect := true)
  }

  /** The gesture a press selects, following the press handler's branches: Ctrl+Right while
      erasing returns early, exactly-Ctrl while erasing starts an outline rectangle, and
      otherwise the button (and, in drawing mode, Ctrl) chooses. It agrees with the table. */
  function PressedGesture(erasing: bool, b: Button, mods: set<Modifier>): (o: Option<Gesture>)
    ensures o == Dispatch(erasing, b, ExactlyCtrl(mods))
  {
    var ctrl := ExactlyCtrl(mods);
    if erasing && ctrl && b == Right then
      None
    else if erasing && ctrl then
      if b == Left || b == Right then Some(RectOutline) else None
    else if erasing then
      if b == Left then Some(Freehand)
      else if b == Right then Some(StraightLine)
      else None
    else if b == Left then
      if ctrl then Some(RectOutline) else Some(Freehand)
    else if b == Right then
      if ctrl then Some(RectFilled) else Some(StraightLine)
    else
      None
  }

  /** Moves both positions to `p`; every flag and everything else stays. */
  function Anchor(s: State, p: Point): (r: State)
    ensures r.startPos == p && r.endPos == p
    ensures SameFlags(s, r) && r.image == s.image && r.undoStack == s.undoStack && SameTools(s, r)
  {
    s.(startPos := p, endPos := p)
  }

  /** A button press. Both positions move to the press point in every case; then the
      flag the dispatch table selects is set and every other flag is left alone. */
  function Press(s: State, p: Point, b: Button, mods: set<Modifier>): (r: State)
    ensures r.startPos == p && r.endPos == p
    ensures r.image == s.image && r.undoStack == s.undoStack && SameTools(s, r)
    ensures Active(r) == Active(s) + Started(Dispatch(s.erasing, b, ExactlyCtrl(mods)))
  {
    var anchored := Anchor(s, p);
    match PressedGesture(s.erasing, b, mods)
    case None => anchored
    case Some(g) => RaiseFlag(anchored, g)
  }

  /** No press starts a filled rectangle while erasing. */
  lemma PressWhileErasingNeverFills(s: State, p: Point, b: Button, mods: set<Modifier>)
    requires s.erasing
    ensures RectFilled in Active(Press(s, p, b, mods)) <==> RectFilled in Active(s)
  {
  }

  // ---------------------------------------------------------------------------
  // Move

  /** A line or rectangle gesture follows the pointer while a button that can drive it is held. */
  predicate Tracks(s: State, held: set<Button>) {
    (s.drawingLine && Right in held)
    || ((s.drawingRect || s.drawingFilledRect) && (Left in held || Right in held))
  }

  /** A pointer move with the buttons `held`. A freehand gesture with Left held paints one
      segment from the previous point to `p` straight onto the surface and advances the
      previous point; otherwise a tracking shape gesture only moves its end point. */
  function Move(s: State, p: Point, held: set<Button>): (r: State)
    ensures Active(r) == Active(s) && r.undoStack == s.undoStack && SameTools(s, r)
    ensures s.drawing && Left in held ==>
              r.image == Apply(s.image, Stroke(s, s.startPos, p)) && r.startPos == p && r.endPos == s.endPos
    ensures !(s.drawing && Left in held) ==>
              r.image == s.image && r.startPos == s.startPos
              && r.endPos == (if Tracks(s, held) then p else s.endPos)
  {
    if s.drawing && Left in held then
      s.(image := Apply(s.image, Stroke(s, s.startPos, p)), startPos := p)
    else if s.drawingLine && Right in held then
      s.(endPos := p)
    else if (s.drawingRect || s.drawingFilledRect) && (Left in held || Right in held) then
      s.(endPos := p)
    else
      s
  }

  // ---------------------------------------------------------------------------
  // Release

  /** The button whose release commits a gesture. */
  function ReleaseButton(g: Gesture): Button {
    match g
    case Freehand => Left
    case StraightLine => Right
    case RectOutline => Left
    case RectFilled => Right
  }

  /** The order in which a release considers the gestures; lower goes first. */
  function Rank(g: Gesture): nat {
    match g
    case Freehand => 0
    case StraightLine => 1
    case RectOutline => 2
    case RectFilled => 3
  }

  /** The active gestures a release of `b` could commit. */
  function Matching(s: State, b: Button): set<Gesture> {
    set g | g in Active(s) && ReleaseButton(g) == b
  }

  /** What committing `g` paints: nothing for freehand (already painted while moving),
      the anchor-to-end segment for a line, and the normalised rectangle otherwise; an
      outline rectangle committed while erasing clears its whole area. */
  function CommitPaint(s: State, g: Gesture): (o: Option<Paint>)
    ensures g == Freehand <==> o.None?
    ensures g == StraightLine ==> o == Some(Stroke(s, s.startPos, s.endPos))
    ensures g == RectOutline || g == RectFilled ==> o.Some? && !o.value.Line? && o.value.rect == GetRect(s.startPos, s.endPos)
    ensures g == RectOutline && !s.erasing ==> o.Some? && o.value.OutlineRect? && o.value.pen == DrawPen(s)
    ensures g == RectFilled ==> o == Some(FillRect(GetRect(s.startPos, s.endPos), s.penColor))
    ensures o.Some? && o.value.Erases() <==> s.erasing && (g == StraightLine || g == RectOutline)
  {
    match g
    case Freehand => None
    case StraightLine => Some(Stroke(s, s.startPos, s.endPos))
    case RectOutline =>
      if s.erasing then Some(ClearRect(GetRect(s.startPos, s.endPos)))
      else Some(OutlineRect(GetRect(s.startPos, s.endPos), DrawPen(s)))
    case RectFilled => Some(FillRect(GetRect(s.startPos, s.endPos), s.penColor))
  }

  /** Paints the optional command onto `img`. */
  function PaintOpt(img: Image, o: Option<Paint>): Image {
    match o
    case None => img
    case Some(p) => Apply(img, p)
  }

  /** Lowers the flag of gesture `g`. */
  function ClearFlag(s: State, g: Gesture): (r: State)
    ensures Active(r) == Active(s) - {g}
    ensures r.startPos == s.startPos && r.endPos == s.endPos && SameTools(s, r)
    ensures r.image == s.image && r.undoStack == s.undoStack
  {
    match g
    case Freehand => s.(drawing := false)
    case StraightLine => s.(drawingLine := false)
    case RectOutline => s.(drawingRect := false)
    case RectFilled => s.(drawingFilledRect := false)
  }

  /** Puts `img` on the surface and records a snapshot of it; the flags, positions and tools stay. */
  function Snapshot(s: State, img: Image): (r: State)
    ensures SameFlags(s, r) && r.startPos == s.startPos && r.endPos == s.endPos && SameTools(s, r)
    ensures r.image == img && r.undoStack == History.SaveState(s.undoStack, img)
  {
    s.(image := img, undoStack := History.SaveState(s.undoStack, img))
  }

  /** Ends gesture `g`: lowers its flag, paints what it commits and records a snapshot of the result. */
  function Commit(s: State, g: Gesture): (r: State)
    requires g in Active(s)
    ensures Active(r) == Active(s) - {g} && r != s
    ensures r.image == PaintOpt(s.image, CommitPaint(s, g))
    ensures r.startPos == s.startPos && r.endPos == s.endPos && SameTools(s, r)
    ensures Synced(r) && r.undoStack == History.SaveState(s.undoStack, r.image)
  {
    var cleared := ClearFlag(s, g);
    assert g !in Active(cleared);
    Snapshot(cleared, PaintOpt(s.image, CommitPaint(s, g)))
  }

  /** A button release. Only the first matching branch runs: it clears one flag, paints
      what that gesture commits and records exactly one snapshot. A release that matches
      no active gesture changes nothing. */
  function Release(s: State, b: Button): (r: State)
    ensures Matching(s, b) == {} <==> r == s
    ensures Active(r) <= Active(s)
    ensures forall g, h :: g in Active(s) - Active(r) && h in Active(s) - Active(r) ==> g == h
    ensures r.startPos == s.startPos && r.endPos == s.endPos && SameTools(s, r)
    ensures r != s ==> Synced(r) && r.undoStack == History.SaveState(s.undoStack, r.image)
  {
    if b == Left && s.drawing then
      assert Freehand in Matching(s, b);
      Commit(s, Freehand)
    else if b == Right && s.drawingLine then
      assert StraightLine in Matching(s, b);
      Commit(s, StraightLine)
    else if b == Left && s.drawingRect && s.erasing then
      assert RectOutline in Matching(s, b);
      Commit(s, RectOutline)
    else if b == Left && s.drawingRect then
      assert RectOutline in Matching(s, b);
      Commit(s, RectOutline)
    else if b == Right && s.drawingFilledRect then
      assert RectFilled in Matching(s, b);
      Commit(s, RectFilled)
    else
      assert Matching(s, b) == {} by {
        forall g | g in Active(s) ensures ReleaseButton(g) != b { }
      }
      s
  }

  /** A left release during a freehand gesture commits the freehand gesture. */
  lemma ReleaseFreehand(s: State)
    requires s.drawing
    ensures Release(s, Left) == Commit(s, Freehand)
  {
  }

  /** A right release during a line gesture commits the line. */
  lemma ReleaseLine(s: State)
    requires s.drawingLine
    ensures Release(s, Right) == Commit(s, StraightLine)
  {
  }

  /** A left release during an outline-rectangle gesture, with no freehand gesture, commits the rectangle. */
  lemma ReleaseOutline(s: State)
    requires s.drawingRect && !s.drawing
    ensures Release(s, Left) == Commit(s, RectOutline)
  {
  }

  /** A right release during a filled-rectangle gesture, with no line gesture, commits the rectangle. */
  lemma ReleaseFilled(s: State)
    requires s.drawingFilledRect && !s.drawingLine
    ensures Release(s, Right) == Commit(s, RectFilled)
  {
  }

  /** The gesture a release commits is the matching one considered first: exactly its flag
      is cleared, its paint is applied and the result is snapshotted. */
  lemma ReleaseCommitsFirstMatch(s: State, b: Button, g: Gesture)
    requires g in Matching(s, b)
    requires forall h :: h in Matching(s, b) ==> Rank(g) <= Rank(h)
    ensures Active(Release(s, b)) == Active(s) - {g}
    ensures Release(s, b).image == PaintOpt(s.image, CommitPaint(s, g))
    ensures Release(s, b).undoStack == History.SaveState(s.undoStack, Release(s, b).image)
  {
    assert g in Active(s) && ReleaseButton(g) == b;
    match g
    case Freehand =>
      ReleaseFreehand(s);
    case StraightLine =>
      ReleaseLine(s);
    case RectOutline =>
      assert Freehand !in Matching(s, b);
      ReleaseOutline(s);
    case RectFilled =>
      assert StraightLine !in Matching(s, b);
      ReleaseFilled(s);
  }

  // ---------------------------------------------------------------------------
  // Keys

  /** What a key press asks of the window outside the engine. */
  datatype Effect = NoEffect | CloseRequested | SettingsToggled

  /** The state after a key press, with the request it makes of the window. */
  datatype KeyOutcome = KeyOutcome(state: State, effect: Effect)

  /** Undo from the keyboard: the history and surface step back one snapshot, unless only
      one is left; gestures, positions and tools are untouched. */
  function UndoLast(s: State): (r: State)
    ensures Active(r) == Active(s) && r.startPos == s.startPos && r.endPos == s.endPos && SameTools(s, r)
    ensures |s.undoStack| <= 1 ==> r == s
    ensures |s.undoStack| > 1 ==>
              r.undoStack == s.undoStack[..|s.undoStack| - 1] && Synced(r)
    ensures History.Bounded(s.undoStack) ==> History.Bounded(r.undoStack)
  {
    var u := History.Undo(s.undoStack, s.image);
    s.(undoStack := u.stack, image := u.image)
  }

  /** A key press: Escape asks for the window to close, S toggles the settings panel,
      Ctrl+Z (exactly Ctrl) undoes and E flips erase mode. E does not end a gesture in progress. */
  function KeyPress(s: State, k: Key, mods: set<Modifier>): (o: KeyOutcome)
    ensures o.effect == CloseRequested <==> k == Escape
    ensures o.effect == SettingsToggled <==> k == KeyS
    ensures k == KeyZ && ExactlyCtrl(mods) ==> o.state == UndoLast(s)
    ensures k == KeyE ==> o.state.erasing == !s.erasing && o.state.(erasing := s.erasing) == s
    ensures !(k == KeyE || (k == KeyZ && ExactlyCtrl(mods))) ==> o.state == s
  {
    if k == Escape then KeyOutcome(s, CloseRequested)
    else if k == KeyS then KeyOutcome(s, SettingsToggled)
    else if k == KeyZ && ExactlyCtrl(mods) then KeyOutcome(UndoLast(s), NoEffect)
    else if k == KeyE then KeyOutcome(s.(erasing := !s.erasing), NoEffect)
    else KeyOutcome(s, NoEffect)
  }

  /** Pressing E twice restores the state exactly. */
  lemma ToggleEraseTwice(s: State, m1: set<Modifier>, m2: set<Modifier>)
    ensures KeyPress(KeyPress(s, KeyE, m1).state, KeyE, m2).state == s
  {
  }

  /** Undo from the keyboard at the floor is idempotent. */
  lemma UndoKeyAtFloor(s: State)
    requires |s.undoStack| == 1
    ensures KeyPress(s, KeyZ, {Control}).state == s
    ensures KeyPress(KeyPress(s, KeyZ, {Control}).state, KeyZ, {Control}).state == s
  {
  }

  /** Because E leaves a pending gesture alive, a filled rectangle started in drawing mode
      and released after switching to erase mode still paints its colour, while the overlay
      is in erase mode. */
  lemma ToggleKeepsPendingFill(s: State, m: set<Modifier>)
    requires !s.erasing && s.drawingFilledRect && !s.drawingLine
    ensures KeyPress(s, KeyE, m).state.erasing
    ensures Release(KeyPress(s, KeyE, m).state, Right).image
            == Apply(s.image, FillRect(GetRect(s.startPos, s.endPos), s.penColor))
  {
  }

  // ---------------------------------------------------------------------------
  // Wheel and settings

  /** A wheel event with vertical delta `delta` steps the thickness of the current mode
      by one within its bounds; the other mode's thickness and everything else stay. */
  function Wheel(s: State, delta: int): (r: State)
    ensures s.erasing ==> r.eraserThickness == Thickness.Adjust(s.eraserThickness, delta, Thickness.EraserCap)
                          && r.penThickness == s.penThickness
    ensures !s.erasing ==> r.penThickness == Thickness.Adjust(s.penThickness, delta, Thickness.PenCap)
                           && r.eraserThickness == s.eraserThickness
    ensures r.(penThickness := s.penThickness, eraserThickness := s.eraserThickness) == s
    ensures Valid(s) ==> Valid(r)
  {
    if s.erasing then
      s.(eraserThickness := Thickness.Adjust(s.eraserThickness, delta, Thickness.EraserCap))
    else
      s.(penThickness := Thickness.Adjust(s.penThickness, delta, Thickness.PenCap))
  }

  /** The pen slider sets the pen thickness to a value within its bounds. */
  function SetPenThickness(s: State, v: int): (r: State)
    requires Thickness.InRange(v, Thickness.PenCap)
    ensures r.penThickness == v && r.(penThickness := s.penThickness) == s
    ensures Valid(s) ==> Valid(r)
  {
    s.(penThickness := v)
  }

  /** The eraser slider sets the eraser thickness to a value within its bounds. */
  function SetEraserThickness(s: State, v: int): (r: State)
    requires Thickness.InRange(v, Thickness.EraserCap)
    ensures r.eraserThickness == v && r.(eraserThickness := s.eraserThickness) == s
    ensures Valid(s) ==> Valid(r)
  {
    s.(eraserThickness := v)
  }

  /** The colour dialog: a valid choice replaces the pen colour, a cancelled one (None) changes nothing. */
  function ChooseColor(s: State, picked: Option<Color>): (r: State)
    ensures picked.None? ==> r == s
    ensures picked.Some? ==> r.penColor == picked.value && r.(penColor := s.penColor) == s
  {
    match picked
    case None => s
    case Some(c) => s.(penColor := c)
  }

  // ---------------------------------------------------------------------------
  // Repaint

  /** A line or rectangle gesture is in progress: the gestures that show a preview. */
  predicate ShapePending(s: State) {
    s.drawingLine || s.drawingRect || s.drawingFilledRect
  }

  /** The shape drawn over the surface on a repaint, if any: a pending line takes precedence
      over rectangles, an outline over a filled one, and the preview is always drawn in the
      pen colour and pen thickness, never in clear mode, even while erasing. */
  function Preview(s: State): (o: Option<Paint>)
    ensures o.None? <==> !ShapePending(s)
    ensures o.Some? ==> !o.value.Erases()
    ensures s.drawingLine ==> o.Some? && o.value.Line? && o.value.from == s.startPos && o.value.to == s.endPos
    ensures !s.drawingLine && o.Some? ==>
              !o.value.Line? && o.value.rect == GetRect(s.startPos, s.endPos)
              && (o.value.OutlineRect? <==> s.drawingRect)
    ensures o.Some? && !o.value.FillRect? ==> o.value.pen == DrawPen(s)
    ensures o.Some? && o.value.FillRect? ==> o.value.fill == s.penColor
  {
    if s.drawingLine then
      Some(Line(s.startPos, s.endPos, DrawPen(s), false))
    else if s.drawingRect || s.drawingFilledRect then
      var rect := GetRect(s.startPos, s.endPos);
      if s.drawingRect then Some(OutlineRect(rect, DrawPen(s)))
      else Some(FillRect(rect, s.penColor))
    else
      None
  }

  /** One displayed frame: the committed surface with an optional pending shape on top. */
  datatype Frame = Frame(surface: Image, pending: Option<Paint>)

  /** A repaint shows the surface as it is, never altering it, with the preview on top. */
  function Compose(s: State): (f: Frame)
    ensures f.surface == s.image
    ensures f.pending.Some? <==> ShapePending(s)
    ensures f.pending.Some? ==> !f.pending.value.Erases()
  {
    Frame(s.image, Preview(s))
  }

  /** In drawing mode the preview is exactly what the release will commit for the gesture it shows. */
  lemma PreviewMatchesCommit(s: State)
    requires !s.erasing
    ensures s.drawingLine ==> Preview(s) == CommitPaint(s, StraightLine)
    ensures !s.drawingLine && s.drawingRect ==> Preview(s) == CommitPaint(s, RectOutline)
    ensures !s.drawingLine && !s.drawingRect && s.drawingFilledRect ==> Preview(s) == CommitPaint(s, RectFilled)
  {
  }
}
