/**
 Sequences of events delivered to the overlay one at a time, and the properties
 that hold across whole sessions: the ranges are kept, an idle overlay shows exactly
 its newest snapshot, and pointer gestures made in erase mode only remove colour.
 */
module Session {
  import opened Options
  import opened Geometry
  import opened Canvas
  import opened Input
  import opened Overlay
  import History
  import Thickness

  /** One event the window delivers to the overlay. Slider and colour-dialog events carry
      the value the settings panel hands over; a repaint changes nothing. */
  datatype Event =
    | PressEvent(pos: Point, button: Button, mods: set<Modifier>)
    | MoveEvent(pos: Point, held: set<Button>)
    | ReleaseEvent(pos: Point, button: Button)
    | KeyEvent(key: Key, mods: set<Modifier>)
    | WheelEvent(delta: int)
    | PenSlider(value: int)
    | EraserSlider(value: int)
    | ColorChosen(picked: Option<Color>)
    | Repaint

  /** Slider events carry values within their slider's bounds. */
  predicate Admissible(e: Event) {
    match e
    case PenSlider(v) => Thickness.InRange(v, Thickness.PenCap)
    case EraserSlider(v) => Thickness.InRange(v, Thickness.EraserCap)
    case _ => true
  }

  predicate AllAdmissible(es: seq<Event>) {
    forall i :: 0 <= i < |es| ==> Admissible(es[i])
  }

  /** The overlay's invariant: the ranges hold and, whenever no gesture is in progress,
      the surface is exactly the newest snapshot in the history. */
  predicate Consistent(s: State) {
    Valid(s) && (Idle(s) ==> Synced(s))
  }

  /** The state after one event. */
  function Step(s: State, e: Event): (r: State)
    requires Admissible(e)
    ensures Consistent(s) ==> Consistent(r)
  {
    match e
    case PressEvent(p, b, mods) => Press(s, p, b, mods)
    case MoveEvent(p, held) => Move(s, p, held)
    case ReleaseEvent(_, b) => Release(s, b)
    case KeyEvent(k, mods) => KeyPress(s, k, mods).state
    case WheelEvent(d) => Wheel(s, d)
    case PenSlider(v) => SetPenThickness(s, v)
    case EraserSlider(v) => SetEraserThickness(s, v)
    case ColorChosen(c) => ChooseColor(s, c)
    case Repaint => s
  }

  /** The state after each event of `es` in turn. */
  function Run(s: State, es: seq<Event>): (r: State)
    requires AllAdmissible(es)
    ensures Consistent(s) ==> Consistent(r)
    decreases |es|
  {
    if |es| == 0 then s else Run(Step(s, es[0]), es[1..])
  }

  /** Every session started from a fresh window keeps the invariant after every event. */
  lemma SessionConsistent(es: seq<Event>)
    requires AllAdmissible(es)
    ensures Consistent(Run(Init(), es))
  {
  }

  /** Pointer events only: presses, moves and releases. */
  predicate PointerOnly(es: seq<Event>) {
    forall i :: 0 <= i < |es| ==> es[i].PressEvent? || es[i].MoveEvent? || es[i].ReleaseEvent?
  }

  /** Pointer events carry no slider value, so a pointer-only session is admissible. */
  lemma PointerOnlyAdmissible(es: seq<Event>)
    requires PointerOnly(es)
    ensures AllAdmissible(es)
  {
  }

  /** While erasing with no filled rectangle pending, one pointer event only removes colour
      and keeps those two conditions. */
  lemma ErasingStep(s: State, e: Event)
    requires s.erasing && !s.drawingFilledRect
    requires e.PressEvent? || e.MoveEvent? || e.ReleaseEvent?
    ensures Step(s, e).erasing && !Step(s, e).drawingFilledRect
    ensures ErasesOnly(s.image, Step(s, e).image)
  {
    match e
    case PressEvent(p, b, mods) =>
      PressWhileErasingNeverFills(s, p, b, mods);
    case MoveEvent(p, held) =>
      ErasingMove(s, p, held);
    case ReleaseEvent(_, b) =>
      ErasingRelease(s, b);
  }

  /** A move in erase mode adds at most one clearing segment. */
  lemma ErasingMove(s: State, p: Point, held: set<Button>)
    requires s.erasing
    ensures ErasesOnly(s.image, Move(s, p, held).image)
    ensures |Move(s, p, held).image.strokes| <= |s.image.strokes| + 1
  {
    var r := Move(s, p, held);
    if s.drawing && Left in held {
      assert r.image.strokes == s.image.strokes + [Stroke(s, s.startPos, p)];
    }
  }

  /** A release in erase mode, with no filled rectangle pending, adds at most one clearing operation. */
  lemma ErasingRelease(s: State, b: Button)
    requires s.erasing && !s.drawingFilledRect
    ensures ErasesOnly(s.image, Release(s, b).image)
    ensures |Release(s, b).image.strokes| <= |s.image.strokes| + 1
  {
    var r := Release(s, b);
    if r != s {
      FirstMatchExists(s, b);
      var g :| g in Matching(s, b) && forall h :: h in Matching(s, b) ==> Rank(g) <= Rank(h);
      ReleaseCommitsFirstMatch(s, b, g);
      assert g != RectFilled;
      match CommitPaint(s, g)
      case None =>
      case Some(paint) =>
        assert paint.Erases();
        assert r.image.strokes == s.image.strokes + [paint];
    }
  }

  /** A release that matches some active gesture has a first such gesture. */
  lemma FirstMatchExists(s: State, b: Button)
    requires Matching(s, b) != {}
    ensures exists g :: g in Matching(s, b) && forall h :: h in Matching(s, b) ==> Rank(g) <= Rank(h)
  {
    var m := Matching(s, b);
    if Freehand in m {
      assert forall h :: h in m ==> Rank(Freehand) <= Rank(h);
    } else if StraightLine in m {
      assert forall h :: h in m ==> Rank(StraightLine) <= Rank(h);
    } else if RectOutline in m {
      assert forall h :: h in m ==> Rank(RectOutline) <= Rank(h);
    } else {
      var g :| g in m;
      assert g == RectFilled;
      assert forall h :: h in m ==> Rank(RectFilled) <= Rank(h);
    }
  }

  /** Erasing only ever erases: pointer gestures made in erase mode, with no filled
      rectangle pending from drawing mode, add nothing but clear operations. */
  lemma {:induction false} ErasingSessionOnlyErases(s: State, es: seq<Event>)
    requires s.erasing && !s.drawingFilledRect
    requires PointerOnly(es) && AllAdmissible(es)
    ensures ErasesOnly(s.image, Run(s, es).image)
    decreases |es|
  {
    if |es| == 0 {
      assert Run(s, es) == s;
    } else {
      var t := Step(s, es[0]);
      ErasingStep(s, es[0]);
      assert PointerOnly(es[1..]) by {
        forall i | 0 <= i < |es[1..]| ensures es[1..][i].PressEvent? || es[1..][i].MoveEvent? || es[1..][i].ReleaseEvent? {
          assert es[1..][i] == es[i + 1];
        }
      }
      ErasingSessionOnlyErases(t, es[1..]);
      ErasesOnlyTransitive(s.image, t.image, Run(t, es[1..]).image);
    }
  }

  /** Two erase-only stretches make one. */
  lemma ErasesOnlyTransitive(a: Image, b: Image, c: Image)
    requires ErasesOnly(a, b) && ErasesOnly(b, c)
    ensures ErasesOnly(a, c)
  {
    assert c.strokes[..|a.strokes|] == c.strokes[..|b.strokes|][..|a.strokes|];
    forall i | |a.strokes| <= i < |c.strokes| ensures c.strokes[i].Erases() {
      if i < |b.strokes| {
        assert c.strokes[i] == c.strokes[..|b.strokes|][i];
      }
    }
  }

  /** A rectangle outline dragged from (100,100) up to (40,40) with no gesture pending, in
      drawing mode, commits the 60-by-60 rectangle at (40,40) in the drawing pen and
      snapshots it, leaving the overlay idle. */
  lemma BackwardRectangleScenario(s: State)
    requires Idle(s) && !s.erasing
    ensures var r := Release(Move(Press(s, Point(100, 100), Left, {Control}), Point(40, 40), {Left}), Left);
            r.image == Apply(s.image, OutlineRect(Rect(40, 40, 60, 60), DrawPen(s)))
            && r.undoStack == History.SaveState(s.undoStack, r.image) && Idle(r)
  {
    var s1 := Press(s, Point(100, 100), Left, {Control});
    assert Active(s1) == {RectOutline};
    var s2 := Move(s1, Point(40, 40), {Left});
    assert s2.startPos == Point(100, 100) && s2.endPos == Point(40, 40);
    assert Active(s2) == {RectOutline} && Matching(s2, Left) == {RectOutline};
    ReleaseCommitsFirstMatch(s2, Left, RectOutline);
  }

  /** A freehand stroke from (10,10) to (50,10) on an idle overlay in drawing mode, below
      the history's capacity, paints one segment in the drawing pen and snapshots it;
      Ctrl+Z then brings back the surface as it was before the stroke. */
  lemma FreehandUndoScenario(s: State)
    requires Consistent(s) && Idle(s) && !s.erasing && |s.undoStack| < History.Capacity
    ensures var r := Release(Move(Press(s, Point(10, 10), Left, {}), Point(50, 10), {Left}), Left);
            r.image == Apply(s.image, Line(Point(10, 10), Point(50, 10), DrawPen(s), false))
            && r.undoStack == s.undoStack + [r.image]
            && KeyPress(r, KeyZ, {Control}).state.image == s.image
  {
    var s1 := Press(s, Point(10, 10), Left, {});
    assert Active(s1) == {Freehand};
    var s2 := Move(s1, Point(50, 10), {Left});
    assert s2.image == Apply(s.image, Line(Point(10, 10), Point(50, 10), DrawPen(s), false));
    assert Matching(s2, Left) == {Freehand};
    ReleaseCommitsFirstMatch(s2, Left, Freehand);
    var r := Release(s2, Left);
    History.UndoAfterSave(s.undoStack, r.image);
  }
}
