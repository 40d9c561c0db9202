/**
 The overlay's raster surface, abstracted. Pixels are not modelled: an image is the
 ordered log of paint commands applied to a blank, fully transparent surface, so two
 images are equal exactly when the same commands were painted in the same order.
 */
module Canvas {
  import opened Geometry

  /** A colour with red, green, blue and alpha channels. */
  datatype Color = Rgba(red: int, green: int, blue: int, alpha: int)

  /** Fully transparent (Qt.transparent). */
  const Transparent: Color := Rgba(0, 0, 0, 0)

  /** The overlay's initial pen colour, opaque green. */
  const Green: Color := Rgba(0, 255, 0, 255)

  /** A solid, round-capped, round-joined pen of the given colour and width. */
  datatype Pen = Pen(color: Color, width: int)

  /** One paint operation on the surface. `clear` on a line means the clear composition
      mode: the covered pixels become transparent instead of being painted over. */
  datatype Paint =
    | Line(from: Point, to: Point, pen: Pen, clear: bool)
    | OutlineRect(rect: Rect, pen: Pen)
    | FillRect(rect: Rect, fill: Color)
    | ClearRect(rect: Rect)
  {
    /** True for the operations that only ever remove colour. */
    predicate Erases() {
      (Line? && clear) || ClearRect?
    }
  }

  /** A surface: the paints applied to the blank surface, oldest first. */
  datatype Image = Image(strokes: seq<Paint>)

  /** The freshly created, fully transparent surface. */
  const Blank: Image := Image([])

  /** Paints `p` onto `img`. */
  function Apply(img: Image, p: Paint): Image {
    Image(img.strokes + [p])
  }

  /** True when `later` is `earlier` with zero or more paints added on top. */
  predicate Extends(earlier: Image, later: Image) {
    |earlier.strokes| <= |later.strokes| && later.strokes[..|earlier.strokes|] == earlier.strokes
  }

  /** True when every paint `later` adds on top of `earlier` only removes colour. */
  predicate ErasesOnly(earlier: Image, later: Image) {
    Extends(earlier, later)
    && forall i :: |earlier.strokes| <= i < |later.strokes| ==> later.strokes[i].Erases()
  }
}
