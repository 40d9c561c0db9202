/** The pointer and keyboard vocabulary the overlay reacts to. */
module Input {

  /** A mouse button; buttons other than left, right and middle are told apart by their code. */
  datatype Button = Left | Right | Middle | Extra(code: nat)

  /** A keyboard modifier that can be held during an event. */
  datatype Modifier = Shift | Control | Alt | Meta | Keypad

  /** The modifier test the overlay uses: exactly Ctrl, no other modifier held. */
  predicate ExactlyCtrl(mods: set<Modifier>) {
    mods == {Control}
  }

  /** The keys the overlay distinguishes; every other key is `OtherKey`. */
  datatype Key = Escape | KeyS | KeyZ | KeyE | OtherKey(code: int)
}
