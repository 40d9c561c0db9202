/**
 The two thickness counters (pen and eraser) and the mouse-wheel rule that steps them
 by one per event, clamped to [1, cap].
 */
module Thickness {

  /** Thinnest stroke either counter allows. */
  const MinWidth: int := 1

  /** Upper bound of the pen thickness (its slider's maximum). */
  const PenCap: int := 20

  /** Upper bound of the eraser thickness (its slider's maximum). */
  const EraserCap: int := 50

  /** True when `t` lies in [MinWidth, cap]. */
  predicate InRange(t: int, cap: int) {
    MinWidth <= t <= cap
  }

  /** One wheel event: a positive vertical delta thickens by one, any other delta (zero
      included) thins by one; the thickened value never exceeds `cap`, the thinned value
      never falls below 1. */
  function Adjust(t: int, delta: int, cap: int): (r: int)
    requires MinWidth <= cap
    ensures delta > 0 ==> r <= cap && (r == t + 1 || r == cap)
    ensures delta <= 0 ==> r >= MinWidth && (r == t - 1 || r == MinWidth)
    ensures InRange(t, cap) ==> InRange(r, cap)
    ensures InRange(t, cap) && delta > 0 ==> t <= r <= t + 1
    ensures InRange(t, cap) && delta <= 0 ==> t - 1 <= r <= t
  {
    if delta > 0 then
      if t + 1 <= cap then t + 1 else cap
    else
      if t - 1 >= MinWidth then t - 1 else MinWidth
  }

  /** Away from the cap, a notch up is undone by a notch down. */
  lemma UpThenDown(t: int, up: int, down: int, cap: int)
    requires MinWidth <= t < cap && up > 0 && down <= 0
    ensures Adjust(Adjust(t, up, cap), down, cap) == t
  {
  }

  /** Away from the floor, a notch down is undone by a notch up. */
  lemma DownThenUp(t: int, down: int, up: int, cap: int)
    requires MinWidth < t <= cap && up > 0 && down <= 0
    ensures Adjust(Adjust(t, down, cap), up, cap) == t
  {
  }

  /** The counter after `n` wheel events with the same delta. */
  function AdjustTimes(t: int, delta: int, cap: int, n: nat): int
    requires MinWidth <= cap
    decreases n
  {
    if n == 0 then t else AdjustTimes(Adjust(t, delta, cap), delta, cap, n - 1)
  }

  /** Scrolling up `n` notches from an in-range thickness saturates at the cap. */
  lemma {:induction false} ScrollUpSaturates(t: int, delta: int, cap: int, n: nat)
    requires InRange(t, cap) && delta > 0
    ensures AdjustTimes(t, delta, cap, n) == if t + n <= cap then t + n else cap
    decreases n
  {
    if n > 0 {
      ScrollUpSaturates(Adjust(t, delta, cap), delta, cap, n - 1);
    }
  }

  /** Scrolling down `n` notches (or with a zero delta) from an in-range thickness saturates at 1. */
  lemma {:induction false} ScrollDownSaturates(t: int, delta: int, cap: int, n: nat)
    requires InRange(t, cap) && delta <= 0
    ensures AdjustTimes(t, delta, cap, n) == if t - n >= MinWidth then t - n else MinWidth
    decreases n
  {
    if n > 0 {
      ScrollDownSaturates(Adjust(t, delta, cap), delta, cap, n - 1);
    }
  }
}
