/** `bounded` (rover.py): clamping a value into the inclusive span of a range. */
module Bounds {

  /** `bounded(arg, val_range)` with `lo == min(val_range)` and `hi == max(val_range)`.
      Every caller passes a non-empty range (`range(n)` with n > 0, or the pair
      `(0, n - 1)` with n > 0), so `min` and `max` exist and `lo <= hi`. */
  function Bounded(arg: int, lo: int, hi: int): (r: int)
    requires lo <= hi
    ensures lo <= r <= hi
    ensures arg < lo ==> r == lo
    ensures arg > hi ==> r == hi
    ensures r == arg <==> lo <= arg <= hi
  {
    if arg < lo then lo
    else if arg > hi then hi
    else arg
  }

  /** Clamping an already clamped value changes nothing. */
  lemma BoundedIdempotent(arg: int, lo: int, hi: int)
    requires lo <= hi
    ensures Bounded(Bounded(arg, lo, hi), lo, hi) == Bounded(arg, lo, hi)
  {
  }

  /** Clamping preserves the order of its arguments. */
  lemma BoundedMonotone(a: int, b: int, lo: int, hi: int)
    requires lo <= hi && a <= b
    ensures Bounded(a, lo, hi) <= Bounded(b, lo, hi)
  {
  }
}
