/** Python list operations the rover code relies on. */
module Sequences {
  import opened Outcomes

  /** The element position that Python's `lst[i]` reads on a list of length `n`:
      a negative index counts from the end, and anything else out of range
      raises IndexError (None here). */
  function PyIndex(i: int, n: nat): (k: Option<nat>)
    ensures k.Some? <==> -(n as int) <= i < n
    ensures k.Some? ==> k.value < n
    ensures k.Some? && i >= 0 ==> k.value == i
    ensures k.Some? && i < 0 ==> k.value == n + i
  {
    if 0 <= i < n then Some(i)
    else if -(n as int) <= i < 0 then Some(n + i)
    else None
  }

  /** The list `list.reverse()` leaves behind. */
  function Reversed<T>(s: seq<T>): (r: seq<T>)
    ensures |r| == |s|
    ensures forall k :: 0 <= k < |s| ==> r[k] == s[|s| - 1 - k]
  {
    if s == [] then [] else Reversed(s[1..]) + [s[0]]
  }
}
