/**
 * Rows of on/off marks: the `active` class over the carousel's dots and over
 * the navigation links.
 */
module Marks {

  /** `n` marks where only position `k` is on (none, when `k` is outside `[0, n)`). */
  function OneHot(n: nat, k: int): (marks: seq<bool>)
    ensures |marks| == n
    ensures forall i | 0 <= i < n :: marks[i] == (i == k)
  {
    seq(n, i => i == k)
  }

  /** How many marks are on. */
  function CountOn(marks: seq<bool>): (c: nat)
    ensures c <= |marks|
  {
    if marks == [] then 0
    else CountOn(marks[..|marks| - 1]) + (if marks[|marks| - 1] then 1 else 0)
  }

  /** A one-hot row has exactly one mark on when its position is in range, and none otherwise. */
  lemma {:induction false} OneHotCount(n: nat, k: int)
    ensures CountOn(OneHot(n, k)) == if 0 <= k < n then 1 else 0
  {
    if n > 0 {
      assert OneHot(n, k)[..n - 1] == OneHot(n - 1, k);
      OneHotCount(n - 1, k);
    }
  }
}
