/** The "active" CSS class over a list of elements, as a sequence of flags
    (true = the element carries the class). Shared by the slider's slides and
    dots, and by the destination filter's buttons. */
module Marks {

  /** Number of elements carrying the class. */
  function CountActive(flags: seq<bool>): (r: nat)
    ensures r <= |flags|
    ensures r == 0 <==> forall k :: 0 <= k < |flags| ==> !flags[k]
  {
    if flags == [] then 0
    else CountActive(flags[..|flags| - 1]) + (if flags[|flags| - 1] then 1 else 0)
  }

  /** The flags left after clearing the class from `n` elements and adding it
      back to element `i` alone, when such an element exists. */
  function OnlyAt(n: nat, i: int): (r: seq<bool>)
    ensures |r| == n
  {
    seq(n, k => k == i)
  }

  /** Clearing then marking one index leaves exactly one element active when
      the index is in range, and none otherwise. */
  lemma {:induction false} CountOnlyAt(n: nat, i: int)
    ensures CountActive(OnlyAt(n, i)) == if 0 <= i < n then 1 else 0
  {
    if n > 0 {
      assert OnlyAt(n, i)[..n - 1] == OnlyAt(n - 1, i);
      CountOnlyAt(n - 1, i);
    }
  }

  /** Hence never more than one. */
  lemma AtMostOneActive(n: nat, i: int)
    ensures CountActive(OnlyAt(n, i)) <= 1
  {
    CountOnlyAt(n, i);
  }
}
