/** A stack of free slots that are linked to each other, listed from the bottom up. */
module FreeStacks {

  /** What is below position `k`; -1 stands for nothing. */
  function Below(free: seq<int>, k: int): int
    requires 0 <= k <= |free|
  {
    if k > 0 then free[k - 1] else -1
  }

  /** Popping the top changes nothing below it, and loses nothing else. */
  lemma Popped(free: seq<int>, left: seq<int>)
    requires free != [] && left == free[..|free| - 1]
    ensures forall k :: 0 <= k < |free| ==> Below(left, k) == Below(free, k)
    ensures forall id :: id in free ==> id in left || id == free[|free| - 1]
  {
    assert free == left + [free[|free| - 1]];
  }

  /** Pushing a slot changes nothing below it. */
  lemma Pushed(free: seq<int>, id: int, more: seq<int>)
    requires more == free + [id]
    ensures forall k :: 0 <= k <= |free| ==> Below(more, k) == Below(free, k)
  {
  }
}
