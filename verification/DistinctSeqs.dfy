/** Counting the items of a sequence without duplicates. */
module DistinctSeqs {

  lemma {:induction false} DistinctCount(ids: seq<int>)
    requires forall i, j :: 0 <= i < j < |ids| ==> ids[i] != ids[j]
    ensures |set id | id in ids| == |ids|
  {
    if ids != [] {
      DistinctCount(ids[1..]);
      assert (set id | id in ids) == (set id | id in ids[1..]) + {ids[0]};
    }
  }
}
