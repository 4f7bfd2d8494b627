/** Counting the true entries of a sequence. */
module Tallies {

  function Tally(flags: seq<bool>): nat {
    if flags == [] then 0 else Tally(flags[..|flags| - 1]) + if flags[|flags| - 1] then 1 else 0
  }

  lemma TallyAppend(flags: seq<bool>, last: bool)
    ensures Tally(flags + [last]) == Tally(flags) + if last then 1 else 0
  {
    assert (flags + [last])[..|flags|] == flags;
  }

  lemma {:induction false} TallyUpdate(flags: seq<bool>, i: nat, flag: bool)
    requires i < |flags|
    ensures Tally(flags[i := flag]) + (if flags[i] then 1 else 0) == Tally(flags) + if flag then 1 else 0
    decreases flags
  {
    var n := |flags| - 1;
    if i == n {
      assert flags[i := flag][..n] == flags[..n];
    } else {
      TallyUpdate(flags[..n], i, flag);
      assert flags[i := flag][..n] == flags[..n][i := flag];
    }
  }

  lemma {:induction false} TallyMonotone(fewer: seq<bool>, more: seq<bool>)
    requires |fewer| == |more| && forall i :: 0 <= i < |fewer| ==> fewer[i] ==> more[i]
    ensures Tally(fewer) <= Tally(more)
    decreases fewer
  {
    if fewer != [] {
      TallyMonotone(fewer[..|fewer| - 1], more[..|fewer| - 1]);
    }
  }

  lemma {:induction false} TallyNone(flags: seq<bool>)
    requires forall i :: 0 <= i < |flags| ==> !flags[i]
    ensures Tally(flags) == 0
    decreases flags
  {
    if flags != [] { TallyNone(flags[..|flags| - 1]); }
  }
}
