/** How many calls stand between two of their own steps at once, at any point of a run. */
module Overlap {

  /** At no point of the run more than `k`, as `open` counts them after a prefix of it. */
  ghost predicate AtMostAtOnce<M>(open: seq<M> -> nat, moves: seq<M>, k: nat) {
    forall n :: 0 <= n <= |moves| ==> open(moves[..n]) <= k
  }

  lemma AtOnceNow<M>(open: seq<M> -> nat, moves: seq<M>, k: nat)
    requires AtMostAtOnce(open, moves, k)
    ensures open(moves) <= k
  {
    assert moves[..|moves|] == moves;
  }

  lemma AtOnceBefore<M>(open: seq<M> -> nat, moves: seq<M>, k: nat)
    requires moves != [] && AtMostAtOnce(open, moves, k)
    ensures AtMostAtOnce(open, moves[..|moves| - 1], k)
  {
    var earlier := moves[..|moves| - 1];
    forall n | 0 <= n <= |earlier| ensures open(earlier[..n]) <= k {
      assert earlier[..n] == moves[..n];
    }
  }

  lemma AtOnceAfter<M>(open: seq<M> -> nat, moves: seq<M>, move: M, k: nat)
    requires AtMostAtOnce(open, moves, k)
    ensures (moves + [move])[..|moves|] == moves
    ensures open(moves + [move]) <= k ==> AtMostAtOnce(open, moves + [move], k)
  {
    var more := moves + [move];
    assert more[..|moves|] == moves;
    forall n | 0 <= n <= |more| && open(more) <= k ensures open(more[..n]) <= k {
      if n == |more| { assert more[..n] == more; } else { assert more[..n] == moves[..n]; }
    }
  }
}
