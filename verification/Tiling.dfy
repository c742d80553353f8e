/** Usage windows that cover a stretch of time exactly once. */
module Tiling {
  import opened Prelude
  import opened UsageSampling

  /** The samples, in the order they were stored, lead from one instant to another without a gap or an overlap. */
  predicate Chain(samples: seq<UsageSample>, from: int, to: int) {
    if samples == [] then from == to
    else
      var last := samples[|samples| - 1];
      && last.windowStart < last.windowEnd
      && last.windowEnd == to
      && Chain(samples[..|samples| - 1], from, last.windowStart)
  }

  predicate Covers(s: UsageSample, t: int) {
    s.windowStart < t <= s.windowEnd
  }

  /** How many samples claim the instant `t`. */
  function CoverCount(samples: seq<UsageSample>, t: int): nat {
    if samples == [] then 0
    else CoverCount(samples[..|samples| - 1], t) + (if Covers(samples[|samples| - 1], t) then 1 else 0)
  }

  /** The windows share out `(from, to]`: every instant in it is measured once, and no other instant at all. */
  ghost predicate Tiles(samples: seq<UsageSample>, from: int, to: int) {
    forall t {:trigger CoverCount(samples, t)} :: CoverCount(samples, t) == if from < t <= to then 1 else 0
  }

  lemma {:induction false} ChainTiles(samples: seq<UsageSample>, from: int, to: int)
    requires Chain(samples, from, to)
    ensures from <= to
    ensures Tiles(samples, from, to)
  {
    if samples != [] {
      var last := samples[|samples| - 1];
      ChainTiles(samples[..|samples| - 1], from, last.windowStart);
    }
  }

  lemma {:induction false} ChainBounds(samples: seq<UsageSample>, from: int, to: int)
    requires Chain(samples, from, to)
    ensures from <= to
    ensures forall s :: s in samples ==> from <= s.windowStart < s.windowEnd <= to
  {
    if samples != [] {
      var n := |samples| - 1;
      ChainBounds(samples[..n], from, samples[n].windowStart);
      assert samples == samples[..n] + [samples[n]];
    }
  }

  /** A chain has one end, whatever its start is taken to be. */
  lemma ChainEndIsUnique(samples: seq<UsageSample>, from: int, to: int, other: int)
    requires Chain(samples, from, to) && Chain(samples, from, other)
    ensures to == other
  {
  }

  // ---------------------------------------------------------------- tilings in any order

  ghost predicate Proper(samples: seq<UsageSample>) {
    forall s :: s in samples ==> s.windowStart < s.windowEnd
  }

  ghost predicate TileAStretch(samples: seq<UsageSample>) {
    exists from, to :: Tiles(samples, from, to)
  }

  function Earliest(samples: seq<UsageSample>): int
    requires samples != []
  {
    var last := samples[|samples| - 1];
    if |samples| == 1 then last.windowStart else Min(Earliest(samples[..|samples| - 1]), last.windowStart)
  }

  function Latest(samples: seq<UsageSample>): int
    requires samples != []
  {
    var last := samples[|samples| - 1];
    if |samples| == 1 then last.windowEnd else Max(Latest(samples[..|samples| - 1]), last.windowEnd)
  }

  /** Windows cover the first instant after they begin and the last before they end, and nothing beyond. */
  lemma {:induction false} CoverEnds(samples: seq<UsageSample>)
    requires Proper(samples) && samples != []
    ensures Earliest(samples) < Latest(samples)
    ensures CoverCount(samples, Earliest(samples) + 1) >= 1 && CoverCount(samples, Latest(samples)) >= 1
    ensures forall t :: t <= Earliest(samples) || Latest(samples) < t ==> CoverCount(samples, t) == 0
  {
    var n := |samples| - 1;
    assert samples[n] in samples;
    if n > 0 {
      CoverEnds(samples[..n]);
    }
  }

  lemma TilesItsEnds(samples: seq<UsageSample>, from: int, to: int)
    requires Proper(samples) && samples != [] && Tiles(samples, from, to)
    ensures from == Earliest(samples) && to == Latest(samples) && from < to
  {
    CoverEnds(samples);
    assert CoverCount(samples, from + 1) == (if from < to then 1 else 0);
    assert CoverCount(samples, to) == (if from < to then 1 else 0);
  }

  lemma {:induction false} CoverCountOfOneMore(samples: seq<UsageSample>, s: UsageSample, t: int)
    ensures CoverCount(samples + [s], t) == CoverCount(samples, t) + (if Covers(s, t) then 1 else 0)
  {
    assert (samples + [s])[..|samples|] == samples;
  }

  /** A window added to a tiling makes a tiling exactly when it meets one of its ends, or is the first. */
  lemma StretchOfOneMore(samples: seq<UsageSample>, s: UsageSample)
    requires Proper(samples) && TileAStretch(samples) && s.windowStart < s.windowEnd
    ensures TileAStretch(samples + [s])
       <==> samples == [] || s.windowStart == Latest(samples) || s.windowEnd == Earliest(samples)
  {
    var from, to :| Tiles(samples, from, to);
    forall t ensures CoverCount(samples + [s], t)
                  == (if from < t <= to then 1 else 0) + (if Covers(s, t) then 1 else 0) {
      CoverCountOfOneMore(samples, s, t);
      assert CoverCount(samples, t) == if from < t <= to then 1 else 0;
    }
    if samples == [] {
      NothingCovered(from, to);
      assert Tiles(samples + [s], s.windowStart, s.windowEnd);
    } else {
      TilesItsEnds(samples, from, to);
      if s.windowStart == to {
        assert Tiles(samples + [s], from, s.windowEnd);
      } else if s.windowEnd == from {
        assert Tiles(samples + [s], s.windowStart, to);
      } else {
        ApartOrAcross(samples + [s], s, from, to);
      }
    }
  }

  lemma NothingCovered(from: int, to: int)
    requires Tiles([], from, to)
    ensures to <= from
  {
    assert CoverCount([], from + 1) == 0;
  }

  /** Away from both ends a window leaves a gap or covers something twice. */
  lemma ApartOrAcross(samples: seq<UsageSample>, s: UsageSample, from: int, to: int)
    requires from < to && s.windowStart < s.windowEnd && s.windowStart != to && s.windowEnd != from
    requires forall t {:trigger CoverCount(samples, t)} ::
               CoverCount(samples, t) == (if from < t <= to then 1 else 0) + (if Covers(s, t) then 1 else 0)
    ensures !TileAStretch(samples)
  {
    var both := Max(s.windowStart, from) + 1;
    assert s.windowStart < to && from < s.windowEnd ==> CoverCount(samples, both) == 2;
    assert s.windowEnd < from ==>
      CoverCount(samples, s.windowEnd) == 1 && CoverCount(samples, from) == 0 && CoverCount(samples, to) == 1;
    assert to < s.windowStart ==>
      CoverCount(samples, to) == 1 && CoverCount(samples, s.windowStart) == 0 && CoverCount(samples, s.windowEnd) == 1;
    forall a, b ensures !Tiles(samples, a, b) {
    }
  }

  // ---------------------------------------------------------------- time covered

  /** Length of the part of `(s.windowStart, s.windowEnd]` that lies in `(a, b]`. */
  function Within(s: UsageSample, a: int, b: int): nat {
    Max(0, Min(s.windowEnd, b) - Max(s.windowStart, a))
  }

  function CoveredTime(samples: seq<UsageSample>, a: int, b: int): nat {
    if samples == [] then 0
    else CoveredTime(samples[..|samples| - 1], a, b) + Within(samples[|samples| - 1], a, b)
  }

  /** What a chain covers of an interval is the interval's meeting with the chain's whole stretch. */
  lemma {:induction false} ChainCoveredTime(samples: seq<UsageSample>, from: int, to: int, a: int, b: int)
    requires Chain(samples, from, to) && a <= b
    ensures CoveredTime(samples, a, b) == Max(0, Min(to, b) - Max(from, a))
  {
    if samples != [] {
      var last := samples[|samples| - 1];
      ChainCoveredTime(samples[..|samples| - 1], from, last.windowStart, a, b);
      ChainBounds(samples[..|samples| - 1], from, last.windowStart);
    }
  }
}
