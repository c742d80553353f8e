/** The two small datatypes the source writes as `T | null` and as a thrown error, and what every module counts with. */
module Prelude {

  datatype Option<+T> = None | Some(value: T) {
    predicate IsFailure() { None? }

    function PropagateFailure<U>(): Option<U>
      requires None?
    {
      None
    }

    function Extract(): T
      requires Some?
    {
      value
    }
  }

  datatype Result<+T, +E> = Ok(value: T) | Err(error: E) {
    predicate IsFailure() { Err? }

    function PropagateFailure<U>(): Result<U, E>
      requires Err?
    {
      Err(error)
    }

    function Extract(): T
      requires Ok?
    {
      value
    }
  }

  const SECONDS_PER_DAY := 86_400
  const MS_PER_DAY := 86_400_000

  function Max(a: int, b: int): int { if a >= b then a else b }

  function Min(a: int, b: int): int { if a <= b then a else b }

  /** A sequence with the element at `i` taken out. */
  function Without<T>(xs: seq<T>, i: nat): (r: seq<T>)
    requires i < |xs|
    ensures |r| == |xs| - 1
  {
    xs[..i] + xs[i + 1..]
  }

  lemma WithoutMiddle<T>(xs: seq<T>, x: T, ys: seq<T>)
    ensures (xs + [x] + ys)[|xs|] == x && Without(xs + [x] + ys, |xs|) == xs + ys
  {
  }

  lemma AppendOneMore<T>(xs: seq<T>, ys: seq<T>)
    ensures ys == [] ==> xs + ys == xs
    ensures ys != [] ==>
              var n := |ys| - 1;
              ys == ys[..n] + [ys[n]] && xs + ys == xs + ys[..n] + [ys[n]]
  {
  }

  lemma MultisetCancel<T>(a: multiset<T>, b: multiset<T>, x: T)
    requires a + multiset{x} == b + multiset{x}
    ensures a == b
  {
    assert a == (a + multiset{x}) - multiset{x};
    assert b == (b + multiset{x}) - multiset{x};
  }

  lemma SameMembers<T>(xs: seq<T>, ys: seq<T>, x: T)
    requires multiset(xs) == multiset(ys)
    ensures x in xs <==> x in ys
  {
    assert x in xs <==> x in multiset(xs);
    assert x in ys <==> x in multiset(ys);
  }

  /** The last element of one listing, found in another listing of the same elements. */
  lemma MatchLast<T>(rs: seq<T>, ts: seq<T>) returns (j: nat)
    requires multiset(rs) == multiset(ts) && rs != []
    ensures j < |ts| && ts[j] == rs[|rs| - 1]
    ensures multiset(rs[..|rs| - 1]) == multiset(ts[..j] + ts[j + 1..])
  {
    var n := |rs| - 1;
    assert rs == rs[..n] + [rs[n]];
    assert rs[n] in multiset(ts);
    j :| 0 <= j < |ts| && ts[j] == rs[n];
    assert ts == ts[..j] + [ts[j]] + ts[j + 1..];
    assert multiset(ts) == multiset(ts[..j] + ts[j + 1..]) + multiset{rs[n]};
    MultisetCancel(multiset(rs[..n]), multiset(ts[..j] + ts[j + 1..]), rs[n]);
  }
}
