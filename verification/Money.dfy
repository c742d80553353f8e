/** Money as the portal reports it: BDT with two decimals.
    A value is held as a `real`; one hundredth of a taka is a poisha. */
module Money {

  /** `Math.round(value * 100) / 100`, where `Math.round` sends a half upwards. */
  function Round2(x: real): real {
    (x * 100.0 + 0.5).Floor as real / 100.0
  }

  /** JavaScript's `Math.round`. */
  function RoundHalfUp(x: real): int {
    (x + 0.5).Floor
  }

  ghost predicate WholePoisha(x: real) {
    x * 100.0 == (x * 100.0).Floor as real
  }

  function Abs(x: real): real { if x < 0.0 then -x else x }

  lemma Round2Close(x: real)
    ensures Abs(Round2(x) - x) <= 0.005
    ensures WholePoisha(Round2(x))
  {
  }

  /** Rounding only ever moves a figure that was not a whole number of poisha. */
  lemma Round2FixedPoints(x: real)
    ensures Round2(x) == x <==> WholePoisha(x)
  {
    Round2Close(x);
    if WholePoisha(x) {
      HalfAboveWhole((x * 100.0).Floor);
    }
  }

  lemma HalfAboveWhole(n: int)
    ensures (n as real + 0.5).Floor == n
  {
  }

  lemma FloorOfWhole(n: int)
    ensures (n as real).Floor == n
  {
  }

  lemma WholePoishaSum(x: real, y: real)
    requires WholePoisha(x) && WholePoisha(y)
    ensures WholePoisha(x + y)
  {
    var m, n := (x * 100.0).Floor, (y * 100.0).Floor;
    assert (x + y) * 100.0 == (m + n) as real;
    FloorOfWhole(m + n);
  }

  lemma WholePoishaDifference(x: real, y: real)
    requires WholePoisha(x) && WholePoisha(y)
    ensures WholePoisha(x - y)
  {
    var m, n := (x * 100.0).Floor, (y * 100.0).Floor;
    assert (x - y) * 100.0 == (m - n) as real;
    FloorOfWhole(m - n);
  }
}
