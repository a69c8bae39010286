/**
 * JavaScript's Math.floor, Math.ceil, Math.round and the `%` operator on
 * numbers, stated on exact reals (IEEE rounding is not modelled).
 */
module JsMath {

  /** Math.floor: the greatest integer not above x. */
  function Floor(x: real): (r: int)
    ensures r as real <= x < r as real + 1.0
  {
    x.Floor
  }

  /** Math.ceil: the least integer not below x. */
  function Ceil(x: real): (r: int)
    ensures x <= r as real < x + 1.0
  {
    -((-x).Floor)
  }

  /** Math.round: the nearest integer, with halves going toward +Infinity. */
  function Round(x: real): (r: int)
    ensures x - 0.5 < r as real <= x + 0.5
  {
    (x + 0.5).Floor
  }

  /** Truncation toward zero, which `%` on numbers is defined with. */
  function Trunc(x: real): (r: int)
    ensures 0.0 <= x ==> r as real <= x < r as real + 1.0
    ensures x < 0.0 ==> x <= r as real < x + 1.0
  {
    if x >= 0.0 then x.Floor else -((-x).Floor)
  }

  /** The `%` operator on numbers: the result has the sign of the dividend. */
  function Rem(x: real, y: real): (r: real)
    requires y != 0.0
    ensures 0.0 <= x && 0.0 < y ==> 0.0 <= r < y
  {
    var q := Trunc(x / y) as real;
    if 0.0 <= x && 0.0 < y then
      assert q <= x / y < q + 1.0;
      RemainderBetween(x, y, q);
      x - y * q
    else
      x - y * q
  }

  /** If q <= x / y < q + 1 for a positive y, then x - y * q lies in [0, y). */
  lemma RemainderBetween(x: real, y: real, q: real)
    requires 0.0 < y && q <= x / y < q + 1.0
    ensures 0.0 <= x - y * q < y
  {
    var v := x / y;
    assert y * v == x;
    PositiveProduct(y, v - q);
    PositiveProduct(y, q + 1.0 - v);
    assert y * (v - q) == x - y * q;
    assert y * (q + 1.0 - v) == y - (x - y * q);
    assert 0.0 < y * (q + 1.0 - v);
    assert 0.0 < y - (x - y * q);
  }

  lemma PositiveProduct(a: real, b: real)
    requires 0.0 < a && 0.0 <= b
    ensures 0.0 <= a * b
    ensures 0.0 < b ==> 0.0 < a * b
  {
  }

  lemma CeilMonotone(x: real, y: real)
    requires x <= y
    ensures Ceil(x) <= Ceil(y)
  {
  }

  lemma RoundMonotone(x: real, y: real)
    requires x <= y
    ensures Round(x) <= Round(y)
  {
  }

  /** Division by a positive constant keeps the order of the dividends. */
  lemma DivideMonotone(x: real, y: real, d: real)
    requires x <= y && 0.0 < d
    ensures x / d <= y / d
  {
  }
}
