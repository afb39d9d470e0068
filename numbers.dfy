/**
 * Exact-arithmetic counterparts of the Python numeric built-ins the
 * evaluation scripts use: `int()` of a float (truncation toward zero) and `round(x, d)` (nearest, ties to even).
 */
module Numbers {
  import opened Text

  /** `int(x)` for a float: truncation toward zero. */
  function Trunc(x: real): (r: int)
    ensures x >= 0.0 ==> r as real <= x < r as real + 1.0
    ensures x < 0.0 ==> r as real - 1.0 < x <= r as real
  {
    if x >= 0.0 then x.Floor else -((-x).Floor)
  }

  function Scale(d: nat): (s: real)
    ensures s >= 1.0
  {
    Pow10(d) as real
  }

  /** `round(x)` to an integer: nearest, ties to the even neighbour. */
  function RoundToInt(x: real): (n: int)
    ensures (n as real - x) <= 0.5 && (x - n as real) <= 0.5
    ensures (n as real - x == 0.5 || x - n as real == 0.5) ==> n % 2 == 0
  {
    var f := x.Floor;
    var frac := x - f as real;
    if frac < 0.5 then f
    else if frac > 0.5 then f + 1
    else if f % 2 == 0 then f else f + 1
  }

  /** `round(x, d)` for `d >= 0` decimal places. */
  function Round(x: real, d: nat): (r: real)
  {
    (RoundToInt(x * Scale(d)) as real) / Scale(d)
  }

  lemma RoundUnfold(x: real, d: nat)
    ensures Round(x, d) == (RoundToInt(x * Scale(d)) as real) / Scale(d)
  {
  }

  /** Rounding moves a value by at most half a unit in the last place. */
  lemma RoundClose(x: real, d: nat)
    ensures -0.5 / Scale(d) <= Round(x, d) - x <= 0.5 / Scale(d)
  {
    var a := RoundToInt(x * Scale(d)) as real;
    var e := a - x * Scale(d);
    RoundUnfold(x, d);
    assert a / Scale(d) - (x * Scale(d)) / Scale(d) == e / Scale(d);
    assert (x * Scale(d)) / Scale(d) == x;
    DivMono(-0.5, e, Scale(d));
    DivMono(e, 0.5, Scale(d));
  }

  /** `round(x, 3)` is within half a thousandth of `x`. */
  lemma RoundThousandth(x: real)
    ensures -0.5 / 1000.0 <= Round(x, 3) - x <= 0.5 / 1000.0
  {
    RoundClose(x, 3);
    assert Scale(3) == 1000.0;
  }

  lemma DivMono(a: real, b: real, s: real)
    requires a <= b && s > 0.0
    ensures a / s <= b / s
  {
    assert b / s - a / s == (b - a) / s;
  }

  /** A value already written with `d` decimals is unchanged by rounding. */
  lemma RoundExact(n: int, d: nat)
    ensures Round(n as real / Scale(d), d) == n as real / Scale(d)
  {
    var x := n as real / Scale(d);
    RoundUnfold(x, d);
    assert RoundToInt(x * Scale(d)) == n by {
      assert x * Scale(d) == n as real;
    }
  }
}
