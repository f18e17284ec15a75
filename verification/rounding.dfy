/** The percentages the dashboard pages show, `Math.round((part / whole) * 100)`,
    computed on the exact quotient: the nearest integer, a half rounded up. */
module Rounding {

  /** `Math.round(n / d)` for a positive divisor: `r` is within a half of
      `n / d`, and a quotient exactly half-way rounds up. */
  function RoundDiv(n: int, d: int): (r: int)
    requires d > 0
    ensures d * (2 * r - 1) <= 2 * n < d * (2 * r + 1)
  {
    var q := (2 * n + d) / (2 * d);
    var m := (2 * n + d) % (2 * d);
    assert 2 * n + d == 2 * d * q + m && 0 <= m < 2 * d;
    assert d * (2 * q - 1) == 2 * d * q - d;
    assert d * (2 * q + 1) == 2 * d * q + d;
    q
  }

  /** `whole > 0 ? Math.round((part / whole) * 100) : 0`. */
  function Percentage(part: int, whole: int): (r: int)
    ensures whole <= 0 ==> r == 0
    ensures whole > 0 ==> whole * (2 * r - 1) <= 200 * part < whole * (2 * r + 1)
  {
    if whole > 0 then RoundDiv(100 * part, whole) else 0
  }

  /** A share of a whole is a percentage between 0 and 100; nothing of it is
      0 and all of it is 100. */
  lemma PercentageBounds(part: int, whole: int)
    ensures 0 <= part <= whole ==> 0 <= Percentage(part, whole) <= 100
    ensures part == 0 ==> Percentage(part, whole) == 0
    ensures 0 < part == whole ==> Percentage(part, whole) == 100
  {
    if whole > 0 && 0 <= part <= whole {
      var r := Percentage(part, whole);
      if r < 0 {
        assert 2 * r + 1 <= -1;
        MulMonotone(whole, 2 * r + 1, -1);
        assert false;
      }
      if r > 100 {
        assert 2 * r - 1 >= 201;
        MulMonotone(whole, 201, 2 * r - 1);
        assert false;
      }
      if part == 0 && r != 0 {
        if r > 0 {
          MulMonotone(whole, 1, 2 * r - 1);
        } else {
          MulMonotone(whole, 2 * r + 1, -1);
        }
        assert false;
      }
      if part == whole && r != 100 {
        if r > 100 {
        } else {
          MulMonotone(whole, 2 * r + 1, 199);
        }
        assert false;
      }
    }
  }

  /** A larger share never shows a smaller percentage. */
  lemma PercentageMonotone(a: int, b: int, whole: int)
    requires a <= b
    ensures Percentage(a, whole) <= Percentage(b, whole)
  {
    if whole > 0 {
      var ra, rb := Percentage(a, whole), Percentage(b, whole);
      if ra > rb {
        assert 2 * rb + 1 <= 2 * ra - 1;
        MulMonotone(whole, 2 * rb + 1, 2 * ra - 1);
        assert false;
      }
    }
  }

  lemma MulMonotone(d: int, x: int, y: int)
    requires d > 0 && x <= y
    ensures d * x <= d * y
  {
  }
}
