/** Python's `int()` applied to a float, over exact reals, and the small
    facts about real multiplication and division the coordinate maps need.
    Each fact is stated over plain variables so that the solver sees one
    product or quotient at a time. */
module Numbers {

  /** `int(x)`: truncation toward zero (not floor: `int(-0.5) == 0`). */
  function Trunc(x: real): (r: int)
    ensures 0.0 <= x ==> 0 <= r && r as real <= x < r as real + 1.0
    ensures x < 0.0 ==> r <= 0 && r as real - 1.0 < x <= r as real
  {
    if x >= 0.0 then x.Floor else -((-x).Floor)
  }

  /** Truncation toward zero never reverses the order of two values. */
  lemma TruncMonotone(x: real, y: real)
    requires x <= y
    ensures Trunc(x) <= Trunc(y)
  {
    if 0.0 <= x {
      assert x.Floor <= y.Floor;
    } else if y < 0.0 {
      assert (-y).Floor <= (-x).Floor;
    }
  }

  /** A frame count `int(rate * seconds)`, as the modules compute
      `visualsearchframes` and `fixationframes`. */
  function FrameCount(rate: real, seconds: real): (n: int)
    ensures 0.0 <= rate * seconds ==> 0 <= n && n as real <= rate * seconds < n as real + 1.0
  {
    Trunc(rate * seconds)
  }

  /** `int(rate * seconds)` for a non-negative rate and duration. */
  function Frames(rate: real, seconds: real): (n: nat)
    requires rate >= 0.0 && seconds >= 0.0
    ensures n as real <= rate * seconds < n as real + 1.0
  {
    MulMonotone(0.0, rate, seconds);
    FrameCount(rate, seconds)
  }

  /** `int(floor(a * s))`. */
  function FloorTimes(a: real, s: real): int
  {
    (a * s).Floor
  }

  lemma DivMul(a: real, b: real)
    requires b != 0.0
    ensures a / b * b == a
  {
  }

  lemma MulDiv(a: real, b: real)
    requires b != 0.0
    ensures a * b / b == a
  {
  }

  lemma DivUnique(a: real, b: real, q: real)
    requires b != 0.0 && q * b == a
    ensures a / b == q
  {
  }

  lemma DivMonotone(a: real, a': real, b: real)
    requires b > 0.0 && a <= a'
    ensures a / b <= a' / b
  {
    DivMul(a, b);
    DivMul(a', b);
  }

  lemma DivStrict(a: real, a': real, b: real)
    requires b > 0.0 && a < a'
    ensures a / b < a' / b
  {
    DivMul(a, b);
    DivMul(a', b);
  }

  lemma MulMonotone(a: real, a': real, b: real)
    requires b >= 0.0 && a <= a'
    ensures a * b <= a' * b
  {
    assert a' * b - a * b == (a' - a) * b;
  }

  lemma MulNonPos(g: real, s: real)
    requires s > 0.0 && g <= 0.0
    ensures g * s <= 0.0
  {
  }

  /** `d * s < 1` with `s > 0` puts `d` below `1 / s`. */
  lemma BelowReciprocal(d: real, s: real)
    requires s > 0.0 && d * s < 1.0
    ensures d < 1.0 / s
  {
    var e := 1.0 / s;
    DivMul(1.0, s);
    var p, q := d * s, e * s;
    assert q == 1.0;
    assert p < q;
    var g := e - d;
    assert g * s == q - p;
    if g <= 0.0 {
      MulNonPos(g, s);
    }
  }

  /** A scaled difference below one in size is a difference below `1 / s`. */
  lemma ScaledDiffClose(d: real, s: real)
    requires s > 0.0 && -1.0 < d * s < 1.0
    ensures -1.0 / s < d < 1.0 / s
  {
    BelowReciprocal(d, s);
    var m := -d;
    var p := d * s;
    assert m * s == -p;
    BelowReciprocal(m, s);
    assert -1.0 / s == -(1.0 / s);
  }

  /** Two values with the same floor are less than one apart. */
  lemma FloorClose(x: real, y: real)
    requires x.Floor == y.Floor
    ensures -1.0 < x - y < 1.0
  {
  }

  /** Values whose products with `s` share a floor are less than `1 / s` apart. */
  lemma SameFloorClose(a: real, b: real, s: real)
    requires s > 0.0 && FloorTimes(a, s) == FloorTimes(b, s)
    ensures -1.0 / s < a - b < 1.0 / s
  {
    var x, y := a * s, b * s;
    FloorClose(x, y);
    var d := a - b;
    assert d * s == x - y;
    ScaledDiffClose(d, s);
  }
}
