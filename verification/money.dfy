/**
 * Fixed-precision money and the random draws the ledger consumes.
 *
 * Every amount is an integer number of mills (thousandths of a dollar).
 * The handlers round with `Math.round(x * 100) / 100`, which rounds a half
 * toward positive infinity; `RoundCents` is that operation on mills, exact
 * for both signs because Dafny's `/` on a positive divisor is floor division.
 */
module Money {

  /** An amount of money in thousandths of a dollar. */
  type Mills = int

  /** One cent, in mills. */
  const Cent: Mills := 10

  /** A draw of `Math.random()`: a real in [0, 1). */
  type Unit = r: real | 0.0 <= r < 1.0

  predicate WholeCents(m: Mills) {
    m % Cent == 0
  }

  /** `Math.round(n / d)`: the nearest integer, halves toward +infinity. */
  function RoundDiv(n: int, d: int): (q: int)
    requires d > 0
    ensures 2 * q * d - d <= 2 * n < 2 * q * d + d
  {
    (2 * n + d) / (2 * d)
  }

  /** The amount `n / d` mills rounded to a whole cent, as `Math.round(x * 100) / 100` does. */
  function RoundCentsOf(n: int, d: int): (r: Mills)
    requires d > 0
    ensures WholeCents(r)
    ensures 2 * r * d - 10 * d <= 2 * n < 2 * r * d + 10 * d
  {
    RoundDiv(n, 10 * d) * 10
  }

  /** `Math.round(m * 100) / 100` for an amount of `m` mills. */
  function RoundCents(m: Mills): (r: Mills)
    ensures WholeCents(r)
    ensures m - 5 < r <= m + 5
    ensures WholeCents(m) ==> r == m
  {
    RoundCentsOf(m, 1)
  }

  /** The cent amount `k * m` mills rounded, for a multiplier `k = p / q`. */
  function RoundScaled(m: Mills, p: int, q: int): (r: Mills)
    requires q > 0
    ensures WholeCents(r)
    ensures 2 * r * q - 10 * q <= 2 * m * p < 2 * r * q + 10 * q
  {
    RoundCentsOf(m * p, q)
  }

  /** Whole-cent amounts are closed under sums and differences. */
  lemma WholeCentsArith(a: Mills, b: Mills)
    ensures WholeCents(a) && WholeCents(b) ==> WholeCents(a + b) && WholeCents(a - b)
  {
    if WholeCents(a) && WholeCents(b) {
      assert a + b == 10 * (a / 10 + b / 10);
      assert a - b == 10 * (a / 10 - b / 10);
    }
  }

  /** A whole multiple of a whole-cent amount needs no rounding. */
  lemma RoundScaledWhole(m: Mills, k: nat)
    requires WholeCents(m)
    ensures RoundScaled(m, 10 * k, 10) == k * m
  {
    var j := m / 10;
    assert m == 10 * j;
    var p := k * j;
    assert m * (10 * k) == 100 * p;
    assert RoundScaled(m, 10 * k, 10) == (2 * (100 * p) + 100) / 200 * 10;
    assert (200 * p + 100) / 200 == p;
    assert k * m == 10 * p;
  }

  /** Adding whole cents commutes with rounding. */
  lemma {:induction false} RoundCentsShift(m: Mills, c: Mills)
    requires WholeCents(c)
    ensures RoundCents(m + c) == RoundCents(m) + c
  {
    var k := c / 10;
    assert c == 10 * k;
    assert (2 * (m + c) + 10) / 20 == (2 * m + 10 + 20 * k) / 20;
    assert (2 * m + 10 + 20 * k) / 20 == (2 * m + 10) / 20 + k;
  }

  /**
   * A uniform draw in [low, low + span] rounded to the cent, with `span`
   * and `low` given in cents: a whole-cent amount in that range.
   */
  function DrawCents(r: Unit, low: int, span: nat): (m: Mills)
    ensures WholeCents(m)
    ensures 10 * low <= m <= 10 * (low + span)
  {
    var x := Scale(r, span);
    10 * (x + low as real + 0.5).Floor
  }

  /** `r * n` for a unit draw r: a real in [0, n], below n when n is positive. */
  function Scale(r: Unit, n: nat): (x: real)
    ensures 0.0 <= x <= n as real
    ensures n > 0 ==> x < n as real
  {
    var x := r * n as real;
    UnitScaleBounds(r, n, x);
    x
  }

  /** `r * n` lies in [0, n] when r is a unit draw. */
  lemma UnitScaleBounds(r: Unit, n: nat, x: real)
    requires x == r * n as real
    ensures 0.0 <= x <= n as real
    ensures n > 0 ==> x < n as real
  {
    var nr := n as real;
    assert nr - x == (1.0 - r) * nr;
    if n > 0 {
      assert (1.0 - r) * nr > 0.0;
    } else {
      assert nr == 0.0;
    }
  }

  /** A uniform index below n, the floor of a draw scaled by n. */
  function PickIndex(r: Unit, n: nat): (i: nat)
    requires n > 0
    ensures i < n
  {
    Scale(r, n).Floor
  }
}
