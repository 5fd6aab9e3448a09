/** Shared value types and the numeric helpers that stand in for JavaScript's
    Math.round, Math.min/Math.max clamping, Number.prototype.toFixed and the
    truncating `%` operator. All arithmetic is exact (int / real); binary
    floating point is not modelled. */
module Common {

  datatype Option<+T> = None | Some(value: T)

  /** A value, or the message of the Error the source throws or returns. */
  datatype Result<+T> = Ok(value: T) | Err(message: string)

  /** Math.round: the nearest integer, halves rounded towards +infinity. */
  function Round(x: real): (r: int)
    ensures (r as real) - 0.5 <= x < (r as real) + 0.5
  {
    (x + 0.5).Floor
  }

  /** For an integer n and a positive integer d, Math.round(n / d) is (2n + d) div 2d. */
  lemma RoundOfQuotient(n: int, d: int)
    requires d > 0
    ensures Round(n as real / d as real) == (2 * n + d) / (2 * d)
  {
    var a, b := 2 * n + d, 2 * d;
    var x := n as real / d as real;
    assert x * (d as real) == n as real;
    assert (x + 0.5) * (b as real) == a as real by {
      assert (x + 0.5) * (b as real) == 2.0 * (x * (d as real)) + d as real;
    }
    QuotientUnique(a as real, b as real, x + 0.5);
    FloorOfQuotient(a, b);
  }

  /** Math.floor(a / d) for a positive integer d, which is Dafny's division for a
      positive divisor. */
  function FloorQuotient(a: int, d: int): (q: int)
    requires d > 0
    ensures d * q <= a < d * q + d
    ensures q == a / d
  {
    FloorOfQuotient(a, d);
    (a as real / d as real).Floor
  }

  lemma QuotientUnique(a: real, b: real, z: real)
    requires b != 0.0 && z * b == a
    ensures z == a / b
  {
  }

  lemma FloorOfQuotient(a: int, b: int)
    requires b > 0
    ensures (a as real / b as real).Floor == a / b
  {
    var q := a / b;
    var y := a as real / b as real;
    var br := b as real;
    assert y * br == a as real;
    assert b * q <= a < b * q + b;
    assert (b * q) as real == br * (q as real);
    assert (b * q + b) as real == br * ((q as real) + 1.0);
    if y < q as real {
      MulStrictMono(y, q as real, br);
      assert false;
    }
    if y >= (q as real) + 1.0 {
      MulMono((q as real) + 1.0, y, br);
      assert false;
    }
  }

  lemma MulStrictMono(x: real, y: real, c: real)
    requires x < y && c > 0.0
    ensures x * c < y * c
  {
  }

  lemma MulMono(x: real, y: real, c: real)
    requires x <= y && c >= 0.0
    ensures x * c <= y * c
  {
  }

  lemma MulSucc(k: int, x: int)
    ensures (k - 1) * x + x == k * x
  {
  }

  /** Bounds on integer division by a positive divisor. */
  lemma DivAtLeast(a: int, d: int, q: int)
    requires d > 0 && d * q <= a
    ensures q <= a / d
  {
    var x := a / d;
    if x < q {
      MulMonoInt(x + 1, q, d);
      assert false;
    }
  }

  lemma DivBelow(a: int, d: int, q: int)
    requires d > 0 && a < d * (q + 1)
    ensures a / d <= q
  {
    var x := a / d;
    if x > q {
      MulMonoInt(q + 1, x, d);
      assert false;
    }
  }

  lemma MulMonoInt(x: int, y: int, d: int)
    requires x <= y && d > 0
    ensures d * x <= d * y
  {
  }

  /** Math.round(s / n) for a mean of n values in [lo, hi] stays in [lo, hi]. */
  lemma QuotientBetween(s: int, n: int, lo: int, hi: int)
    requires n > 0 && n * lo <= s <= n * hi
    ensures lo <= (2 * s + n) / (2 * n) <= hi
  {
    assert (2 * n) * lo <= 2 * s + n;
    DivAtLeast(2 * s + n, 2 * n, lo);
    assert 2 * s + n < (2 * n) * (hi + 1);
    DivBelow(2 * s + n, 2 * n, hi);
  }

  function Pow10(k: nat): (r: nat)
    ensures r >= 1
  {
    if k == 0 then 1 else 10 * Pow10(k - 1)
  }

  /** The integer nearest to z, halves going away from zero: how toFixed rounds a
      value already scaled by 10^k. */
  function RoundHalfAway(z: real): (n: int)
    ensures z >= 0.0 ==> (n as real) - 0.5 <= z < (n as real) + 0.5
    ensures z < 0.0 ==> (n as real) - 0.5 < z <= (n as real) + 0.5
  {
    if z >= 0.0 then Round(z) else -Round(-z)
  }

  /** Any integer in that band is the one RoundHalfAway returns. */
  lemma RoundHalfAwayUnique(z: real, n: int)
    requires z >= 0.0 ==> (n as real) - 0.5 <= z < (n as real) + 0.5
    requires z < 0.0 ==> (n as real) - 0.5 < z <= (n as real) + 0.5
    ensures n == RoundHalfAway(z)
  {
    var m := RoundHalfAway(z);
    assert (n - m) as real < 1.0 && (m - n) as real < 1.0;
  }

  /** 10^k as a real: the scale at which toFixed(k) rounds to an integer. */
  function Scale(k: nat): (p: real)
    ensures p >= 1.0
  {
    Pow10(k) as real
  }

  /** parseFloat(x.toFixed(k)): toFixed rounds the magnitude half up at k decimal
      places and puts the sign back, so the rounding is symmetric around zero.
      The result has k decimals (scaled by 10^k it is an integer), that integer
      is the one nearest to x * 10^k with halves away from zero, and so the
      result is within half a unit of the k-th decimal of x. */
  function RoundFixed(x: real, k: nat): (r: real)
    ensures x >= 0.0 ==> r >= 0.0
    ensures r * Scale(k) == RoundHalfAway(x * Scale(k)) as real
    ensures -0.5 / Scale(k) <= r - x <= 0.5 / Scale(k)
  {
    SignedRound(x, Scale(k))
  }

  /** Any value with k decimals whose scaled integer is the nearest one to
      x * 10^k is the rounding of x. */
  lemma RoundFixedUnique(x: real, k: nat, y: real, n: int)
    requires y * Scale(k) == n as real
    requires x * Scale(k) >= 0.0 ==> (n as real) - 0.5 <= x * Scale(k) < (n as real) + 0.5
    requires x * Scale(k) < 0.0 ==> (n as real) - 0.5 < x * Scale(k) <= (n as real) + 0.5
    ensures y == RoundFixed(x, k)
  {
    SignedRoundUnique(x, Scale(k), y, n);
  }

  lemma SignedRoundUnique(x: real, p: real, y: real, n: int)
    requires p >= 1.0 && y * p == n as real
    requires x * p >= 0.0 ==> (n as real) - 0.5 <= x * p < (n as real) + 0.5
    requires x * p < 0.0 ==> (n as real) - 0.5 < x * p <= (n as real) + 0.5
    ensures y == SignedRound(x, p)
  {
    RoundHalfAwayUnique(x * p, n);
    MulCancel(SignedRound(x, p), y, p);
  }

  lemma MulCancel(a: real, b: real, p: real)
    requires p >= 1.0 && a * p == b * p
    ensures a == b
  {
    assert (a - b) * p == 0.0;
  }

  /** A value that already has k decimals is left as it is. */
  lemma RoundFixedFixpoint(x: real, k: nat, n: int)
    requires x * Scale(k) == n as real
    ensures RoundFixed(x, k) == x
  {
    RoundFixedUnique(x, k, x, n);
  }

  /** The rounding at scale p: the magnitude rounded half up, the sign put back. */
  function SignedRound(x: real, p: real): (r: real)
    requires p >= 1.0
    ensures x >= 0.0 ==> r >= 0.0
    ensures r * p == RoundHalfAway(x * p) as real
    ensures -0.5 / p <= r - x <= 0.5 / p
  {
    if x >= 0.0 then
      NonNegativeOnGrid(x, p);
      RoundScaled(x, p)
    else
      NegativeOnGrid(x, p);
      -RoundScaled(-x, p)
  }

  lemma NonNegativeOnGrid(x: real, p: real)
    requires x >= 0.0 && p >= 1.0
    ensures RoundScaled(x, p) * p == RoundHalfAway(x * p) as real
  {
    RoundScaledOnGrid(x, p);
    MulMono(0.0, x, p);
  }

  lemma NegativeOnGrid(x: real, p: real)
    requires x < 0.0 && p >= 1.0
    ensures (-RoundScaled(-x, p)) * p == RoundHalfAway(x * p) as real
  {
    var m := -x;
    var q := RoundScaled(m, p);
    RoundScaledOnGrid(m, p);
    assert m * p == -(x * p);
    MulStrictMono(x, 0.0, p);
    assert RoundHalfAway(x * p) == -Round(m * p);
    assert (-q) * p == -(q * p);
  }

  /** Math.round(m * p) / p for a magnitude m >= 0 and a scale p >= 1. */
  function RoundScaled(m: real, p: real): (q: real)
    requires m >= 0.0 && p >= 1.0
    ensures q >= 0.0
    ensures -0.5 / p <= q - m <= 0.5 / p
  {
    var n := Round(m * p);
    BoundsAfterScaling(n as real, m, p);
    (n as real) / p
  }

  lemma BoundsAfterScaling(n: real, x: real, p: real)
    requires p >= 1.0 && x >= 0.0
    requires n - 0.5 <= x * p <= n + 0.5
    ensures -0.5 / p <= n / p - x <= 0.5 / p
    ensures n > -1.0
  {
    assert n / p - x == (n - x * p) / p;
  }

  /** Scaled back up, the rounding of a magnitude is the integer Math.round(m * p). */
  lemma RoundScaledOnGrid(m: real, p: real)
    requires m >= 0.0 && p >= 1.0
    ensures RoundScaled(m, p) * p == Round(m * p) as real
  {
    var n := Round(m * p);
    assert (n as real / p) * p == n as real;
  }

  /** Math.max(lo, Math.min(hi, x)) for lo <= hi. */
  function Clamp(x: int, lo: int, hi: int): (r: int)
    requires lo <= hi
    ensures lo <= r <= hi
    ensures lo <= x <= hi ==> r == x
    ensures x < lo ==> r == lo
    ensures x > hi ==> r == hi
  {
    if x < lo then lo else if x > hi then hi else x
  }

  /** JavaScript's `a % b` for b > 0: the remainder takes the sign of the dividend. */
  function JsRem(a: int, b: int): (r: int)
    requires b > 0
    ensures a >= 0 ==> r == a % b
    ensures -b < r < b
    ensures a >= 0 ==> r >= 0
    ensures a <= 0 ==> r <= 0
    ensures (a - r) % b == 0
  {
    var m := if a >= 0 then a else -a;
    var q := m / b;
    assert m == q * b + m % b;
    if a >= 0 then
      MultipleRem(q, b);
      m % b
    else
      MultipleRem(-q, b);
      assert a + m % b == (-q) * b;
      -(m % b)
  }

  /** A multiple of b leaves no remainder. */
  lemma MultipleRem(x: int, b: int)
    requires b > 0
    ensures (x * b) % b == 0
  {
    var d, r := (x * b) / b, (x * b) % b;
    assert r == (x - d) * b;
    if x - d > 0 {
      MulMonoInt(1, x - d, b);
    } else if x - d < 0 {
      MulMonoInt(x - d, -1, b);
    }
  }
}
