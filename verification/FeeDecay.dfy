/**
 * Fixed-point exponentiation and the base rate that decays with it. The decay factor is compared
 * with the exact power, and the base rate with exact exponential decay over every run of events.
 */
module FeeDecay {
  import opened Base
  import opened Arith

  const HALF: nat := 500_000_000_000_000_000
  const MAX_MINUTES: nat := 525_600_000

  /** `decMul`: the product of two 18-digit decimals, rounded to nearest. */
  function DecMul(x: nat, y: nat): nat {
    (x * y + HALF) / DECIMAL_PRECISION
  }

  /** The loop of `_decPow` from `n` on. */
  function PowFrom(y: nat, x: nat, n: nat): nat
    decreases n
  {
    if n <= 1 then DecMul(x, y)
    else if n % 2 == 0 then PowFrom(y, DecMul(x, x), n / 2)
    else PowFrom(DecMul(x, y), DecMul(x, x), (n - 1) / 2)
  }

  /** `_decPow`. */
  function DecPow(base: nat, minutes: nat): nat {
    if minutes == 0 then DECIMAL_PRECISION else PowFrom(DECIMAL_PRECISION, base, Min(minutes, MAX_MINUTES))
  }

  // ---------------------------------------------------------------------------
  // Exact values
  // ---------------------------------------------------------------------------

  /** The number that an 18-digit decimal stands for. */
  ghost function Value(x: nat): real {
    x as real / DECIMAL_PRECISION as real
  }

  /** Half a unit in the last place. */
  const ULP2: real := 0.000_000_000_000_000_000_5

  ghost function Power(b: real, n: nat): real {
    if n == 0 then 1.0 else b * Power(b, n - 1)
  }

  ghost predicate Within(x: real, y: real, e: real) {
    -e <= x - y <= e
  }

  ghost predicate Unit(x: real) {
    0.0 <= x <= 1.0
  }

  lemma UnitProduct(x: real, y: real)
    requires Unit(x) && Unit(y)
    ensures Unit(x * y) && x * y <= x && x * y <= y
  {
  }

  lemma {:induction false} PowerUnit(b: real, n: nat)
    requires Unit(b)
    ensures Unit(Power(b, n))
  {
    if n > 0 {
      PowerUnit(b, n - 1);
      UnitProduct(b, Power(b, n - 1));
    }
  }

  lemma {:induction false} PowerAdd(b: real, m: nat, n: nat)
    ensures Power(b, m + n) == Power(b, m) * Power(b, n)
  {
    if m > 0 {
      PowerAdd(b, m - 1, n);
      assert b * (Power(b, m - 1) * Power(b, n)) == b * Power(b, m - 1) * Power(b, n);
    }
  }

  lemma {:induction false} PowerSquare(b: real, n: nat)
    ensures Power(b * b, n) == Power(b, 2 * n)
  {
    if n > 0 {
      PowerSquare(b, n - 1);
      var p := Power(b, 2 * n - 2);
      assert Power(b, 2 * n) == b * Power(b, 2 * n - 1) == b * (b * p);
      assert b * b * p == b * (b * p);
    }
  }

  /** The product `p` lies between zero and `d`. */
  lemma Shrinks(c: real, d: real, p: real)
    requires Unit(c) && p == c * d
    ensures if d >= 0.0 then 0.0 <= p <= d else d <= p <= 0.0
  {
  }

  lemma ShrinksWithin(c: real, d: real, e: real, p: real)
    requires Unit(c) && -e <= d <= e && p == c * d
    ensures -e <= p <= e
  {
    Shrinks(c, d, p);
  }

  lemma Difference(c: real, x: real, y: real)
    ensures c * x - c * y == c * (x - y)
  {
  }

  /** A small error in one factor stays small in a product. */
  lemma ScaledError(c: real, x: real, y: real, e: real)
    requires Unit(c) && Within(x, y, e)
    ensures Within(c * x, c * y, e)
  {
    var d := x - y;
    ShrinksWithin(c, d, e, c * d);
    Difference(c, x, y);
  }

  /** On the unit interval the n-th power moves at most n times as far as its base. */
  lemma {:induction false} PowerLipschitz(x: real, y: real, n: nat, e: real)
    requires Unit(x) && Unit(y) && Within(x, y, e)
    ensures Within(Power(x, n), Power(y, n), n as real * e)
  {
    if n > 0 {
      var p, q := Power(x, n - 1), Power(y, n - 1);
      PowerLipschitz(x, y, n - 1, e);
      PowerUnit(y, n - 1);
      ScaledError(x, p, q, (n - 1) as real * e);
      ScaledError(q, x, y, e);
      assert Within(x * p, x * q, (n - 1) as real * e) && Within(q * x, q * y, e);
      assert n as real * e == (n - 1) as real * e + e;
    }
  }

  // ---------------------------------------------------------------------------
  // Accuracy of the exponentiation
  // ---------------------------------------------------------------------------

  lemma DecMulRounds(x: nat, y: nat)
    ensures Within(Value(DecMul(x, y)), Value(x) * Value(y), ULP2)
  {
    var p, q := x * y, DecMul(x, y);
    assert q * DECIMAL_PRECISION <= p + HALF < q * DECIMAL_PRECISION + DECIMAL_PRECISION;
    ProductValue(x, y);
    ScaledWithin(q, p);
  }

  lemma ProductValue(x: nat, y: nat)
    ensures Value(x) * Value(y) == (x * y) as real / (DECIMAL_PRECISION as real * DECIMAL_PRECISION as real)
  {
    var u := DECIMAL_PRECISION as real;
    assert (x * y) as real == x as real * y as real;
    assert Value(x) * u == x as real && Value(y) * u == y as real;
    var vx, vy := Value(x), Value(y);
    assert vx * u * (vy * u) == vx * vy * (u * u);
  }

  lemma ScaledWithin(q: nat, p: nat)
    requires q * DECIMAL_PRECISION <= p + HALF < q * DECIMAL_PRECISION + DECIMAL_PRECISION
    ensures Within(Value(q), p as real / (DECIMAL_PRECISION as real * DECIMAL_PRECISION as real), ULP2)
  {
  }

  lemma DecMulUnit(x: nat, y: nat)
    requires x <= DECIMAL_PRECISION && y <= DECIMAL_PRECISION
    ensures DecMul(x, y) <= DECIMAL_PRECISION
    ensures Unit(Value(x))
  {
    MulMonotone(x, DECIMAL_PRECISION, y);
    QuotientBelow(x * y + HALF, DECIMAL_PRECISION, DECIMAL_PRECISION + 1);
  }

  /** Errors add up. */
  lemma WithinSum(x: real, y: real, z: real, e: real, f: real)
    requires Within(x, y, e) && Within(y, z, f)
    ensures Within(x, z, e + f)
  {
  }

  ghost function Errors(n: nat): real {
    n as real * ULP2
  }

  /** What the loop variables stand for: `y * x^n`. */
  ghost function Standing(y: nat, x: nat, n: nat): real {
    Value(y) * Power(Value(x), n)
  }

  lemma SquaredPower(x: nat, n: nat)
    requires x <= DECIMAL_PRECISION
    ensures Within(Power(Value(DecMul(x, x)), n), Power(Value(x), 2 * n), Errors(n))
  {
    var v, w := Value(x), Value(DecMul(x, x));
    DecMulRounds(x, x);
    DecMulUnit(x, x);
    DecMulUnit(DecMul(x, x), x);
    UnitProduct(v, v);
    PowerLipschitz(w, v * v, n, ULP2);
    PowerSquare(v, n);
  }

  /** Squaring the base and halving an even exponent costs `n / 2` roundings at most. */
  lemma SquareStep(y: nat, x: nat, n: nat)
    requires x <= DECIMAL_PRECISION && y <= DECIMAL_PRECISION
    ensures Within(Standing(y, DecMul(x, x), n), Standing(y, x, 2 * n), Errors(n))
  {
    SquaredPower(x, n);
    DecMulUnit(y, x);
    ScaledError(Value(y), Power(Value(DecMul(x, x)), n), Power(Value(x), 2 * n), Errors(n));
  }

  /** Moving one factor of an odd power into `y` costs one more rounding. */
  lemma OddStep(y: nat, x: nat, n: nat)
    requires x <= DECIMAL_PRECISION && y <= DECIMAL_PRECISION
    ensures Within(Standing(DecMul(x, y), x, n), Standing(y, x, n + 1), ULP2)
  {
    var v, p := Value(x), Power(Value(x), n);
    DecMulRounds(x, y);
    DecMulUnit(x, y);
    PowerUnit(v, n);
    ScaledError(p, Value(DecMul(x, y)), v * Value(y), ULP2);
    assert p * (v * Value(y)) == Value(y) * (v * p);
  }

  /** One round of the loop for an odd exponent `2 * n + 1`. */
  lemma OddSquareStep(y: nat, x: nat, n: nat)
    requires x <= DECIMAL_PRECISION && y <= DECIMAL_PRECISION
    ensures Within(Standing(DecMul(x, y), DecMul(x, x), n), Standing(y, x, 2 * n + 1), Errors(n + 1))
  {
    DecMulUnit(x, y);
    SquareStep(DecMul(x, y), x, n);
    OddStep(y, x, 2 * n);
    WithinSum(Standing(DecMul(x, y), DecMul(x, x), n), Standing(DecMul(x, y), x, 2 * n), Standing(y, x, 2 * n + 1),
              Errors(n), ULP2);
  }

  lemma {:induction false} PowFromUnit(y: nat, x: nat, n: nat)
    requires x <= DECIMAL_PRECISION && y <= DECIMAL_PRECISION
    ensures PowFrom(y, x, n) <= DECIMAL_PRECISION
    decreases n
  {
    DecMulUnit(x, y);
    DecMulUnit(x, x);
    if n > 1 {
      PowFromUnit(if n % 2 == 0 then y else DecMul(x, y), DecMul(x, x), n / 2);
      assert n % 2 == 1 ==> (n - 1) / 2 == n / 2;
    }
  }

  /** From any point of the loop the result is off by at most half a unit per remaining factor. */
  lemma {:induction false} PowFromAccurate(y: nat, x: nat, n: nat)
    requires x <= DECIMAL_PRECISION && y <= DECIMAL_PRECISION && n > 0
    ensures Within(Value(PowFrom(y, x, n)), Standing(y, x, n), Errors(n))
    decreases n, 1
  {
    if n == 1 {
      BaseRound(y, x);
    } else if n % 2 == 0 {
      EvenAccurate(y, x, n, n / 2);
    } else {
      OddAccurate(y, x, n, (n - 1) / 2);
    }
  }

  lemma EvenAccurate(y: nat, x: nat, n: nat, k: nat)
    requires x <= DECIMAL_PRECISION && y <= DECIMAL_PRECISION && 0 < k && n == 2 * k
    ensures Within(Value(PowFrom(y, x, n)), Standing(y, x, n), Errors(n))
    decreases n, 0
  {
    var r := PowFrom(y, DecMul(x, x), k);
    assert PowFrom(y, x, n) == r by { assert n % 2 == 0 && n / 2 == k; }
    DecMulUnit(x, x);
    PowFromAccurate(y, DecMul(x, x), k);
    EvenRound(y, x, n, k, r);
  }

  lemma OddAccurate(y: nat, x: nat, n: nat, k: nat)
    requires x <= DECIMAL_PRECISION && y <= DECIMAL_PRECISION && 0 < k && n == 2 * k + 1
    ensures Within(Value(PowFrom(y, x, n)), Standing(y, x, n), Errors(n))
    decreases n, 0
  {
    var r := PowFrom(DecMul(x, y), DecMul(x, x), k);
    assert PowFrom(y, x, n) == r by { assert n % 2 == 1 && (n - 1) / 2 == k; }
    DecMulUnit(x, y);
    DecMulUnit(x, x);
    PowFromAccurate(DecMul(x, y), DecMul(x, x), k);
    OddRound(y, x, n, k, r);
  }

  /** A result accurate after a round is accurate before it, with the errors of both. */
  lemma EvenRound(y: nat, x: nat, n: nat, k: nat, r: nat)
    requires x <= DECIMAL_PRECISION && y <= DECIMAL_PRECISION && n == 2 * k
    requires Within(Value(r), Standing(y, DecMul(x, x), k), Errors(k))
    ensures Within(Value(r), Standing(y, x, n), Errors(n))
  {
    SquareStep(y, x, k);
    ErrorsAdd(k, k);
    WithinSum(Value(r), Standing(y, DecMul(x, x), k), Standing(y, x, n), Errors(k), Errors(k));
  }

  lemma OddRound(y: nat, x: nat, n: nat, k: nat, r: nat)
    requires x <= DECIMAL_PRECISION && y <= DECIMAL_PRECISION && n == 2 * k + 1
    requires Within(Value(r), Standing(DecMul(x, y), DecMul(x, x), k), Errors(k))
    ensures Within(Value(r), Standing(y, x, n), Errors(n))
  {
    OddSquareStep(y, x, k);
    ErrorsAdd(k, k + 1);
    WithinSum(Value(r), Standing(DecMul(x, y), DecMul(x, x), k), Standing(y, x, n), Errors(k), Errors(k + 1));
  }

  lemma BaseRound(y: nat, x: nat)
    ensures Within(Value(DecMul(x, y)), Standing(y, x, 1), Errors(1))
  {
    DecMulRounds(x, y);
    LastStep(y, x);
  }

  lemma LastStep(y: nat, x: nat)
    ensures Standing(y, x, 1) == Value(x) * Value(y) && Errors(1) == ULP2
  {
    assert Power(Value(x), 1) == Value(x) * Power(Value(x), 0) == Value(x);
  }

  lemma ErrorsAdd(m: nat, n: nat)
    ensures Errors(m) + Errors(n) == Errors(m + n)
  {
  }

  /**
   * `_decPow` of a base up to 1: at most 1, and within half a unit of the last place per minute
   * of the exact power, of the capped exponent.
   */
  lemma DecPowAccurate(base: nat, minutes: nat)
    requires base <= DECIMAL_PRECISION
    ensures DecPow(base, minutes) <= DECIMAL_PRECISION
    ensures
      var n := Min(minutes, MAX_MINUTES);
      Within(Value(DecPow(base, minutes)), Power(Value(base), n), Errors(n))
  {
    if minutes > 0 {
      var n := Min(minutes, MAX_MINUTES);
      PowFromUnit(DECIMAL_PRECISION, base, n);
      PowFromAccurate(DECIMAL_PRECISION, base, n);
      assert Value(DECIMAL_PRECISION) == 1.0;
      assert Standing(DECIMAL_PRECISION, base, n) == Power(Value(base), n);
    }
  }

  /** The loop itself. */
  method DecPowLoop(base: nat, minutes: nat) returns (r: nat)
    ensures r == DecPow(base, minutes)
    ensures base <= DECIMAL_PRECISION ==>
              Within(Value(r), Power(Value(base), Min(minutes, MAX_MINUTES)), Errors(Min(minutes, MAX_MINUTES)))
  {
    var n := if minutes > MAX_MINUTES then MAX_MINUTES else minutes;
    if n == 0 {
      return DECIMAL_PRECISION;
    }
    var y, x := DECIMAL_PRECISION, base;
    while n > 1
      invariant n > 0
      invariant PowFrom(y, x, n) == DecPow(base, minutes)
    {
      if n % 2 == 0 {
        x, n := DecMul(x, x), n / 2;
      } else {
        y, x, n := DecMul(x, y), DecMul(x, x), (n - 1) / 2;
      }
    }
    r := DecMul(x, y);
    if base <= DECIMAL_PRECISION {
      DecPowAccurate(base, minutes);
    }
  }
}
