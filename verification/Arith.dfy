/** Facts about products and floor division used throughout. */
module Arith {
  lemma MulMonotone(a: nat, b: nat, c: nat)
    requires a <= b
    ensures a * c <= b * c
  {
  }

  lemma QuotientBelow(n: nat, d: nat, q: nat)
    requires d > 0 && n < q * d
    ensures n / d < q
  {
    if n / d >= q {
      MulMonotone(q, n / d, d);
    }
  }

  lemma QuotientAtLeast(n: nat, d: nat, q: nat)
    requires d > 0 && q * d <= n
    ensures q <= n / d
  {
    if n / d < q {
      MulMonotone(n / d + 1, q, d);
    }
  }

  lemma MulDivBelow(x: nat, y: nat, z: nat)
    requires y <= z && z > 0
    ensures x * y / z <= x
  {
    MulMonotone(y, z, x);
    assert x * y < (x + 1) * z;
    QuotientBelow(x * y, z, x + 1);
  }

  lemma UniqueQuotient(x: nat, d: nat, q: nat, r: nat)
    requires d > 0 && r < d && x == d * q + r
    ensures x / d == q && x % d == r
  {
    var q', r' := x / d, x % d;
    assert x == d * q' + r';
    if q' < q {
      MulMonotone(q' + 1, q, d);
    } else if q < q' {
      MulMonotone(q + 1, q', d);
    }
  }

  lemma NestedDivision(x: nat, y: nat, z: nat)
    requires y > 0 && z > 0
    ensures y * z > 0
    ensures x / y / z == x / (y * z)
  {
    var m := x / y;
    var q, r := m / z, m % z;
    MulMonotone(1, y, z);
    Regroup(x, y, z, m, q, r, x % y);
    RemainderBound(y, z, r, x % y);
    UniqueQuotient(x, y * z, q, y * r + x % y);
  }

  lemma Regroup(x: nat, y: nat, z: nat, m: nat, q: nat, r: nat, s: nat)
    requires x == y * m + s && m == z * q + r
    ensures x == y * z * q + (y * r + s)
  {
    assert y * m == y * (z * q) + y * r;
    assert y * (z * q) == y * z * q;
  }

  lemma RemainderBound(y: nat, z: nat, r: nat, s: nat)
    requires r < z && s < y
    ensures y * r + s < y * z
  {
    MulMonotone(r + 1, z, y);
    assert (r + 1) * y == y * r + y;
  }

  /** `coll0` per `debt0` is at most `coll` per `debt`. */
  ghost predicate RatioAtLeast(coll: int, debt: int, coll0: int, debt0: int) {
    coll * debt0 >= coll0 * debt
  }

  lemma CompareRatios(coll: nat, debt: nat, coll0: nat, debt0: nat)
    requires RatioAtLeast(coll, debt, coll0, debt0) && debt > 0 && debt0 > 0
    ensures coll0 as real / debt0 as real <= coll as real / debt as real
  {
    var x, x0 := coll as real / debt as real, coll0 as real / debt0 as real;
    assert (coll * debt0) as real == coll as real * debt0 as real;
    assert (coll0 * debt) as real == coll0 as real * debt as real;
    assert x * debt as real == coll as real && x0 * debt0 as real == coll0 as real;
    if x < x0 {
      var d, e := debt as real, debt0 as real;
      StrictlyScaled(x, x0, d * e);
      assert x * (d * e) == x * d * e && x0 * (d * e) == x0 * e * d;
    }
  }

  lemma StrictlyScaled(x: real, y: real, k: real)
    requires x < y && k > 0.0
    ensures x * k < y * k
  {
  }
}
