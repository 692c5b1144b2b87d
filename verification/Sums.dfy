/** Sums of the values of a finite map, over the integers. */
module IntSums {
  /** The key that the recursion of `Sum` removes first. */
  ghost function Pick<K>(m: map<K, int>): K
    requires m.Keys != {}
  {
    var k :| k in m.Keys;
    k
  }

  ghost function Sum<K>(m: map<K, int>): int
    decreases |m|
  {
    if m.Keys == {} then 0 else
      var k := Pick(m);
      assert |m - {k}| < |m| by { SmallerMap(m, k); }
      m[k] + Sum(m - {k})
  }

  lemma SmallerMap<K, V>(m: map<K, V>, k: K)
    requires k in m
    ensures |m - {k}| < |m|
  {
    assert (m - {k}).Keys == m.Keys - {k};
    assert |m.Keys - {k}| < |m.Keys|;
  }

  /** The order in which keys are removed is immaterial. */
  lemma {:induction false} SumRemove<K>(m: map<K, int>, k: K)
    requires k in m
    ensures Sum(m) == m[k] + Sum(m - {k})
    decreases |m|
  {
    var p := Pick(m);
    if p != k {
      SmallerMap(m, p);
      SmallerMap(m, k);
      SumRemove(m - {p}, k);
      SumRemove(m - {k}, p);
      assert m - {p} - {k} == m - {k} - {p};
    }
  }

  lemma SumUpdate<K>(m: map<K, int>, k: K, v: int)
    ensures Sum(m[k := v]) == v + Sum(m) - (if k in m then m[k] else 0)
  {
    SumRemove(m[k := v], k);
    assert m[k := v] - {k} == m - {k};
    if k in m {
      SumRemove(m, k);
    } else {
      assert m - {k} == m;
    }
  }

  /** The sum is linear in the summands. */
  lemma {:induction false} SumLinear<K>(m: map<K, int>, x: map<K, int>, y: map<K, int>, b: int)
    requires m.Keys == x.Keys == y.Keys
    requires forall k :: k in m ==> m[k] == x[k] + b * y[k]
    ensures Sum(m) == Sum(x) + b * Sum(y)
    decreases |m|
  {
    if m.Keys == {} {
      assert Sum(y) == 0;
    } else {
      var k := Pick(m);
      SmallerMap(m, k);
      SumLinear(m - {k}, x - {k}, y - {k}, b);
      Distribute(b, y[k], Sum(y - {k}));
      SumRemove(x, k);
      SumRemove(y, k);
    }
  }

  lemma Distribute(b: int, p: int, q: int)
    ensures b * (p + q) == b * p + b * q
  {
  }

  lemma {:induction false} SumMonotone<K>(x: map<K, int>, y: map<K, int>)
    requires x.Keys == y.Keys
    requires forall k :: k in x ==> x[k] <= y[k]
    ensures Sum(x) <= Sum(y)
    decreases |x|
  {
    if x.Keys != {} {
      var k := Pick(x);
      SmallerMap(x, k);
      SumRemove(x, k);
      SumRemove(y, k);
      SumMonotone(x - {k}, y - {k});
    }
  }

  lemma {:induction false} SumNonNegative<K>(m: map<K, int>)
    requires forall k :: k in m ==> m[k] >= 0
    ensures Sum(m) >= 0
    ensures forall k :: k in m ==> m[k] <= Sum(m)
    decreases |m|
  {
    forall k | k in m
      ensures 0 <= m[k] <= Sum(m)
    {
      SmallerMap(m, k);
      SumRemove(m, k);
      SumNonNegative(m - {k});
    }
  }
}

/** The same for the reals. */
module RealSums {
  import opened IntSums

  ghost function PickReal<K>(m: map<K, real>): K
    requires m.Keys != {}
  {
    var k :| k in m.Keys;
    k
  }

  ghost function RealSum<K>(m: map<K, real>): real
    decreases |m|
  {
    if m.Keys == {} then 0.0 else
      var k := PickReal(m);
      assert |m - {k}| < |m| by { SmallerMap(m, k); }
      m[k] + RealSum(m - {k})
  }

  lemma {:induction false} RealSumRemove<K>(m: map<K, real>, k: K)
    requires k in m
    ensures RealSum(m) == m[k] + RealSum(m - {k})
    decreases |m|
  {
    var p := PickReal(m);
    if p != k {
      SmallerMap(m, p);
      SmallerMap(m, k);
      RealSumRemove(m - {p}, k);
      RealSumRemove(m - {k}, p);
      assert m - {p} - {k} == m - {k} - {p};
    }
  }

  lemma RealSumUpdate<K>(m: map<K, real>, k: K, v: real)
    ensures RealSum(m[k := v]) == v + RealSum(m) - (if k in m then m[k] else 0.0)
  {
    RealSumRemove(m[k := v], k);
    assert m[k := v] - {k} == m - {k};
    if k in m {
      RealSumRemove(m, k);
    } else {
      assert m - {k} == m;
    }
  }

  /** A product under a name, so that quantified facts about products stay tame. */
  ghost function Times(b: real, x: real): real {
    b * x
  }

  lemma TimesAdd(b: real, p: real, q: real, r: real)
    requires r == p + q
    ensures Times(b, r) == Times(b, p) + Times(b, q)
  {
  }

  lemma ShrunkPart(f: real, x: real)
    requires 0.0 <= f <= 1.0
    ensures if x >= 0.0 then 0.0 <= Times(f, x) <= x else x <= Times(f, x) <= 0.0
  {
  }

  lemma Shrunk(f: real, x: real, bound: real)
    requires 0.0 <= f <= 1.0 && -bound <= x <= bound
    ensures -bound <= Times(f, x) <= bound
  {
    ShrunkPart(f, x);
  }

  /** The sum is linear in the summands. */
  lemma {:induction false} RealSumAddScaled<K>(m: map<K, real>, x: map<K, real>, y: map<K, real>, b: real)
    requires m.Keys == x.Keys == y.Keys
    requires forall k :: k in m ==> m[k] == x[k] + Times(b, y[k])
    ensures RealSum(m) == RealSum(x) + Times(b, RealSum(y))
    decreases |m|
  {
    if m.Keys == {} {
      assert RealSum(y) == 0.0;
    } else {
      var k := PickReal(m);
      SmallerMap(m, k);
      RealSumRemove(x, k);
      RealSumRemove(y, k);
      RealSumAddScaled(m - {k}, x - {k}, y - {k}, b);
      TimesAdd(b, y[k], RealSum(y - {k}), RealSum(y));
    }
  }

  lemma RealSumScale<K>(m: map<K, real>, y: map<K, real>, b: real)
    requires m.Keys == y.Keys
    requires forall k :: k in m ==> m[k] == Times(b, y[k])
    ensures RealSum(m) == Times(b, RealSum(y))
  {
    var zero := map k | k in m :: 0.0;
    RealSumZero(zero);
    RealSumAddScaled(m, zero, y, b);
  }

  lemma {:induction false} RealSumZero<K>(m: map<K, real>)
    requires forall k :: k in m ==> m[k] == 0.0
    ensures RealSum(m) == 0.0
    decreases |m|
  {
    if m.Keys != {} {
      SmallerMap(m, PickReal(m));
      RealSumZero(m - {PickReal(m)});
    }
  }

  lemma {:induction false} RealSumNonNegative<K>(m: map<K, real>)
    requires forall k :: k in m ==> m[k] >= 0.0
    ensures RealSum(m) >= 0.0
    decreases |m|
  {
    if m.Keys != {} {
      var k := PickReal(m);
      SmallerMap(m, k);
      RealSumRemove(m, k);
      RealSumNonNegative(m - {k});
    }
  }

  /** Smaller summands, smaller sum. */
  lemma {:induction false} RealSumMonotone<K>(m: map<K, real>, n: map<K, real>)
    requires m.Keys == n.Keys && forall k :: k in m ==> m[k] <= n[k]
    ensures RealSum(m) <= RealSum(n)
    decreases |m|
  {
    if m.Keys != {} {
      var k := PickReal(m);
      SmallerMap(m, k);
      RealSumRemove(n, k);
      RealSumMonotone(m - {k}, n - {k});
    }
  }

  /** Whole numbers below non-negative reals, summed over fewer keys. */
  lemma {:induction false} SumBelowRealSum<K>(x: map<K, int>, y: map<K, real>)
    requires x.Keys <= y.Keys
    requires forall k :: k in y ==> y[k] >= 0.0
    requires forall k :: k in x ==> x[k] as real <= y[k]
    ensures Sum(x) as real <= RealSum(y)
    decreases |y|
  {
    if y.Keys != {} {
      var k := PickReal(y);
      SmallerMap(y, k);
      if k in x {
        SumRemove(x, k);
        SumBelowRealSum(x - {k}, y - {k});
      } else {
        SumBelowRealSum(x, y - {k});
      }
    }
  }
}
