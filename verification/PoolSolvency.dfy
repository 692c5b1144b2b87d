/**
 * Whether the Stability Pool holds what its depositors are owed, over every run of calls.
 */
module PoolSolvency {
  import opened Base
  import opened Arith
  import opened RealSums
  import opened StabilityPool
  import opened PoolLedger

  ghost function Values(n: Ledger): map<Address, real> {
    map a | a in n :: n[a].value
  }

  ghost function Gains(n: Ledger): map<Address, real> {
    map a | a in n :: n[a].gain
  }

  /** What all deposits are worth together. */
  ghost function Owed(n: Ledger): real {
    RealSum(Values(n))
  }

  /** What all gains are worth together. */
  ghost function OwedColl(n: Ledger): real {
    RealSum(Gains(n))
  }

  const UNIT: real := 1_000_000_000_000_000_000.0

  /** Holdings beyond what is owed and beyond a recorded division error, in units of 1e-18. */
  ghost function Beyond(held: nat, owed: real, error: nat): real {
    UNIT * (held as real - owed) - error as real
  }

  ghost function Slack(p: Pool, n: Ledger): real {
    Beyond(p.total, Owed(n), p.lossError)
  }

  ghost function CollSlack(p: Pool, n: Ledger): real {
    Beyond(p.coll, OwedColl(n), p.collError)
  }

  // ---------------------------------------------------------------------------
  // Offsets
  // ---------------------------------------------------------------------------

  lemma FloorRatio(x: nat, f: nat, w: nat)
    requires x > 0 && w > 0
    ensures (x * f / w) as real / x as real <= f as real / w as real
  {
    var q := x * f / w;
    assert q * w <= x * f;
    assert q as real * w as real <= x as real * f as real;
    CrossDivide(q as real, x as real, f as real, w as real);
  }

  lemma CrossDivide(a: real, b: real, c: real, d: real)
    requires b > 0.0 && d > 0.0 && a * d <= b * c
    ensures a / b <= c / d
  {
    var u, w, k := a / b, c / d, b * d;
    assert u * k == a * d by { assert u * b == a; }
    assert w * k == b * c by { assert w * d == c; }
    if u > w {
      StrictlyScaled(w, u, k);
    }
  }

  /** Rounding the product down never leaves a deposit more than its share. */
  lemma FactorBound(now: Product, factor: nat)
    requires now.P > 0
    ensures AppliedFactor(now, NextProduct(now, factor)) <= factor as real / UNIT
    ensures AppliedFactor(now, NextProduct(now, factor)) >= 0.0
  {
    var next := NextProduct(now, factor);
    LevelPositive(now);
    assert Level(next) >= 0.0;
    RelativeLevel(next, now);
    if factor != 0 && next.scale == now.scale {
      FloorRatio(now.P, factor, DECIMAL_PRECISION);
    } else if factor != 0 {
      FloorRatio(now.P, factor * SCALE_FACTOR, DECIMAL_PRECISION);
      assert now.P * (factor * SCALE_FACTOR) == now.P * factor * SCALE_FACTOR;
      ShiftRatio(next.P as real, now.P as real, factor as real);
    }
  }

  /** Nor less, beyond one unit in the last place of the product. */
  lemma FactorAccurate(now: Product, factor: nat)
    requires now.P > 0
    ensures AppliedFactor(now, NextProduct(now, factor)) >= factor as real / UNIT - 1.0 / now.P as real
  {
    var next := NextProduct(now, factor);
    LevelPositive(now);
    RelativeLevel(next, now);
    if factor != 0 && next.scale == now.scale {
      FloorRatioNear(now.P, factor, DECIMAL_PRECISION);
    } else if factor != 0 {
      ShiftedNear(now.P, factor, next.P);
    }
  }

  lemma ShiftedNear(x: nat, factor: nat, y: nat)
    requires x > 0 && y == x * factor * SCALE_FACTOR / DECIMAL_PRECISION
    ensures factor as real / UNIT - 1.0 / x as real <= y as real / (1_000_000_000.0 * x as real)
  {
    FloorRatioNear(x, factor * SCALE_FACTOR, DECIMAL_PRECISION);
    assert x * (factor * SCALE_FACTOR) == x * factor * SCALE_FACTOR;
    ShiftRatioNear(y as real, x as real, factor as real);
  }

  lemma FloorRatioNear(x: nat, f: nat, w: nat)
    requires x > 0 && w > 0
    ensures f as real / w as real <= (x * f / w) as real / x as real + 1.0 / x as real
  {
    var q := x * f / w;
    assert x * f < q * w + w;
    assert f as real * x as real <= w as real * (q as real + 1.0);
    CrossDivide(f as real, w as real, q as real + 1.0, x as real);
    assert (q as real + 1.0) / x as real == q as real / x as real + 1.0 / x as real;
  }

  lemma ShiftRatioNear(a: real, b: real, f: real)
    requires b >= 1.0 && f * 1_000_000_000.0 / UNIT <= a / b + 1.0 / b
    ensures f / UNIT - 1.0 / b <= a / (1_000_000_000.0 * b)
  {
    Quotient(a, 1_000_000_000.0 * b, (a / b) / 1_000_000_000.0);
    assert 1.0 / b > 0.0;
  }

  lemma ShiftRatio(a: real, b: real, f: real)
    requires b > 0.0 && a / b <= f * 1_000_000_000.0 / UNIT
    ensures a / (1_000_000_000.0 * b) <= f / UNIT
  {
    Quotient(a, 1_000_000_000.0 * b, (a / b) / 1_000_000_000.0);
  }

  lemma SettleAllOwed(n: Ledger, factor: real, rate: real)
    ensures Owed(SettleAll(n, factor, rate)) == Times(factor, Owed(n))
    ensures OwedColl(SettleAll(n, factor, rate)) == OwedColl(n) + Times(rate, Owed(n))
  {
    RealSumScale(Values(SettleAll(n, factor, rate)), Values(n), factor);
    RealSumAddScaled(Gains(SettleAll(n, factor, rate)), Gains(n), Values(n), rate);
  }

  lemma OwedNonNegative(p: Pool, n: Ledger)
    requires WellFormed(p) && Tracks(p, n)
    ensures Owed(n) >= 0.0
  {
    forall a | a in n ensures Values(n)[a] >= 0.0 {
      ValueNonNegative(p.now, p.deposits[a].initial, p.deposits[a].at);
    }
    RealSumNonNegative(Values(n));
  }

  /**
   * The slack equation of an offset. With `l` the loss per unit staked (as a fraction), a
   * backing `t`, worth `v`, an old error `e` and a new one `e'`, the loss actually taken is
   * `l * t`, so the excess `t - v` shrinks by `1 - l` while the whole old error is given back.
   */
  lemma SlackAlgebra(u: real, t: real, v: real, v': real, debt: real, loss: real, e: real, e': real, bound: real)
    requires 0.0 <= loss <= u && u > 0.0
    requires loss * t == debt * u - e + e'
    requires u * v' <= (u - loss) * v
    requires u * (t - v) - e >= -bound && 0.0 <= e <= bound
    ensures u * (t - debt - v') - e' >= -bound
  {
    var rest, excess := u - loss, t - v;
    assert u * (t - debt - v') - e' >= rest * excess - e by {
      assert rest * excess == u * t - loss * t - rest * v;
    }
    assert u * (rest * excess) >= u * (e - bound) by {
      AtLeast(rest, u * excess, e - bound);
      assert rest * (u * excess) == u * (rest * excess);
      AtLeast(loss, bound - e, 0.0);
      assert rest * (e - bound) == u * (e - bound) + loss * (bound - e);
    }
    Unscaled(u, rest * excess, e - bound);
  }

  lemma Unscaled(k: real, x: real, y: real)
    requires k > 0.0 && k * x >= k * y
    ensures x >= y
  {
    if x < y {
      StrictlyScaled(x, y, k);
    }
  }

  lemma AtLeast(k: real, x: real, y: real)
    requires k >= 0.0 && x >= y
    ensures k * x >= k * y
  {
  }

  lemma SlackAfter(total: nat, owed: real, owed': real, debt: nat, loss: nat, e: nat, e': nat, applied: real,
      bound: nat)
    requires loss <= DECIMAL_PRECISION && debt <= total && owed >= 0.0
    requires loss * total == debt * DECIMAL_PRECISION - e + e'
    requires owed' == Times(applied, owed) && applied <= (DECIMAL_PRECISION - loss) as real / UNIT
    requires Beyond(total, owed, e) >= -(bound as real) && e <= bound
    ensures Beyond(total - debt, owed', e') >= -(bound as real)
  {
    assert (loss * total) as real == loss as real * total as real;
    assert UNIT * applied <= UNIT - loss as real;
    assert UNIT * owed' <= (UNIT - loss as real) * owed by {
      assert UNIT * (applied * owed) == (UNIT * applied) * owed;
    }
    SlackAlgebra(UNIT, total as real, owed, owed', debt as real, loss as real,
                 e as real, e' as real, bound as real);
  }

  /**
   * An offset keeps the slack above `-bound`, for any bound on the pool's size, although the
   * loss error fed back from the previous offset may exceed what is left of it.
   */
  lemma OffsetSlack(p: Pool, n: Ledger, c: Call, bound: nat)
    requires WellFormed(p) && Tracks(p, n) && c.OffsetDebt? && Step(p, c).Some?
    requires p.total <= bound && p.lossError <= bound && Slack(p, n) >= -(bound as real)
    ensures Step(p, c).value.lossError <= bound
    ensures Slack(Step(p, c).value, LedgerStep(p, n, c)) >= -(bound as real)
  {
    if p.total != 0 && c.debt != 0 {
      var q := Step(p, c).value;
      var loss := LossPerUnit(p, c.debt);
      var applied := AppliedFactor(p.now, q.now);
      FactorBound(p.now, DECIMAL_PRECISION - loss);
      SettleAllOwed(n, applied, Rate(CollPerUnit(p, c.coll)));
      OwedNonNegative(p, n);
      if c.debt == p.total {
        Emptied(applied, Owed(n));
      } else {
        SlackAfter(p.total, Owed(n), Owed(LedgerStep(p, n, c)), c.debt, loss,
                   p.lossError, LossErrorAfter(p, c.debt), applied, bound);
      }
    }
  }

  lemma Emptied(applied: real, owed: real)
    ensures applied == 0.0 ==> Beyond(0, Times(applied, owed), 0) == 0.0
  {
  }

  /** The collateral equation of an offset: an exact one. */
  lemma OffsetCollSlack(p: Pool, n: Ledger, c: Call)
    requires WellFormed(p) && c.OffsetDebt? && Step(p, c).Some? && p.total != 0 && c.debt != 0
    ensures CollSlack(Step(p, c).value, LedgerStep(p, n, c))
         == CollSlack(p, n) + Shortage(CollPerUnit(p, c.coll), p.total, Owed(n))
  {
    var q := Step(p, c).value;
    var perUnit := CollPerUnit(p, c.coll);
    SettleAllOwed(n, AppliedFactor(p.now, q.now), Rate(perUnit));
    CollAfter(p.coll, c.coll, OwedColl(n), OwedColl(LedgerStep(p, n, c)), p.collError, p.total, Owed(n));
  }

  /** What `perUnit` on the recorded total exceeds `perUnit` on the deposits' worth by. */
  ghost function Shortage(perUnit: nat, total: nat, owed: real): real {
    perUnit as real * (total as real - owed)
  }

  /** The remainder kept for the next division makes the shares add up to the amount. */
  lemma CollAfter(have: nat, more: nat, owed: real, owed': real, e: nat, t: nat, v: real)
    requires t > 0
    requires owed' == owed + Times(Rate((more * DECIMAL_PRECISION + e) / t), v)
    ensures Beyond(have + more, owed', (more * DECIMAL_PRECISION + e) % t)
         == Beyond(have, owed, e) + Shortage((more * DECIMAL_PRECISION + e) / t, t, v)
  {
    var numerator := more * DECIMAL_PRECISION + e;
    var g, e' := numerator / t, numerator % t;
    assert numerator == g * t + e';
    assert (g * t) as real == g as real * t as real;
    CollAlgebra(have as real, more as real, owed, e as real, e' as real, g as real, t as real, v, owed');
  }

  lemma CollAlgebra(have: real, more: real, owed: real, e: real, e': real, g: real, t: real, v: real, owed': real)
    requires more * UNIT + e == g * t + e'
    requires owed' == owed + Times(g / UNIT, v)
    ensures UNIT * (have + more - owed') - e' == UNIT * (have - owed) - e + g * (t - v)
  {
    assert UNIT * Times(g / UNIT, v) == g * v;
  }

  // ---------------------------------------------------------------------------
  // Deposits and withdrawals
  // ---------------------------------------------------------------------------

  lemma FloorOf(x: nat, y: nat)
    requires y > 0
    ensures (x / y) as real <= x as real / y as real < (x / y) as real + 1.0
  {
    var q, r := x / y, x % y;
    assert x == q * y + r;
    assert x as real == q as real * y as real + r as real by {
      assert (q * y) as real == q as real * y as real;
    }
    var z := x as real / y as real;
    assert z * y as real == x as real;
    if z < q as real {
      StrictlyScaled(z, q as real, y as real);
    }
    if z >= q as real + 1.0 {
      AtLeast(y as real, z, q as real + 1.0);
    }
  }

  /**
   * What the contract pays out is the deposit's exact worth rounded down, unless it drops it:
   * two scale shifts away, or below a billionth of the recorded deposit.
   */
  lemma CompoundedIsFloor(now: Product, initial: nat, at: Product)
    requires now.P > 0 && Reached(now, at)
    ensures Compounded(now, initial, at) as real <= Value(now, initial, at)
    ensures
      || Value(now, initial, at) < Compounded(now, initial, at) as real + 1.0
      || (Compounded(now, initial, at) == 0 && at.epoch == now.epoch
          && (at.scale + 2 <= now.scale || Value(now, initial, at) < (initial / 1_000_000_000) as real))
  {
    ValueNonNegative(now, initial, at);
    if at.epoch == now.epoch && now.scale <= at.scale + 1 {
      ScaledStakeIsFloor(now, initial, at);
    }
  }

  lemma ScaledStakeIsFloor(now: Product, initial: nat, at: Product)
    requires now.P > 0 && at.P > 0 && at.epoch == now.epoch && at.scale <= now.scale <= at.scale + 1
    ensures ScaledStake(now, initial, at) as real <= Value(now, initial, at)
          < ScaledStake(now, initial, at) as real + 1.0
  {
    ValueInReach(now, initial, at);
    if now.scale == at.scale {
      FloorOfProduct(initial, now.P, at.P);
    } else {
      NestedDivision(initial * now.P, at.P, SCALE_FACTOR);
      FloorOfProduct(initial, now.P, at.P * SCALE_FACTOR);
      ShiftedQuotient(now.P as real, at.P as real);
    }
  }

  lemma FloorOfProduct(i: nat, p: nat, q: nat)
    requires q > 0
    ensures (i * p / q) as real <= i as real * (p as real / q as real) < (i * p / q) as real + 1.0
  {
    FloorOf(i * p, q);
    assert (i * p) as real == i as real * p as real;
    Quotient(i as real * p as real, q as real, i as real * (p as real / q as real));
  }

  lemma ShiftedQuotient(p: real, q: real)
    requires q > 0.0
    ensures p / 1_000_000_000.0 / q == p / (q * 1_000_000_000.0)
  {
    Quotient(p / 1_000_000_000.0, q, p / (q * 1_000_000_000.0));
  }

  /** The gain paid out never exceeds the ledger's. */
  lemma GainIsBelow(sums: Sums, d: Deposit)
    requires d.at.P > 0 && d.S <= SumAt(sums, d.at.epoch, d.at.scale)
    ensures CollGain(sums, d) as real <= ExactGain(sums, d)
  {
    var first := SumAt(sums, d.at.epoch, d.at.scale) - d.S;
    var last := SumAt(sums, d.at.epoch, d.at.scale + 1);
    FloorOf(last, SCALE_FACTOR);
    FloorShare(d.initial, first + last / SCALE_FACTOR, d.at.P);
    ShareMonotone(d.initial, (first + last / SCALE_FACTOR) as real, SumSince(sums, d), d.at.P);
  }

  lemma FloorShare(initial: nat, x: nat, P: nat)
    requires P > 0
    ensures (initial * x / P / DECIMAL_PRECISION) as real <= Share(initial, x as real, P)
  {
    NestedDivision(initial * x, P, DECIMAL_PRECISION);
    FloorOf(initial * x, P * DECIMAL_PRECISION);
    assert (initial * x) as real == initial as real * x as real;
    assert (P * DECIMAL_PRECISION) as real == P as real * UNIT;
  }

  /** And it falls short by less than one unit and the share of one unit of `S`. */
  lemma GainIsNear(sums: Sums, d: Deposit)
    requires d.at.P > 0 && d.S <= SumAt(sums, d.at.epoch, d.at.scale)
    ensures ExactGain(sums, d) < CollGain(sums, d) as real + 1.0 + Share(d.initial, 1.0, d.at.P)
  {
    var first := SumAt(sums, d.at.epoch, d.at.scale) - d.S;
    var last := SumAt(sums, d.at.epoch, d.at.scale + 1);
    var x := first + last / SCALE_FACTOR;
    FloorOf(last, SCALE_FACTOR);
    FloorShareNear(d.initial, x, d.at.P);
    ShareMonotone(d.initial, SumSince(sums, d), x as real + 1.0, d.at.P);
    ShareAdds(d.initial, x as real, 1.0, d.at.P);
  }

  lemma ShareAdds(initial: nat, x: real, y: real, P: nat)
    requires P > 0
    ensures Share(initial, x + y, P) == Share(initial, x, P) + Share(initial, y, P)
  {
    var i, k := initial as real, P as real * UNIT;
    assert i * (x + y) == i * x + i * y;
    DivideAdds(i * x, i * y, k);
  }

  lemma DivideAdds(x: real, y: real, k: real)
    requires k > 0.0
    ensures (x + y) / k == x / k + y / k
  {
  }

  lemma FloorShareNear(initial: nat, x: nat, P: nat)
    requires P > 0
    ensures Share(initial, x as real, P) < (initial * x / P / DECIMAL_PRECISION) as real + 1.0
  {
    NestedDivision(initial * x, P, DECIMAL_PRECISION);
    FloorOf(initial * x, P * DECIMAL_PRECISION);
    assert (initial * x) as real == initial as real * x as real;
    assert (P * DECIMAL_PRECISION) as real == P as real * UNIT;
  }

  lemma ShareMonotone(initial: nat, x: real, y: real, P: nat)
    requires P > 0 && x <= y
    ensures Share(initial, x, P) <= Share(initial, y, P)
  {
    AtLeast(initial as real, y, x);
    DivideMonotone(initial as real * x, initial as real * y, P as real * UNIT);
  }

  lemma DivideMonotone(x: real, y: real, k: real)
    requires x <= y && k > 0.0
    ensures x / k <= y / k
  {
  }

  ghost function ValueOf(n: Ledger, a: Address): real {
    if a in n then n[a].value else 0.0
  }

  ghost function GainOf(n: Ledger, a: Address): real {
    if a in n then n[a].gain else 0.0
  }

  lemma SetEntryOwed(n: Ledger, a: Address, value: nat)
    ensures Owed(SetEntry(n, a, value)) == Owed(n) - ValueOf(n, a) + value as real
    ensures OwedColl(SetEntry(n, a, value)) == OwedColl(n) - GainOf(n, a)
  {
    var n' := SetEntry(n, a, value);
    if value == 0 {
      assert Values(n') == Values(n) - {a} && Gains(n') == Gains(n) - {a};
      if a in n {
        RealSumRemove(Values(n), a);
        RealSumRemove(Gains(n), a);
      } else {
        assert n - {a} == n;
      }
    } else {
      assert Values(n') == Values(n)[a := value as real] && Gains(n') == Gains(n)[a := 0.0];
      RealSumUpdate(Values(n), a, value as real);
      RealSumUpdate(Gains(n), a, 0.0);
    }
  }

  lemma PaidBelowLedger(p: Pool, n: Ledger, a: Address)
    requires WellFormed(p) && Tracks(p, n)
    ensures CompoundedDeposit(p, a) as real <= ValueOf(n, a)
    ensures DepositorGain(p, a) as real <= GainOf(n, a)
  {
    if a in n {
      var d := p.deposits[a];
      assert GoodDeposit(p.now, p.sums, d) && EntryTracks(p.now, p.sums, d, n[a]);
      CompoundedIsFloor(p.now, d.initial, d.at);
      GainIsBelow(p.sums, d);
    }
  }

  lemma BeyondGrows(held: nat, owed: real, error: nat, held': nat, owed': real)
    requires held as real - owed <= held' as real - owed'
    ensures Beyond(held, owed, error) <= Beyond(held', owed', error)
  {
  }

  /** Every call other than an offset rounds in the pool's favour. */
  lemma SettleSlack(p: Pool, n: Ledger, c: Call)
    requires WellFormed(p) && Tracks(p, n) && Step(p, c).Some? && !c.OffsetDebt?
    ensures Step(p, c).value.lossError == p.lossError
    ensures Slack(p, n) <= Slack(Step(p, c).value, LedgerStep(p, n, c))
    ensures CollSlack(p, n) <= CollSlack(Step(p, c).value, LedgerStep(p, n, c))
  {
    if !c.RegisterFrontEnd? {
      var t := StepSettles(p, n, c);
      SetEntryOwed(n, c.who, t.deposit);
      PaidBelowLedger(p, n, c.who);
      BeyondGrows(p.total, Owed(n), p.lossError, t.total, Owed(LedgerStep(p, n, c)));
      BeyondGrows(p.coll, OwedColl(n), p.collError, t.coll, OwedColl(LedgerStep(p, n, c)));
    }
  }

  // ---------------------------------------------------------------------------
  // Runs
  // ---------------------------------------------------------------------------

  /** A call that reverts changes nothing. */
  ghost function After(p: Pool, c: Call): (q: Pool)
    requires WellFormed(p)
    ensures WellFormed(q)
  {
    if Step(p, c).None? then p else
      StepKeepsWellFormed(p, c);
      Step(p, c).value
  }

  ghost function LedgerAfter(p: Pool, n: Ledger, c: Call): Ledger
    requires WellFormed(p)
  {
    if Step(p, c).None? then n else LedgerStep(p, n, c)
  }

  ghost function Run(p: Pool, calls: seq<Call>): (q: Pool)
    requires WellFormed(p)
    ensures WellFormed(q)
    decreases |calls|
  {
    if calls == [] then p else Run(After(p, calls[0]), calls[1..])
  }

  ghost function LedgerRun(p: Pool, n: Ledger, calls: seq<Call>): Ledger
    requires WellFormed(p)
    decreases |calls|
  {
    if calls == [] then n else LedgerRun(After(p, calls[0]), LedgerAfter(p, n, calls[0]), calls[1..])
  }

  /** The largest pool that an offset of the run met. */
  ghost function Peak(p: Pool, calls: seq<Call>): nat
    requires WellFormed(p)
    decreases |calls|
  {
    if calls == [] then 0 else
      var rest := Peak(After(p, calls[0]), calls[1..]);
      if calls[0].OffsetDebt? && rest < p.total then p.total else rest
  }

  /** The rewards per unit staked paid out over a run. */
  ghost function PerUnitPaid(p: Pool, calls: seq<Call>): nat
    requires WellFormed(p)
    decreases |calls|
  {
    if calls == [] then 0 else PerUnitOf(p, calls[0]) + PerUnitPaid(After(p, calls[0]), calls[1..])
  }

  ghost function PerUnitOf(p: Pool, c: Call): nat {
    if c.OffsetDebt? && p.total != 0 && c.debt != 0 then CollPerUnit(p, c.coll) else 0
  }

  /**
   * Refinement of the naive loop: after every run the snapshots of each depositor give exactly
   * the entry that rewriting all entries at each offset would have produced.
   */
  lemma {:induction false} RunTracks(p: Pool, n: Ledger, calls: seq<Call>)
    requires WellFormed(p) && Tracks(p, n)
    ensures Tracks(Run(p, calls), LedgerRun(p, n, calls))
    decreases |calls|
  {
    if calls != [] {
      if Step(p, calls[0]).Some? {
        StepTracks(p, n, calls[0]);
      }
      RunTracks(After(p, calls[0]), LedgerAfter(p, n, calls[0]), calls[1..]);
    }
  }

  lemma StepSlack(p: Pool, n: Ledger, c: Call, bound: nat)
    requires WellFormed(p) && Tracks(p, n) && (c.OffsetDebt? ==> p.total <= bound)
    requires p.lossError <= bound && Slack(p, n) >= -(bound as real)
    ensures Tracks(After(p, c), LedgerAfter(p, n, c))
    ensures After(p, c).lossError <= bound
    ensures Slack(After(p, c), LedgerAfter(p, n, c)) >= -(bound as real)
  {
    if Step(p, c).Some? {
      StepTracks(p, n, c);
      if c.OffsetDebt? {
        OffsetSlack(p, n, c, bound);
      } else {
        SettleSlack(p, n, c);
      }
    }
  }

  /**
   * Over every run the deposits are worth at most `bound / 1e18` more than the pool holds,
   * where `bound` is any bound on the pool's size at its offsets.
   */
  lemma {:induction false} RunSlack(p: Pool, n: Ledger, calls: seq<Call>, bound: nat)
    requires WellFormed(p) && Tracks(p, n)
    requires Peak(p, calls) <= bound && p.lossError <= bound && Slack(p, n) >= -(bound as real)
    ensures Slack(Run(p, calls), LedgerRun(p, n, calls)) >= -(bound as real)
    decreases |calls|
  {
    if calls != [] {
      StepSlack(p, n, calls[0], bound);
      RunSlack(After(p, calls[0]), LedgerAfter(p, n, calls[0]), calls[1..], bound);
    }
  }

  /** `perUnit * bound / 1e18`, in units of 1e-18. */
  ghost function Debit(perUnit: nat, bound: nat): real {
    perUnit as real * (bound as real / UNIT)
  }

  lemma DebitAdds(g: nat, h: nat, bound: nat)
    ensures Debit(g + h, bound) == Debit(g, bound) + Debit(h, bound)
  {
    var b := bound as real / UNIT;
    assert (g as real + h as real) * b == g as real * b + h as real * b;
  }

  lemma ShortageBound(perUnit: nat, total: nat, owed: real, error: nat, bound: nat)
    requires Beyond(total, owed, error) >= -(bound as real)
    ensures Shortage(perUnit, total, owed) >= -Debit(perUnit, bound)
  {
    AtLeast(perUnit as real, total as real - owed, -(bound as real / UNIT));
    assert perUnit as real * -(bound as real / UNIT) == -Debit(perUnit, bound);
  }

  ghost function RunDebit(p: Pool, calls: seq<Call>, bound: nat): real
    requires WellFormed(p)
    decreases |calls|
  {
    if calls == [] then 0.0
    else Debit(PerUnitOf(p, calls[0]), bound) + RunDebit(After(p, calls[0]), calls[1..], bound)
  }

  lemma {:induction false} RunDebitTotal(p: Pool, calls: seq<Call>, bound: nat)
    requires WellFormed(p)
    ensures RunDebit(p, calls, bound) == Debit(PerUnitPaid(p, calls), bound)
    decreases |calls|
  {
    if calls != [] {
      var first, rest := PerUnitOf(p, calls[0]), PerUnitPaid(After(p, calls[0]), calls[1..]);
      RunDebitTotal(After(p, calls[0]), calls[1..], bound);
      DebitAdds(first, rest, bound);
      assert PerUnitPaid(p, calls) == first + rest;
      assert RunDebit(p, calls, bound) == Debit(first, bound) + Debit(rest, bound);
    }
  }

  lemma {:induction false} RunCollSteps(p: Pool, n: Ledger, calls: seq<Call>, bound: nat)
    requires WellFormed(p) && Tracks(p, n)
    requires Peak(p, calls) <= bound && p.lossError <= bound && Slack(p, n) >= -(bound as real)
    ensures CollSlack(Run(p, calls), LedgerRun(p, n, calls)) >= CollSlack(p, n) - RunDebit(p, calls, bound)
    decreases |calls|
  {
    if calls != [] {
      StepSlack(p, n, calls[0], bound);
      StepCollSlack(p, n, calls[0], bound);
      RunCollSteps(After(p, calls[0]), LedgerAfter(p, n, calls[0]), calls[1..], bound);
    }
  }

  /**
   * Over every run the gains are worth at most `PerUnitPaid * bound / 1e36` more than the
   * collateral held, with the same bound on the pool's size.
   */
  lemma RunCollSlack(p: Pool, n: Ledger, calls: seq<Call>, bound: nat)
    requires WellFormed(p) && Tracks(p, n)
    requires Peak(p, calls) <= bound && p.lossError <= bound && Slack(p, n) >= -(bound as real)
    ensures CollSlack(Run(p, calls), LedgerRun(p, n, calls))
         >= CollSlack(p, n) - Debit(PerUnitPaid(p, calls), bound)
  {
    RunCollSteps(p, n, calls, bound);
    RunDebitTotal(p, calls, bound);
  }

  lemma StepCollSlack(p: Pool, n: Ledger, c: Call, bound: nat)
    requires WellFormed(p) && Tracks(p, n) && Slack(p, n) >= -(bound as real)
    ensures CollSlack(After(p, c), LedgerAfter(p, n, c)) >= CollSlack(p, n) - Debit(PerUnitOf(p, c), bound)
  {
    DebitNonNegative(PerUnitOf(p, c), bound);
    if Step(p, c).Some? {
      if !c.OffsetDebt? {
        SettleSlack(p, n, c);
      } else if p.total != 0 && c.debt != 0 {
        OffsetCollSlack(p, n, c);
        ShortageBound(CollPerUnit(p, c.coll), p.total, Owed(n), p.lossError, bound);
      }
    }
  }

  lemma DebitNonNegative(perUnit: nat, bound: nat)
    ensures Debit(perUnit, bound) >= 0.0
  {
    AtLeast(perUnit as real, bound as real / UNIT, 0.0);
  }

  /** The deposits are worth no more than the pool holds whenever an offset arrives. */
  ghost predicate BackedAtOffsets(p: Pool, n: Ledger, calls: seq<Call>)
    requires WellFormed(p)
    decreases |calls|
  {
    calls != [] ==>
      && (calls[0].OffsetDebt? ==> Owed(n) <= p.total as real)
      && BackedAtOffsets(After(p, calls[0]), LedgerAfter(p, n, calls[0]), calls[1..])
  }

  /** On such a run the collateral covers every gain. */
  lemma {:induction false} BackedRunCoversGains(p: Pool, n: Ledger, calls: seq<Call>)
    requires WellFormed(p) && Tracks(p, n) && BackedAtOffsets(p, n, calls)
    requires CollSlack(p, n) >= 0.0
    ensures OwedColl(LedgerRun(p, n, calls)) <= Run(p, calls).coll as real
    decreases |calls|
  {
    if calls == [] {
      Covered(p.coll, OwedColl(n), p.collError);
    } else {
      var c := calls[0];
      if Step(p, c).Some? {
        StepTracks(p, n, c);
        if !c.OffsetDebt? {
          SettleSlack(p, n, c);
        } else if p.total != 0 && c.debt != 0 {
          OffsetCollSlack(p, n, c);
          NoShortage(CollPerUnit(p, c.coll), p.total, Owed(n));
        }
      }
      BackedRunCoversGains(After(p, c), LedgerAfter(p, n, c), calls[1..]);
    }
  }

  lemma NoShortage(perUnit: nat, total: nat, owed: real)
    requires owed <= total as real
    ensures Shortage(perUnit, total, owed) >= 0.0
  {
    AtLeast(perUnit as real, total as real - owed, 0.0);
  }

  lemma Covered(held: nat, owed: real, error: nat)
    requires Beyond(held, owed, error) >= 0.0
    ensures owed <= held as real
  {
  }
}
