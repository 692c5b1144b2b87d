/**
 * The other side of the pool's solvency: how much more than its deposits are worth the Stability
 * Pool can come to hold. What rounding takes from depositors stays in the pool, and no more.
 */
module PoolExcess {
  import opened Base
  import opened RealSums
  import opened StabilityPool
  import opened PoolLedger
  import opened PoolSolvency
  import opened PoolWithdrawals

  /** What a call rounds away: a unit of the product on all deposits, or a fraction of one deposit. */
  ghost function RoundedAway(p: Pool, n: Ledger, c: Call): real
    requires WellFormed(p)
  {
    if Step(p, c).None? || c.RegisterFrontEnd? then 0.0
    else if c.OffsetDebt? then (if p.total == 0 || c.debt == 0 then 0.0 else Owed(n) / p.now.P as real)
    else ValueOf(n, c.who) - CompoundedDeposit(p, c.who) as real
  }

  ghost function AllRoundedAway(p: Pool, n: Ledger, calls: seq<Call>): real
    requires WellFormed(p)
    decreases |calls|
  {
    if calls == [] then 0.0
    else RoundedAway(p, n, calls[0]) + AllRoundedAway(After(p, calls[0]), LedgerAfter(p, n, calls[0]), calls[1..])
  }

  // ---------------------------------------------------------------------------
  // Offsets
  // ---------------------------------------------------------------------------

  /**
   * The slack equation of an offset, read the other way: `r` is what the rounding of the product
   * takes from the deposits, in whole units.
   */
  lemma ExcessAlgebra(
      u: real, t: real, v: real, v': real, debt: real, loss: real, e: real, e': real, bound: real, r: real)
    requires 0.0 <= loss <= u && u > 0.0
    requires loss * t == debt * u - e + e'
    requires u * v' >= (u - loss) * v - u * r
    requires u * (t - v) - e <= bound && bound >= 0.0 && e >= 0.0
    ensures u * (t - debt - v') - e' <= bound + u * r
  {
    var rest, excess := u - loss, t - v;
    assert rest * excess == u * t - loss * t - rest * v;
    assert u * (rest * excess) <= u * (bound + e) by {
      AtLeast(rest, bound + e, u * excess);
      assert rest * (u * excess) == u * (rest * excess);
      AtLeast(bound + e, u, rest);
      assert rest * (bound + e) == (bound + e) * rest && u * (bound + e) == (bound + e) * u;
    }
    Unscaled(u, bound + e, rest * excess);
  }

  lemma ExcessAfter(
      total: nat, owed: real, owed': real, debt: nat, loss: nat, e: nat, e': nat, applied: real, bound: real, P: nat)
    requires loss <= DECIMAL_PRECISION && debt <= total && owed >= 0.0 && P > 0 && bound >= 0.0
    requires loss * total == debt * DECIMAL_PRECISION - e + e'
    requires owed' == Times(applied, owed) && applied >= (DECIMAL_PRECISION - loss) as real / UNIT - 1.0 / P as real
    requires Beyond(total, owed, e) <= bound
    ensures Beyond(total - debt, owed', e') <= bound + UNIT * (owed / P as real)
  {
    assert (loss * total) as real == loss as real * total as real;
    var factor, ulp := (DECIMAL_PRECISION - loss) as real / UNIT, 1.0 / P as real;
    AtLeast(owed, applied, factor - ulp);
    assert owed * (factor - ulp) == owed * factor - owed * ulp && owed * ulp == owed / P as real;
    assert UNIT * (owed * factor) == (UNIT - loss as real) * owed;
    ExcessAlgebra(UNIT, total as real, owed, owed', debt as real, loss as real,
                  e as real, e' as real, bound, owed / P as real);
  }

  lemma OffsetExcess(p: Pool, n: Ledger, c: Call, bound: real)
    requires WellFormed(p) && Tracks(p, n) && c.OffsetDebt? && Step(p, c).Some?
    requires Slack(p, n) <= bound && bound >= 0.0
    ensures Slack(Step(p, c).value, LedgerStep(p, n, c)) <= bound + UNIT * RoundedAway(p, n, c)
  {
    if p.total != 0 && c.debt != 0 {
      var q := Step(p, c).value;
      var loss := LossPerUnit(p, c.debt);
      var applied := AppliedFactor(p.now, q.now);
      FactorBound(p.now, DECIMAL_PRECISION - loss);
      FactorAccurate(p.now, DECIMAL_PRECISION - loss);
      SettleAllOwed(n, applied, Rate(CollPerUnit(p, c.coll)));
      OwedNonNegative(p, n);
      NonNegativeShare(Owed(n), p.now.P);
      if c.debt == p.total {
        Emptied(applied, Owed(n));
      } else {
        ExcessAfter(p.total, Owed(n), Owed(LedgerStep(p, n, c)), c.debt, loss,
                    p.lossError, LossErrorAfter(p, c.debt), applied, bound, p.now.P);
      }
    }
  }

  lemma NonNegativeShare(x: real, P: nat)
    requires x >= 0.0 && P > 0
    ensures x / P as real >= 0.0 && UNIT * (x / P as real) >= 0.0
  {
  }

  // ---------------------------------------------------------------------------
  // Depositors
  // ---------------------------------------------------------------------------

  lemma Shifted(held: nat, owed: real, error: nat, held': nat, owed': real, more: real)
    requires held' as real - owed' == held as real - owed + more
    ensures Beyond(held', owed', error) == Beyond(held, owed, error) + UNIT * more
  {
  }

  /** Exactly the fraction that a provision, withdrawal or claim rounds away stays in the pool. */
  lemma SettleExcess(p: Pool, n: Ledger, c: Call)
    requires WellFormed(p) && Tracks(p, n) && Step(p, c).Some? && !c.OffsetDebt?
    ensures RoundedAway(p, n, c) >= 0.0
    ensures Slack(Step(p, c).value, LedgerStep(p, n, c)) == Slack(p, n) + UNIT * RoundedAway(p, n, c)
  {
    if !c.RegisterFrontEnd? {
      var t := StepSettles(p, n, c);
      SetEntryOwed(n, c.who, t.deposit);
      PaidBelowLedger(p, n, c.who);
      Shifted(p.total, Owed(n), p.lossError, t.total, Owed(LedgerStep(p, n, c)), RoundedAway(p, n, c));
    }
  }

  // ---------------------------------------------------------------------------
  // Runs
  // ---------------------------------------------------------------------------

  lemma StepExcess(p: Pool, n: Ledger, c: Call, bound: real)
    requires WellFormed(p) && Tracks(p, n) && Slack(p, n) <= bound && bound >= 0.0
    ensures Tracks(After(p, c), LedgerAfter(p, n, c)) && RoundedAway(p, n, c) >= 0.0
    ensures Slack(After(p, c), LedgerAfter(p, n, c)) <= bound + UNIT * RoundedAway(p, n, c)
  {
    if Step(p, c).Some? {
      StepTracks(p, n, c);
      if c.OffsetDebt? {
        OffsetExcess(p, n, c, bound);
        OwedNonNegative(p, n);
        NonNegativeShare(Owed(n), p.now.P);
      } else {
        SettleExcess(p, n, c);
      }
    }
  }

  lemma AddedExcess(bound: real, x: real, y: real)
    ensures bound + UNIT * x + UNIT * y == bound + UNIT * (x + y)
  {
  }

  /**
   * Over every run the pool holds at most as much more than its deposits are worth as the run has
   * rounded away, and the loss error of the last offset.
   */
  lemma {:induction false} RunExcess(p: Pool, n: Ledger, calls: seq<Call>, bound: real)
    requires WellFormed(p) && Tracks(p, n) && Slack(p, n) <= bound && bound >= 0.0
    ensures Slack(Run(p, calls), LedgerRun(p, n, calls)) <= bound + UNIT * AllRoundedAway(p, n, calls)
    decreases |calls|
  {
    if calls != [] {
      var c := calls[0];
      StepExcess(p, n, c, bound);
      var rest := AllRoundedAway(After(p, c), LedgerAfter(p, n, c), calls[1..]);
      RunExcess(After(p, c), LedgerAfter(p, n, c), calls[1..], bound + UNIT * RoundedAway(p, n, c));
      AddedExcess(bound, RoundedAway(p, n, c), rest);
    }
  }

  /** From deployment on: holdings less what the deposits are worth. */
  lemma DeployedExcess(calls: seq<Call>)
    ensures WellFormed(EMPTY_POOL)
    ensures
      var p, n := Run(EMPTY_POOL, calls), LedgerRun(EMPTY_POOL, map[], calls);
      UNIT * (p.total as real - Owed(n)) <= p.lossError as real + UNIT * AllRoundedAway(EMPTY_POOL, map[], calls)
  {
    EmptyPoolTracks();
    RunExcess(EMPTY_POOL, map[], calls, 0.0);
  }

  // ---------------------------------------------------------------------------
  // A closed bound
  // ---------------------------------------------------------------------------

  /** The caller's deposit is not dropped: paid in part, or worth less than a unit. */
  ghost predicate NotDropped(p: Pool, a: Address)
    requires WellFormed(p)
  {
    a in p.deposits ==>
      CompoundedDeposit(p, a) > 0 || Value(p.now, p.deposits[a].initial, p.deposits[a].at) < 1.0
  }

  /** No caller's deposit is dropped, and at every offset the product is at least `least`. */
  ghost predicate Smooth(p: Pool, calls: seq<Call>, least: nat)
    requires WellFormed(p)
    decreases |calls|
  {
    calls != [] ==>
      && (if calls[0].OffsetDebt? then p.now.P >= least else NotDropped(p, calls[0].who))
      && Smooth(After(p, calls[0]), calls[1..], least)
  }

  /** One unit, or one unit of the product on a pool of that size. */
  ghost function RoundingLimit(peak: nat, least: nat): real
    requires least > 0
  {
    1.0 + (peak as real + peak as real / UNIT) / least as real
  }

  lemma OwedLimit(total: nat, owed: real, error: nat, peak: nat)
    requires Beyond(total, owed, error) >= -(peak as real) && total <= peak
    ensures owed <= peak as real + peak as real / UNIT
  {
    var d := owed - total as real;
    assert UNIT * d <= peak as real;
  }

  lemma SharesShrink(x: real, y: real, P: nat, least: nat)
    requires 0.0 <= x <= y && 0 < least <= P
    ensures x / P as real <= y / least as real
  {
    CrossDivide(x, P as real, y, least as real) by {
      AtLeast(x, P as real, least as real);
      AtLeast(P as real, y, x);
    }
  }

  lemma RoundedAwayLimit(p: Pool, n: Ledger, c: Call, peak: nat, least: nat)
    requires WellFormed(p) && Tracks(p, n) && Slack(p, n) >= -(peak as real) && least > 0
    requires c.OffsetDebt? ==> p.total <= peak && p.now.P >= least
    requires !c.OffsetDebt? && !c.RegisterFrontEnd? ==> NotDropped(p, c.who)
    ensures RoundedAway(p, n, c) <= RoundingLimit(peak, least)
  {
    NonNegativeShare(peak as real + peak as real / UNIT, least);
    if c.OffsetDebt? {
      OwedNonNegative(p, n);
      OwedLimit(p.total, Owed(n), p.lossError, peak);
      SharesShrink(Owed(n), peak as real + peak as real / UNIT, p.now.P, least);
    } else if !c.RegisterFrontEnd? && c.who in p.deposits {
      var d := p.deposits[c.who];
      assert GoodDeposit(p.now, p.sums, d) && EntryTracks(p.now, p.sums, d, n[c.who]);
      CompoundedIsFloor(p.now, d.initial, d.at);
    }
  }

  lemma OneMore(n: nat, limit: real)
    ensures Times((n + 1) as real, limit) == limit + Times(n as real, limit)
  {
  }

  /** On such a run every call rounds away a bounded amount. */
  lemma {:induction false} SmoothRoundedAway(
      p: Pool, n: Ledger, calls: seq<Call>, peak: nat, least: nat, limit: real)
    requires WellFormed(p) && Tracks(p, n) && least > 0 && Smooth(p, calls, least)
    requires Peak(p, calls) <= peak && p.lossError <= peak && Slack(p, n) >= -(peak as real)
    requires limit == RoundingLimit(peak, least)
    ensures AllRoundedAway(p, n, calls) <= Times(|calls| as real, limit)
    decreases |calls|
  {
    if calls != [] {
      FirstRoundedAway(p, n, calls, peak, least);
      SmoothRoundedAway(After(p, calls[0]), LedgerAfter(p, n, calls[0]), calls[1..], peak, least, limit);
      OneMore(|calls[1..]|, limit);
    } else {
      assert Times(0.0, limit) == 0.0;
    }
  }

  lemma FirstRoundedAway(p: Pool, n: Ledger, calls: seq<Call>, peak: nat, least: nat)
    requires WellFormed(p) && Tracks(p, n) && least > 0 && calls != [] && Smooth(p, calls, least)
    requires Peak(p, calls) <= peak && p.lossError <= peak && Slack(p, n) >= -(peak as real)
    ensures RoundedAway(p, n, calls[0]) <= RoundingLimit(peak, least)
    ensures
      var q, m := After(p, calls[0]), LedgerAfter(p, n, calls[0]);
      && Tracks(q, m) && Smooth(q, calls[1..], least)
      && Peak(q, calls[1..]) <= peak && q.lossError <= peak && Slack(q, m) >= -(peak as real)
  {
    RoundedAwayLimit(p, n, calls[0], peak, least);
    StepSlack(p, n, calls[0], peak);
  }

  /** From deployment on, in closed form. */
  lemma DeployedExcessClosed(calls: seq<Call>, peak: nat, least: nat)
    requires least > 0 && WellFormed(EMPTY_POOL) && Smooth(EMPTY_POOL, calls, least) && Peak(EMPTY_POOL, calls) <= peak
    ensures
      var p, n := Run(EMPTY_POOL, calls), LedgerRun(EMPTY_POOL, map[], calls);
      p.total as real - Owed(n) <= p.lossError as real / UNIT + Times(|calls| as real, RoundingLimit(peak, least))
  {
    EmptyPoolTracks();
    DeployedExcess(calls);
    SmoothRoundedAway(EMPTY_POOL, map[], calls, peak, least, RoundingLimit(peak, least));
  }

  // ---------------------------------------------------------------------------
  // Collateral
  // ---------------------------------------------------------------------------

  /** What a claim leaves in the pool: the fraction of a gain, and gains beyond one scale shift. */
  ghost function Kept(p: Pool, n: Ledger, c: Call): real
    requires WellFormed(p)
  {
    if Step(p, c).None? || c.RegisterFrontEnd? || c.OffsetDebt? then 0.0
    else GainOf(n, c.who) - DepositorGain(p, c.who) as real
  }

  ghost function AllKept(p: Pool, n: Ledger, calls: seq<Call>): real
    requires WellFormed(p)
    decreases |calls|
  {
    if calls == [] then 0.0
    else Kept(p, n, calls[0]) + AllKept(After(p, calls[0]), LedgerAfter(p, n, calls[0]), calls[1..])
  }

  /** Exactly that stays in the pool. */
  lemma SettleCollExcess(p: Pool, n: Ledger, c: Call)
    requires WellFormed(p) && Tracks(p, n) && Step(p, c).Some? && !c.OffsetDebt?
    ensures Kept(p, n, c) >= 0.0
    ensures CollSlack(Step(p, c).value, LedgerStep(p, n, c)) == CollSlack(p, n) + UNIT * Kept(p, n, c)
  {
    if !c.RegisterFrontEnd? {
      var t := StepSettles(p, n, c);
      SetEntryOwed(n, c.who, t.deposit);
      PaidBelowLedger(p, n, c.who);
      Shifted(p.coll, OwedColl(n), p.collError, t.coll, OwedColl(LedgerStep(p, n, c)), Kept(p, n, c));
    }
  }

  /** The pool's excess over the deposits, in whole units. */
  lemma GapLimit(total: nat, owed: real, error: nat, bound: real, peak: nat, gap: real)
    requires Beyond(total, owed, error) <= bound && error <= peak && bound + peak as real <= UNIT * gap
    ensures total as real - owed <= gap
  {
    var d := total as real - owed;
    assert UNIT * d <= UNIT * gap;
    Unscaled(UNIT, gap, d);
  }

  lemma ShortageLimit(perUnit: nat, total: nat, owed: real, gap: real)
    requires total as real - owed <= gap
    ensures Shortage(perUnit, total, owed) <= Times(perUnit as real, gap)
  {
    AtLeast(perUnit as real, gap, total as real - owed);
  }

  lemma RewardGap(perUnit: nat, gap: real)
    requires gap >= 0.0
    ensures Times(perUnit as real, gap) >= 0.0 && Times(0.0, gap) == 0.0
  {
  }

  lemma StepCollExcess(p: Pool, n: Ledger, c: Call, gap: real)
    requires WellFormed(p) && Tracks(p, n) && p.total as real - Owed(n) <= gap && gap >= 0.0
    ensures CollSlack(After(p, c), LedgerAfter(p, n, c))
         <= CollSlack(p, n) + UNIT * Kept(p, n, c) + Times(PerUnitOf(p, c) as real, gap)
  {
    RewardGap(PerUnitOf(p, c), gap);
    if Step(p, c).Some? {
      if !c.OffsetDebt? {
        SettleCollExcess(p, n, c);
      } else if p.total != 0 && c.debt != 0 {
        OffsetCollSlack(p, n, c);
        ShortageLimit(CollPerUnit(p, c.coll), p.total, Owed(n), gap);
      }
    }
  }

  lemma {:induction false} RoundedAwayNonNegative(p: Pool, n: Ledger, calls: seq<Call>, bound: real)
    requires WellFormed(p) && Tracks(p, n) && Slack(p, n) <= bound && bound >= 0.0
    ensures AllRoundedAway(p, n, calls) >= 0.0
    decreases |calls|
  {
    if calls != [] {
      StepExcess(p, n, calls[0], bound);
      RoundedAwayNonNegative(After(p, calls[0]), LedgerAfter(p, n, calls[0]), calls[1..],
                             bound + UNIT * RoundedAway(p, n, calls[0]));
    }
  }

  lemma ExcessAdds(
      before: real, next: real, end: real, first: real, rest: real, g: nat, h: nat, gap: real)
    requires next <= before + UNIT * first + Times(g as real, gap)
    requires end <= next + UNIT * rest + Times(h as real, gap)
    ensures end <= before + UNIT * (first + rest) + Times((g + h) as real, gap)
  {
    assert (g as real + h as real) * gap == g as real * gap + h as real * gap;
  }

  /** What a run may start from. */
  ghost predicate Between(p: Pool, n: Ledger, calls: seq<Call>, bound: real, peak: nat)
    requires WellFormed(p)
  {
    && Tracks(p, n) && bound >= 0.0 && -(peak as real) <= Slack(p, n) <= bound
    && Peak(p, calls) <= peak && p.lossError <= peak
  }

  lemma FirstCollExcess(p: Pool, n: Ledger, calls: seq<Call>, bound: real, peak: nat, gap: real)
    requires WellFormed(p) && calls != [] && Between(p, n, calls, bound, peak)
    requires bound + UNIT * AllRoundedAway(p, n, calls) + peak as real <= UNIT * gap
    ensures
      var c, q, m := calls[0], After(p, calls[0]), LedgerAfter(p, n, calls[0]);
      var more := bound + UNIT * RoundedAway(p, n, c);
      && Between(q, m, calls[1..], more, peak)
      && more + UNIT * AllRoundedAway(q, m, calls[1..]) + peak as real <= UNIT * gap
      && CollSlack(q, m) <= CollSlack(p, n) + UNIT * Kept(p, n, c) + Times(PerUnitOf(p, c) as real, gap)
  {
    var c := calls[0];
    StepExcess(p, n, c, bound);
    StepSlack(p, n, c, peak);
    RoundedAwayNonNegative(p, n, calls, bound);
    AddedExcess(bound, RoundedAway(p, n, c), AllRoundedAway(After(p, c), LedgerAfter(p, n, c), calls[1..]));
    FirstGap(p, n, bound, AllRoundedAway(p, n, calls), peak, gap);
    StepCollExcess(p, n, c, gap);
  }

  lemma FirstGap(p: Pool, n: Ledger, bound: real, rounded: real, peak: nat, gap: real)
    requires WellFormed(p) && Slack(p, n) <= bound && bound >= 0.0 && rounded >= 0.0 && p.lossError <= peak
    requires bound + UNIT * rounded + peak as real <= UNIT * gap
    ensures p.total as real - Owed(n) <= gap && gap >= 0.0
  {
    GapLimit(p.total, Owed(n), p.lossError, bound, peak, gap);
    GapNonNegative(bound, rounded, peak, gap);
  }

  /**
   * Over every run the pool holds at most as much more collateral than all gains as claims have
   * left in it, and the rewards per unit times the gap: the pool's excess over its deposits.
   */
  lemma {:induction false} RunCollExcess(p: Pool, n: Ledger, calls: seq<Call>, bound: real, peak: nat, gap: real)
    requires WellFormed(p) && Between(p, n, calls, bound, peak)
    requires bound + UNIT * AllRoundedAway(p, n, calls) + peak as real <= UNIT * gap
    ensures CollSlack(Run(p, calls), LedgerRun(p, n, calls))
         <= CollSlack(p, n) + UNIT * AllKept(p, n, calls) + Times(PerUnitPaid(p, calls) as real, gap)
    decreases |calls|
  {
    if calls == [] {
      assert Times(0.0, gap) == 0.0;
    } else {
      var c, rest := calls[0], calls[1..];
      var q, m := After(p, c), LedgerAfter(p, n, c);
      FirstCollExcess(p, n, calls, bound, peak, gap);
      RunCollExcess(q, m, rest, bound + UNIT * RoundedAway(p, n, c), peak, gap);
      ExcessAdds(CollSlack(p, n), CollSlack(q, m), CollSlack(Run(q, rest), LedgerRun(q, m, rest)),
                 Kept(p, n, c), AllKept(q, m, rest), PerUnitOf(p, c), PerUnitPaid(q, rest), gap);
    }
  }

  lemma GapNonNegative(bound: real, rounded: real, peak: nat, gap: real)
    requires bound >= 0.0 && rounded >= 0.0 && bound + UNIT * rounded + peak as real <= UNIT * gap
    ensures gap >= 0.0
  {
  }

  /** From deployment on: collateral held less what all gains are worth. */
  lemma DeployedCollExcess(calls: seq<Call>, peak: nat, gap: real)
    requires WellFormed(EMPTY_POOL) && Peak(EMPTY_POOL, calls) <= peak
    requires UNIT * AllRoundedAway(EMPTY_POOL, map[], calls) + peak as real <= UNIT * gap
    ensures
      var p, n := Run(EMPTY_POOL, calls), LedgerRun(EMPTY_POOL, map[], calls);
      UNIT * (p.coll as real - OwedColl(n)) <=
        p.collError as real + UNIT * AllKept(EMPTY_POOL, map[], calls)
        + Times(PerUnitPaid(EMPTY_POOL, calls) as real, gap)
  {
    EmptyPoolTracks();
    RunCollExcess(EMPTY_POOL, map[], calls, 0.0, peak, gap);
  }
}
