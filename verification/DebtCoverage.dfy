/**
 * When pending debt can outgrow the DefaultPool. A trove whose debt snapshot lags while its
 * collateral snapshot does not is one top-up away from it; without such a trove no adjustment is.
 */
module DebtCoverage {
  import opened Base
  import opened Arith
  import opened Liquidation
  import opened TroveManager
  import opened TroveAccounting
  import opened TroveRuns

  /** The stake formula does not divide by, or multiply with, a vanished total. */
  ghost predicate StakeDefined(s: System) {
    s.totalCollateralSnapshot == 0 || s.totalStakesSnapshot > 0
  }

  /** The trove is owed more debt than the DefaultPool has. */
  ghost predicate Uncovered(s: System, b: Address) {
    b in s.troves && PendingDebt(s.l, s.troves[b]) > s.defaultDebt
  }

  /** Some trove is uncovered after the adjustment. */
  ghost predicate LeavesUncovered(s: System, a: Address, x: Adjustment, price: nat) {
    Adjust(s, a, x, price).Some? && exists b :: Uncovered(Adjust(s, a, x, price).value, b)
  }

  // ---------------------------------------------------------------------------
  // The top-up
  // ---------------------------------------------------------------------------

  /** Enough collateral for any ratio, and for a stake that outgrows the DefaultPool. */
  ghost function TopUp(s: System, a: Address): nat
    requires a in s.troves
  {
    (s.defaultDebt + 1) * DECIMAL_PRECISION * (s.totalCollateralSnapshot + 1) + MCR * s.troves[a].debt
  }

  lemma LargeRatio(coll: nat, debt: nat, price: nat, times: nat)
    requires debt > 0 && price > 0 && coll >= times * debt
    ensures CollateralRatio(coll, debt, price) >= times
  {
    MulMonotone(1, price, coll);
    QuotientAtLeast(coll * price, debt, times);
  }

  lemma LargeNominalRatio(coll: nat, debt: nat)
    requires debt > 0 && coll >= debt
    ensures NominalRatio(coll, debt) > 0
  {
    QuotientAtLeast(coll * NICR_PRECISION, debt, 1);
  }

  lemma MoreCollRatio(coll: nat, more: nat, debt: nat, price: nat)
    ensures CollateralRatio(coll, debt, price) <= CollateralRatio(coll + more, debt, price)
  {
    if debt > 0 {
      var q := coll * price / debt;
      MulMonotone(coll, coll + more, price);
      QuotientAtLeast((coll + more) * price, debt, q);
    }
  }

  /** A stake of at least `n` for at least `n * (snapshot + 1)` of collateral. */
  lemma LargeStake(s: System, coll: nat, n: nat)
    requires StakeDefined(s) && coll >= n * (s.totalCollateralSnapshot + 1)
    ensures NewStake(s, coll).Some? && NewStake(s, coll).value >= n
  {
    var c, t := s.totalCollateralSnapshot, s.totalStakesSnapshot;
    assert n * (c + 1) == n * c + n;
    if c > 0 {
      MulMonotone(1, t, coll);
      QuotientAtLeast(coll * t, c, n);
    }
  }

  lemma LargePending(stake: nat, lag: nat, held: nat)
    requires stake >= (held + 1) * DECIMAL_PRECISION && lag >= 1
    ensures stake * lag / DECIMAL_PRECISION > held
  {
    MulMonotone(1, lag, stake);
    QuotientAtLeast(stake * lag, DECIMAL_PRECISION, held + 1);
  }

  /** Ratios before and after the top-up: every guard of the adjustment is met, in either mode. */
  lemma TopUpValid(s: System, a: Address, price: nat)
    requires a in s.troves && s.troves[a].debt > 0 && SystemDebt(s) > 0
    ensures
      var t, x := s.troves[a], Adjustment(TopUp(s, a), 0, 0, false, 0, 0);
      && ValidAdjustment(s, x, price, t.coll, t.debt, t.coll + x.collIn, t.debt)
      && NominalRatio(t.coll + x.collIn, t.debt) > 0
  {
    var t, x := s.troves[a], TopUp(s, a);
    MulMonotone(1, MCR, t.debt);
    LargeNominalRatio(t.coll + x, t.debt);
    if !RecoveryMode(s, price) {
      PositivePrice(s, price);
      LargeRatio(t.coll + x, t.debt, price, MCR);
      MoreCollRatio(SystemColl(s), x, SystemDebt(s), price);
    }
  }

  lemma PositivePrice(s: System, price: nat)
    requires SystemDebt(s) > 0 && !RecoveryMode(s, price)
    ensures price > 0
  {
  }

  /** The rewards are not noticed: the new stake meets the old snapshot. */
  lemma TopUpSucceeds(s: System, a: Address, price: nat)
    requires Consistent(s) && StakeDefined(s) && a in s.troves && s.troves[a].snap.coll == s.l.coll
    ensures
      var t, x := s.troves[a], TopUp(s, a);
      var stake, r := NewStake(s, t.coll + x), Adjust(s, a, Adjustment(x, 0, 0, false, 0, 0), price);
      && stake.Some? && r.Some? && r.value.l == s.l && r.value.defaultDebt == s.defaultDebt
      && a in r.value.troves && r.value.troves[a] == Trove(t.debt, t.coll + x, stake.value, t.snap)
  {
    TotalsInclude(s.l, s.troves, a);
    TopUpValid(s, a, price);
    LargeStake(s, s.troves[a].coll + TopUp(s, a), (s.defaultDebt + 1) * DECIMAL_PRECISION);
  }

  /** The top-up goes through, and the trove can neither be liquidated nor have the debt applied. */
  lemma TopUpUncovers(s: System, a: Address, price: nat)
    requires Consistent(s) && StakeDefined(s) && a in s.troves
    requires s.troves[a].snap.coll == s.l.coll && s.troves[a].snap.debt < s.l.debt
    ensures
      var r := Adjust(s, a, Adjustment(TopUp(s, a), 0, 0, false, 0, 0), price);
      r.Some? && Uncovered(r.value, a) && TakeOut(r.value, a).None?
  {
    var t, x := s.troves[a], TopUp(s, a);
    TopUpSucceeds(s, a, price);
    LargeStake(s, t.coll + x, (s.defaultDebt + 1) * DECIMAL_PRECISION);
    LargePending(NewStake(s, t.coll + x).value, s.l.debt - t.snap.debt, s.defaultDebt);
  }

  // ---------------------------------------------------------------------------
  // The exact condition
  // ---------------------------------------------------------------------------

  /** Without an overlooked debt every adjustment leaves the DefaultPool covering every trove. */
  lemma AlignedStaysCovered(s: System, a: Address, x: Adjustment, price: nat)
    requires Consistent(s) && BooksOf(s).debtDust >= 0 && Aligned(s.l, s.troves)
    ensures !LeavesUncovered(s, a, x, price)
  {
    if LeavesUncovered(s, a, x, price) {
      var s' := Adjust(s, a, x, price).value;
      AdjustKeepsDebt(s, a, x, price);
      var b :| Uncovered(s', b);
      PendingDebtCovered(s', b);
    }
  }

  /**
   * In a consistent state whose DefaultPool covers all debt claims, some adjustment makes a
   * trove's pending debt exceed the DefaultPool if and only if some trove's debt snapshot lags
   * while its collateral snapshot does not. The price does not matter.
   */
  lemma UncoveredIff(s: System, price: nat)
    requires Consistent(s) && BooksOf(s).debtDust >= 0 && StakeDefined(s)
    ensures (exists a, x :: LeavesUncovered(s, a, x, price)) <==> !Aligned(s.l, s.troves)
  {
    if Aligned(s.l, s.troves) {
      forall a, x ensures !LeavesUncovered(s, a, x, price) {
        AlignedStaysCovered(s, a, x, price);
      }
    } else {
      var a :| a in s.troves && s.troves[a].snap.coll == s.l.coll && s.troves[a].snap.debt != s.l.debt;
      TopUpUncovers(s, a, price);
      var x := Adjustment(TopUp(s, a), 0, 0, false, 0, 0);
      assert Uncovered(Adjust(s, a, x, price).value, a);
      assert LeavesUncovered(s, a, x, price);
    }
  }

  // ---------------------------------------------------------------------------
  // Runs without liquidations
  // ---------------------------------------------------------------------------

  ghost predicate NoLiquidations(calls: seq<Call>) {
    forall i :: 0 <= i < |calls| ==> !calls[i].LiquidateTroves?
  }

  /** Only liquidations redistribute. */
  lemma StepKeepsRewards(s: System, c: Call)
    requires Consistent(s) && Step(s, c).Some? && !c.LiquidateTroves?
    ensures Step(s, c).value.l == s.l
  {
    match c
    case OpenTrove(_, _, _, _, _) =>
    case AdjustTrove(_, _, _) =>
    case CloseOwnTrove(_, _, _) =>
    case ClaimCollateral(_) =>
    case RedeemCollateral(_, amount, order, price, hint, limit, _) =>
      RedeemAlongKeeps(s, Redemption(s, amount, 0, 0, 0, false), order, price, hint, limit);
    case PoolCall(_) =>
    case WithdrawDeposit(_, _, _, _) =>
    case GainToTrove(_, _) =>
  }

  lemma {:induction false} NothingRedistributed(s: System, calls: seq<Call>)
    requires Consistent(s) && NoLiquidations(calls)
    ensures CollateralAlwaysMoves(s, calls)
    decreases |calls|
  {
    if calls != [] {
      if Step(s, calls[0]).Some? {
        StepKeepsRewards(s, calls[0]);
      }
      NothingRedistributed(After(s, calls[0]), calls[1..]);
    }
  }

  ghost predicate CoveredAfter(s: System, calls: seq<Call>)
    requires Consistent(s)
  {
    forall b :: !Uncovered(Run(s, calls), b)
  }

  /**
   * The DefaultPool covers every trove's pending debt after every run of calls other than
   * liquidations exactly when no debt is overlooked at the start: no such run repairs it, and
   * none brings it about.
   */
  lemma CoveredUntilLiquidationIff(s: System)
    requires Consistent(s) && BooksOf(s).debtDust >= 0 && StakeDefined(s)
    ensures (forall calls :: NoLiquidations(calls) ==> CoveredAfter(s, calls)) <==> Aligned(s.l, s.troves)
  {
    if Aligned(s.l, s.troves) {
      forall calls, b | NoLiquidations(calls) ensures !Uncovered(Run(s, calls), b) {
        NothingRedistributed(s, calls);
        RunKeepsDebt(s, calls);
        if b in Run(s, calls).troves {
          PendingDebtCovered(Run(s, calls), b);
        }
      }
    } else {
      var a :| a in s.troves && s.troves[a].snap.coll == s.l.coll && s.troves[a].snap.debt != s.l.debt;
      TopUpUncovers(s, a, 0);
      var c := AdjustTrove(a, Adjustment(TopUp(s, a), 0, 0, false, 0, 0), 0);
      assert Run(s, [c]) == After(s, c) by { assert [c][1..] == []; }
      assert Uncovered(Run(s, [c]), a);
      assert NoLiquidations([c]) && !CoveredAfter(s, [c]);
    }
  }
}
