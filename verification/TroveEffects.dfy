/**
 * Opening, adjusting, closing and claiming in plain amounts: exactly when each call is refused,
 * by inequalities over what can be read before it, and exactly what a successful one changes.
 */
module TroveEffects {
  import opened Base
  import opened Arith
  import opened IntSums
  import opened Liquidation
  import opened TroveManager
  import opened TroveAccounting
  import opened TroveRuns
  import opened RedemptionStart
  import PoolWithdrawals
  import StabilityPool

  // ---------------------------------------------------------------------------
  // Ratios and modes
  // ---------------------------------------------------------------------------

  /** A ratio below a bound, without the division. */
  ghost predicate Below(coll: int, debt: int, price: int, bound: int) {
    coll * price < bound * debt
  }

  lemma RatioBelowIff(coll: nat, debt: nat, price: nat, bound: nat)
    requires bound <= INFINITE_RATIO
    ensures CollateralRatio(coll, debt, price) < bound <==> Below(coll, debt, price, bound)
  {
    if debt > 0 {
      if coll * price < bound * debt {
        QuotientBelow(coll * price, debt, bound);
      } else {
        QuotientAtLeast(coll * price, debt, bound);
      }
    }
  }

  lemma NominalZeroIff(coll: nat, debt: nat)
    ensures NominalRatio(coll, debt) == 0 <==> Below(coll, debt, NICR_PRECISION, 1)
  {
    if debt > 0 {
      if coll * NICR_PRECISION < debt {
        QuotientBelow(coll * NICR_PRECISION, debt, 1);
      } else {
        QuotientAtLeast(coll * NICR_PRECISION, debt, 1);
      }
    }
  }

  /** The system as a whole is below 150%. */
  ghost predicate InRecovery(s: System, price: nat) {
    Below(SystemColl(s), SystemDebt(s), price, CCR)
  }

  lemma RecoveryModeIff(s: System, price: nat)
    ensures RecoveryMode(s, price) <==> InRecovery(s, price)
  {
    RatioBelowIff(SystemColl(s), SystemDebt(s), price, CCR);
  }

  /** The snapshots leave no stake to give. */
  ghost predicate NoStake(s: System) {
    s.totalCollateralSnapshot > 0 && s.totalStakesSnapshot == 0
  }

  /** The collateral, in the proportion of the two snapshots, rounded down. */
  ghost predicate StakeFor(s: System, coll: nat, stake: nat) {
    if s.totalCollateralSnapshot == 0 then stake == coll
    else
      stake * s.totalCollateralSnapshot <= coll * s.totalStakesSnapshot
        < stake * s.totalCollateralSnapshot + s.totalCollateralSnapshot
  }

  lemma NewStakeIs(s: System, coll: nat)
    ensures NewStake(s, coll).None? <==> NoStake(s)
    ensures NewStake(s, coll).Some? ==> StakeFor(s, coll, NewStake(s, coll).value)
  {
    var c, n := s.totalCollateralSnapshot, coll * s.totalStakesSnapshot;
    if c > 0 {
      assert n == n / c * c + n % c;
    }
  }

  // ---------------------------------------------------------------------------
  // Opening
  // ---------------------------------------------------------------------------

  /** The debt of a new trove: the fee is waived below 150%, the reserve is not. */
  ghost function DebtOfNew(s: System, amount: nat, fee: nat, price: nat): nat {
    (if InRecovery(s, price) then amount else amount + fee) + GAS_COMPENSATION
  }

  lemma OpenRefusedIff(s: System, a: Address, coll: nat, amount: nat, fee: nat, price: nat)
    ensures
      var debt := DebtOfNew(s, amount, fee, price);
      Open(s, a, coll, amount, fee, price).None? <==>
        || a in s.troves || debt < MIN_NET_DEBT + GAS_COMPENSATION || NoStake(s)
        || Below(coll, debt, NICR_PRECISION, 1)
        || (if InRecovery(s, price) then Below(coll, debt, price, CCR)
            else
              Below(coll, debt, price, MCR) || Below(SystemColl(s) + coll, SystemDebt(s) + debt, price, CCR))
  {
    var debt := DebtOfNew(s, amount, fee, price);
    RecoveryModeIff(s, price);
    NominalZeroIff(coll, debt);
    RatioBelowIff(coll, debt, price, CCR);
    RatioBelowIff(coll, debt, price, MCR);
    RatioBelowIff(SystemColl(s) + coll, SystemDebt(s) + debt, price, CCR);
    NewStakeIs(s, coll);
  }

  /** All of the new debt is minted, and one reserve of it goes to the GasPool. */
  lemma OpenEffect(s: System, a: Address, coll: nat, amount: nat, fee: nat, price: nat)
    requires Open(s, a, coll, amount, fee, price).Some?
    ensures
      var s', debt := Open(s, a, coll, amount, fee, price).value, DebtOfNew(s, amount, fee, price);
      && a in s'.troves && s'.troves == s.troves[a := Trove(debt, coll, s'.troves[a].stake, s.l)]
      && StakeFor(s, coll, s'.troves[a].stake)
      && s' == s.(troves := s'.troves, totalStakes := s.totalStakes + s'.troves[a].stake,
                  activeColl := s.activeColl + coll, activeDebt := s.activeDebt + debt,
                  supply := s.supply + debt, gasPool := s.gasPool + GAS_COMPENSATION)
  {
    RecoveryModeIff(s, price);
    NewStakeIs(s, coll);
  }

  // ---------------------------------------------------------------------------
  // Rewards
  // ---------------------------------------------------------------------------

  /** The debt that a call finds once rewards are applied: entire, unless it is overlooked. */
  ghost function FoundDebt(s: System, a: Address): nat
    requires a in s.troves
  {
    if s.troves[a].snap.coll < s.l.coll then EntireDebt(s.l, s.troves[a]) else s.troves[a].debt
  }

  lemma NothingOverlooked(s: System, a: Address)
    requires a in s.troves && Aligned(s.l, s.troves)
    requires s.troves[a].snap.coll <= s.l.coll
    ensures FoundDebt(s, a) == EntireDebt(s.l, s.troves[a])
  {
    NoClaim(s.l, s.troves[a]);
  }

  /** A trove whose rewards are applied, and the two pools they moved between. */
  lemma FoundTrove(s: System, a: Address)
    requires a in s.troves && ApplyRewards(s, a).Some? && s.troves[a].snap.coll <= s.l.coll
    ensures
      var s1, t := ApplyRewards(s, a).value, s.troves[a];
      && a in s1.troves && s1.troves[a].coll == EntireColl(s.l, t) && s1.troves[a].debt == FoundDebt(s, a)
      && s1.troves == s.troves[a := s1.troves[a]] && s1.troves[a].stake == t.stake
      && s1.troves[a].snap == (if t.snap.coll < s.l.coll then s.l else t.snap)
      && SystemColl(s1) == SystemColl(s) && SystemDebt(s1) == SystemDebt(s)
      && s1.activeColl == s.activeColl + (EntireColl(s.l, t) - t.coll)
      && s1.activeDebt == s.activeDebt + (FoundDebt(s, a) - t.debt)
      && s1 == s.(troves := s1.troves, activeColl := s1.activeColl, activeDebt := s1.activeDebt,
                  defaultColl := s1.defaultColl, defaultDebt := s1.defaultDebt)
  {
    NoClaim(s.l, s.troves[a]);
  }

  /** In a consistent covered system, rewards can be applied and the pools hold what any trove takes out. */
  ghost predicate Sound(s: System) {
    Consistent(s) && BooksOf(s).debtDust >= 0
  }

  lemma HoldsTrove(s: System, a: Address)
    requires Sound(s) && a in s.troves
    ensures ApplyRewards(s, a).Some? && s.troves[a].snap.coll <= s.l.coll
    ensures
      var s1 := ApplyRewards(s, a).value;
      && a in s1.troves && s1.troves[a].coll <= s1.activeColl && s1.troves[a].stake <= s1.totalStakes
      && MIN_DEBT <= s1.troves[a].debt <= s1.activeDebt && s1.activeDebt + s1.defaultDebt == s1.supply
      && GAS_COMPENSATION <= s1.gasPool && |s1.troves| == |s.troves|
  {
    RewardsAvailable(s, a);
    AppliedKeeps(s, a);
    var s1 := ApplyRewards(s, a).value;
    TotalsInclude(s1.l, s1.troves, a);
    TotalsBounds(s1.l, s1.troves);
    assert a in s1.troves.Keys && |s1.troves| >= 1 && |s1.troves| == |s1.troves.Keys|;
  }

  // ---------------------------------------------------------------------------
  // Adjusting
  // ---------------------------------------------------------------------------

  /** How much debt an adjustment adds: nothing but the amount below 150% or on a repayment. */
  ghost function DebtAdded(s: System, x: Adjustment, price: nat): int {
    if !x.increase then -(x.change as int)
    else if InRecovery(s, price) then x.change
    else x.change + x.fee
  }

  /**
   * A successful adjustment moves the trove's collateral by what is deposited or withdrawn, and
   * its debt, the system's debt and the supply by the debt added.
   */
  lemma AdjustEffect(s: System, a: Address, x: Adjustment, price: nat)
    requires Consistent(s) && Adjust(s, a, x, price).Some?
    ensures a in s.troves && a in Adjust(s, a, x, price).value.troves
    ensures
      var s', t, added := Adjust(s, a, x, price).value, s.troves[a], DebtAdded(s, x, price);
      var t' := s'.troves[a];
      && t'.coll == EntireColl(s.l, t) + x.collIn - x.collOut && t'.debt == FoundDebt(s, a) + added
      && StakeFor(s, t'.coll, t'.stake) && t'.snap == (if t.snap.coll < s.l.coll then s.l else t.snap)
      && s'.troves == s.troves[a := t'] && s'.totalStakes == s.totalStakes - t.stake + t'.stake
      && SystemColl(s') == SystemColl(s) + x.collIn - x.collOut
      && SystemDebt(s') == SystemDebt(s) + added && s'.supply == s.supply + added
      && s' == s.(troves := s'.troves, totalStakes := s'.totalStakes, supply := s'.supply,
                  activeColl := s'.activeColl, activeDebt := s'.activeDebt,
                  defaultColl := s'.defaultColl, defaultDebt := s'.defaultDebt)
  {
    RecoveryModeIff(s, price);
    AppliedKeeps(s, a);
    FoundTrove(s, a);
    AppliedEffect(ApplyRewards(s, a).value, a, x, price);
  }

  lemma AppliedEffect(s: System, a: Address, x: Adjustment, price: nat)
    requires a in s.troves && AdjustApplied(s, a, x, price).Some?
    ensures a in AdjustApplied(s, a, x, price).value.troves
    ensures
      var s', t, added := AdjustApplied(s, a, x, price).value, s.troves[a], DebtAdded(s, x, price);
      var t' := s'.troves[a];
      && t'.coll == t.coll + x.collIn - x.collOut && t'.debt == t.debt + added
      && StakeFor(s, t'.coll, t'.stake) && t'.snap == t.snap
      && s'.troves == s.troves[a := t'] && s'.totalStakes == s.totalStakes - t.stake + t'.stake
      && s' == s.(troves := s'.troves, totalStakes := s'.totalStakes, supply := s.supply + added,
                  activeColl := s.activeColl + x.collIn - x.collOut, activeDebt := s.activeDebt + added)
  {
    RecoveryModeIff(s, price);
    NewStakeIs(s, s.troves[a].coll + x.collIn - x.collOut);
  }

  /** And so of the entire amounts, in a system that overlooks no debt. */
  lemma AdjustEntire(s: System, a: Address, x: Adjustment, price: nat)
    requires Consistent(s) && Aligned(s.l, s.troves) && Adjust(s, a, x, price).Some?
    ensures
      var s' := Adjust(s, a, x, price).value;
      && a in s.troves && a in s'.troves
      && EntireColl(s'.l, s'.troves[a]) == EntireColl(s.l, s.troves[a]) + x.collIn - x.collOut
      && EntireDebt(s'.l, s'.troves[a]) == EntireDebt(s.l, s.troves[a]) + DebtAdded(s, x, price)
  {
    AdjustEffect(s, a, x, price);
    NothingOverlooked(s, a);
    NoClaim(s.l, Adjust(s, a, x, price).value.troves[a]);
  }

  /** What the mode of the system demands of the new amounts. */
  ghost predicate ModeForbids(s: System, x: Adjustment, price: nat, coll: nat, debt: nat, coll': nat, debt': nat) {
    if InRecovery(s, price) then
      || x.collOut > 0
      || (x.increase && (Below(coll', debt', price, CCR)
                         || CollateralRatio(coll', debt', price) < CollateralRatio(coll, debt, price)))
    else
      || Below(coll', debt', price, MCR)
      || Below(SystemColl(s) + x.collIn - x.collOut, SystemDebt(s) + DebtAdded(s, x, price), price, CCR)
  }

  /** Some change, collateral in one direction only, and new debt only if there is some. */
  ghost predicate WellPosed(x: Adjustment) {
    && (x.increase ==> x.change > 0) && (x.collIn == 0 || x.collOut == 0)
    && (x.collIn > 0 || x.collOut > 0 || x.change > 0)
  }

  /** An adjustment of a trove with these amounts is refused for one of these reasons. */
  ghost predicate AdjustBlocked(s: System, x: Adjustment, price: nat, coll: nat, debt: nat) {
    || !WellPosed(x)
    || x.collOut > coll + x.collIn || debt + DebtAdded(s, x, price) < 0 || NoStake(s)
    || var coll', debt' := coll + x.collIn - x.collOut, debt + DebtAdded(s, x, price);
       || ModeForbids(s, x, price, coll, debt, coll', debt')
       || Below(coll', debt', NICR_PRECISION, 1)
       || (!x.increase && x.change > 0 && (debt' < MIN_DEBT || x.funds < x.change))
  }

  lemma AdjustRefusedIff(s: System, a: Address, x: Adjustment, price: nat)
    requires Sound(s)
    ensures Adjust(s, a, x, price).None? <==>
              a !in s.troves || AdjustBlocked(s, x, price, EntireColl(s.l, s.troves[a]), FoundDebt(s, a))
  {
    if a in s.troves && WellPosed(x) {
      HoldsTrove(s, a);
      FoundTrove(s, a);
      AppliedRefusedIff(ApplyRewards(s, a).value, a, x, price);
      SameDemands(s, ApplyRewards(s, a).value, x, price, EntireColl(s.l, s.troves[a]), FoundDebt(s, a));
    }
  }

  lemma SameDemands(s: System, s1: System, x: Adjustment, price: nat, coll: nat, debt: nat)
    requires SystemColl(s1) == SystemColl(s) && SystemDebt(s1) == SystemDebt(s)
    requires s1.totalCollateralSnapshot == s.totalCollateralSnapshot && s1.totalStakesSnapshot == s.totalStakesSnapshot
    ensures AdjustBlocked(s1, x, price, coll, debt) <==> AdjustBlocked(s, x, price, coll, debt)
  {
  }

  lemma ModeForbidsIff(s: System, x: Adjustment, price: nat, coll: nat, debt: nat, coll': nat, debt': nat)
    requires x.collOut <= SystemColl(s) + x.collIn && (x.increase || x.change <= SystemDebt(s))
    ensures ModeForbids(s, x, price, coll, debt, coll', debt') <==>
              !ValidAdjustment(s, x, price, coll, debt, coll', debt')
  {
    RecoveryModeIff(s, price);
    RatioBelowIff(coll', debt', price, CCR);
    RatioBelowIff(coll', debt', price, MCR);
    RatioBelowIff(SystemColl(s) + x.collIn - x.collOut, SystemDebt(s) + DebtAdded(s, x, price), price, CCR);
  }

  lemma AppliedRefusedIff(s: System, a: Address, x: Adjustment, price: nat)
    requires a in s.troves && s.troves[a].coll <= s.activeColl && s.troves[a].stake <= s.totalStakes
    requires s.troves[a].debt <= s.activeDebt <= s.supply
    requires WellPosed(x)
    ensures AdjustApplied(s, a, x, price).None? <==> AdjustBlocked(s, x, price, s.troves[a].coll, s.troves[a].debt)
  {
    var t := s.troves[a];
    RecoveryModeIff(s, price);
    if x.collOut <= t.coll + x.collIn && t.debt + DebtAdded(s, x, price) >= 0 {
      var coll, debt := t.coll + x.collIn - x.collOut, t.debt + DebtAdded(s, x, price);
      ModeForbidsIff(s, x, price, t.coll, t.debt, coll, debt);
      NominalZeroIff(coll, debt);
      NewStakeIs(s, coll);
    }
  }

  // ---------------------------------------------------------------------------
  // Closing and claiming
  // ---------------------------------------------------------------------------

  lemma CloseRefusedIff(s: System, a: Address, funds: nat, price: nat)
    requires Sound(s)
    ensures Close(s, a, funds, price).None? <==>
              || a !in s.troves || InRecovery(s, price) || |s.troves| <= 1
              || funds < FoundDebt(s, a) - GAS_COMPENSATION
              || Below(SystemColl(s) - EntireColl(s.l, s.troves[a]), SystemDebt(s) - FoundDebt(s, a), price, CCR)
  {
    RecoveryModeIff(s, price);
    if a in s.troves {
      HoldsTrove(s, a);
      FoundTrove(s, a);
      var s1 := ApplyRewards(s, a).value;
      var t := s1.troves[a];
      RatioBelowIff(SystemColl(s1) - t.coll, SystemDebt(s1) - t.debt, price, CCR);
    }
  }

  /** The debt is burnt, one reserve of it from the GasPool, and the collateral leaves. */
  lemma CloseEffect(s: System, a: Address, funds: nat, price: nat)
    requires Consistent(s) && Close(s, a, funds, price).Some?
    ensures
      var s', t := Close(s, a, funds, price).value, s.troves[a];
      && a in s.troves && s'.troves == s.troves - {a} && s'.totalStakes == s.totalStakes - t.stake
      && SystemColl(s') == SystemColl(s) - EntireColl(s.l, t) && SystemDebt(s') == SystemDebt(s) - FoundDebt(s, a)
      && s'.supply == s.supply - FoundDebt(s, a) && s'.gasPool == s.gasPool - GAS_COMPENSATION
      && s' == s.(troves := s'.troves, totalStakes := s'.totalStakes, supply := s'.supply, gasPool := s'.gasPool,
                  activeColl := s'.activeColl, activeDebt := s'.activeDebt,
                  defaultColl := s'.defaultColl, defaultDebt := s'.defaultDebt)
  {
    AppliedKeeps(s, a);
    FoundTrove(s, a);
  }

  /** A surplus can be claimed exactly when there is one, and then it is gone. */
  lemma ClaimIff(s: System, a: Address)
    requires Consistent(s)
    ensures Claim(s, a).Some? <==> a in s.surplus && s.surplus[a] > 0
    ensures Claim(s, a).Some? ==>
              Claim(s, a).value == s.(surplus := s.surplus - {a}, surplusColl := s.surplusColl - s.surplus[a])
  {
    if a in s.surplus {
      SumNonNegative(s.surplus);
    }
  }

  // ---------------------------------------------------------------------------
  // The Stability Pool
  // ---------------------------------------------------------------------------

  /** The last trove asked for is below 110%. */
  ghost predicate LastBelow(s: System, last: Address, price: nat) {
    last in s.troves && Below(EntireColl(s.l, s.troves[last]), EntireDebt(s.l, s.troves[last]), price, MCR)
  }

  lemma LastCoveredIff(s: System, last: Address, price: nat)
    ensures LastCovered(s, last, price) <==> !LastBelow(s, last, price)
  {
    if last in s.troves {
      RatioBelowIff(EntireColl(s.l, s.troves[last]), EntireDebt(s.l, s.troves[last]), price, MCR);
    }
  }

  /**
   * A withdrawal is refused exactly while the last trove is below 110% and the amount is not
   * zero, without a deposit, or when tokens, collateral or the tag's stake do not cover it. So
   * no depositor leaves ahead of a pending liquidation, and none is kept from claiming.
   */
  lemma WithdrawRefusedIff(s: System, a: Address, amount: nat, last: Address, price: nat)
    requires StabilityPool.WellFormed(s.pool)
    ensures
      var p := s.pool;
      WithdrawFromPool(s, a, amount, last, price).None? <==>
        || (amount > 0 && LastBelow(s, last, price)) || a !in p.deposits
        || PoolWithdrawals.PaidOut(p, a, amount) > p.total || StabilityPool.DepositorGain(p, a) > p.coll
        || PoolWithdrawals.PaidOut(p, a, amount) > StabilityPool.CompoundedStake(p, p.deposits[a].tag)
  {
    LastCoveredIff(s, last, price);
    PoolWithdrawals.WithdrawRefusedIff(s.pool, a, amount, LastCovered(s, last, price));
  }

  /** On a list in order of ratio, the last trove is below 110% exactly when some trove is. */
  lemma LastSpeaksForAll(s: System, ids: seq<Address>, price: nat)
    requires (forall a :: a in ids <==> a in s.troves) && ids != [] && Descending(ids, CurrentRatios(s, price))
    ensures LastBelow(s, ids[|ids| - 1], price) <==>
              exists a :: a in s.troves && Below(EntireColl(s.l, s.troves[a]), EntireDebt(s.l, s.troves[a]), price, MCR)
  {
    var icr, last := CurrentRatios(s, price), ids[|ids| - 1];
    assert last in ids;
    LastCoveredIff(s, last, price);
    forall a | a in s.troves
      ensures Below(EntireColl(s.l, s.troves[a]), EntireDebt(s.l, s.troves[a]), price, MCR) ==>
                LastBelow(s, last, price)
    {
      RatioBelowIff(EntireColl(s.l, s.troves[a]), EntireDebt(s.l, s.troves[a]), price, MCR);
      assert a in ids;
      var i :| 0 <= i < |ids| && ids[i] == a;
      assert icr(ids[i]) >= icr(last);
    }
  }

  /** Moving a gain needs a gain and a trove, and is then an adjustment that adds it. */
  lemma MoveGainIff(s: System, a: Address, price: nat)
    requires Sound(s)
    ensures
      var p, gain := s.pool, StabilityPool.DepositorGain(s.pool, a);
      MoveGain(s, a, price).Some? <==>
        && a in p.deposits && a in s.troves && 0 < gain <= p.coll
        && !AdjustBlocked(s, Adjustment(gain, 0, 0, false, 0, 0), price, EntireColl(s.l, s.troves[a]), FoundDebt(s, a))
  {
    PoolWithdrawals.GainToTroveIff(s.pool, a, a in s.troves);
    var pool := StabilityPool.GainToTrove(s.pool, a, a in s.troves);
    if pool.Some? {
      var gain := StabilityPool.DepositorGain(s.pool, a);
      StabilityPool.StepKeepsWellFormed(s.pool, StabilityPool.WithdrawCollGainToTrove(a, a in s.troves));
      var s1 := s.(pool := pool.value);
      assert Sound(s1);
      AdjustRefusedIff(s1, a, Adjustment(gain, 0, 0, false, 0, 0), price);
    }
  }

  lemma MoveGainEffect(s: System, a: Address, price: nat)
    requires Consistent(s) && MoveGain(s, a, price).Some?
    ensures a in s.troves && a in MoveGain(s, a, price).value.troves
    ensures
      var s', gain := MoveGain(s, a, price).value, StabilityPool.DepositorGain(s.pool, a);
      && s'.troves[a].coll == EntireColl(s.l, s.troves[a]) + gain && s'.troves[a].debt == FoundDebt(s, a)
      && s'.troves == s.troves[a := s'.troves[a]] && s'.supply == s.supply
      && SystemColl(s') == SystemColl(s) + gain && SystemDebt(s') == SystemDebt(s)
      && Some(s'.pool) == StabilityPool.Withdraw(s.pool, a, 0, false)
  {
    PoolWithdrawals.GainToTroveIff(s.pool, a, a in s.troves);
    StabilityPool.StepKeepsWellFormed(s.pool, StabilityPool.WithdrawCollGainToTrove(a, a in s.troves));
    var s1 := s.(pool := StabilityPool.GainToTrove(s.pool, a, a in s.troves).value);
    assert Consistent(s1);
    AdjustEffect(s1, a, Adjustment(StabilityPool.DepositorGain(s.pool, a), 0, 0, false, 0, 0), price);
  }
}
