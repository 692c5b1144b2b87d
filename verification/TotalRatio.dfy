/** Which calls can lower the total collateral ratio, compared exactly and without rounding. */
module TotalRatio {
  import opened Base
  import opened Arith
  import opened IntSums
  import opened Liquidation
  import opened TroveManager
  import opened TroveAccounting
  import opened TroveRuns
  import StabilityPool

  /** From `s` to `s'` the system's collateral per debt has not fallen. */
  ghost predicate NotLowered(s: System, s': System) {
    RatioAtLeast(SystemColl(s'), SystemDebt(s'), SystemColl(s), SystemDebt(s))
  }

  // ---------------------------------------------------------------------------
  // Arithmetic
  // ---------------------------------------------------------------------------

  lemma RemovalIff(coll: int, debt: int, x: int, y: int)
    ensures RatioAtLeast(coll - x, debt - y, coll, debt) <==> RatioAtLeast(coll, debt, x, y)
  {
    Distribute(debt, coll - x, x);
    Distribute(coll, debt - y, y);
  }

  lemma AdditionKeeps(coll: int, debt: int, x: int, y: int)
    requires RatioAtLeast(x, y, coll, debt)
    ensures RatioAtLeast(coll + x, debt + y, coll, debt)
  {
    Distribute(debt, coll, x);
    Distribute(coll, debt, y);
  }

  lemma AddedUp(x: int, y: int, x1: int, y1: int, coll: int, debt: int)
    requires RatioAtLeast(coll, debt, x, y) && RatioAtLeast(coll, debt, x1, y1)
    ensures RatioAtLeast(coll, debt, x + x1, y + y1)
  {
    Distribute(debt, x, x1);
    Distribute(coll, y, y1);
  }

  /** A smaller rounded ratio is a smaller ratio. */
  lemma RoundedBelow(coll: nat, debt: nat, coll1: nat, debt1: nat, price: nat, bound: nat)
    requires debt > 0 && debt1 > 0
    requires CollateralRatio(coll, debt, price) < bound <= CollateralRatio(coll1, debt1, price)
    ensures RatioAtLeast(coll1, debt1, coll, debt)
  {
    var x, x1 := coll * price, coll1 * price;
    if bound * debt <= x {
      QuotientAtLeast(x, debt, bound);
    }
    if x1 < bound * debt1 {
      QuotientBelow(x1, debt1, bound);
    }
    if coll1 * debt < coll * debt1 {
      Crossed(coll, debt, coll1, debt1, price, bound);
    }
  }

  lemma Crossed(coll: nat, debt: nat, coll1: nat, debt1: nat, price: nat, bound: nat)
    requires debt1 > 0 && coll * price < bound * debt && bound * debt1 <= coll1 * price
    ensures coll * debt1 <= coll1 * debt
  {
    MulMonotone(bound * debt1, coll1 * price, debt);
    MulMonotone(coll * price + 1, bound * debt, debt1);
    var x, y := coll * debt1, coll1 * debt;
    assert coll1 * price * debt == y * price && coll * price * debt1 == x * price;
    assert bound * debt1 * debt == bound * debt * debt1;
    assert x * price < y * price;
    if y < x {
      MulMonotone(y, x, price);
    }
  }

  // ---------------------------------------------------------------------------
  // Liquidation
  // ---------------------------------------------------------------------------

  /** Every trove of `who` has at most the given collateral per debt. */
  ghost predicate Poorer(s: System, who: seq<Address>, coll: int, debt: int) {
    forall a :: a in who && a in s.troves ==>
      RatioAtLeast(coll, debt, EntireColl(s.l, s.troves[a]), EntireDebt(s.l, s.troves[a]))
  }

  /** What leaves the system in a liquidation. */
  lemma FinishEffect(s: System, b: Batch)
    requires BatchSound(s, b) && Finish(b.s, b.totals).Some?
    ensures
      var s', x := Finish(b.s, b.totals).value, b.totals;
      && SystemColl(s') == SystemColl(b.s) - x.gasColl - x.collToPool - x.surplus
      && SystemDebt(s') == SystemDebt(b.s) - x.debtToOffset
  {
    var x := b.totals;
    OffsetDebtBooks(b.s, x.debtToOffset, x.collToPool);
    var s1 := OffsetDebt(b.s, x.debtToOffset, x.collToPool).value;
    RedistributeFrame(s1, x.debtToRedistribute, x.collToRedistribute);
  }

  /** One trove of the batch: nothing leaves yet, and the totals stay poorer than the system. */
  ghost predicate BatchPoorer(s: System, b: Batch, who: seq<Address>) {
    && BatchSound(s, b) && SystemColl(b.s) == SystemColl(s) && SystemDebt(b.s) == SystemDebt(s)
    && RatioAtLeast(SystemColl(s), SystemDebt(s), b.totals.coll, b.totals.debt)
    && Poorer(b.s, who, SystemColl(s), SystemDebt(s))
  }

  lemma OnePoorer(s: System, b: Batch, a: Address, who: seq<Address>, x: Split)
    requires BatchPoorer(s, b, who) && a in who && a in b.s.troves && LiquidateOne(b, a, x).Some?
    requires Complete(x, b.remaining) && x.gasDebt == GAS_COMPENSATION
    requires x.debt == EntireDebt(b.s.l, b.s.troves[a]) && x.coll == EntireColl(b.s.l, b.s.troves[a])
    ensures BatchPoorer(s, LiquidateOne(b, a, x).value, who)
  {
    LiquidateOneKeeps(s, b, a, x);
    AddedUp(b.totals.coll, b.totals.debt, x.coll, x.debt, SystemColl(s), SystemDebt(s));
  }

  lemma StepPoorer(s: System, b: Batch, a: Address, who: seq<Address>, price: nat)
    requires BatchPoorer(s, b, who) && a in who && BatchStep(b, a, price).Some?
    ensures BatchPoorer(s, BatchStep(b, a, price).value, who)
  {
    if a in b.s.troves {
      var t, tcr := b.s.troves[a], CollateralRatio(b.coll, b.debt, price);
      var debt, coll := EntireDebt(b.s.l, t), EntireColl(b.s.l, t);
      BatchStepKeeps(s, b, a, price);
      OffsetSplitComplete(debt, coll, b.remaining);
      RecoveryTable(debt, coll, tcr, b.remaining, price);
      if b.normal {
        if CurrentRatio(b.s, a, price) < MCR {
          OnePoorer(s, b, a, who, OffsetSplit(debt, coll, b.remaining));
        }
      } else {
        var x := RecoverySplit(debt, coll, CollateralRatio(coll, debt, price), tcr, b.remaining, price).value;
        if BatchStep(b, a, price).value.s != b.s && x != NOTHING {
          OnePoorer(s, b, a, who, x);
        }
      }
    }
  }

  lemma {:induction false} AllPoorer(s: System, b: Batch, rest: seq<Address>, who: seq<Address>, price: nat)
    requires BatchPoorer(s, b, who) && (forall a :: a in rest ==> a in who) && BatchAll(b, rest, price).Some?
    ensures BatchPoorer(s, BatchAll(b, rest, price).value, who)
    decreases |rest|
  {
    if rest != [] {
      StepPoorer(s, b, rest[0], who, price);
      AllPoorer(s, BatchStep(b, rest[0], price).value, rest[1..], who, price);
    }
  }

  /** The collateral that leaves the system: compensation, the pool's part, the borrowers' surplus. */
  ghost function Leaving(x: Split): int {
    x.gasColl + x.collToPool + x.surplus
  }

  /** A liquidation lowers the ratio exactly when what leaves is richer than the system was. */
  lemma LiquidationNotLoweredIff(s: System, b: Batch)
    requires BatchSound(s, b) && Finish(b.s, b.totals).Some?
    requires SystemColl(b.s) == SystemColl(s) && SystemDebt(b.s) == SystemDebt(s)
    ensures NotLowered(s, Finish(b.s, b.totals).value) <==>
              RatioAtLeast(SystemColl(s), SystemDebt(s), Leaving(b.totals), b.totals.debtToOffset)
  {
    FinishEffect(s, b);
    RemovalIff(SystemColl(s), SystemDebt(s), Leaving(b.totals), b.totals.debtToOffset);
  }

  /** Troves poorer than the system, absorbed by the pool in full or up to the cap. */
  lemma AbsorbedNotLowered(s: System, who: seq<Address>, price: nat)
    requires Consistent(s) && LiquidateBatch(s, who, price).Some?
    requires Poorer(s, who, SystemColl(s), SystemDebt(s))
    requires BatchAll(BatchStart(s, price), who, price).value.totals.debtToRedistribute == 0
    ensures NotLowered(s, LiquidateBatch(s, who, price).value)
  {
    var start := BatchStart(s, price);
    StartPoorer(s, who, price);
    AllPoorer(s, start, who, who, price);
    var b := BatchAll(start, who, price).value;
    LiquidationNotLoweredIff(s, b);
    assert Leaving(b.totals) == b.totals.coll && b.totals.debtToOffset == b.totals.debt;
  }

  lemma StartSound(s: System, price: nat)
    requires Consistent(s)
    ensures BatchSound(s, BatchStart(s, price))
  {
  }

  lemma StartPoorer(s: System, who: seq<Address>, price: nat)
    requires Consistent(s) && Poorer(s, who, SystemColl(s), SystemDebt(s))
    ensures BatchPoorer(s, BatchStart(s, price), who)
  {
    StartSound(s, price);
  }

  /** A single liquidation, with the condition a caller can read off beforehand. */
  lemma SingleNotLowered(s: System, a: Address, price: nat)
    requires Consistent(s) && a in s.troves && LiquidateBatch(s, [a], price).Some?
    requires CurrentRatio(s, a, price) < CollateralRatio(SystemColl(s), SystemDebt(s), price)
    requires RecoveryMode(s, price) ==> HUNDRED_PERCENT < CurrentRatio(s, a, price)
    requires EntireDebt(s.l, s.troves[a]) <= s.pool.total && SystemDebt(s) > 0
    ensures NotLowered(s, LiquidateBatch(s, [a], price).value)
  {
    var t := s.troves[a];
    var debt, coll := EntireDebt(s.l, t), EntireColl(s.l, t);
    RoundedBelow(coll, debt, SystemColl(s), SystemDebt(s), price, CollateralRatio(SystemColl(s), SystemDebt(s), price));
    OffsetSplitComplete(debt, coll, s.pool.total);
    RecoveryTable(debt, coll, CollateralRatio(SystemColl(s), SystemDebt(s), price), s.pool.total, price);
    SingleBatch(s, a, price);
    AbsorbedNotLowered(s, [a], price);
  }

  /** Redistributing a whole trove lowers the ratio exactly when there is collateral to compensate with. */
  lemma RedistributionLowersIff(s: System, a: Address, price: nat)
    requires Consistent(s) && a in s.troves && LiquidateBatch(s, [a], price).Some? && SystemDebt(s) > 0
    requires CurrentRatio(s, a, price) < MCR
    requires s.pool.total == 0 || (RecoveryMode(s, price) && CurrentRatio(s, a, price) <= HUNDRED_PERCENT)
    ensures !NotLowered(s, LiquidateBatch(s, [a], price).value) <==> EntireColl(s.l, s.troves[a]) >= PERCENT_DIVISOR
  {
    var coll := EntireColl(s.l, s.troves[a]);
    SingleBatch(s, a, price);
    NotTheOnly(s, a, price);
    AllRedistributed(s, a, price);
    CompensationLowersIff(s, [a], price, coll);
  }

  lemma CompensationLowersIff(s: System, who: seq<Address>, price: nat, coll: nat)
    requires Consistent(s) && LiquidateBatch(s, who, price).Some? && SystemDebt(s) > 0
    requires
      var b := BatchAll(BatchStart(s, price), who, price).value;
      && SystemColl(b.s) == SystemColl(s) && SystemDebt(b.s) == SystemDebt(s)
      && Leaving(b.totals) == GasColl(coll) && b.totals.debtToOffset == 0
    ensures !NotLowered(s, LiquidateBatch(s, who, price).value) <==> coll >= PERCENT_DIVISOR
  {
    StartSound(s, price);
    BatchAllKeeps(s, BatchStart(s, price), who, price);
    LiquidationNotLoweredIff(s, BatchAll(BatchStart(s, price), who, price).value);
    CompensationOnlyIff(coll, SystemColl(s), SystemDebt(s));
  }

  lemma CompensationOnlyIff(coll: nat, systemColl: nat, systemDebt: nat)
    requires systemDebt > 0
    ensures RatioAtLeast(systemColl, systemDebt, GasColl(coll), 0) <==> coll < PERCENT_DIVISOR
  {
    if coll >= PERCENT_DIVISOR {
      assert GasColl(coll) >= 1;
      MulMonotone(1, GasColl(coll), systemDebt);
    }
  }

  /** A liquidation takes out exactly what its totals say. */
  lemma LiquidationEffect(s: System, who: seq<Address>, price: nat)
    requires Consistent(s) && LiquidateBatch(s, who, price).Some?
    ensures
      var b := BatchAll(BatchStart(s, price), who, price).value;
      SystemColl(LiquidateBatch(s, who, price).value) == SystemColl(b.s) - Leaving(b.totals)
  {
    StartSound(s, price);
    BatchAllKeeps(s, BatchStart(s, price), who, price);
    FinishEffect(s, BatchAll(BatchStart(s, price), who, price).value);
  }

  /** The only trove of the system cannot be liquidated. */
  lemma NotTheOnly(s: System, a: Address, price: nat)
    requires a in s.troves && CurrentRatio(s, a, price) < MCR && LiquidateBatch(s, [a], price).Some?
    ensures |s.troves| > 1
  {
    SingleBatch(s, a, price);
  }

  lemma AllRedistributed(s: System, a: Address, price: nat)
    requires MinimumDebt(s.troves) && a in s.troves && BatchStep(BatchStart(s, price), a, price).Some?
    requires |s.troves| > 1 && CurrentRatio(s, a, price) < MCR
    requires s.pool.total == 0 || (RecoveryMode(s, price) && CurrentRatio(s, a, price) <= HUNDRED_PERCENT)
    ensures
      var b := BatchStep(BatchStart(s, price), a, price).value;
      && b.totals == RedistributionSplit(EntireDebt(s.l, s.troves[a]), EntireColl(s.l, s.troves[a]))
      && SystemColl(b.s) == SystemColl(s) && SystemDebt(b.s) == SystemDebt(s)
  {
    var t := s.troves[a];
    OffsetSplitComplete(EntireDebt(s.l, t), EntireColl(s.l, t), s.pool.total);
  }

  // ---------------------------------------------------------------------------
  // Borrower operations
  // ---------------------------------------------------------------------------

  lemma OpenNotLowered(s: System, a: Address, coll: nat, amount: nat, fee: nat, price: nat)
    requires RecoveryMode(s, price) && Open(s, a, coll, amount, fee, price).Some?
    ensures NotLowered(s, Open(s, a, coll, amount, fee, price).value)
  {
    var debt := amount + GAS_COMPENSATION;
    if SystemDebt(s) > 0 {
      RoundedBelow(SystemColl(s), SystemDebt(s), coll, debt, price, CCR);
    }
    AdditionKeeps(SystemColl(s), SystemDebt(s), coll, debt);
  }

  lemma AdjustNotLowered(s: System, a: Address, x: Adjustment, price: nat)
    requires x.collOut == 0 && !x.increase && Adjust(s, a, x, price).Some?
    ensures NotLowered(s, Adjust(s, a, x, price).value)
  {
    var s' := Adjust(s, a, x, price).value;
    assert SystemColl(s') == SystemColl(s) + x.collIn && SystemDebt(s') == SystemDebt(s) - x.change;
    ImprovementKeeps(SystemColl(s), SystemDebt(s), x.collIn, x.change);
  }

  lemma ImprovementKeeps(coll: nat, debt: nat, x: nat, y: nat)
    requires y <= debt
    ensures RatioAtLeast(coll + x, debt - y, coll, debt)
  {
    MulMonotone(debt - y, debt, coll);
    Distribute(debt, coll, x);
  }

  // ---------------------------------------------------------------------------
  // Runs
  // ---------------------------------------------------------------------------

  /** Opening in Recovery Mode, improving a trove, or liquidating one that the pool can absorb. */
  ghost predicate Improving(s: System, c: Call) {
    match c
    case OpenTrove(_, _, _, _, price) => RecoveryMode(s, price)
    case AdjustTrove(_, x, _) => x.collOut == 0 && !x.increase
    case CloseOwnTrove(_, _, _) => false
    case ClaimCollateral(_) => true
    case LiquidateTroves(batch, price) => |batch| == 1 && Absorbable(s, batch[0], price)
    case RedeemCollateral(_, _, _, _, _, _, _) => false
    case PoolCall(_) => true
    case WithdrawDeposit(_, _, _, _) => true
    case GainToTrove(_, _) => true
  }

  ghost predicate Absorbable(s: System, a: Address, price: nat) {
    && a in s.troves && EntireDebt(s.l, s.troves[a]) <= s.pool.total
    && CurrentRatio(s, a, price) < CollateralRatio(SystemColl(s), SystemDebt(s), price)
    && (RecoveryMode(s, price) ==> HUNDRED_PERCENT < CurrentRatio(s, a, price))
  }

  lemma StepNotLowered(s: System, c: Call)
    requires Consistent(s) && SystemDebt(s) > 0 && Improving(s, c) && Step(s, c).Some?
    ensures NotLowered(s, Step(s, c).value)
  {
    match c
    case OpenTrove(a, coll, amount, fee, price) => OpenNotLowered(s, a, coll, amount, fee, price);
    case AdjustTrove(a, x, price) => AdjustNotLowered(s, a, x, price);
    case ClaimCollateral(_) =>
    case LiquidateTroves(batch, price) =>
      assert batch == [batch[0]];
      SingleNotLowered(s, batch[0], price);
    case PoolCall(_) =>
    case WithdrawDeposit(_, _, _, _) =>
    case GainToTrove(a, price) =>
      var s1 := s.(pool := StabilityPool.GainToTrove(s.pool, a, a in s.troves).value);
      AdjustNotLowered(s1, a, Adjustment(StabilityPool.DepositorGain(s.pool, a), 0, 0, false, 0, 0), price);
  }

  lemma StepLeavesTrove(s: System, c: Call)
    requires Consistent(s) && Improving(s, c) && Step(s, c).Some? && s.troves.Keys != {}
    ensures Step(s, c).value.troves.Keys != {}
  {
    match c
    case OpenTrove(a, _, _, _, _) => assert a in Step(s, c).value.troves.Keys;
    case AdjustTrove(a, _, _) => assert a in Step(s, c).value.troves.Keys;
    case ClaimCollateral(_) =>
    case LiquidateTroves(batch, price) =>
      assert batch == [batch[0]];
      SingleBatch(s, batch[0], price);
      SingleLeavesTrove(s, batch[0], price);
    case PoolCall(_) =>
    case WithdrawDeposit(_, _, _, _) =>
    case GainToTrove(a, _) => assert a in Step(s, c).value.troves.Keys;
  }

  lemma SingleLeavesTrove(s: System, a: Address, price: nat)
    requires LiquidateBatch(s, [a], price).Some? && a in s.troves
    ensures LiquidateBatch(s, [a], price).value.troves.Keys != {}
  {
    SingleBatch(s, a, price);
    var b := BatchStep(BatchStart(s, price), a, price).value;
    if b.s.troves.Keys != s.troves.Keys {
      assert b.s.troves == s.troves - {a} && |s.troves| > 1;
      assert |s.troves.Keys - {a}| == |s.troves.Keys| - 1;
      assert b.s.troves.Keys == s.troves.Keys - {a};
    }
    var s' := LiquidateBatch(s, [a], price).value;
    assert s'.troves == b.s.troves;
  }

  lemma DebtPositive(s: System)
    requires Consistent(s) && s.troves.Keys != {}
    ensures SystemDebt(s) > 0
  {
    TotalsInclude(s.l, s.troves, PickTrove(s.troves));
  }

  /** The system's collateral per unit of debt. */
  ghost function SystemRatio(s: System): real
    requires SystemDebt(s) > 0
  {
    SystemColl(s) as real / SystemDebt(s) as real
  }

  ghost predicate AllImproving(s: System, calls: seq<Call>)
    requires Consistent(s)
    decreases |calls|
  {
    calls != [] ==> Improving(s, calls[0]) && AllImproving(After(s, calls[0]), calls[1..])
  }

  lemma AfterNotLowered(s: System, c: Call)
    requires Consistent(s) && s.troves.Keys != {} && Improving(s, c)
    ensures After(s, c).troves.Keys != {} && SystemDebt(s) > 0 && SystemDebt(After(s, c)) > 0
    ensures SystemRatio(s) <= SystemRatio(After(s, c))
  {
    DebtPositive(s);
    if Step(s, c).Some? {
      var s' := Step(s, c).value;
      StepNotLowered(s, c);
      StepLeavesTrove(s, c);
      DebtPositive(After(s, c));
      CompareRatios(SystemColl(s'), SystemDebt(s'), SystemColl(s), SystemDebt(s));
    }
  }

  /** No sequence of such calls lowers the ratio, whatever the prices and whichever calls revert. */
  lemma {:induction false} RunNotLowered(s: System, calls: seq<Call>)
    requires Consistent(s) && s.troves.Keys != {} && AllImproving(s, calls)
    ensures SystemDebt(s) > 0 && SystemDebt(Run(s, calls)) > 0
    ensures SystemRatio(s) <= SystemRatio(Run(s, calls))
    decreases |calls|
  {
    DebtPositive(s);
    if calls != [] {
      AfterNotLowered(s, calls[0]);
      RunNotLowered(After(s, calls[0]), calls[1..]);
    }
  }
}
