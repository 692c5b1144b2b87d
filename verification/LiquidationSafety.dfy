/** Exactly when a liquidation is refused, and what it does to the Stability Pool when it is not. */
module LiquidationSafety {
  import opened Base
  import opened Liquidation
  import opened TroveManager
  import opened TroveAccounting
  import opened TroveRuns
  import StabilityPool

  /** A batch under way in which no claim on the DefaultPool is uncovered, and the tracked amounts are right. */
  ghost predicate BatchCovered(s: System, b: Batch) {
    && BatchSound(s, b)
    && BooksOf(b.s).collDust >= 0 && BooksOf(b.s).debtDust >= 0
    && (!b.normal ==>
          && b.debt == SystemDebt(b.s) - b.totals.debtToOffset
          && b.coll == SystemColl(b.s) - b.totals.collToPool)
  }

  // ---------------------------------------------------------------------------
  // Taking troves out
  // ---------------------------------------------------------------------------

  /** No pool, stake or supply can fall short of what one trove takes out of them. */
  lemma BatchHoldings(s: System, b: Batch, a: Address)
    requires BatchCovered(s, b) && a in b.s.troves
    ensures
      var t := b.s.troves[a];
      && t.stake <= b.s.totalStakes && t.debt >= MIN_DEBT
      && PendingColl(b.s.l, t) <= b.s.defaultColl && PendingDebt(b.s.l, t) <= b.s.defaultDebt
      && t.debt + b.totals.debt <= b.s.activeDebt && t.coll + b.totals.coll <= b.s.activeColl
  {
    var t := b.s.troves[a];
    TotalsInclude(b.s.l, b.s.troves, a);
    TotalsBounds(b.s.l, b.s.troves);
    Remainder(CollClaim(b.s.l, t));
    PendingDebtCovered(b.s, a);
  }

  lemma TakeOutRefusedIff(s: System, b: Batch, a: Address)
    requires BatchCovered(s, b) && a in b.s.troves
    ensures TakeOut(b.s, a).None? <==> |b.s.troves| <= 1
  {
    BatchHoldings(s, b, a);
  }

  /** The only trove of the system, due for liquidation in Normal Mode. */
  ghost predicate OnlyTroveDue(b: Batch, a: Address, price: nat) {
    a in b.s.troves && b.normal && CurrentRatio(b.s, a, price) < MCR && |b.s.troves| <= 1
  }

  /**
   * One trove of a batch is refused exactly when it is the only one and the batch has come to
   * Normal Mode: there it cannot be closed, while Recovery Mode passes it by.
   */
  lemma StepRefusedIff(s: System, b: Batch, a: Address, price: nat)
    requires BatchCovered(s, b)
    ensures BatchStep(b, a, price).None? <==> OnlyTroveDue(b, a, price)
  {
    if a in b.s.troves {
      var t := b.s.troves[a];
      BatchHoldings(s, b, a);
      TakeOutRefusedIff(s, b, a);
      OffsetSplitComplete(EntireDebt(b.s.l, t), EntireColl(b.s.l, t), b.remaining);
      if !b.normal {
        RecoveryNotRefused(s, b, a, price);
      }
    }
  }

  lemma RecoveryNotRefused(s: System, b: Batch, a: Address, price: nat)
    requires BatchCovered(s, b) && a in b.s.troves && !b.normal
    ensures RecoveryStep(b, a, price).Some?
  {
    var t, tcr := b.s.troves[a], CollateralRatio(b.coll, b.debt, price);
    BatchHoldings(s, b, a);
    TakeOutRefusedIff(s, b, a);
    RecoveryTable(EntireDebt(b.s.l, t), EntireColl(b.s.l, t), tcr, b.remaining, price);
  }

  lemma StepCovered(s: System, b: Batch, a: Address, price: nat)
    requires BatchCovered(s, b) && BatchStep(b, a, price).Some?
    ensures BatchCovered(s, BatchStep(b, a, price).value)
  {
    BatchStepKeeps(s, b, a, price);
    var b' := BatchStep(b, a, price).value;
    if a in b.s.troves && b'.s != b.s {
      TakeOutBooks(b.s, a);
    }
  }

  /** Some trove of the batch is refused when its turn comes. */
  ghost predicate MeetsOnlyTrove(b: Batch, who: seq<Address>, price: nat)
    decreases |who|
  {
    who != [] &&
    (OnlyTroveDue(b, who[0], price)
     || (BatchStep(b, who[0], price).Some? && MeetsOnlyTrove(BatchStep(b, who[0], price).value, who[1..], price)))
  }

  lemma {:induction false} BatchAllRefusedIff(s: System, b: Batch, who: seq<Address>, price: nat)
    requires BatchCovered(s, b)
    ensures BatchAll(b, who, price).None? <==> MeetsOnlyTrove(b, who, price)
    ensures BatchAll(b, who, price).Some? ==> BatchCovered(s, BatchAll(b, who, price).value)
    decreases |who|
  {
    if who != [] {
      StepRefusedIff(s, b, who[0], price);
      if BatchStep(b, who[0], price).Some? {
        StepCovered(s, b, who[0], price);
        BatchAllRefusedIff(s, BatchStep(b, who[0], price).value, who[1..], price);
      }
    }
  }

  // ---------------------------------------------------------------------------
  // The moves at the end
  // ---------------------------------------------------------------------------

  /**
   * Nothing was liquidated, the Stability Pool refuses the offset, or there is debt to
   * redistribute and no stake left to take it.
   */
  ghost predicate FinishRefused(b: Batch) {
    || b.totals.debt == 0
    || StabilityPool.Offset(b.s.pool, b.totals.debtToOffset, b.totals.collToPool).None?
    || (b.totals.debtToRedistribute > 0 && b.s.totalStakes == 0)
  }

  lemma OffsetDebtRefusedIff(s: System, b: Batch)
    requires BatchCovered(s, b)
    ensures
      var x := b.totals;
      OffsetDebt(b.s, x.debtToOffset, x.collToPool).None? <==>
        StabilityPool.Offset(b.s.pool, x.debtToOffset, x.collToPool).None?
  {
    TotalsNonNegative(b.s.l, b.s.troves);
  }

  lemma SpreadRefusedIff(s: System, b: Batch)
    requires BatchCovered(s, b) && b.totals.debt != 0
    ensures Spread(b.s, b.totals).None? <==> FinishRefused(b)
  {
    var x := b.totals;
    OffsetDebtRefusedIff(s, b);
    TotalsNonNegative(b.s.l, b.s.troves);
    if OffsetDebt(b.s, x.debtToOffset, x.collToPool).Some? {
      OffsetDebtBooks(b.s, x.debtToOffset, x.collToPool);
    }
  }

  lemma SettleNotRefused(s: System, b: Batch)
    requires BatchCovered(s, b) && Spread(b.s, b.totals).Some?
    ensures Settle(Spread(b.s, b.totals).value, b.totals).Some?
  {
    SpreadKeeps(s, b);
    var s' := Spread(b.s, b.totals).value;
    TotalsNonNegative(s'.l, s'.troves);
    TotalsBounds(s'.l, s'.troves);
    SpreadKeepsGasPool(b.s, b.totals);
  }

  lemma SpreadKeepsGasPool(s: System, x: Split)
    requires Spread(s, x).Some?
    ensures Spread(s, x).value.gasPool == s.gasPool
  {
  }

  /** A batch liquidation is refused for these reasons and no others. */
  lemma LiquidationRefusedIff(s: System, who: seq<Address>, price: nat)
    requires Consistent(s) && BooksOf(s).debtDust >= 0
    ensures
      var start := BatchStart(s, price);
      LiquidateBatch(s, who, price).None? <==>
        || who == []
        || MeetsOnlyTrove(start, who, price)
        || (BatchAll(start, who, price).Some? && FinishRefused(BatchAll(start, who, price).value))
  {
    var start := BatchStart(s, price);
    assert BatchCovered(s, start);
    BatchAllRefusedIff(s, start, who, price);
    if BatchAll(start, who, price).Some? {
      var b := BatchAll(start, who, price).value;
      if b.totals.debt != 0 {
        SpreadRefusedIff(s, b);
        if Spread(b.s, b.totals).Some? {
          SettleNotRefused(s, b);
        }
      }
    }
  }

  // ---------------------------------------------------------------------------
  // A trove that the Stability Pool absorbs
  // ---------------------------------------------------------------------------

  /** Between 100% and 110%, with no more debt than the pool has deposits, rewards included. */
  ghost predicate DueForOffset(s: System, a: Address, price: nat) {
    && a in s.troves && |s.troves| > 1 && EntireDebt(s.l, s.troves[a]) <= s.pool.total
    && HUNDRED_PERCENT < CurrentRatio(s, a, price) < MCR
  }

  lemma AbsorbedStep(s: System, a: Address, price: nat)
    requires Consistent(s) && BooksOf(s).debtDust >= 0 && DueForOffset(s, a, price)
    ensures
      var t, b := s.troves[a], BatchStep(BatchStart(s, price), a, price);
      && b.Some? && BatchCovered(s, b.value)
      && b.value.totals == OffsetSplit(EntireDebt(s.l, t), EntireColl(s.l, t), s.pool.total)
      && b.value.s.troves == s.troves - {a} && b.value.s.l == s.l && b.value.s.pool == s.pool
  {
    var start, t := BatchStart(s, price), s.troves[a];
    assert BatchCovered(s, start);
    StepRefusedIff(s, start, a, price);
    StepCovered(s, start, a, price);
    OffsetSplitComplete(EntireDebt(s.l, t), EntireColl(s.l, t), s.pool.total);
  }

  /**
   * Its liquidation is an offset of its whole debt and its collateral less the compensation, and
   * is refused only if the Stability Pool refuses that offset.
   */
  lemma AbsorbedByPool(s: System, a: Address, price: nat)
    requires Consistent(s) && BooksOf(s).debtDust >= 0 && DueForOffset(s, a, price)
    ensures
      var debt, coll, r := EntireDebt(s.l, s.troves[a]), EntireColl(s.l, s.troves[a]), LiquidateBatch(s, [a], price);
      && coll >= GasColl(coll)
      && (r.None? <==> StabilityPool.Offset(s.pool, debt, coll - GasColl(coll)).None?)
      && (r.Some? ==>
            && r.value.troves == s.troves - {a} && r.value.l == s.l
            && StabilityPool.Offset(s.pool, debt, coll - GasColl(coll)) == Some(r.value.pool))
  {
    var debt, coll := EntireDebt(s.l, s.troves[a]), EntireColl(s.l, s.troves[a]);
    AbsorbedStep(s, a, price);
    OffsetSplitComplete(debt, coll, s.pool.total);
    SingleBatch(s, a, price);
    AbsorbedFinish(s, BatchStep(BatchStart(s, price), a, price).value, debt, coll);
  }

  lemma AbsorbedFinish(s: System, b: Batch, debt: nat, coll: nat)
    requires BatchCovered(s, b) && b.s.pool == s.pool && b.totals == OffsetSplit(debt, coll, s.pool.total)
    requires 0 < debt <= s.pool.total
    ensures
      var r := Finish(b.s, b.totals);
      && coll >= GasColl(coll)
      && (r.None? <==> StabilityPool.Offset(s.pool, debt, coll - GasColl(coll)).None?)
      && (r.Some? ==>
            && r.value.troves == b.s.troves && r.value.l == b.s.l
            && StabilityPool.Offset(s.pool, debt, coll - GasColl(coll)) == Some(r.value.pool))
  {
    OffsetSplitComplete(debt, coll, s.pool.total);
    SpreadRefusedIff(s, b);
    if Spread(b.s, b.totals).Some? {
      SettleNotRefused(s, b);
      OffsetDebtBooks(b.s, debt, coll - GasColl(coll));
    }
  }
}
