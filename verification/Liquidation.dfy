/** How one liquidated trove is split, in Normal Mode and in Recovery Mode. */
module Liquidation {
  import opened Base
  import opened Arith

  const HUNDRED_PERCENT: nat := 1_000_000_000_000_000_000
  const MCR: nat := 1_100_000_000_000_000_000
  const CCR: nat := 1_500_000_000_000_000_000
  const GAS_COMPENSATION: nat := 200_000_000_000_000_000_000
  const MIN_NET_DEBT: nat := 1_800_000_000_000_000_000_000
  const PERCENT_DIVISOR: nat := 200
  const NICR_PRECISION: nat := 100_000_000_000_000_000_000

  /** `2**256 - 1`, the ratio of a trove without debt. */
  const INFINITE_RATIO: nat := 0x1_0000_0000_0000_0000_0000_0000_0000_0000_0000_0000_0000_0000_0000_0000_0000_0000 - 1

  /** `_computeCR`. */
  function CollateralRatio(coll: nat, debt: nat, price: nat): nat {
    if debt > 0 then coll * price / debt else INFINITE_RATIO
  }

  /** `_computeNominalCR`. */
  function NominalRatio(coll: nat, debt: nat): nat {
    if debt > 0 then coll * NICR_PRECISION / debt else INFINITE_RATIO
  }

  /** `LiquidationValues`, and the running totals of a sequence. */
  datatype Split = Split(
    debt: nat,
    coll: nat,
    gasColl: nat,
    gasDebt: nat,
    debtToOffset: nat,
    collToPool: nat,
    debtToRedistribute: nat,
    collToRedistribute: nat,
    surplus: nat
  )

  const NOTHING: Split := Split(0, 0, 0, 0, 0, 0, 0, 0, 0)

  /** `_getCollGasCompensation`. */
  function GasColl(coll: nat): nat {
    coll / PERCENT_DIVISOR
  }

  /** The part of a trove that the pool absorbs; `_getOffsetAndRedistributionVals`. */
  function Absorbed(debt: nat, coll: nat, pool: nat): (r: (nat, nat))
    ensures r.0 <= debt && r.0 <= pool && r.1 <= coll
  {
    if pool > 0 && debt > 0 then
      MulDivBelow(coll, Min(debt, pool), debt);
      (Min(debt, pool), coll * Min(debt, pool) / debt)
    else (0, 0)
  }

  /** Offset against the pool first, redistribute what is left. */
  function OffsetSplit(debt: nat, coll: nat, pool: nat): Split {
    var gas := GasColl(coll);
    MulDivBelow(coll, 1, PERCENT_DIVISOR);
    var (offset, toPool) := Absorbed(debt, coll - gas, pool);
    Split(debt, coll, gas, GAS_COMPENSATION, offset, toPool, debt - offset, coll - gas - toPool, 0)
  }

  /** Everything to the other troves. */
  function RedistributionSplit(debt: nat, coll: nat): Split {
    MulDivBelow(coll, 1, PERCENT_DIVISOR);
    Split(debt, coll, GasColl(coll), GAS_COMPENSATION, 0, 0, debt, coll - GasColl(coll), 0)
  }

  /** `_getCappedOffsetVals`: the pool pays 110% of the debt, the borrower keeps the rest. */
  function CappedSplit(debt: nat, coll: nat, price: nat): Option<Split> {
    if price == 0 || coll < debt * MCR / price then None else
      var capped := debt * MCR / price;
      MulDivBelow(capped, 1, PERCENT_DIVISOR);
      Some(Split(debt, coll, GasColl(capped), GAS_COMPENSATION, debt, capped - GasColl(capped), 0, 0, coll - capped))
  }

  /** `_liquidateRecoveryMode`, with more than one trove in the system. */
  function RecoverySplit(debt: nat, coll: nat, icr: nat, tcr: nat, pool: nat, price: nat): Option<Split> {
    if icr <= HUNDRED_PERCENT then Some(RedistributionSplit(debt, coll))
    else if icr < MCR then Some(OffsetSplit(debt, coll, pool))
    else if icr < tcr && debt <= pool then CappedSplit(debt, coll, price)
    else Some(NOTHING)
  }

  // ---------------------------------------------------------------------------
  // The liquidation tables
  // ---------------------------------------------------------------------------

  /** Every part of the trove goes somewhere, exactly once, and the pool covers its part. */
  ghost predicate Complete(x: Split, pool: nat) {
    && x.gasColl + x.collToPool + x.collToRedistribute + x.surplus == x.coll
    && x.debtToOffset + x.debtToRedistribute == x.debt
    && x.debtToOffset <= pool
    && (x.debtToRedistribute == 0 ==> x.collToRedistribute == 0)
    && (x.debtToOffset == 0 ==> x.collToPool == 0)
  }

  lemma FullQuotient(x: nat, d: nat)
    requires d > 0
    ensures x * d / d == x
  {
    UniqueQuotient(x * d, d, x, 0);
  }

  /** Normal Mode. With a full pool the offset is pure, with an empty one everything is redistributed. */
  lemma OffsetSplitComplete(debt: nat, coll: nat, pool: nat)
    requires debt > 0
    ensures Complete(OffsetSplit(debt, coll, pool), pool)
    ensures OffsetSplit(debt, coll, pool).debt == debt && OffsetSplit(debt, coll, pool).coll == coll
    ensures OffsetSplit(debt, coll, pool).surplus == 0
    ensures OffsetSplit(debt, coll, pool).gasColl == coll / 200
    ensures OffsetSplit(debt, coll, pool).gasDebt == GAS_COMPENSATION
    ensures pool >= debt ==>
              OffsetSplit(debt, coll, pool).debtToOffset == debt
              && OffsetSplit(debt, coll, pool).collToPool == coll - GasColl(coll)
    ensures 0 < pool < debt ==> OffsetSplit(debt, coll, pool).debtToOffset == pool
    ensures pool == 0 ==> OffsetSplit(debt, coll, pool) == RedistributionSplit(debt, coll)
  {
    MulDivBelow(coll, 1, PERCENT_DIVISOR);
    if pool >= debt {
      FullQuotient(coll - GasColl(coll), debt);
    }
  }

  /** Depositors never pay more debt per collateral than the trove carried. */
  lemma OffsetKeepsRatio(debt: nat, coll: nat, pool: nat)
    requires debt > 0
    ensures
      var x := OffsetSplit(debt, coll, pool);
      x.collToPool * debt <= (coll - x.gasColl) * x.debtToOffset < (x.collToPool + 1) * debt
  {
    var x := OffsetSplit(debt, coll, pool);
    var left := coll - x.gasColl;
    if pool > 0 {
      assert left * x.debtToOffset == debt * (left * x.debtToOffset / debt) + left * x.debtToOffset % debt;
    }
  }

  /** At or above 110% the capped amount never exceeds the trove's collateral. */
  lemma CapCovered(debt: nat, coll: nat, price: nat)
    requires debt > 0 && CollateralRatio(coll, debt, price) >= MCR
    ensures price > 0 && debt * MCR / price <= coll
  {
    if price == 0 {
      UniqueQuotient(0, debt, 0, 0);
    } else {
      if coll * price < MCR * debt {
        QuotientBelow(coll * price, debt, MCR);
      }
      assert debt * MCR <= coll * price;
      if debt * MCR / price > coll {
        QuotientBelow(debt * MCR, price, coll + 1);
      }
    }
  }

  /**
   * Recovery Mode: the rows of the table, read off the ratio, the system ratio and the pool.
   * No row reverts and every liquidated trove is split completely.
   */
  lemma RecoveryTable(debt: nat, coll: nat, tcr: nat, pool: nat, price: nat)
    requires debt > 0
    ensures
      var icr := CollateralRatio(coll, debt, price);
      var r := RecoverySplit(debt, coll, icr, tcr, pool, price);
      && r.Some?
      && (icr <= HUNDRED_PERCENT ==>
            r.value.debtToRedistribute == debt && r.value.collToRedistribute == coll - coll / 200)
      && (HUNDRED_PERCENT < icr < MCR ==> r.value == OffsetSplit(debt, coll, pool))
      && (MCR <= icr < tcr && debt <= pool ==>
            && price > 0
            && r.value.debtToOffset == debt && r.value.debtToRedistribute == 0
            && r.value.gasColl + r.value.collToPool == debt * MCR / price
            && r.value.gasColl == debt * MCR / price / 200
            && r.value.surplus == coll - debt * MCR / price)
      && (MCR <= icr && (tcr <= icr || pool < debt) ==> r.value == NOTHING)
      && (icr < MCR ==> r.value.gasColl == coll / 200)
      && (r.value == NOTHING
          || (Complete(r.value, pool) && r.value.debt == debt && r.value.coll == coll
              && r.value.gasDebt == GAS_COMPENSATION))
  {
    var icr := CollateralRatio(coll, debt, price);
    OffsetSplitComplete(debt, coll, pool);
    MulDivBelow(coll, 1, PERCENT_DIVISOR);
    if MCR <= icr < tcr && debt <= pool {
      CapCovered(debt, coll, price);
      MulDivBelow(debt * MCR / price, 1, PERCENT_DIVISOR);
    }
  }

  function Add(t: Split, x: Split): Split {
    Split(t.debt + x.debt, t.coll + x.coll, t.gasColl + x.gasColl, t.gasDebt + x.gasDebt,
          t.debtToOffset + x.debtToOffset, t.collToPool + x.collToPool,
          t.debtToRedistribute + x.debtToRedistribute, t.collToRedistribute + x.collToRedistribute,
          t.surplus + x.surplus)
  }
}
