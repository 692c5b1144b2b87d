/** The Stability Pool's variables and calls, updated in place. */
module StabilityPoolContract {
  import opened Base
  import opened StabilityPool
  import opened PoolWithdrawals

  class PoolState {
    var totalDeposits: nat
    var coll: nat
    var P: nat
    var currentScale: nat
    var currentEpoch: nat
    var epochToScaleToSum: Sums
    var lastCollError: nat
    var lastLossError: nat
    var deposits: map<Address, Deposit>
    var frontEndStakes: map<Address, FrontEndStake>
    var frontEnds: set<Address>

    function Now(): Product
      reads this
    {
      Product(P, currentScale, currentEpoch)
    }

    function Model(): Pool
      reads this
    {
      Pool(totalDeposits, coll, Now(), epochToScaleToSum, lastCollError, lastLossError,
           deposits, frontEndStakes, frontEnds)
    }

    ghost predicate Valid()
      reads this
    {
      WellFormed(Model())
    }

    constructor ()
      ensures Valid() && Untouched(Model())
    {
      totalDeposits, coll := 0, 0;
      P, currentScale, currentEpoch := DECIMAL_PRECISION, 0, 0;
      epochToScaleToSum, lastCollError, lastLossError := map[], 0, 0;
      deposits, frontEndStakes, frontEnds := map[], map[], {};
    }

    // -------------------------------------------------------------------------
    // Offsets
    // -------------------------------------------------------------------------

    /** The loss per unit staked; its excess is kept for the next division. Fails on underflow. */
    method ComputeLossPerUnitStaked(debt: nat) returns (ok: bool, loss: nat)
      requires 0 < totalDeposits && 0 < debt
      modifies this`lastLossError
      ensures ok == (debt <= totalDeposits && !LossUnderflows(old(Model()), debt))
      ensures ok ==> loss == LossPerUnit(old(Model()), debt) && lastLossError == LossErrorAfter(old(Model()), debt)
      ensures !ok ==> Model() == old(Model())
    {
      if totalDeposits < debt {
        return false, 0;
      }
      if debt == totalDeposits {
        lastLossError := 0;
        return true, DECIMAL_PRECISION;
      }
      if debt * DECIMAL_PRECISION < lastLossError {
        return false, 0;
      }
      ghost var e := LossErrorAfter(Model(), debt);
      var lossNumerator := debt * DECIMAL_PRECISION - lastLossError;
      loss := lossNumerator / totalDeposits + 1;
      assert loss == LossPerUnit(Model(), debt);
      lastLossError := loss * totalDeposits - lossNumerator;
      ok := true;
    }

    /** The collateral per unit staked; the remainder is kept for the next division. */
    method ComputeCollPerUnitStaked(collToAdd: nat) returns (perUnit: nat)
      requires 0 < totalDeposits
      modifies this`lastCollError
      ensures perUnit == CollPerUnit(old(Model()), collToAdd)
      ensures lastCollError == (collToAdd * DECIMAL_PRECISION + old(lastCollError)) % totalDeposits
    {
      var collNumerator := collToAdd * DECIMAL_PRECISION + lastCollError;
      perUnit := collNumerator / totalDeposits;
      assert collNumerator == perUnit * totalDeposits + collNumerator % totalDeposits;
      lastCollError := collNumerator - perUnit * totalDeposits;
    }

    /** The sum moves before the product; a product of zero fails. */
    method UpdateRewardSumAndProduct(perUnit: nat, loss: nat) returns (ok: bool)
      requires loss <= DECIMAL_PRECISION
      modifies this`P, this`currentScale, this`currentEpoch, this`epochToScaleToSum
      ensures
        var was := old(Model());
        && ok == (NextProduct(was.now, DECIMAL_PRECISION - loss).P > 0)
        && (ok ==> Now() == NextProduct(was.now, DECIMAL_PRECISION - loss))
        && (ok ==> epochToScaleToSum ==
                     was.sums[(was.now.epoch, was.now.scale) :=
                                SumAt(was.sums, was.now.epoch, was.now.scale) + perUnit * was.now.P])
        && (!ok ==> Model() == was)
    {
      var factor := DECIMAL_PRECISION - loss;
      var key := (currentEpoch, currentScale);
      var newS := SumAt(epochToScaleToSum, key.0, key.1) + perUnit * P;
      var newP := P * factor / DECIMAL_PRECISION;
      var rescale := factor != 0 && newP < SCALE_FACTOR;
      if factor == 0 {
        newP := DECIMAL_PRECISION;
      } else if rescale {
        newP := P * factor * SCALE_FACTOR / DECIMAL_PRECISION;
      }
      if newP == 0 {
        return false;
      }
      if factor == 0 {
        currentEpoch, currentScale := currentEpoch + 1, 0;
      } else if rescale {
        currentScale := currentScale + 1;
      }
      epochToScaleToSum := epochToScaleToSum[key := newS];
      P := newP;
      return true;
    }

    /** `offset`. A failing offset is rolled back. */
    method OffsetDebt(debt: nat, collToAdd: nat) returns (ok: bool)
      requires Valid()
      modifies this
      ensures ok == Offset(old(Model()), debt, collToAdd).Some?
      ensures Model() == if ok then Offset(old(Model()), debt, collToAdd).value else old(Model())
      ensures Valid()
    {
      if totalDeposits == 0 || debt == 0 {
        return true;
      }
      ghost var was := Model();
      var collError, lossError := lastCollError, lastLossError;
      var computed, loss := ComputeLossPerUnitStaked(debt);
      if !computed {
        return false;
      }
      var perUnit := ComputeCollPerUnitStaked(collToAdd);
      var moved := UpdateRewardSumAndProduct(perUnit, loss);
      if !moved {
        lastCollError, lastLossError := collError, lossError;
        return false;
      }
      totalDeposits := totalDeposits - debt;
      coll := coll + collToAdd;
      OffsetKeepsWellFormed(was, debt, collToAdd);
      return true;
    }

    // -------------------------------------------------------------------------
    // Depositors
    // -------------------------------------------------------------------------

    method UpdateDepositAndSnapshots(a: Address, value: nat, tag: Address)
      modifies this`deposits
      ensures deposits == DepositsWith(old(Model()), a, value, tag)
    {
      if value == 0 {
        deposits := deposits - {a};
      } else {
        deposits := deposits[a := Deposit(value, tag, SumAt(epochToScaleToSum, currentEpoch, currentScale), Now())];
      }
    }

    method UpdateFrontEndStakeAndSnapshots(tag: Address, value: nat)
      modifies this`frontEndStakes
      ensures frontEndStakes == StakesWith(old(Model()), tag, value)
    {
      if value == 0 {
        frontEndStakes := frontEndStakes - {tag};
      } else {
        frontEndStakes := frontEndStakes[tag := FrontEndStake(value, Now())];
      }
    }

    /** Writes a depositor's new position: stake, deposit and the two balances. */
    method Record(a: Address, t: Settlement)
      requires Valid()
      modifies this
      ensures Model() == Settle(old(Model()), a, t) && Valid()
    {
      ghost var was := Model();
      UpdateFrontEndStakeAndSnapshots(t.tag, t.stake);
      totalDeposits := t.total;
      UpdateDepositAndSnapshots(a, t.deposit, t.tag);
      coll := t.coll;
      SettleKeepsWellFormed(was, a, t);
    }

    /** `provideToSP`; `gain` is paid out. */
    method ProvideToSP(a: Address, amount: nat, tag: Address) returns (ok: bool, gain: nat)
      requires Valid()
      modifies this
      ensures ok == Provide(old(Model()), a, amount, tag).Some?
      ensures Model() == if ok then Provide(old(Model()), a, amount, tag).value else old(Model())
      ensures Valid() && (ok ==> gain == DepositorGain(old(Model()), a))
    {
      gain := DepositorGain(Model(), a);
      if (tag !in frontEnds && tag != ZERO_ADDRESS) || a in frontEnds || amount == 0 {
        return false, gain;
      }
      var compounded := CompoundedDeposit(Model(), a);
      if (if a in deposits then deposits[a].initial else 0) < compounded || coll < gain {
        return false, gain;
      }
      var kept := if a in deposits then deposits[a].tag else tag;
      var stake := CompoundedStake(Model(), kept);
      Record(a, Settlement(kept, stake + amount, compounded + amount, totalDeposits + amount, coll - gain));
      return true, gain;
    }

    /** `withdrawFromSP`; `paid` and `gain` are paid out. */
    method WithdrawFromSP(a: Address, amount: nat, clear: bool) returns (ok: bool, paid: nat, gain: nat)
      requires Valid()
      modifies this
      ensures ok == Withdraw(old(Model()), a, amount, clear).Some?
      ensures Model() == if ok then Withdraw(old(Model()), a, amount, clear).value else old(Model())
      ensures Valid()
      ensures ok ==> paid == Min(amount, CompoundedDeposit(old(Model()), a)) && gain == DepositorGain(old(Model()), a)
    {
      gain := DepositorGain(Model(), a);
      var compounded := CompoundedDeposit(Model(), a);
      paid := Min(amount, compounded);
      if (amount != 0 && !clear) || a !in deposits {
        return false, paid, gain;
      }
      var tag := deposits[a].tag;
      var stake := CompoundedStake(Model(), tag);
      if deposits[a].initial < compounded || stake < paid || totalDeposits < paid || coll < gain {
        return false, paid, gain;
      }
      Record(a, Settlement(tag, stake - paid, compounded - paid, totalDeposits - paid, coll - gain));
      return true, paid, gain;
    }

    /** `withdrawCollGainToTrove`; `gain` goes to the caller's trove. */
    method WithdrawCollGainToTrove(a: Address, hasTrove: bool) returns (ok: bool, gain: nat)
      requires Valid()
      modifies this
      ensures ok == GainToTrove(old(Model()), a, hasTrove).Some?
      ensures Model() == if ok then GainToTrove(old(Model()), a, hasTrove).value else old(Model())
      ensures Valid() && (ok ==> gain == DepositorGain(old(Model()), a))
    {
      gain := DepositorGain(Model(), a);
      if a !in deposits || !hasTrove || gain == 0 {
        return false, gain;
      }
      var paid;
      ok, paid, gain := WithdrawFromSP(a, 0, true);
    }

    method RegisterFrontEnd(a: Address) returns (ok: bool)
      requires Valid()
      modifies this`frontEnds
      ensures ok == Register(old(Model()), a).Some?
      ensures Model() == if ok then Register(old(Model()), a).value else old(Model())
      ensures Valid()
    {
      ok := a !in frontEnds && a !in deposits;
      if ok {
        frontEnds := frontEnds + {a};
      }
    }

    // -------------------------------------------------------------------------
    // Emptying the pool
    // -------------------------------------------------------------------------

    /**
     * Every depositor of the list withdraws everything, in that order. All withdrawals succeed,
     * and leave the depositor nothing, exactly when the pool can afford the group.
     */
    method AttemptWithdrawAllDeposits(order: seq<Address>, amount: nat) returns (ok: bool)
      requires Valid() && Distinct(order)
      requires forall a :: a in order ==> a in deposits && CompoundedDeposit(Model(), a) <= amount
      modifies this
      ensures Valid()
      ensures ok == Affordable(old(Model()), Members(order))
      ensures ok ==> forall a :: a in order ==> CompoundedDeposit(Model(), a) == 0 && DepositorGain(Model(), a) == 0
    {
      ghost var was := Model();
      var i := 0;
      WithdrawAllIff(was, order, amount);
      while i < |order|
        invariant 0 <= i <= |order|
        invariant Valid()
        invariant WithdrawAll(was, order, amount) == WithdrawAll(Model(), order[i..], amount)
      {
        var paid, gain;
        ok, paid, gain := WithdrawFromSP(order[i], amount, true);
        if !ok {
          return;
        }
        assert order[i..][1..] == order[i + 1..];
        i := i + 1;
      }
      ok := true;
    }
  }
}
