/**
 * The trove system: troves with pull-based redistribution rewards, the pools that hold their
 * collateral and debt, and the calls that move amounts between them. A reverting call yields
 * `None`. Prices, fees and token balances of callers are arguments.
 */
module TroveManager {
  import opened Base
  import opened Liquidation
  import StabilityPool

  /** `L_COLL` and `L_USDDDebt`, or a trove's snapshot of them. */
  datatype Rewards = Rewards(coll: nat, debt: nat)

  datatype Trove = Trove(debt: nat, coll: nat, stake: nat, snap: Rewards)

  datatype System = System(
    troves: map<Address, Trove>,       // the active troves
    totalStakes: nat,
    totalStakesSnapshot: nat,
    totalCollateralSnapshot: nat,
    l: Rewards,
    collError: nat,                    // lastETHError_Redistribution
    debtError: nat,                    // lastUSDDDebtError_Redistribution
    activeColl: nat,                   // ActivePool
    activeDebt: nat,
    defaultColl: nat,                  // DefaultPool
    defaultDebt: nat,
    pool: StabilityPool.Pool,
    surplus: map<Address, nat>,        // CollSurplusPool, per borrower
    surplusColl: nat,
    gasPool: nat,                      // USDD of the GasPool
    supply: nat                        // USDD in existence
  )

  /** The system before the first call. */
  predicate Deployed(s: System) {
    && |s.troves| == |s.surplus| == 0 && StabilityPool.Untouched(s.pool)
    && s.totalStakes == s.totalStakesSnapshot == s.totalCollateralSnapshot == 0
    && s.l == Rewards(0, 0) && s.collError == s.debtError == 0
    && s.activeColl == s.activeDebt == s.defaultColl == s.defaultDebt == 0
    && s.surplusColl == s.gasPool == s.supply == 0
  }

  // ---------------------------------------------------------------------------
  // Amounts
  // ---------------------------------------------------------------------------

  function Since(l: nat, snap: nat): nat {
    if snap <= l then l - snap else 0
  }

  /** `getPendingCollReward`. */
  function PendingColl(l: Rewards, t: Trove): nat {
    t.stake * Since(l.coll, t.snap.coll) / DECIMAL_PRECISION
  }

  /** `getPendingUSDDDebtReward`. */
  function PendingDebt(l: Rewards, t: Trove): nat {
    t.stake * Since(l.debt, t.snap.debt) / DECIMAL_PRECISION
  }

  function EntireColl(l: Rewards, t: Trove): nat {
    t.coll + PendingColl(l, t)
  }

  function EntireDebt(l: Rewards, t: Trove): nat {
    t.debt + PendingDebt(l, t)
  }

  /** `getCurrentICR`; an address without an active trove has no debt. */
  function CurrentRatio(s: System, a: Address, price: nat): nat {
    if a in s.troves
    then CollateralRatio(EntireColl(s.l, s.troves[a]), EntireDebt(s.l, s.troves[a]), price)
    else INFINITE_RATIO
  }

  function CurrentRatios(s: System, price: nat): Ratios {
    a => CurrentRatio(s, a, price)
  }

  function SystemColl(s: System): nat {
    s.activeColl + s.defaultColl
  }

  function SystemDebt(s: System): nat {
    s.activeDebt + s.defaultDebt
  }

  /** `_checkRecoveryMode`. */
  predicate RecoveryMode(s: System, price: nat) {
    CollateralRatio(SystemColl(s), SystemDebt(s), price) < CCR
  }

  // ---------------------------------------------------------------------------
  // Rewards and stakes
  // ---------------------------------------------------------------------------

  /** `_movePendingTroveRewardsToActivePool`. */
  function MoveRewards(s: System, debt: nat, coll: nat): Option<System> {
    if s.defaultDebt < debt || s.defaultColl < coll then None
    else Some(s.(defaultDebt := s.defaultDebt - debt, activeDebt := s.activeDebt + debt,
                 defaultColl := s.defaultColl - coll, activeColl := s.activeColl + coll))
  }

  /** `hasPendingRewards` looks at the collateral snapshot only. */
  predicate HasPendingRewards(l: Rewards, t: Trove) {
    t.snap.coll < l.coll
  }

  /** `_applyPendingRewards`. */
  function ApplyRewards(s: System, a: Address): Option<System>
    requires a in s.troves
  {
    var t := s.troves[a];
    if !HasPendingRewards(s.l, t) then Some(s) else
      var moved := MoveRewards(s, PendingDebt(s.l, t), PendingColl(s.l, t));
      if moved.None? then None else
        var t' := t.(coll := EntireColl(s.l, t), debt := EntireDebt(s.l, t), snap := s.l);
        Some(moved.value.(troves := s.troves[a := t']))
  }

  /** `_computeNewStake`. */
  function NewStake(s: System, coll: nat): Option<nat> {
    if s.totalCollateralSnapshot == 0 then Some(coll)
    else if s.totalStakesSnapshot == 0 then None
    else Some(coll * s.totalStakesSnapshot / s.totalCollateralSnapshot)
  }

  /** New amounts for a trove, and `_updateStakeAndTotalStakes`. */
  function WriteTrove(s: System, a: Address, debt: nat, coll: nat, snap: Rewards): Option<System> {
    var oldStake := if a in s.troves then s.troves[a].stake else 0;
    var stake := NewStake(s, coll);
    if stake.None? || s.totalStakes < oldStake then None
    else Some(s.(troves := s.troves[a := Trove(debt, coll, stake.value, snap)],
                 totalStakes := s.totalStakes - oldStake + stake.value))
  }

  /** `_removeStake` and `_closeTrove`; the last trove cannot be closed. */
  function CloseTrove(s: System, a: Address): Option<System>
    requires a in s.troves
  {
    if s.totalStakes < s.troves[a].stake || |s.troves| <= 1 then None
    else Some(s.(troves := s.troves - {a}, totalStakes := s.totalStakes - s.troves[a].stake))
  }

  /** `_redistributeDebtAndColl`: rewards per unit staked, with the remainders fed back. */
  function Redistribute(s: System, debt: nat, coll: nat): Option<System> {
    if debt == 0 then Some(s)
    else if s.totalStakes == 0 || s.activeDebt < debt || s.activeColl < coll then None
    else
      var collNumerator := coll * DECIMAL_PRECISION + s.collError;
      var debtNumerator := debt * DECIMAL_PRECISION + s.debtError;
      Some(s.(l := Rewards(s.l.coll + collNumerator / s.totalStakes, s.l.debt + debtNumerator / s.totalStakes),
              collError := collNumerator % s.totalStakes, debtError := debtNumerator % s.totalStakes,
              activeDebt := s.activeDebt - debt, defaultDebt := s.defaultDebt + debt,
              activeColl := s.activeColl - coll, defaultColl := s.defaultColl + coll))
  }

  // ---------------------------------------------------------------------------
  // Borrower operations
  // ---------------------------------------------------------------------------

  /** `openTrove`. The fee is waived in Recovery Mode. */
  function Open(s: System, a: Address, coll: nat, amount: nat, fee: nat, price: nat): Option<System> {
    var recovery := RecoveryMode(s, price);
    var netDebt := if recovery then amount else amount + fee;
    var debt := netDebt + GAS_COMPENSATION;
    var ratio := CollateralRatio(coll, debt, price);
    if a in s.troves || netDebt < MIN_NET_DEBT || NominalRatio(coll, debt) == 0 then None
    else if recovery && ratio < CCR then None
    else if !recovery && (ratio < MCR
            || CollateralRatio(SystemColl(s) + coll, SystemDebt(s) + debt, price) < CCR) then None
    else
      var written := WriteTrove(s, a, debt, coll, s.l);
      if written.None? then None else
        Some(written.value.(activeColl := s.activeColl + coll, activeDebt := s.activeDebt + debt,
                            supply := s.supply + debt, gasPool := s.gasPool + GAS_COMPENSATION))
  }

  /** The arguments of `_adjustTrove`; `funds` is the caller's USDD balance. */
  datatype Adjustment = Adjustment(collIn: nat, collOut: nat, change: nat, increase: bool, fee: nat, funds: nat)

  /** The debt change including the fee. */
  function NetChange(s: System, x: Adjustment, price: nat): nat {
    if x.increase && !RecoveryMode(s, price) then x.change + x.fee else x.change
  }

  /** `_requireValidAdjustmentInCurrentMode`, on the amounts before and after. */
  predicate ValidAdjustment(s: System, x: Adjustment, price: nat, coll: nat, debt: nat, coll': nat, debt': nat) {
    if RecoveryMode(s, price) then
      x.collOut == 0
      && (x.increase ==> CollateralRatio(coll', debt', price) >= CCR
                         && CollateralRatio(coll', debt', price) >= CollateralRatio(coll, debt, price))
    else
      && CollateralRatio(coll', debt', price) >= MCR
      && x.collOut <= SystemColl(s) + x.collIn
      && (!x.increase ==> x.change <= SystemDebt(s))
      && CollateralRatio(SystemColl(s) + x.collIn - x.collOut,
                         if x.increase then SystemDebt(s) + NetChange(s, x, price) else SystemDebt(s) - x.change,
                         price) >= CCR
  }

  /** The adjustment of a trove whose rewards are applied. */
  function AdjustApplied(s: System, a: Address, x: Adjustment, price: nat): Option<System>
    requires a in s.troves
  {
    var t := s.troves[a];
    var net := NetChange(s, x, price);
    if t.coll + x.collIn < x.collOut || (!x.increase && t.debt < net) then None else
      var coll := t.coll + x.collIn - x.collOut;
      var debt := if x.increase then t.debt + net else t.debt - net;
      if !ValidAdjustment(s, x, price, t.coll, t.debt, coll, debt) || NominalRatio(coll, debt) == 0 then None
      else if !x.increase && x.change > 0 && (debt < GAS_COMPENSATION + MIN_NET_DEBT || x.funds < net) then None
      else
        var written := WriteTrove(s, a, debt, coll, t.snap);
        if written.None? || s.activeColl + x.collIn < x.collOut
           || (!x.increase && (s.activeDebt < net || s.supply < net)) then None
        else Some(written.value.(
               activeColl := s.activeColl + x.collIn - x.collOut,
               activeDebt := if x.increase then s.activeDebt + net else s.activeDebt - net,
               supply := if x.increase then s.supply + net else s.supply - net))
  }

  /** `_adjustTrove`: pending rewards first, then at most one collateral change and one debt change. */
  function Adjust(s: System, a: Address, x: Adjustment, price: nat): Option<System> {
    if (x.increase && x.change == 0) || (x.collIn != 0 && x.collOut != 0)
       || (x.collIn == 0 && x.collOut == 0 && x.change == 0) || a !in s.troves then None
    else
      var applied := ApplyRewards(s, a);
      if applied.None? then None else AdjustApplied(applied.value, a, x, price)
  }

  /** The closure of a trove whose rewards are applied. */
  function CloseApplied(s: System, a: Address, funds: nat, price: nat): Option<System>
    requires a in s.troves
  {
    var t := s.troves[a];
    if t.debt < GAS_COMPENSATION || funds < t.debt - GAS_COMPENSATION
       || SystemColl(s) < t.coll || SystemDebt(s) < t.debt
       || CollateralRatio(SystemColl(s) - t.coll, SystemDebt(s) - t.debt, price) < CCR then None
    else
      var closed := CloseTrove(s, a);
      if closed.None? || s.activeDebt < t.debt || s.supply < t.debt
         || s.gasPool < GAS_COMPENSATION || s.activeColl < t.coll then None
      else Some(closed.value.(activeDebt := s.activeDebt - t.debt, supply := s.supply - t.debt,
                              gasPool := s.gasPool - GAS_COMPENSATION, activeColl := s.activeColl - t.coll))
  }

  /** `closeTrove`: the debt without the reserve is repaid by the caller. */
  function Close(s: System, a: Address, funds: nat, price: nat): Option<System> {
    if a !in s.troves || RecoveryMode(s, price) then None
    else
      var applied := ApplyRewards(s, a);
      if applied.None? then None else CloseApplied(applied.value, a, funds, price)
  }

  /** `claimCollateral`. */
  function Claim(s: System, a: Address): Option<System> {
    if a !in s.surplus || s.surplus[a] == 0 || s.surplusColl < s.surplus[a] then None
    else Some(s.(surplus := s.surplus - {a}, surplusColl := s.surplusColl - s.surplus[a]))
  }

  // ---------------------------------------------------------------------------
  // Liquidation
  // ---------------------------------------------------------------------------

  /** A trove taken out of the system: its rewards join the ActivePool, its stake goes. */
  function TakeOut(s: System, a: Address): Option<System>
    requires a in s.troves
  {
    var t := s.troves[a];
    var moved := MoveRewards(s, PendingDebt(s.l, t), PendingColl(s.l, t));
    if moved.None? then None else CloseTrove(moved.value, a)
  }

  /** A batch under way: totals so far, what the pool has left, and the tracked system amounts. */
  datatype Batch = Batch(s: System, totals: Split, remaining: nat, coll: nat, debt: nat, normal: bool)

  function AddSurplus(surplus: map<Address, nat>, a: Address, amount: nat): map<Address, nat> {
    if amount == 0 then surplus
    else surplus[a := amount + if a in surplus then surplus[a] else 0]
  }

  /** Takes a trove out and tallies its split. */
  function LiquidateOne(b: Batch, a: Address, x: Split): Option<Batch>
    requires a in b.s.troves
  {
    var out := TakeOut(b.s, a);
    if out.None? || b.remaining < x.debtToOffset then None
    else Some(b.(s := out.value.(surplus := AddSurplus(b.s.surplus, a, x.surplus)),
                 totals := Add(b.totals, x), remaining := b.remaining - x.debtToOffset))
  }

  /** One trove of the batch while the system counts as being in Normal Mode. */
  function NormalStep(b: Batch, a: Address, price: nat): Option<Batch> {
    if CurrentRatio(b.s, a, price) < MCR && a in b.s.troves then
      var t := b.s.troves[a];
      LiquidateOne(b, a, OffsetSplit(EntireDebt(b.s.l, t), EntireColl(b.s.l, t), b.remaining))
    else Some(b)
  }

  /** One trove of the batch in Recovery Mode. The tracked collateral leaves the surplus in. */
  function RecoveryStep(b: Batch, a: Address, price: nat): Option<Batch> {
    var icr := CurrentRatio(b.s, a, price);
    if a !in b.s.troves || (icr >= MCR && b.remaining == 0) then Some(b)
    else
      var t := b.s.troves[a];
      var tcr := CollateralRatio(b.coll, b.debt, price);
      var split := if |b.s.troves| <= 1 then Some(NOTHING)
                   else RecoverySplit(EntireDebt(b.s.l, t), EntireColl(b.s.l, t), icr, tcr, b.remaining, price);
      if split.None? then None
      else
        var x := split.value;
        var next := if x == NOTHING then Some(b) else LiquidateOne(b, a, x);
        if next.None? || b.debt < x.debtToOffset || b.coll < x.collToPool then None
        else
          var coll, debt := b.coll - x.collToPool, b.debt - x.debtToOffset;
          Some(next.value.(coll := coll, debt := debt, normal := CollateralRatio(coll, debt, price) >= CCR))
  }

  function BatchStep(b: Batch, a: Address, price: nat): Option<Batch> {
    if b.normal then NormalStep(b, a, price) else RecoveryStep(b, a, price)
  }

  function BatchAll(b: Batch, who: seq<Address>, price: nat): Option<Batch>
    decreases |who|
  {
    if who == [] then Some(b) else
      var next := BatchStep(b, who[0], price);
      if next.None? then None else BatchAll(next.value, who[1..], price)
  }

  function BatchStart(s: System, price: nat): Batch {
    Batch(s, NOTHING, s.pool.total, SystemColl(s), SystemDebt(s), !RecoveryMode(s, price))
  }

  /** The offset as the pools see it: burnt USDD, and collateral from the ActivePool. */
  function OffsetDebt(s: System, debt: nat, coll: nat): Option<System> {
    var pool := StabilityPool.Offset(s.pool, debt, coll);
    if pool.None? then None
    else if s.pool.total == 0 || debt == 0 then Some(s)
    else if s.activeDebt < debt || s.supply < debt || s.activeColl < coll then None
    else Some(s.(pool := pool.value, activeDebt := s.activeDebt - debt, supply := s.supply - debt,
                 activeColl := s.activeColl - coll))
  }

  /** The pool's part of the liquidated amounts, then the other troves'. */
  function Spread(s: System, x: Split): Option<System> {
    var offset := OffsetDebt(s, x.debtToOffset, x.collToPool);
    if offset.None? then None else Redistribute(offset.value, x.debtToRedistribute, x.collToRedistribute)
  }

  /** The borrowers' surplus, the snapshots and the gas compensation. */
  function Settle(s: System, x: Split): Option<System> {
    if s.activeColl < x.surplus + x.gasColl || s.gasPool < x.gasDebt then None else
      var rest := s.activeColl - x.surplus - x.gasColl;
      Some(s.(activeColl := rest, surplusColl := s.surplusColl + x.surplus,
              totalStakesSnapshot := s.totalStakes, totalCollateralSnapshot := rest + s.defaultColl,
              gasPool := s.gasPool - x.gasDebt))
  }

  /** The moves after the last trove of a sequence; nothing to liquidate reverts. */
  function Finish(s: System, x: Split): Option<System> {
    var spread := Spread(s, x);
    if x.debt == 0 || spread.None? then None else Settle(spread.value, x)
  }

  /** `batchLiquidateTroves`, and `liquidate` for a single active trove. */
  function LiquidateBatch(s: System, who: seq<Address>, price: nat): Option<System> {
    var b := BatchAll(BatchStart(s, price), who, price);
    if who == [] || b.None? then None else Finish(b.value.s, b.value.totals)
  }

  // ---------------------------------------------------------------------------
  // Redemption
  // ---------------------------------------------------------------------------

  /** A redemption under way. `steps` counts the troves redeemed from. */
  datatype Redemption = Redemption(s: System, remaining: nat, redeemed: nat, drawn: nat, steps: nat, cancelled: bool)

  /** `_redeemCloseTrove`: the reserve is burnt against the last debt, the rest is claimable. */
  function CloseRedeemed(s: System, a: Address, coll: nat): Option<System>
    requires a in s.troves
  {
    var closed := CloseTrove(s, a);
    if closed.None? || s.supply < GAS_COMPENSATION || s.gasPool < GAS_COMPENSATION
       || s.activeDebt < GAS_COMPENSATION || s.activeColl < coll then None
    else Some(closed.value.(
           supply := s.supply - GAS_COMPENSATION, gasPool := s.gasPool - GAS_COMPENSATION,
           activeDebt := s.activeDebt - GAS_COMPENSATION, activeColl := s.activeColl - coll,
           surplus := AddSurplus(s.surplus, a, coll), surplusColl := s.surplusColl + coll))
  }

  /** What is redeemed from a trove, and the collateral of equal value. */
  function Lot(r: Redemption, t: Trove): nat
    requires t.debt >= GAS_COMPENSATION
  {
    Min(r.remaining, t.debt - GAS_COMPENSATION)
  }

  function CollLot(lot: nat, price: nat): nat
    requires price > 0
  {
    lot * DECIMAL_PRECISION / price
  }

  /**
   * `_redeemCollateralFromTrove`, on a trove whose rewards are applied. A partial redemption
   * whose hint is off, or that would leave too little debt, is cancelled.
   */
  function RedeemApplied(r: Redemption, a: Address, price: nat, hint: nat): Option<Redemption>
    requires a in r.s.troves && price > 0
  {
    var t := r.s.troves[a];
    if t.debt < GAS_COMPENSATION || t.coll < CollLot(Lot(r, t), price) then None else
      var lot, collLot := Lot(r, t), CollLot(Lot(r, t), price);
      var debt, coll := t.debt - lot, t.coll - collLot;
      if debt == GAS_COMPENSATION then
        var closed := CloseRedeemed(r.s, a, coll);
        if closed.None? then None else Some(Redeemed(r, closed.value, lot, collLot))
      else if NominalRatio(coll, debt) != hint || debt - GAS_COMPENSATION < MIN_NET_DEBT then
        Some(r.(cancelled := true))
      else if NominalRatio(coll, debt) == 0 then None
      else
        var written := WriteTrove(r.s, a, debt, coll, t.snap);
        if written.None? then None else Some(Redeemed(r, written.value, lot, collLot))
  }

  function Redeemed(r: Redemption, s: System, lot: nat, collLot: nat): Redemption
    requires lot <= r.remaining
  {
    Redemption(s, r.remaining - lot, r.redeemed + lot, r.drawn + collLot, r.steps + 1, false)
  }

  /** One trove of the walk: its rewards are applied first, and stay applied on cancellation. */
  function RedeemFrom(r: Redemption, a: Address, price: nat, hint: nat): Option<Redemption> {
    if a !in r.s.troves || price == 0 then None else
      var applied := ApplyRewards(r.s, a);
      if applied.None? then None else RedeemApplied(r.(s := applied.value), a, price, hint)
  }

  /** The walk up the list from the first redeemable trove, at most `limit` troves. */
  function RedeemAlong(r: Redemption, order: seq<Address>, price: nat, hint: nat, limit: nat): Option<Redemption>
    decreases |order|
  {
    if order == [] || r.remaining == 0 || limit == 0 || r.cancelled then Some(r) else
      var next := RedeemFrom(r, order[0], price, hint);
      if next.None? then None else RedeemAlong(next.value, order[1..], price, hint, limit - 1)
  }

  /** After the walk: the redeemed USDD is burnt, and the collateral leaves for the redeemer and the fee. */
  function BurnRedeemed(r: Redemption, fee: nat): Option<System> {
    if r.drawn == 0 || r.drawn <= fee
       || r.s.supply < r.redeemed || r.s.activeDebt < r.redeemed || r.s.activeColl < r.drawn then None
    else Some(r.s.(supply := r.s.supply - r.redeemed, activeDebt := r.s.activeDebt - r.redeemed,
                   activeColl := r.s.activeColl - r.drawn))
  }

  /** `redeemCollateral`; `funds` is the caller's USDD balance, `fee` the collateral fee. */
  function Redeem(s: System, funds: nat, amount: nat, order: seq<Address>, price: nat, hint: nat, limit: nat, fee: nat)
    : Option<System>
  {
    if CollateralRatio(SystemColl(s), SystemDebt(s), price) < MCR || amount == 0 || funds < amount then None
    else
      var r := RedeemAlong(Redemption(s, amount, 0, 0, 0, false), order, price, hint, limit);
      if r.None? then None else BurnRedeemed(r.value, fee)
  }

  // ---------------------------------------------------------------------------
  // All calls
  // ---------------------------------------------------------------------------

  datatype Call =
    | OpenTrove(who: Address, coll: nat, amount: nat, fee: nat, price: nat)
    | AdjustTrove(who: Address, x: Adjustment, price: nat)
    | CloseOwnTrove(who: Address, funds: nat, price: nat)
    | ClaimCollateral(who: Address)
    | LiquidateTroves(batch: seq<Address>, price: nat)
    | RedeemCollateral(funds: nat, amount: nat, order: seq<Address>, price: nat, hint: nat, limit: nat, fee: nat)
    | PoolCall(call: StabilityPool.Call)
    | WithdrawDeposit(who: Address, amount: nat, last: Address, price: nat)
    | GainToTrove(who: Address, price: nat)

  /** What a withdrawal asks of the last trove of the list, in `_requireNoUnderCollateralizedTroves`. */
  predicate LastCovered(s: System, last: Address, price: nat) {
    CurrentRatio(s, last, price) >= MCR
  }

  /** A withdrawal, with the last trove of the list and the price. */
  function WithdrawFromPool(s: System, a: Address, amount: nat, last: Address, price: nat): Option<System>
    requires StabilityPool.WellFormed(s.pool)
  {
    CallPool(s, StabilityPool.WithdrawFromSP(a, amount, LastCovered(s, last, price)))
  }

  /** A depositor's call on the Stability Pool; offsets come from liquidations only. */
  function CallPool(s: System, c: StabilityPool.Call): Option<System>
    requires StabilityPool.WellFormed(s.pool)
  {
    if c.OffsetDebt? || c.WithdrawCollGainToTrove? then None else
      var pool := StabilityPool.Step(s.pool, c);
      if pool.None? then None else Some(s.(pool := pool.value))
  }

  /** `withdrawCollGainToTrove`: the gain is added to the caller's trove. */
  function MoveGain(s: System, a: Address, price: nat): Option<System>
    requires StabilityPool.WellFormed(s.pool)
  {
    var gain := StabilityPool.DepositorGain(s.pool, a);
    var pool := StabilityPool.GainToTrove(s.pool, a, a in s.troves);
    if pool.None? then None
    else Adjust(s.(pool := pool.value), a, Adjustment(gain, 0, 0, false, 0, 0), price)
  }

  function Step(s: System, c: Call): Option<System>
    requires StabilityPool.WellFormed(s.pool)
  {
    match c
    case OpenTrove(a, coll, amount, fee, price) => Open(s, a, coll, amount, fee, price)
    case AdjustTrove(a, x, price) => Adjust(s, a, x, price)
    case CloseOwnTrove(a, funds, price) => Close(s, a, funds, price)
    case ClaimCollateral(a) => Claim(s, a)
    case LiquidateTroves(batch, price) => LiquidateBatch(s, batch, price)
    case RedeemCollateral(funds, amount, order, price, hint, limit, fee) =>
      Redeem(s, funds, amount, order, price, hint, limit, fee)
    case PoolCall(call) => if call.WithdrawFromSP? then None else CallPool(s, call)
    case WithdrawDeposit(a, amount, last, price) => WithdrawFromPool(s, a, amount, last, price)
    case GainToTrove(a, price) => MoveGain(s, a, price)
  }
}
