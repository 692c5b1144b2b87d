/**
 * The Stability Pool: deposits and collateral gains tracked by a running product `P`
 * and running sums `S`, with scales and epochs, in the contract's integer arithmetic.
 * A reverting call yields `None`.
 */
module StabilityPool {
  import opened Base
  import opened Arith

  /** Each shift of the product by this factor opens a new scale. */
  const SCALE_FACTOR: nat := 1_000_000_000

  /** The running product and its position. */
  datatype Product = Product(P: nat, scale: nat, epoch: nat)

  datatype Deposit = Deposit(initial: nat, tag: Address, S: nat, at: Product)

  datatype FrontEndStake = FrontEndStake(stake: nat, at: Product)

  /** `epochToScaleToSum`. */
  type Sums = map<(nat, nat), nat>

  datatype Pool = Pool(
    total: nat,                           // totalUSDDDeposits
    coll: nat,                            // COLL
    now: Product,                         // P, currentScale, currentEpoch
    sums: Sums,
    collError: nat,                       // lastCollError_Offset
    lossError: nat,                       // lastUSDDLossError_Offset
    deposits: map<Address, Deposit>,      // entries with a non-zero initial value
    stakes: map<Address, FrontEndStake>,  // entries with a non-zero front end stake
    frontEnds: set<Address>               // registered front ends
  )

  const EMPTY_POOL: Pool := Pool(0, 0, Product(DECIMAL_PRECISION, 0, 0), map[], 0, 0, map[], map[], {})

  /** The pool before the first call. */
  predicate Untouched(p: Pool) {
    && p.total == p.coll == p.collError == p.lossError == 0 && p.now == Product(DECIMAL_PRECISION, 0, 0)
    && |p.sums| == |p.deposits| == |p.stakes| == |p.frontEnds| == 0
  }

  /** A mapping entry that was never written reads as zero. */
  function SumAt(sums: Sums, epoch: nat, scale: nat): nat {
    if (epoch, scale) in sums then sums[(epoch, scale)] else 0
  }

  // ---------------------------------------------------------------------------
  // What a deposit or front end stake is worth now
  // ---------------------------------------------------------------------------

  /** The stake scaled by the product, across at most one scale shift. */
  function ScaledStake(now: Product, initial: nat, at: Product): nat
    requires at.P > 0
  {
    if now.scale == at.scale then initial * now.P / at.P
    else if now.scale == at.scale + 1 then initial * now.P / at.P / SCALE_FACTOR
    else 0
  }

  /** `_getCompoundedStakeFromSnapshots`. */
  function Compounded(now: Product, initial: nat, at: Product): nat
    requires at.P > 0
  {
    if at.epoch < now.epoch then 0 else
      var stake := ScaledStake(now, initial, at);
      if stake < initial / 1_000_000_000 then 0 else stake
  }

  /** `_getCollGainFromSnapshots`: the sums of the deposit's own scale and of the one after it. */
  function CollGain(sums: Sums, d: Deposit): nat
    requires d.at.P > 0
    requires d.S <= SumAt(sums, d.at.epoch, d.at.scale)
  {
    var firstPortion := SumAt(sums, d.at.epoch, d.at.scale) - d.S;
    var secondPortion := SumAt(sums, d.at.epoch, d.at.scale + 1) / SCALE_FACTOR;
    d.initial * (firstPortion + secondPortion) / d.at.P / DECIMAL_PRECISION
  }

  // ---------------------------------------------------------------------------
  // Calls
  // ---------------------------------------------------------------------------

  /** `CollGainPerUnitStaked`, with the remainder of the previous division fed back. */
  function CollPerUnit(p: Pool, coll: nat): nat
    requires p.total > 0
  {
    (coll * DECIMAL_PRECISION + p.collError) / p.total
  }

  /** The loss numerator would underflow, which reverts. */
  predicate LossUnderflows(p: Pool, debt: nat) {
    debt != p.total && debt * DECIMAL_PRECISION < p.lossError
  }

  /** `USDDLossPerUnitStaked`: rounded up, after subtracting the previous excess. */
  function LossPerUnit(p: Pool, debt: nat): (loss: nat)
    requires 0 < debt <= p.total && !LossUnderflows(p, debt)
    ensures 0 < loss <= DECIMAL_PRECISION
  {
    if debt == p.total then DECIMAL_PRECISION else
      var numerator := debt * DECIMAL_PRECISION - p.lossError;
      QuotientBelow(numerator, p.total, DECIMAL_PRECISION);
      numerator / p.total + 1
  }

  /** `lastUSDDLossError_Offset` after the call. */
  function LossErrorAfter(p: Pool, debt: nat): (e: nat)
    requires 0 < debt <= p.total && !LossUnderflows(p, debt)
    ensures e <= p.total
    ensures debt < p.total ==>
              LossPerUnit(p, debt) * p.total == debt * DECIMAL_PRECISION - p.lossError + e
  {
    if debt == p.total then 0 else
      var numerator := debt * DECIMAL_PRECISION - p.lossError;
      assert (numerator / p.total + 1) * p.total == numerator / p.total * p.total + p.total;
      LossPerUnit(p, debt) * p.total - numerator
  }

  /** The product part of `_updateRewardSumAndProduct`. */
  function NextProduct(now: Product, factor: nat): Product {
    if factor == 0 then
      Product(DECIMAL_PRECISION, 0, now.epoch + 1)
    else if now.P * factor / DECIMAL_PRECISION < SCALE_FACTOR then
      Product(now.P * factor * SCALE_FACTOR / DECIMAL_PRECISION, now.scale + 1, now.epoch)
    else
      Product(now.P * factor / DECIMAL_PRECISION, now.scale, now.epoch)
  }

  /** `offset`: cancels `debt` against the pool and shares `coll` between the depositors. */
  function Offset(p: Pool, debt: nat, coll: nat): Option<Pool> {
    if p.total == 0 || debt == 0 then Some(p)
    else if p.total < debt || LossUnderflows(p, debt) then None
    else
      var perUnit := CollPerUnit(p, coll);
      var next := NextProduct(p.now, DECIMAL_PRECISION - LossPerUnit(p, debt));
      var key := (p.now.epoch, p.now.scale);
      if next.P == 0 then None
      else Some(p.(
        total := p.total - debt,
        coll := p.coll + coll,
        now := next,
        sums := p.sums[key := SumAt(p.sums, key.0, key.1) + perUnit * p.now.P],
        collError := (coll * DECIMAL_PRECISION + p.collError) % p.total,
        lossError := LossErrorAfter(p, debt)))
  }

  /** `_updateDepositAndSnapshots`: a zero value deletes the entry. */
  function DepositsWith(p: Pool, a: Address, value: nat, tag: Address): map<Address, Deposit> {
    if value == 0 then p.deposits - {a}
    else p.deposits[a := Deposit(value, tag, SumAt(p.sums, p.now.epoch, p.now.scale), p.now)]
  }

  /** `_updateFrontEndStakeAndSnapshots`, which the zero tag goes through as well. */
  function StakesWith(p: Pool, tag: Address, value: nat): map<Address, FrontEndStake> {
    if value == 0 then p.stakes - {tag} else p.stakes[tag := FrontEndStake(value, p.now)]
  }

  /** A depositor's position after a provision or withdrawal. */
  datatype Settlement = Settlement(tag: Address, stake: nat, deposit: nat, total: nat, coll: nat)

  function Settle(p: Pool, a: Address, t: Settlement): Pool {
    p.(deposits := DepositsWith(p, a, t.deposit, t.tag), stakes := StakesWith(p, t.tag, t.stake),
       total := t.total, coll := t.coll)
  }

  /** `getCompoundedUSDDDeposit`. */
  function CompoundedDeposit(p: Pool, a: Address): nat
    requires WellFormed(p)
  {
    if a in p.deposits then Compounded(p.now, p.deposits[a].initial, p.deposits[a].at) else 0
  }

  /** `getDepositorCollGain`. */
  function DepositorGain(p: Pool, a: Address): nat
    requires WellFormed(p)
  {
    if a in p.deposits then CollGain(p.sums, p.deposits[a]) else 0
  }

  /** `getCompoundedFrontEndStake`. */
  function CompoundedStake(p: Pool, tag: Address): nat
    requires WellFormed(p)
  {
    if tag in p.stakes then Compounded(p.now, p.stakes[tag].stake, p.stakes[tag].at) else 0
  }

  /** `provideToSP`. The tag of an existing deposit is kept. */
  function Provide(p: Pool, a: Address, amount: nat, tag: Address): Option<Pool>
    requires WellFormed(p)
  {
    var initial := if a in p.deposits then p.deposits[a].initial else 0;
    var compounded := CompoundedDeposit(p, a);
    var gain := DepositorGain(p, a);
    if (tag !in p.frontEnds && tag != ZERO_ADDRESS) || a in p.frontEnds || amount == 0 then None
    else if initial < compounded || p.coll < gain then None
    else
      var kept := if a in p.deposits then p.deposits[a].tag else tag;
      Some(Settle(p, a, Settlement(kept, CompoundedStake(p, kept) + amount, compounded + amount,
                                   p.total + amount, p.coll - gain)))
  }

  /**
   * `withdrawFromSP`. A non-zero amount needs every trove to be at or above the minimum ratio,
   * which `clear` reports.
   */
  function Withdraw(p: Pool, a: Address, amount: nat, clear: bool): Option<Pool>
    requires WellFormed(p)
  {
    if (amount != 0 && !clear) || a !in p.deposits then None
    else
      var d := p.deposits[a];
      var compounded := CompoundedDeposit(p, a);
      var paid := Min(amount, compounded);
      var gain := DepositorGain(p, a);
      if d.initial < compounded || CompoundedStake(p, d.tag) < paid || p.total < paid || p.coll < gain
      then None
      else
        Some(Settle(p, a, Settlement(d.tag, CompoundedStake(p, d.tag) - paid, compounded - paid,
                                     p.total - paid, p.coll - gain)))
  }

  /** `withdrawCollGainToTrove`: the gain leaves for the caller's trove, the deposit stays. */
  function GainToTrove(p: Pool, a: Address, hasTrove: bool): Option<Pool>
    requires WellFormed(p)
  {
    if a !in p.deposits || !hasTrove || DepositorGain(p, a) == 0 then None
    else Withdraw(p, a, 0, true)
  }

  /** `registerFrontEnd`. */
  function Register(p: Pool, a: Address): Option<Pool> {
    if a in p.frontEnds || a in p.deposits then None
    else Some(p.(frontEnds := p.frontEnds + {a}))
  }

  datatype Call =
    | ProvideToSP(who: Address, amount: nat, tag: Address)
    | WithdrawFromSP(who: Address, amount: nat, clear: bool)
    | WithdrawCollGainToTrove(who: Address, hasTrove: bool)
    | RegisterFrontEnd(who: Address)
    | OffsetDebt(debt: nat, coll: nat)

  function Step(p: Pool, c: Call): Option<Pool>
    requires WellFormed(p)
  {
    match c
    case ProvideToSP(a, amount, tag) => Provide(p, a, amount, tag)
    case WithdrawFromSP(a, amount, clear) => Withdraw(p, a, amount, clear)
    case WithdrawCollGainToTrove(a, hasTrove) => GainToTrove(p, a, hasTrove)
    case RegisterFrontEnd(a) => Register(p, a)
    case OffsetDebt(debt, coll) => Offset(p, debt, coll)
  }

  // ---------------------------------------------------------------------------
  // Well-formedness of reachable pools
  // ---------------------------------------------------------------------------

  /** The product never precedes a snapshot and never exceeds it. */
  predicate Reached(now: Product, at: Product) {
    && at.P > 0
    && at.epoch <= now.epoch
    && (at.epoch == now.epoch ==>
          && at.scale <= now.scale
          && (now.scale == at.scale ==> now.P <= at.P)
          && (now.scale == at.scale + 1 ==> now.P <= at.P * SCALE_FACTOR))
  }

  ghost predicate WellFormed(p: Pool) {
    && p.now.P > 0
    && (forall a :: a in p.deposits ==> GoodDeposit(p.now, p.sums, p.deposits[a]))
    && (forall t :: t in p.stakes ==> p.stakes[t].stake > 0 && Reached(p.now, p.stakes[t].at))
    && (forall e, s :: (e, s) in p.sums ==>
          e < p.now.epoch || (e == p.now.epoch && s <= p.now.scale))
  }

  ghost predicate GoodDeposit(now: Product, sums: Sums, d: Deposit) {
    && d.initial > 0
    && Reached(now, d.at)
    && d.S <= SumAt(sums, d.at.epoch, d.at.scale)
  }

  /** Offsets move the product forward and never up. */
  lemma NextReached(now: Product, factor: nat, at: Product)
    requires now.P > 0 && factor <= DECIMAL_PRECISION
    requires Reached(now, at) && NextProduct(now, factor).P > 0
    ensures Reached(NextProduct(now, factor), at)
  {
    var next := NextProduct(now, factor);
    MulDivBelow(now.P, factor, DECIMAL_PRECISION);
    if factor != 0 && now.P * factor / DECIMAL_PRECISION < SCALE_FACTOR {
      MulDivBelow(now.P * SCALE_FACTOR, factor, DECIMAL_PRECISION);
      assert now.P * SCALE_FACTOR * factor == now.P * factor * SCALE_FACTOR;
      assert next.P <= now.P * SCALE_FACTOR;
    }
  }

  lemma SettleKeepsWellFormed(p: Pool, a: Address, t: Settlement)
    requires WellFormed(p)
    ensures WellFormed(Settle(p, a, t))
  {
  }

  lemma ProvideSettles(p: Pool, a: Address, amount: nat, tag: Address) returns (t: Settlement)
    requires WellFormed(p) && Provide(p, a, amount, tag).Some?
    ensures Provide(p, a, amount, tag).value == Settle(p, a, t)
    ensures t.deposit == CompoundedDeposit(p, a) + amount
    ensures t.total == p.total + amount
    ensures t.coll == p.coll - DepositorGain(p, a)
  {
    var kept := if a in p.deposits then p.deposits[a].tag else tag;
    t := Settlement(kept, CompoundedStake(p, kept) + amount, CompoundedDeposit(p, a) + amount,
                    p.total + amount, p.coll - DepositorGain(p, a));
  }

  lemma WithdrawSettles(p: Pool, a: Address, amount: nat, clear: bool) returns (t: Settlement)
    requires WellFormed(p) && Withdraw(p, a, amount, clear).Some?
    ensures Withdraw(p, a, amount, clear).value == Settle(p, a, t)
    ensures t.deposit == CompoundedDeposit(p, a) - Min(amount, CompoundedDeposit(p, a))
    ensures t.total == p.total - Min(amount, CompoundedDeposit(p, a))
    ensures t.coll == p.coll - DepositorGain(p, a)
  {
    var tag, paid := p.deposits[a].tag, Min(amount, CompoundedDeposit(p, a));
    t := Settlement(tag, CompoundedStake(p, tag) - paid, CompoundedDeposit(p, a) - paid,
                    p.total - paid, p.coll - DepositorGain(p, a));
  }

  /** What an offset that does not return at once changes of the snapshots' surroundings. */
  lemma OffsetMoves(p: Pool, debt: nat, coll: nat) returns (factor: nat, more: nat)
    requires Offset(p, debt, coll).Some? && p.total != 0 && debt != 0
    ensures
      var q, here := Offset(p, debt, coll).value, (p.now.epoch, p.now.scale);
      && factor <= DECIMAL_PRECISION && q.now == NextProduct(p.now, factor) && q.now.P > 0
      && q.deposits == p.deposits && q.stakes == p.stakes
      && q.sums == p.sums[here := SumAt(p.sums, p.now.epoch, p.now.scale) + more]
  {
    factor := DECIMAL_PRECISION - LossPerUnit(p, debt);
    more := CollPerUnit(p, coll) * p.now.P;
  }

  lemma OffsetKeepsWellFormed(p: Pool, debt: nat, coll: nat)
    requires WellFormed(p) && Offset(p, debt, coll).Some?
    ensures WellFormed(Offset(p, debt, coll).value)
  {
    if p.total != 0 && debt != 0 {
      var factor, more := OffsetMoves(p, debt, coll);
      MovedWellFormed(p, Offset(p, debt, coll).value, factor, more);
    }
  }

  lemma MovedWellFormed(p: Pool, q: Pool, factor: nat, more: nat)
    requires WellFormed(p) && factor <= DECIMAL_PRECISION && q.now == NextProduct(p.now, factor) && q.now.P > 0
    requires q.deposits == p.deposits && q.stakes == p.stakes
    requires
      q.sums == p.sums[(p.now.epoch, p.now.scale) := SumAt(p.sums, p.now.epoch, p.now.scale) + more]
    ensures WellFormed(q)
  {
    forall a | a in q.deposits ensures GoodDeposit(q.now, q.sums, q.deposits[a]) {
      var d := p.deposits[a];
      assert GoodDeposit(p.now, p.sums, d);
      NextReached(p.now, factor, d.at);
    }
    forall t | t in q.stakes ensures Reached(q.now, q.stakes[t].at) {
      NextReached(p.now, factor, p.stakes[t].at);
    }
  }

  /** Every successful call keeps the pool well formed. */
  lemma StepKeepsWellFormed(p: Pool, c: Call)
    requires WellFormed(p) && Step(p, c).Some?
    ensures WellFormed(Step(p, c).value)
  {
    if c.OffsetDebt? {
      OffsetKeepsWellFormed(p, c.debt, c.coll);
    } else if !c.RegisterFrontEnd? {
      var t :| Step(p, c).value == Settle(p, c.who, t);
      SettleKeepsWellFormed(p, c.who, t);
    }
  }

  /** A compounded deposit never exceeds the recorded one, so `USDDLoss` never underflows. */
  lemma CompoundedAtMostInitial(now: Product, initial: nat, at: Product)
    requires Reached(now, at)
    ensures Compounded(now, initial, at) <= initial
  {
    if at.epoch == now.epoch && now.scale == at.scale {
      MulDivBelow(initial, now.P, at.P);
    } else if at.epoch == now.epoch && now.scale == at.scale + 1 {
      NestedDivision(initial * now.P, at.P, SCALE_FACTOR);
      MulDivBelow(initial, now.P, at.P * SCALE_FACTOR);
    }
  }

}
