/**
 * A front end's virtual stake against the deposits tagged with it. The stake has a snapshot of
 * its own and is never recomputed from the deposits; the two part only by what is rounded away
 * when one of the deposits changes.
 */
module FrontEndStakes {
  import opened Base
  import opened RealSums
  import opened StabilityPool
  import opened PoolLedger
  import opened PoolSolvency

  /** The exact worth of a front end's stake. */
  ghost function StakeWorth(p: Pool, t: Address): real
    requires WellFormed(p)
  {
    if t in p.stakes then Value(p.now, p.stakes[t].stake, p.stakes[t].at) else 0.0
  }

  ghost function DepositWorth(p: Pool, a: Address): real
    requires WellFormed(p)
  {
    if a in p.deposits then Value(p.now, p.deposits[a].initial, p.deposits[a].at) else 0.0
  }

  /** The exact worth of the deposits that carry a tag. */
  ghost function TaggedWorths(p: Pool, t: Address): map<Address, real>
    requires WellFormed(p)
  {
    map a | a in p.deposits && p.deposits[a].tag == t :: DepositWorth(p, a)
  }

  ghost function Gap(p: Pool, t: Address): real
    requires WellFormed(p)
  {
    StakeWorth(p, t) - RealSum(TaggedWorths(p, t))
  }

  // ---------------------------------------------------------------------------
  // Offsets
  // ---------------------------------------------------------------------------

  /** An offset scales stake and deposits alike. */
  lemma OffsetGap(p: Pool, q: Pool, debt: nat, coll: nat, t: Address)
    requires WellFormed(p) && Offset(p, debt, coll) == Some(q) && WellFormed(q) && p.total != 0 && debt != 0
    ensures Gap(q, t) == Times(AppliedFactor(p.now, q.now), Gap(p, t))
  {
    var f := AppliedFactor(p.now, q.now);
    forall a | a in TaggedWorths(q, t) ensures TaggedWorths(q, t)[a] == Times(f, TaggedWorths(p, t)[a]) {
      OffsetValue(p.now, q.now, p.deposits[a].initial, p.deposits[a].at);
    }
    RealSumScale(TaggedWorths(q, t), TaggedWorths(p, t), f);
    if t in p.stakes {
      OffsetValue(p.now, q.now, p.stakes[t].stake, p.stakes[t].at);
    }
    TimesAdd(f, Gap(p, t), RealSum(TaggedWorths(p, t)), StakeWorth(p, t));
  }

  // ---------------------------------------------------------------------------
  // Deposits and withdrawals
  // ---------------------------------------------------------------------------

  lemma WorthUnmoved(now: Product, value: nat)
    requires now.P > 0
    ensures Value(now, value, now) == value as real
  {
    LevelPositive(now);
  }

  /** What a settlement writes is worth what it says, and nobody else's worth changes. */
  lemma SettleWorths(p: Pool, a: Address, s: Settlement)
    requires WellFormed(p) && (a in p.deposits ==> p.deposits[a].tag == s.tag)
    ensures
      var q := Settle(p, a, s);
      && WellFormed(q)
      && StakeWorth(q, s.tag) == s.stake as real
      && (forall t :: t != s.tag ==> StakeWorth(q, t) == StakeWorth(p, t))
      && (forall t :: t != s.tag ==> TaggedWorths(q, t) == TaggedWorths(p, t))
      && TaggedWorths(q, s.tag) == (if s.deposit == 0 then TaggedWorths(p, s.tag) - {a}
                                    else TaggedWorths(p, s.tag)[a := s.deposit as real])
  {
    SettleKeepsWellFormed(p, a, s);
    WorthUnmoved(p.now, s.stake);
    WorthUnmoved(p.now, s.deposit);
  }

  /** The gap of the tag moves by the difference of the two changes; all other gaps stay. */
  lemma SettleGap(p: Pool, a: Address, s: Settlement, t: Address)
    requires WellFormed(p) && (a in p.deposits ==> p.deposits[a].tag == s.tag)
    ensures WellFormed(Settle(p, a, s))
    ensures Gap(Settle(p, a, s), t) == Gap(p, t) +
              if t != s.tag then 0.0
              else (s.stake as real - StakeWorth(p, t)) - (s.deposit as real - DepositWorth(p, a))
  {
    SettleWorths(p, a, s);
    var m := TaggedWorths(p, s.tag);
    if s.deposit != 0 {
      RealSumUpdate(m, a, s.deposit as real);
    } else if a in m {
      RealSumRemove(m, a);
    } else {
      assert m - {a} == m;
    }
  }

  /** What rounding takes from a depositor, and from the stake of the depositor's tag. */
  ghost function DepositLoss(p: Pool, a: Address): real
    requires WellFormed(p)
  {
    DepositWorth(p, a) - CompoundedDeposit(p, a) as real
  }

  ghost function StakeLoss(p: Pool, t: Address): real
    requires WellFormed(p)
  {
    StakeWorth(p, t) - CompoundedStake(p, t) as real
  }

  lemma LossesNonNegative(p: Pool, a: Address, t: Address)
    requires WellFormed(p)
    ensures DepositLoss(p, a) >= 0.0 && StakeLoss(p, t) >= 0.0
  {
    if a in p.deposits {
      CompoundedIsFloor(p.now, p.deposits[a].initial, p.deposits[a].at);
    }
    if t in p.stakes {
      CompoundedIsFloor(p.now, p.stakes[t].stake, p.stakes[t].at);
    }
  }

  /** The tag under which a call is accounted. */
  function TagOf(p: Pool, c: Call): Address
    requires !c.OffsetDebt?
  {
    if c.who in p.deposits then p.deposits[c.who].tag else if c.ProvideToSP? then c.tag else ZERO_ADDRESS
  }

  /** Both records of a depositor's call move by the same amount from their rounded values. */
  lemma CallSettles(p: Pool, c: Call) returns (s: Settlement)
    requires WellFormed(p) && Step(p, c).Some? && !c.OffsetDebt? && !c.RegisterFrontEnd?
    ensures Step(p, c).value == Settle(p, c.who, s) && s.tag == TagOf(p, c)
    ensures c.who in p.deposits ==> p.deposits[c.who].tag == s.tag
    ensures s.stake - CompoundedStake(p, s.tag) == s.deposit - CompoundedDeposit(p, c.who)
  {
    var tag := TagOf(p, c);
    var stake, deposit, gain := CompoundedStake(p, tag), CompoundedDeposit(p, c.who), DepositorGain(p, c.who);
    match c
    case ProvideToSP(_, amount, _) =>
      s := Settlement(tag, stake + amount, deposit + amount, p.total + amount, p.coll - gain);
    case WithdrawFromSP(_, amount, _) =>
      var paid := Min(amount, deposit);
      s := Settlement(tag, stake - paid, deposit - paid, p.total - paid, p.coll - gain);
    case WithdrawCollGainToTrove(_, _) =>
      s := Settlement(tag, stake, deposit, p.total, p.coll - gain);
  }

  /**
   * The gap after a depositor's call: what rounding took from the deposit, less what it took
   * from the stake. Withdrawals and provisions of any size cancel out.
   */
  lemma CallGap(p: Pool, c: Call, t: Address)
    requires WellFormed(p) && Step(p, c).Some? && !c.OffsetDebt? && !c.RegisterFrontEnd?
    ensures WellFormed(Step(p, c).value)
    ensures Gap(Step(p, c).value, t) == Gap(p, t) +
              if t != TagOf(p, c) then 0.0 else DepositLoss(p, c.who) - StakeLoss(p, t)
  {
    var s := CallSettles(p, c);
    SettleGap(p, c.who, s, t);
  }

  // ---------------------------------------------------------------------------
  // Runs
  // ---------------------------------------------------------------------------

  ghost function RealMax(x: real, y: real): real {
    if x < y then y else x
  }

  /** The most that a call can move the gap by: the larger of the two losses. */
  ghost function Slippage(p: Pool, c: Call, t: Address): real
    requires WellFormed(p)
  {
    if c.OffsetDebt? || c.RegisterFrontEnd? || Step(p, c).None? || t != TagOf(p, c) then 0.0
    else RealMax(DepositLoss(p, c.who), StakeLoss(p, t))
  }

  ghost function TotalSlippage(p: Pool, calls: seq<Call>, t: Address): real
    requires WellFormed(p)
    decreases |calls|
  {
    if calls == [] then 0.0 else Slippage(p, calls[0], t) + TotalSlippage(After(p, calls[0]), calls[1..], t)
  }

  ghost predicate GapWithin(p: Pool, t: Address, bound: real)
    requires WellFormed(p)
  {
    -bound <= Gap(p, t) <= bound
  }

  lemma StepGap(p: Pool, c: Call, t: Address, bound: real)
    requires WellFormed(p) && GapWithin(p, t, bound)
    ensures GapWithin(After(p, c), t, bound + Slippage(p, c, t))
  {
    if Step(p, c).Some? {
      var q := After(p, c);
      if c.OffsetDebt? {
        if p.total != 0 && c.debt != 0 {
          OffsetGap(p, q, c.debt, c.coll, t);
          FactorBound(p.now, DECIMAL_PRECISION - LossPerUnit(p, c.debt));
          Shrunk(AppliedFactor(p.now, q.now), Gap(p, t), bound);
        }
      } else if c.RegisterFrontEnd? {
        assert TaggedWorths(q, t) == TaggedWorths(p, t);
      } else {
        LossesNonNegative(p, c.who, t);
        CallGap(p, c, t);
      }
    }
  }

  /**
   * After every run a front end's stake is worth what its tagged deposits are worth, up to what
   * rounding took at the calls under that tag.
   */
  lemma {:induction false} RunGap(p: Pool, calls: seq<Call>, t: Address, bound: real)
    requires WellFormed(p) && GapWithin(p, t, bound)
    ensures GapWithin(Run(p, calls), t, bound + TotalSlippage(p, calls, t))
    decreases |calls|
  {
    if calls != [] {
      StepGap(p, calls[0], t, bound);
      RunGap(After(p, calls[0]), calls[1..], t, bound + Slippage(p, calls[0], t));
    }
  }

  lemma NoGapAtStart(p: Pool, t: Address)
    requires WellFormed(p) && Untouched(p)
    ensures Gap(p, t) == 0.0
  {
    assert |p.deposits.Keys| == |p.stakes.Keys| == 0;
    assert TaggedWorths(p, t) == map[];
  }

  /** From deployment on there is no other gap than that. */
  lemma DeployedRunGap(start: Pool, calls: seq<Call>, t: Address)
    requires WellFormed(start) && Untouched(start)
    ensures GapWithin(Run(start, calls), t, TotalSlippage(start, calls, t))
  {
    NoGapAtStart(start, t);
    RunGap(start, calls, t, 0.0);
  }

  /** The contract drops a position: two scale shifts away, or below a billionth of its size. */
  ghost predicate DroppedPosition(now: Product, initial: nat, at: Product)
    requires at.P > 0
  {
    at.epoch == now.epoch
      && (at.scale + 2 <= now.scale || Value(now, initial, at) < (initial / 1_000_000_000) as real)
  }

  /** Each loss is less than one unit, unless a position is dropped. */
  lemma SlippageBelowUnit(p: Pool, c: Call, t: Address)
    requires WellFormed(p) && !c.OffsetDebt?
    requires c.who in p.deposits ==> !DroppedPosition(p.now, p.deposits[c.who].initial, p.deposits[c.who].at)
    requires t in p.stakes ==> !DroppedPosition(p.now, p.stakes[t].stake, p.stakes[t].at)
    ensures Slippage(p, c, t) < 1.0
  {
    if c.who in p.deposits {
      CompoundedIsFloor(p.now, p.deposits[c.who].initial, p.deposits[c.who].at);
    }
    if t in p.stakes {
      CompoundedIsFloor(p.now, p.stakes[t].stake, p.stakes[t].at);
    }
  }
}
