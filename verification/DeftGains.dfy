/**
 * The DEFT issued to the Stability Pool: a running sum `G` of DEFT per unit staked, split between
 * a depositor and the front end of the depositor's tag. The depositor's part is computed on the
 * deposit, the front end's on its own stake, which is rounded separately.
 */
module DeftGains {
  import opened Base
  import opened RealSums
  import opened StabilityPool
  import opened PoolLedger
  import opened PoolSolvency
  import opened FrontEndStakes

  datatype Deft = Deft(
    G: Sums,                        // epochToScaleToG
    error: nat,                     // lastDEFTError
    depositG: map<Address, nat>,    // the `G` snapshots of deposits
    stakeG: map<Address, nat>,      // the `G` snapshots of front end stakes
    rates: map<Address, nat>        // kickbackRate of the registered front ends
  )

  datatype State = State(pool: Pool, deft: Deft)

  // ---------------------------------------------------------------------------
  // Shares
  // ---------------------------------------------------------------------------

  /** A depositor's cut: everything without a tag, the front end's kickback rate with one. */
  function Kickback(rates: map<Address, nat>, tag: Address): nat {
    if tag == ZERO_ADDRESS then DECIMAL_PRECISION else if tag in rates then rates[tag] else 0
  }

  /** The deposit with its snapshot of `G` in the place of that of `S`. */
  function DepositIn(x: State, a: Address): Deposit
    requires a in x.pool.deposits && a in x.deft.depositG
  {
    x.pool.deposits[a].(S := x.deft.depositG[a])
  }

  function StakeIn(x: State, t: Address): Deposit
    requires t in x.pool.stakes && t in x.deft.stakeG
  {
    Deposit(x.pool.stakes[t].stake, t, x.deft.stakeG[t], x.pool.stakes[t].at)
  }

  ghost predicate GoodSnapshot(G: Sums, d: Deposit) {
    d.at.P > 0 && d.S <= SumAt(G, d.at.epoch, d.at.scale)
  }

  ghost predicate Sound(x: State) {
    && WellFormed(x.pool)
    && x.deft.depositG.Keys == x.pool.deposits.Keys && x.deft.stakeG.Keys == x.pool.stakes.Keys
    && x.deft.rates.Keys == x.pool.frontEnds
    && (forall t :: t in x.deft.rates ==> x.deft.rates[t] <= DECIMAL_PRECISION)
    && (forall e, s :: (e, s) in x.deft.G ==>
          e < x.pool.now.epoch || (e == x.pool.now.epoch && s <= x.pool.now.scale))
    && (forall a :: a in x.pool.deposits ==> GoodSnapshot(x.deft.G, DepositIn(x, a)))
    && (forall t :: t in x.pool.stakes ==> GoodSnapshot(x.deft.G, StakeIn(x, t)))
    && (forall a :: a in x.pool.deposits ==> Registered(x.deft.rates, x.pool.deposits[a].tag))
    && (forall t :: t in x.pool.stakes ==> Registered(x.deft.rates, t))
  }

  predicate Registered(rates: map<Address, nat>, t: Address) {
    t == ZERO_ADDRESS || t in rates
  }

  /** `getDepositorDEFTGain`. */
  function DepositorDeft(x: State, a: Address): nat
    requires Sound(x)
  {
    if a !in x.pool.deposits then 0
    else Kickback(x.deft.rates, x.pool.deposits[a].tag) * CollGain(x.deft.G, DepositIn(x, a)) / DECIMAL_PRECISION
  }

  /** `getFrontEndDEFTGain`. */
  function FrontEndDeft(x: State, t: Address): nat
    requires Sound(x)
  {
    if t !in x.pool.stakes || t !in x.deft.rates then 0
    else (DECIMAL_PRECISION - x.deft.rates[t]) * CollGain(x.deft.G, StakeIn(x, t)) / DECIMAL_PRECISION
  }

  // ---------------------------------------------------------------------------
  // Events
  // ---------------------------------------------------------------------------

  /** A call of the pool, the DEFT issued since the last one, and the rate of a front end that registers. */
  datatype Event = Event(call: Call, issued: nat, rate: nat)

  /** `DEFTPerUnitStaked`, with the remainder of the previous division fed back. */
  function DeftPerUnit(x: State, issued: nat): nat {
    if x.pool.total == 0 || issued == 0 then 0
    else (issued * DECIMAL_PRECISION + x.deft.error) / x.pool.total
  }

  /** `_updateG`. */
  function Issue(x: State, issued: nat): State {
    if x.pool.total == 0 || issued == 0 then x
    else x.(deft := x.deft.(G := AddToSum(x.pool.now, x.deft.G, DeftPerUnit(x, issued)),
                            error := (issued * DECIMAL_PRECISION + x.deft.error) % x.pool.total))
  }

  /** What `_payOutDEFTGains` pays. */
  function PaidTo(x: State, c: Call): nat
    requires Sound(x) && !c.OffsetDebt?
  {
    var tag := TagOf(x.pool, c);
    DepositorDeft(x, c.who) + if tag == ZERO_ADDRESS then 0 else FrontEndDeft(x, tag)
  }

  /** The snapshots after a deposit, or its entry's removal. */
  function Resnapped(snapshots: map<Address, nat>, a: Address, stays: bool, g: nat): map<Address, nat> {
    if stays then snapshots[a := g] else snapshots - {a}
  }

  /** A depositor's call, once issuance is triggered. */
  function Settled(x: State, c: Call, p: Pool): State
    requires !c.OffsetDebt?
  {
    var g, tag := SumAt(x.deft.G, x.pool.now.epoch, x.pool.now.scale), TagOf(x.pool, c);
    State(p, x.deft.(depositG := Resnapped(x.deft.depositG, c.who, c.who in p.deposits, g),
                     stakeG := Resnapped(x.deft.stakeG, tag, tag in p.stakes, g)))
  }

  /** The state after an event; an early return of an offset issues nothing. */
  function Apply(x: State, e: Event): Option<State>
    requires WellFormed(x.pool)
  {
    var p := Step(x.pool, e.call);
    if p.None? then None
    else
      match e.call
      case RegisterFrontEnd(a) =>
        if e.rate > DECIMAL_PRECISION then None
        else Some(State(p.value, x.deft.(rates := x.deft.rates[a := e.rate])))
      case OffsetDebt(debt, _) =>
        if x.pool.total == 0 || debt == 0 then Some(x) else Some(Issue(x, e.issued).(pool := p.value))
      case _ => Some(Settled(Issue(x, e.issued), e.call, p.value))
  }

  /** Whether an event triggers an issuance. */
  predicate Issues(x: State, e: Event) {
    !e.call.RegisterFrontEnd? && (e.call.OffsetDebt? ==> x.pool.total != 0 && e.call.debt != 0)
  }

  // ---------------------------------------------------------------------------
  // Soundness
  // ---------------------------------------------------------------------------

  lemma IssueSound(x: State, issued: nat)
    requires Sound(x)
    ensures Sound(Issue(x, issued))
  {
    var y := Issue(x, issued);
    if y != x {
      assert forall e, s :: SumAt(x.deft.G, e, s) <= SumAt(y.deft.G, e, s);
      forall a | a in y.pool.deposits ensures GoodSnapshot(y.deft.G, DepositIn(y, a)) {
        assert GoodSnapshot(x.deft.G, DepositIn(x, a));
      }
      forall t | t in y.pool.stakes ensures GoodSnapshot(y.deft.G, StakeIn(y, t)) {
        assert GoodSnapshot(x.deft.G, StakeIn(x, t));
      }
    }
  }

  /** What a settlement writes, map by map. */
  ghost predicate Writes(x: State, y: State, a: Address, s: Settlement) {
    var now, g := x.pool.now, SumAt(x.deft.G, x.pool.now.epoch, x.pool.now.scale);
    && y.pool.now == now && y.deft.G == x.deft.G && y.deft.rates == x.deft.rates && y.pool.frontEnds == x.pool.frontEnds
    && (if s.deposit == 0 then y.pool.deposits == x.pool.deposits - {a} && y.deft.depositG == x.deft.depositG - {a}
        else
          var d := Deposit(s.deposit, s.tag, SumAt(x.pool.sums, now.epoch, now.scale), now);
          y.pool.deposits == x.pool.deposits[a := d] && y.deft.depositG == x.deft.depositG[a := g])
    && (if s.stake == 0 then y.pool.stakes == x.pool.stakes - {s.tag} && y.deft.stakeG == x.deft.stakeG - {s.tag}
        else y.pool.stakes == x.pool.stakes[s.tag := FrontEndStake(s.stake, now)]
             && y.deft.stakeG == x.deft.stakeG[s.tag := g])
  }

  lemma SettledWrites(x: State, c: Call, s: Settlement)
    requires !c.OffsetDebt? && !c.RegisterFrontEnd? && s.tag == TagOf(x.pool, c)
    ensures Writes(x, Settled(x, c, Settle(x.pool, c.who, s)), c.who, s)
  {
  }

  lemma WrittenSnapshots(x: State, y: State, a: Address, s: Settlement)
    requires Sound(x) && Writes(x, y, a, s) && WellFormed(y.pool)
    ensures y.deft.depositG.Keys == y.pool.deposits.Keys && y.deft.stakeG.Keys == y.pool.stakes.Keys
    ensures forall b :: b in y.pool.deposits ==> GoodSnapshot(y.deft.G, DepositIn(y, b))
    ensures forall t :: t in y.pool.stakes ==> GoodSnapshot(y.deft.G, StakeIn(y, t))
  {
    forall b | b in y.pool.deposits ensures b in y.deft.depositG && GoodSnapshot(y.deft.G, DepositIn(y, b)) {
      if b != a {
        assert GoodSnapshot(x.deft.G, DepositIn(x, b));
      }
    }
    forall t | t in y.pool.stakes ensures t in y.deft.stakeG && GoodSnapshot(y.deft.G, StakeIn(y, t)) {
      if t != s.tag {
        assert GoodSnapshot(x.deft.G, StakeIn(x, t));
      }
    }
  }

  lemma SettledSound(x: State, c: Call, s: Settlement)
    requires Sound(x) && !c.OffsetDebt? && !c.RegisterFrontEnd?
    requires Step(x.pool, c) == Some(Settle(x.pool, c.who, s)) && s.tag == TagOf(x.pool, c)
    ensures Sound(Settled(x, c, Settle(x.pool, c.who, s)))
  {
    var p := Settle(x.pool, c.who, s);
    SettleKeepsWellFormed(x.pool, c.who, s);
    SettledWrites(x, c, s);
    WrittenSnapshots(x, Settled(x, c, p), c.who, s);
    SettledTags(x, c, s);
  }

  lemma SettledTags(x: State, c: Call, s: Settlement)
    requires Sound(x) && !c.OffsetDebt? && !c.RegisterFrontEnd?
    requires Step(x.pool, c) == Some(Settle(x.pool, c.who, s)) && s.tag == TagOf(x.pool, c)
    ensures
      var p := Settle(x.pool, c.who, s);
      && Registered(x.deft.rates, s.tag)
      && (forall a :: a in p.deposits ==> Registered(x.deft.rates, p.deposits[a].tag))
      && (forall t :: t in p.stakes ==> Registered(x.deft.rates, t))
  {
  }

  lemma OffsetSound(x: State, p: Pool, debt: nat, coll: nat)
    requires Sound(x) && Offset(x.pool, debt, coll) == Some(p)
    ensures Sound(x.(pool := p))
  {
    OffsetKeepsWellFormed(x.pool, debt, coll);
    var y := x.(pool := p);
    forall a | a in y.pool.deposits ensures GoodSnapshot(y.deft.G, DepositIn(y, a)) {
      assert GoodSnapshot(x.deft.G, DepositIn(x, a));
    }
    forall t | t in y.pool.stakes ensures GoodSnapshot(y.deft.G, StakeIn(y, t)) {
      assert GoodSnapshot(x.deft.G, StakeIn(x, t));
    }
  }

  lemma RegisterSound(x: State, a: Address, rate: nat)
    requires Sound(x) && Register(x.pool, a).Some? && rate <= DECIMAL_PRECISION
    ensures Sound(State(Register(x.pool, a).value, x.deft.(rates := x.deft.rates[a := rate])))
  {
    var y := State(Register(x.pool, a).value, x.deft.(rates := x.deft.rates[a := rate]));
    forall b | b in y.pool.deposits ensures GoodSnapshot(y.deft.G, DepositIn(y, b)) {
      assert GoodSnapshot(x.deft.G, DepositIn(x, b));
    }
    forall t | t in y.pool.stakes ensures GoodSnapshot(y.deft.G, StakeIn(y, t)) {
      assert GoodSnapshot(x.deft.G, StakeIn(x, t));
    }
  }

  /** The issuance does not touch the pool, so the call settles as it would have. */
  lemma ApplySettles(x: State, e: Event) returns (s: Settlement)
    requires Sound(x) && Apply(x, e).Some? && !e.call.OffsetDebt? && !e.call.RegisterFrontEnd?
    ensures
      var y := Issue(x, e.issued);
      && y.pool == x.pool && Step(x.pool, e.call) == Some(Settle(x.pool, e.call.who, s))
      && s.tag == TagOf(x.pool, e.call) && Apply(x, e) == Some(Settled(y, e.call, Settle(x.pool, e.call.who, s)))
      && (e.call.who in x.pool.deposits ==> x.pool.deposits[e.call.who].tag == s.tag)
      && s.stake - CompoundedStake(x.pool, s.tag) == s.deposit - CompoundedDeposit(x.pool, e.call.who)
  {
    s := CallSettles(x.pool, e.call);
  }

  lemma ApplySound(x: State, e: Event)
    requires Sound(x) && Apply(x, e).Some?
    ensures Sound(Apply(x, e).value)
  {
    IssueSound(x, e.issued);
    if e.call.OffsetDebt? {
      if Issues(x, e) {
        OffsetSound(Issue(x, e.issued), Step(x.pool, e.call).value, e.call.debt, e.call.coll);
      }
    } else if e.call.RegisterFrontEnd? {
      RegisterSound(x, e.call.who, e.rate);
    } else {
      var s := ApplySettles(x, e);
      SettledSound(Issue(x, e.issued), e.call, s);
    }
  }

  // ---------------------------------------------------------------------------
  // What is due, and what an issuance weighs
  // ---------------------------------------------------------------------------

  /** A fraction of 1e18, of an amount. */
  ghost function Part(rate: int, amount: real): real {
    Times(rate as real / UNIT, amount)
  }

  ghost function DepositShare(x: State, a: Address): int
    requires a in x.pool.deposits
  {
    Kickback(x.deft.rates, x.pool.deposits[a].tag)
  }

  /** Nothing goes to the zero tag. */
  ghost function StakeShare(x: State, t: Address): int {
    if t == ZERO_ADDRESS then 0 else DECIMAL_PRECISION - Kickback(x.deft.rates, t)
  }

  /** What a position has accrued, without floors. */
  ghost function Accrued(G: Sums, d: Deposit): real {
    if d.at.P == 0 then 0.0 else ExactGain(G, d)
  }

  ghost function DueDeposit(x: State, a: Address): real
    requires a in x.pool.deposits && a in x.deft.depositG
  {
    Part(DepositShare(x, a), Accrued(x.deft.G, DepositIn(x, a)))
  }

  ghost function DueStake(x: State, t: Address): real
    requires t in x.pool.stakes && t in x.deft.stakeG
  {
    Part(StakeShare(x, t), Accrued(x.deft.G, StakeIn(x, t)))
  }

  /** What depositors and front ends are owed. */
  ghost function DueDeposits(x: State): map<Address, real> {
    map a | a in x.pool.deposits && a in x.deft.depositG :: DueDeposit(x, a)
  }

  ghost function DueStakes(x: State): map<Address, real> {
    map t | t in x.pool.stakes && t in x.deft.stakeG :: DueStake(x, t)
  }

  ghost function Due(x: State): real {
    RealSum(DueDeposits(x)) + RealSum(DueStakes(x))
  }

  /** What each of them counts for in an issuance. */
  ghost function DepositWeight(x: State, a: Address): real
    requires WellFormed(x.pool) && a in x.pool.deposits
  {
    Part(DepositShare(x, a), DepositWorth(x.pool, a))
  }

  ghost function StakeWeight(x: State, t: Address): real
    requires WellFormed(x.pool)
  {
    Part(StakeShare(x, t), StakeWorth(x.pool, t))
  }

  ghost function WeightDeposits(x: State): map<Address, real>
    requires WellFormed(x.pool)
  {
    map a | a in x.pool.deposits :: DepositWeight(x, a)
  }

  ghost function WeightStakes(x: State): map<Address, real>
    requires WellFormed(x.pool)
  {
    map t | t in x.pool.stakes :: StakeWeight(x, t)
  }

  ghost function Weight(x: State): real
    requires WellFormed(x.pool)
  {
    RealSum(WeightDeposits(x)) + RealSum(WeightStakes(x))
  }

  ghost function Worths(p: Pool): map<Address, real>
    requires WellFormed(p)
  {
    map a | a in p.deposits :: DepositWorth(p, a)
  }

  /** By how much the weight exceeds what the deposits are worth: the front ends' shares of their gaps. */
  ghost function Overweight(x: State): real
    requires WellFormed(x.pool)
  {
    Weight(x) - RealSum(Worths(x.pool))
  }

  // ---------------------------------------------------------------------------
  // Issuance
  // ---------------------------------------------------------------------------

  /** What a position takes part in an issuance with: nothing beyond one scale shift. */
  ghost function DepositReach(x: State, a: Address): real
    requires WellFormed(x.pool) && a in x.pool.deposits
  {
    if BeyondReach(x.pool.now, x.pool.deposits[a].at) then 0.0 else DepositWeight(x, a)
  }

  ghost function StakeReach(x: State, t: Address): real
    requires WellFormed(x.pool) && t in x.pool.stakes
  {
    if BeyondReach(x.pool.now, x.pool.stakes[t].at) then 0.0 else StakeWeight(x, t)
  }

  ghost function ReachDeposits(x: State): map<Address, real>
    requires WellFormed(x.pool)
  {
    map a | a in x.pool.deposits :: DepositReach(x, a)
  }

  ghost function ReachStakes(x: State): map<Address, real>
    requires WellFormed(x.pool)
  {
    map t | t in x.pool.stakes :: StakeReach(x, t)
  }

  ghost function Reach(x: State): real
    requires WellFormed(x.pool)
  {
    RealSum(ReachDeposits(x)) + RealSum(ReachStakes(x))
  }

  /** The weight of the positions that an issuance passes by. */
  ghost function Stale(x: State): real
    requires WellFormed(x.pool)
  {
    Weight(x) - Reach(x)
  }

  ghost predicate NoneBeyondReach(p: Pool) {
    && (forall a :: a in p.deposits ==> !BeyondReach(p.now, p.deposits[a].at))
    && (forall t :: t in p.stakes ==> !BeyondReach(p.now, p.stakes[t].at))
  }

  lemma PartNonNegative(rate: int, amount: real)
    requires rate >= 0 && amount >= 0.0
    ensures Part(rate, amount) >= 0.0
  {
  }

  lemma StaleDepositBounds(x: State, a: Address)
    requires Sound(x) && a in x.pool.deposits
    ensures DepositReach(x, a) <= DepositWeight(x, a)
  {
    assert GoodDeposit(x.pool.now, x.pool.sums, x.pool.deposits[a]);
    ValueNonNegative(x.pool.now, x.pool.deposits[a].initial, x.pool.deposits[a].at);
    SharesInRange(x, x.pool.deposits[a].tag);
    PartNonNegative(DepositShare(x, a), DepositWorth(x.pool, a));
  }

  lemma StaleStakeBounds(x: State, t: Address)
    requires Sound(x) && t in x.pool.stakes
    ensures StakeReach(x, t) <= StakeWeight(x, t)
  {
    assert Reached(x.pool.now, x.pool.stakes[t].at);
    ValueNonNegative(x.pool.now, x.pool.stakes[t].stake, x.pool.stakes[t].at);
    SharesInRange(x, t);
    PartNonNegative(StakeShare(x, t), StakeWorth(x.pool, t));
  }

  /** Never negative, and nothing while every position is within one shift. */
  lemma StaleBounds(x: State)
    requires Sound(x)
    ensures Stale(x) >= 0.0
    ensures NoneBeyondReach(x.pool) ==> Stale(x) == 0.0
  {
    forall a | a in ReachDeposits(x) ensures ReachDeposits(x)[a] <= WeightDeposits(x)[a] {
      StaleDepositBounds(x, a);
    }
    forall t | t in ReachStakes(x) ensures ReachStakes(x)[t] <= WeightStakes(x)[t] {
      StaleStakeBounds(x, t);
    }
    RealSumMonotone(ReachDeposits(x), WeightDeposits(x));
    RealSumMonotone(ReachStakes(x), WeightStakes(x));
    if NoneBeyondReach(x.pool) {
      assert ReachDeposits(x) == WeightDeposits(x) && ReachStakes(x) == WeightStakes(x);
    }
  }

  lemma PartGrows(rate: int, gain: real, gain': real, by0: real, worth: real)
    requires gain' == gain + Times(by0, worth)
    ensures Part(rate, gain') == Part(rate, gain) + Times(by0, Part(rate, worth))
  {
    var k := rate as real / UNIT;
    assert k * (gain + by0 * worth) == k * gain + by0 * (k * worth);
  }

  lemma SharesInRange(x: State, t: Address)
    requires Sound(x)
    ensures 0 <= Kickback(x.deft.rates, t) <= DECIMAL_PRECISION && 0 <= StakeShare(x, t) <= DECIMAL_PRECISION
  {
  }

  /** A share `k` of one position, through an issuance of `perUnit`. */
  lemma IssuePosition(now: Product, G: Sums, d: Deposit, perUnit: nat, k: int)
    requires now.P > 0 && Reached(now, d.at)
    ensures Part(k, Accrued(AddToSum(now, G, perUnit), d)) ==
              Part(k, Accrued(G, d))
              + Times(Rate(perUnit), if BeyondReach(now, d.at) then 0.0 else Part(k, Value(now, d.initial, d.at)))
  {
    var rate := Rate(perUnit);
    GainExact(now, G, d, perUnit);
    if BeyondReach(now, d.at) {
      NoneOf(rate);
    } else {
      PartGrows(k, Accrued(G, d), Accrued(AddToSum(now, G, perUnit), d), rate, Value(now, d.initial, d.at));
    }
  }

  lemma IssueDeposit(x: State, issued: nat, a: Address)
    requires Sound(x) && a in x.pool.deposits
    ensures
      var y, rate := Issue(x, issued), Rate(DeftPerUnit(x, issued));
      DueDeposit(y, a) == DueDeposit(x, a) + Times(rate, DepositReach(x, a))
  {
    assert GoodDeposit(x.pool.now, x.pool.sums, x.pool.deposits[a]);
    if x.pool.total == 0 || issued == 0 {
      NothingMore(DepositReach(x, a));
    } else {
      IssuePosition(x.pool.now, x.deft.G, DepositIn(x, a), DeftPerUnit(x, issued), DepositShare(x, a));
    }
  }

  lemma NothingMore(w: real)
    ensures Times(Rate(0), w) == 0.0
  {
  }

  lemma NoneOf(rate: real)
    ensures Times(rate, 0.0) == 0.0
  {
  }

  lemma IssueStake(x: State, issued: nat, t: Address)
    requires Sound(x) && t in x.pool.stakes
    ensures
      var y, rate := Issue(x, issued), Rate(DeftPerUnit(x, issued));
      DueStake(y, t) == DueStake(x, t) + Times(rate, StakeReach(x, t))
  {
    assert Reached(x.pool.now, x.pool.stakes[t].at);
    if x.pool.total == 0 || issued == 0 {
      NothingMore(StakeReach(x, t));
    } else {
      IssuePosition(x.pool.now, x.deft.G, StakeIn(x, t), DeftPerUnit(x, issued), StakeShare(x, t));
    }
  }

  lemma IssueAllDeposits(x: State, issued: nat)
    requires Sound(x)
    ensures
      var y, rate := Issue(x, issued), Rate(DeftPerUnit(x, issued));
      RealSum(DueDeposits(y)) == RealSum(DueDeposits(x)) + Times(rate, RealSum(ReachDeposits(x)))
  {
    var y, rate := Issue(x, issued), Rate(DeftPerUnit(x, issued));
    forall a | a in DueDeposits(y)
      ensures DueDeposits(y)[a] == DueDeposits(x)[a] + Times(rate, ReachDeposits(x)[a])
    {
      IssueDeposit(x, issued, a);
    }
    RealSumAddScaled(DueDeposits(y), DueDeposits(x), ReachDeposits(x), rate);
  }

  lemma IssueAllStakes(x: State, issued: nat)
    requires Sound(x)
    ensures
      var y, rate := Issue(x, issued), Rate(DeftPerUnit(x, issued));
      RealSum(DueStakes(y)) == RealSum(DueStakes(x)) + Times(rate, RealSum(ReachStakes(x)))
  {
    var y, rate := Issue(x, issued), Rate(DeftPerUnit(x, issued));
    forall t | t in DueStakes(y)
      ensures DueStakes(y)[t] == DueStakes(x)[t] + Times(rate, ReachStakes(x)[t])
    {
      IssueStake(x, issued, t);
    }
    RealSumAddScaled(DueStakes(y), DueStakes(x), ReachStakes(x), rate);
  }

  /** An issuance makes due exactly its rate on the weight of all deposits and stakes within reach. */
  lemma IssueDue(x: State, issued: nat)
    requires Sound(x)
    ensures Due(Issue(x, issued)) == Due(x) + Times(Rate(DeftPerUnit(x, issued)), Reach(x))
  {
    IssueAllDeposits(x, issued);
    IssueAllStakes(x, issued);
    TimesAdd(Rate(DeftPerUnit(x, issued)), RealSum(ReachDeposits(x)), RealSum(ReachStakes(x)), Reach(x));
  }

  // ---------------------------------------------------------------------------
  // Payment
  // ---------------------------------------------------------------------------

  /** What the floors of a payment take from its payees. */
  ghost function Floors(x: State, c: Call): real
    requires Sound(x) && !c.OffsetDebt?
  {
    At(DueDeposits(x), c.who) + At(DueStakes(x), TagOf(x.pool, c)) - PaidTo(x, c) as real
  }

  /** One unit of `G`, per position. */
  ghost function UlpShare(d: Deposit): real {
    if d.at.P == 0 then 0.0 else Share(d.initial, 1.0, d.at.P)
  }

  /** A floored part of a floored gain, from below and from above. */
  lemma PartPaid(rate: nat, gain: nat, exact: real, short: real)
    requires rate <= DECIMAL_PRECISION && gain as real <= exact <= gain as real + short && short >= 0.0
    ensures (rate * gain / DECIMAL_PRECISION) as real <= Part(rate, exact)
    ensures Part(rate, exact) <= (rate * gain / DECIMAL_PRECISION) as real + 1.0 + short
  {
    PartFloored(rate, gain);
    PartNear(rate, gain as real, exact, short);
  }

  lemma PartFloored(rate: nat, gain: nat)
    ensures (rate * gain / DECIMAL_PRECISION) as real <= Part(rate, gain as real)
    ensures Part(rate, gain as real) < (rate * gain / DECIMAL_PRECISION) as real + 1.0
  {
    FloorOf(rate * gain, DECIMAL_PRECISION);
    assert (rate * gain) as real == rate as real * gain as real;
    assert rate as real * gain as real / UNIT == rate as real / UNIT * gain as real;
  }

  lemma PartNear(rate: nat, gain: real, exact: real, short: real)
    requires rate <= DECIMAL_PRECISION && gain <= exact <= gain + short && short >= 0.0
    ensures Part(rate, gain) <= Part(rate, exact) <= Part(rate, gain) + short
  {
    var k, more := rate as real / UNIT, exact - gain;
    assert k * exact == k * gain + k * more;
    PartNonNegative(rate, more);
    Shrunk(k, more, short);
  }

  lemma DepositorPaid(x: State, a: Address)
    requires Sound(x) && a in x.pool.deposits
    ensures DepositorDeft(x, a) as real <= DueDeposit(x, a)
    ensures DueDeposit(x, a) <= DepositorDeft(x, a) as real + 2.0 + UlpShare(DepositIn(x, a))
  {
    var d := DepositIn(x, a);
    assert GoodSnapshot(x.deft.G, d);
    SharesInRange(x, x.pool.deposits[a].tag);
    GainIsBelow(x.deft.G, d);
    GainIsNear(x.deft.G, d);
    PartPaid(DepositShare(x, a), CollGain(x.deft.G, d), Accrued(x.deft.G, d), 1.0 + UlpShare(d));
  }

  lemma FrontEndPaid(x: State, t: Address)
    requires Sound(x) && t != ZERO_ADDRESS && t in x.pool.stakes
    ensures FrontEndDeft(x, t) as real <= DueStake(x, t)
    ensures DueStake(x, t) <= FrontEndDeft(x, t) as real + 2.0 + UlpShare(StakeIn(x, t))
  {
    var d := StakeIn(x, t);
    assert GoodSnapshot(x.deft.G, d) && Registered(x.deft.rates, t);
    SharesInRange(x, t);
    GainIsBelow(x.deft.G, d);
    GainIsNear(x.deft.G, d);
    PartPaid(StakeShare(x, t), CollGain(x.deft.G, d), Accrued(x.deft.G, d), 1.0 + UlpShare(d));
  }

  /** Never negative, and two units and one unit of `G` for each of the two payees at most. */
  lemma FloorsBounds(x: State, c: Call)
    requires Sound(x) && !c.OffsetDebt? && !c.RegisterFrontEnd?
    ensures Floors(x, c) >= 0.0
    ensures Floors(x, c) <= FloorLimit(x, c)
  {
    var t := TagOf(x.pool, c);
    if c.who in x.pool.deposits {
      DepositorPaid(x, c.who);
    }
    if t == ZERO_ADDRESS {
      ZeroTagDue(x);
    } else if t in x.pool.stakes {
      FrontEndPaid(x, t);
    }
  }

  ghost function FloorLimit(x: State, c: Call): real
    requires Sound(x) && !c.OffsetDebt?
  {
    var t := TagOf(x.pool, c);
    (if c.who in x.pool.deposits then 2.0 + UlpShare(DepositIn(x, c.who)) else 0.0)
      + if t != ZERO_ADDRESS && t in x.pool.stakes then 2.0 + UlpShare(StakeIn(x, t)) else 0.0
  }

  /** Nothing has accrued to a snapshot just taken. */
  lemma FreshGain(x: State, d: Deposit)
    requires d.at == x.pool.now && d.S == SumAt(x.deft.G, x.pool.now.epoch, x.pool.now.scale)
    requires SumAt(x.deft.G, x.pool.now.epoch, x.pool.now.scale + 1) == 0
    ensures Accrued(x.deft.G, d) == 0.0
  {
    assert d.at.P > 0 ==> SumSince(x.deft.G, d) == 0.0;
  }

  lemma PartOfNothing(rate: int)
    ensures Part(rate, 0.0) == 0.0
  {
  }

  /** One map entry set to a value, or gone if the value is zero. */
  ghost predicate Set(m: map<Address, real>, m': map<Address, real>, a: Address, v: real) {
    (a in m' || v == 0.0) && m' == if a in m' then m[a := v] else m - {a}
  }

  lemma SetAt(m: map<Address, real>, m': map<Address, real>, a: Address, v: real)
    requires m'.Keys == (if a in m' then m.Keys + {a} else m.Keys - {a}) && (a in m' || v == 0.0)
    requires forall b :: b in m' ==> m'[b] == if b == a then v else m[b]
    ensures Set(m, m', a, v)
  {
  }

  ghost function At(m: map<Address, real>, a: Address): real {
    if a in m then m[a] else 0.0
  }

  lemma SetSum(m: map<Address, real>, m': map<Address, real>, a: Address, v: real)
    requires Set(m, m', a, v)
    ensures RealSum(m') == RealSum(m) - At(m, a) + v
  {
    if a in m' {
      RealSumUpdate(m, a, v);
    } else if a in m {
      RealSumRemove(m, a);
    } else {
      assert m - {a} == m;
    }
  }

  lemma DepositsCleared(x: State, y: State, a: Address, s: Settlement)
    requires Writes(x, y, a, s) && SumAt(x.deft.G, x.pool.now.epoch, x.pool.now.scale + 1) == 0
    ensures Set(DueDeposits(x), DueDeposits(y), a, 0.0)
  {
    forall b | b in DueDeposits(y) ensures DueDeposits(y)[b] == if b == a then 0.0 else DueDeposits(x)[b] {
      if b == a {
        FreshGain(y, DepositIn(y, a));
        PartOfNothing(DepositShare(y, a));
      } else {
        assert DepositIn(y, b) == DepositIn(x, b);
      }
    }
    SetAt(DueDeposits(x), DueDeposits(y), a, 0.0);
  }

  lemma StakesCleared(x: State, y: State, a: Address, s: Settlement)
    requires Writes(x, y, a, s) && SumAt(x.deft.G, x.pool.now.epoch, x.pool.now.scale + 1) == 0
    ensures Set(DueStakes(x), DueStakes(y), s.tag, 0.0)
  {
    forall t | t in DueStakes(y) ensures DueStakes(y)[t] == if t == s.tag then 0.0 else DueStakes(x)[t] {
      if t == s.tag {
        FreshGain(y, StakeIn(y, t));
        PartOfNothing(StakeShare(y, t));
      } else {
        assert StakeIn(y, t) == StakeIn(x, t);
      }
    }
    SetAt(DueStakes(x), DueStakes(y), s.tag, 0.0);
  }

  /** What a call pays was due, and is due no longer: all but the floors is paid. */
  lemma SettleDue(x: State, c: Call, s: Settlement)
    requires Sound(x) && !c.OffsetDebt? && !c.RegisterFrontEnd?
    requires Step(x.pool, c) == Some(Settle(x.pool, c.who, s)) && s.tag == TagOf(x.pool, c)
    ensures
      var y := Settled(x, c, Settle(x.pool, c.who, s));
      Sound(y) && Due(y) + PaidTo(x, c) as real + Floors(x, c) == Due(x)
  {
    var y := Settled(x, c, Settle(x.pool, c.who, s));
    SettledSound(x, c, s);
    SettledWrites(x, c, s);
    DepositsCleared(x, y, c.who, s);
    StakesCleared(x, y, c.who, s);
    SetSum(DueDeposits(x), DueDeposits(y), c.who, 0.0);
    SetSum(DueStakes(x), DueStakes(y), s.tag, 0.0);
  }

  lemma ZeroTagDue(x: State)
    requires Sound(x)
    ensures ZERO_ADDRESS in x.pool.stakes ==> DueStakes(x)[ZERO_ADDRESS] == 0.0
  {
    if ZERO_ADDRESS in x.pool.stakes {
      PartOfNoRate(Accrued(x.deft.G, StakeIn(x, ZERO_ADDRESS)));
    }
  }

  lemma PartOfNoRate(amount: real)
    ensures Part(0, amount) == 0.0
  {
  }

  // ---------------------------------------------------------------------------
  // The overweight
  // ---------------------------------------------------------------------------

  lemma PartScales(rate: int, f: real, amount: real)
    ensures Part(rate, Times(f, amount)) == Times(f, Part(rate, amount))
  {
    var k := rate as real / UNIT;
    assert k * (f * amount) == f * (k * amount);
  }

  lemma OffsetWorths(x: State, p: Pool, f: real)
    requires WellFormed(x.pool) && WellFormed(p) && p.deposits == x.pool.deposits && x.pool.now.epoch <= p.now.epoch
    requires f == AppliedFactor(x.pool.now, p.now)
    ensures RealSum(Worths(p)) == Times(f, RealSum(Worths(x.pool)))
    ensures RealSum(WeightDeposits(x.(pool := p))) == Times(f, RealSum(WeightDeposits(x)))
  {
    var y := x.(pool := p);
    forall a | a in p.deposits
      ensures Worths(p)[a] == Times(f, Worths(x.pool)[a]) && WeightDeposits(y)[a] == Times(f, WeightDeposits(x)[a])
    {
      assert GoodDeposit(x.pool.now, x.pool.sums, x.pool.deposits[a]);
      OffsetValue(x.pool.now, p.now, x.pool.deposits[a].initial, x.pool.deposits[a].at);
      PartScales(DepositShare(x, a), f, DepositWorth(x.pool, a));
    }
    RealSumScale(Worths(p), Worths(x.pool), f);
    RealSumScale(WeightDeposits(y), WeightDeposits(x), f);
  }

  lemma OffsetStakes(x: State, p: Pool, f: real)
    requires WellFormed(x.pool) && WellFormed(p) && p.stakes == x.pool.stakes && x.pool.now.epoch <= p.now.epoch
    requires f == AppliedFactor(x.pool.now, p.now)
    ensures RealSum(WeightStakes(x.(pool := p))) == Times(f, RealSum(WeightStakes(x)))
  {
    var y := x.(pool := p);
    forall t | t in p.stakes ensures WeightStakes(y)[t] == Times(f, WeightStakes(x)[t]) {
      OffsetValue(x.pool.now, p.now, x.pool.stakes[t].stake, x.pool.stakes[t].at);
      PartScales(StakeShare(x, t), f, StakeWorth(x.pool, t));
    }
    RealSumScale(WeightStakes(y), WeightStakes(x), f);
  }

  /** An offset scales it, like everything else. */
  lemma OffsetOverweight(x: State, p: Pool, debt: nat, coll: nat)
    requires WellFormed(x.pool) && Offset(x.pool, debt, coll) == Some(p) && WellFormed(p)
    requires x.pool.total != 0 && debt != 0
    ensures Overweight(x.(pool := p)) == Times(AppliedFactor(x.pool.now, p.now), Overweight(x))
  {
    var f := AppliedFactor(x.pool.now, p.now);
    OffsetWorths(x, p, f);
    OffsetStakes(x, p, f);
    ScaledOverweight(x, x.(pool := p), f);
  }

  lemma ScaledOverweight(x: State, y: State, f: real)
    requires WellFormed(x.pool) && WellFormed(y.pool)
    requires RealSum(Worths(y.pool)) == Times(f, RealSum(Worths(x.pool)))
    requires RealSum(WeightDeposits(y)) == Times(f, RealSum(WeightDeposits(x)))
    requires RealSum(WeightStakes(y)) == Times(f, RealSum(WeightStakes(x)))
    ensures Overweight(y) == Times(f, Overweight(x))
  {
    OverweightScales(f, RealSum(WeightDeposits(x)), RealSum(WeightStakes(x)), RealSum(Worths(x.pool)));
  }

  lemma OverweightScales(f: real, d: real, t: real, w: real)
    ensures Times(f, d) + Times(f, t) - Times(f, w) == Times(f, d + t - w)
  {
  }

  lemma WrittenWorths(x: State, y: State, a: Address, s: Settlement)
    requires WellFormed(x.pool) && WellFormed(y.pool) && Writes(x, y, a, s)
    ensures RealSum(Worths(y.pool)) == RealSum(Worths(x.pool)) + (s.deposit as real - DepositWorth(x.pool, a))
  {
    WorthUnmoved(x.pool.now, s.deposit);
    forall b | b in y.pool.deposits
        ensures Worths(y.pool)[b] == if b == a then s.deposit as real else Worths(x.pool)[b] {
      assert b != a ==> y.pool.deposits[b] == x.pool.deposits[b];
    }
    SetAt(Worths(x.pool), Worths(y.pool), a, s.deposit as real);
    SetSum(Worths(x.pool), Worths(y.pool), a, s.deposit as real);
  }

  lemma WrittenDepositWeight(x: State, y: State, a: Address, s: Settlement, b: Address)
    requires WellFormed(x.pool) && WellFormed(y.pool) && Writes(x, y, a, s) && b in y.pool.deposits
    ensures b != a ==> b in x.pool.deposits
    ensures DepositWeight(y, b) ==
              if b == a then Part(Kickback(x.deft.rates, s.tag), s.deposit as real) else DepositWeight(x, b)
  {
    WorthUnmoved(x.pool.now, s.deposit);
    if b != a {
      assert y.pool.deposits[b] == x.pool.deposits[b];
      assert DepositWorth(y.pool, b) == DepositWorth(x.pool, b);
    }
  }

  lemma WrittenWeightDeposits(x: State, y: State, a: Address, s: Settlement)
    requires WellFormed(x.pool) && WellFormed(y.pool) && Writes(x, y, a, s)
    requires a in x.pool.deposits ==> x.pool.deposits[a].tag == s.tag
    ensures
      var k := Kickback(x.deft.rates, s.tag);
      RealSum(WeightDeposits(y))
          == RealSum(WeightDeposits(x)) + (Part(k, s.deposit as real) - Part(k, DepositWorth(x.pool, a)))
  {
    var k := Kickback(x.deft.rates, s.tag);
    PartOfNothing(k);
    forall b | b in y.pool.deposits
      ensures WeightDeposits(y)[b] == if b == a then Part(k, s.deposit as real) else WeightDeposits(x)[b]
    {
      WrittenDepositWeight(x, y, a, s, b);
    }
    SetAt(WeightDeposits(x), WeightDeposits(y), a, Part(k, s.deposit as real));
    SetSum(WeightDeposits(x), WeightDeposits(y), a, Part(k, s.deposit as real));
  }

  lemma WrittenStakeWeight(x: State, y: State, a: Address, s: Settlement, t: Address)
    requires WellFormed(x.pool) && WellFormed(y.pool) && Writes(x, y, a, s) && t in y.pool.stakes
    ensures t != s.tag ==> t in x.pool.stakes
    ensures StakeWeight(y, t) == if t == s.tag then Part(StakeShare(x, t), s.stake as real) else StakeWeight(x, t)
  {
    WorthUnmoved(x.pool.now, s.stake);
    if t != s.tag {
      assert y.pool.stakes[t] == x.pool.stakes[t];
      assert StakeWorth(y.pool, t) == StakeWorth(x.pool, t);
    }
  }

  lemma WrittenWeightStakes(x: State, y: State, a: Address, s: Settlement)
    requires WellFormed(x.pool) && WellFormed(y.pool) && Writes(x, y, a, s)
    ensures
      var k := StakeShare(x, s.tag);
      RealSum(WeightStakes(y))
          == RealSum(WeightStakes(x)) + (Part(k, s.stake as real) - Part(k, StakeWorth(x.pool, s.tag)))
  {
    var k := StakeShare(x, s.tag);
    PartOfNothing(k);
    forall t | t in y.pool.stakes
      ensures WeightStakes(y)[t] == if t == s.tag then Part(k, s.stake as real) else WeightStakes(x)[t]
    {
      WrittenStakeWeight(x, y, a, s, t);
    }
    SetAt(WeightStakes(x), WeightStakes(y), s.tag, Part(k, s.stake as real));
    SetSum(WeightStakes(x), WeightStakes(y), s.tag, Part(k, s.stake as real));
  }

  /** The front end's fraction `q` of a difference. */
  lemma ShareAlgebra(k: int, share: int, dep: real, v: real, stake: real, f: real, q: real)
    requires k + share == DECIMAL_PRECISION && q == (stake - f) - (dep - v)
    ensures Part(k, dep) - Part(k, v) + (Part(share, stake) - Part(share, f)) - (dep - v) == Part(share, q)
  {
    var a, b := k as real / UNIT, share as real / UNIT;
    assert a + b == 1.0;
    assert b * q == b * stake - b * f - (b * dep - b * v);
    assert a * dep + b * dep == dep && a * v + b * v == v;
  }

  lemma SharesAddUp(x: State, t: Address)
    ensures Kickback(x.deft.rates, t) + StakeShare(x, t) == DECIMAL_PRECISION
  {
  }

  lemma MovedOverweight(x: State, y: State, k: int, share: int, dep: real, v: real, stake: real, f: real, q: real)
    requires WellFormed(x.pool) && WellFormed(y.pool) && k + share == DECIMAL_PRECISION && q == (stake - f) - (dep - v)
    requires RealSum(Worths(y.pool)) == RealSum(Worths(x.pool)) + (dep - v)
    requires RealSum(WeightDeposits(y)) == RealSum(WeightDeposits(x)) + (Part(k, dep) - Part(k, v))
    requires RealSum(WeightStakes(y)) == RealSum(WeightStakes(x)) + (Part(share, stake) - Part(share, f))
    ensures Overweight(y) == Overweight(x) + Part(share, q)
  {
    ShareAlgebra(k, share, dep, v, stake, f, q);
  }

  /** How the stake moves from what it was worth, against the deposit. */
  ghost predicate MovesBy(p: Pool, a: Address, s: Settlement, q: real)
    requires WellFormed(p)
  {
    q == (s.stake as real - StakeWorth(p, s.tag)) - (s.deposit as real - DepositWorth(p, a))
  }

  lemma WrittenOverweight(x: State, y: State, a: Address, s: Settlement, q: real)
    requires WellFormed(x.pool) && WellFormed(y.pool) && Writes(x, y, a, s) && MovesBy(x.pool, a, s, q)
    requires a in x.pool.deposits ==> x.pool.deposits[a].tag == s.tag
    ensures Overweight(y) == Overweight(x) + Part(StakeShare(x, s.tag), q)
  {
    WrittenWorths(x, y, a, s);
    WrittenWeightDeposits(x, y, a, s);
    WrittenWeightStakes(x, y, a, s);
    SharesAddUp(x, s.tag);
    MovedOverweight(x, y, Kickback(x.deft.rates, s.tag), StakeShare(x, s.tag), s.deposit as real,
                    DepositWorth(x.pool, a),
                    s.stake as real, StakeWorth(x.pool, s.tag), q);
  }

  /** A settlement moves it by the front end's share of the difference `q` between the two losses. */
  lemma SettleOverweight(x: State, y: State, a: Address, s: Settlement, q: real)
    requires WellFormed(x.pool) && WellFormed(y.pool) && Writes(x, y, a, s)
    requires a in x.pool.deposits ==> x.pool.deposits[a].tag == s.tag
    requires s.stake - CompoundedStake(x.pool, s.tag) == s.deposit - CompoundedDeposit(x.pool, a)
    requires q == DepositLoss(x.pool, a) - StakeLoss(x.pool, s.tag)
    ensures Overweight(y) == Overweight(x) + Part(StakeShare(x, s.tag), q)
  {
    SameDifference(x.pool, a, s, q);
    WrittenOverweight(x, y, a, s, q);
  }

  lemma SameDifference(p: Pool, a: Address, s: Settlement, q: real)
    requires WellFormed(p) && s.stake - CompoundedStake(p, s.tag) == s.deposit - CompoundedDeposit(p, a)
    requires q == DepositLoss(p, a) - StakeLoss(p, s.tag)
    ensures MovesBy(p, a, s, q)
  {
  }

  // ---------------------------------------------------------------------------
  // One event
  // ---------------------------------------------------------------------------

  ghost function Next(x: State, e: Event): (y: State)
    requires Sound(x)
    ensures Sound(y)
  {
    if Apply(x, e).None? then x else
      ApplySound(x, e);
      Apply(x, e).value
  }

  /** The DEFT that an event pays out, after its issuance. */
  ghost function Paid(x: State, e: Event): nat
    requires Sound(x)
  {
    if Apply(x, e).None? || e.call.OffsetDebt? || e.call.RegisterFrontEnd? then 0 else
      IssueSound(x, e.issued);
      PaidTo(Issue(x, e.issued), e.call)
  }

  /** The DEFT that an event issues to a pool that is not empty. */
  ghost function Issued(x: State, e: Event): nat
    requires Sound(x)
  {
    if Apply(x, e).None? || !Issues(x, e) || x.pool.total == 0 then 0 else e.issued
  }

  ghost function PerUnit(x: State, e: Event): nat
    requires Sound(x)
  {
    if Apply(x, e).None? || !Issues(x, e) then 0 else DeftPerUnit(x, e.issued)
  }

  /** What is due and carried along, in units of 1e-18. */
  ghost function Liability(x: State): real {
    UNIT * Due(x) + x.deft.error as real
  }

  /** The DEFT per unit staked, for that much more weight than deposits. */
  ghost function OverIssue(perUnit: nat, excess: real): real {
    perUnit as real * excess
  }

  lemma IssueAlgebra(
      due: real, due': real, per: nat, w: real, reach: real, stale: real, issued: nat, error: nat, error': nat,
      total: nat)
    requires due' == due + Times(Rate(per), reach) && w == reach + stale
    requires issued * DECIMAL_PRECISION + error == per * total + error'
    ensures UNIT * due' + error' as real + OverIssue(per, stale)
         == UNIT * due + error as real + UNIT * issued as real + OverIssue(per, w - total as real)
  {
    assert UNIT * Times(Rate(per), reach) == per as real * reach;
    assert per as real * (reach + stale) == per as real * reach + per as real * stale;
    assert per as real * (w - total as real) == per as real * w - per as real * total as real;
    assert (per * total) as real == per as real * total as real;
  }

  lemma DividedIssue(n: nat, total: nat)
    requires total > 0
    ensures n == n / total * total + n % total
  {
  }

  /** An issuance adds what is issued, and the rate on what the weight exceeds the pool by; the rest is stale. */
  lemma IssueLiability(x: State, issued: nat)
    requires Sound(x) && x.pool.total != 0
    ensures
      var per := DeftPerUnit(x, issued);
      Liability(Issue(x, issued)) + OverIssue(per, Stale(x))
        == Liability(x) + UNIT * issued as real + OverIssue(per, Weight(x) - x.pool.total as real)
  {
    IssueDue(x, issued);
    if issued == 0 {
      NothingIssued(x, issued);
    } else {
      DividedIssue(issued * DECIMAL_PRECISION + x.deft.error, x.pool.total);
      IssueAlgebra(Due(x), Due(Issue(x, issued)), DeftPerUnit(x, issued), Weight(x), Reach(x), Stale(x), issued,
                   x.deft.error, Issue(x, issued).deft.error, x.pool.total);
    }
  }

  lemma NothingIssued(x: State, issued: nat)
    requires WellFormed(x.pool) && (x.pool.total == 0 || issued == 0)
    ensures Issue(x, issued) == x && DeftPerUnit(x, issued) == 0
    ensures OverIssue(0, Stale(x)) == OverIssue(0, Weight(x) - x.pool.total as real) == 0.0
  {
    NoOverIssue(Stale(x));
    NoOverIssue(Weight(x) - x.pool.total as real);
  }

  lemma WorthsOwed(x: State, n: Ledger)
    requires WellFormed(x.pool) && Tracks(x.pool, n)
    ensures RealSum(Worths(x.pool)) == Owed(n)
  {
    assert Values(n) == Worths(x.pool) by {
      forall a | a in n ensures Values(n)[a] == Worths(x.pool)[a] {
        assert EntryTracks(x.pool.now, x.pool.sums, x.pool.deposits[a], n[a]);
      }
    }
  }

  lemma Deficit(total: nat, owed: real, error: nat, bound: nat)
    requires Beyond(total, owed, error) >= -(bound as real)
    ensures owed - total as real <= bound as real / UNIT
  {
    var d := owed - total as real;
    assert UNIT * d <= bound as real;
  }

  /** The pool's deficit and the overweight bound that excess. */
  lemma ExcessBound(x: State, n: Ledger, bound: nat, over: real)
    requires WellFormed(x.pool) && Tracks(x.pool, n) && Slack(x.pool, n) >= -(bound as real) && Overweight(x) <= over
    ensures Weight(x) - x.pool.total as real <= over + bound as real / UNIT
  {
    WorthsOwed(x, n);
    Deficit(x.pool.total, Owed(n), x.pool.lossError, bound);
  }

  /** The larger of the two losses of a call under a tag; nothing moves without a front end. */
  ghost function Slip(x: State, e: Event): real
    requires Sound(x)
  {
    if Apply(x, e).None? || e.call.OffsetDebt? || e.call.RegisterFrontEnd? then 0.0
    else Slippage(x.pool, e.call, TagOf(x.pool, e.call))
  }

  lemma PartOfDifference(share: int, q: real, most: real)
    requires 0 <= share <= DECIMAL_PRECISION && -most <= q <= most
    ensures -most <= Part(share, q) <= most
  {
    Shrunk(share as real / UNIT, q, most);
  }

  lemma SlipBounds(p: Pool, c: Call)
    requires WellFormed(p) && Step(p, c).Some? && !c.OffsetDebt? && !c.RegisterFrontEnd?
    ensures
      var t := TagOf(p, c);
      var slip := Slippage(p, c, t);
      slip >= 0.0 && -slip <= DepositLoss(p, c.who) - StakeLoss(p, t) <= slip
  {
    LossesNonNegative(p, c.who, TagOf(p, c));
  }

  /** Issuance does not change what anything is worth. */
  lemma IssueOverweight(x: State, issued: nat)
    requires WellFormed(x.pool)
    ensures Issue(x, issued).pool == x.pool && Overweight(Issue(x, issued)) == Overweight(x)
  {
    var y := Issue(x, issued);
    assert WeightDeposits(y) == WeightDeposits(x) && WeightStakes(y) == WeightStakes(x);
  }

  /** A front end that registers has no deposits and no stake yet. */
  ghost predicate Registers(x: State, y: State, a: Address) {
    && a !in x.deft.rates && y.pool.deposits == x.pool.deposits && y.pool.stakes == x.pool.stakes
    && y.pool.now == x.pool.now && forall t :: t != a ==> Kickback(y.deft.rates, t) == Kickback(x.deft.rates, t)
  }

  lemma RegisterDepositWeights(x: State, y: State, a: Address)
    requires Sound(x) && WellFormed(y.pool) && Registers(x, y, a)
    ensures WeightDeposits(y) == WeightDeposits(x) && Worths(y.pool) == Worths(x.pool)
  {
    forall b | b in y.pool.deposits
      ensures DepositWeight(y, b) == DepositWeight(x, b) && DepositWorth(y.pool, b) == DepositWorth(x.pool, b)
    {
      assert Registered(x.deft.rates, x.pool.deposits[b].tag);
    }
  }

  lemma RegisterStakeWeights(x: State, y: State, a: Address)
    requires Sound(x) && WellFormed(y.pool) && Registers(x, y, a)
    ensures WeightStakes(y) == WeightStakes(x)
  {
    forall t | t in y.pool.stakes ensures StakeWeight(y, t) == StakeWeight(x, t) {
      assert Registered(x.deft.rates, t);
      assert StakeWorth(y.pool, t) == StakeWorth(x.pool, t);
    }
  }

  lemma RegisterWeights(x: State, y: State, a: Address)
    requires Sound(x) && WellFormed(y.pool) && Registers(x, y, a)
    ensures Overweight(y) == Overweight(x)
  {
    RegisterDepositWeights(x, y, a);
    RegisterStakeWeights(x, y, a);
  }

  lemma RegisterOverweight(x: State, a: Address, rate: nat)
    requires Sound(x) && Register(x.pool, a).Some?
    ensures
      var y := State(Register(x.pool, a).value, x.deft.(rates := x.deft.rates[a := rate]));
      WellFormed(y.pool) && Overweight(y) == Overweight(x)
  {
    RegisterWeights(x, State(Register(x.pool, a).value, x.deft.(rates := x.deft.rates[a := rate])), a);
  }

  ghost predicate OverweightWithin(x: State, over: real)
    requires WellFormed(x.pool)
  {
    -over <= Overweight(x) <= over
  }

  lemma OffsetWithin(x: State, e: Event, over: real)
    requires Sound(x) && Apply(x, e).Some? && e.call.OffsetDebt? && OverweightWithin(x, over)
    ensures OverweightWithin(Next(x, e), over)
  {
    if Issues(x, e) {
      var y, p := Issue(x, e.issued), Step(x.pool, e.call).value;
      IssueSound(x, e.issued);
      IssueOverweight(x, e.issued);
      OffsetKeepsWellFormed(x.pool, e.call.debt, e.call.coll);
      OffsetOverweight(y, p, e.call.debt, e.call.coll);
      FactorBound(x.pool.now, DECIMAL_PRECISION - LossPerUnit(x.pool, e.call.debt));
      Shrunk(AppliedFactor(x.pool.now, p.now), Overweight(y), over);
    }
  }

  lemma CallWithin(x: State, e: Event, over: real)
    requires Sound(x) && Apply(x, e).Some? && !e.call.OffsetDebt? && !e.call.RegisterFrontEnd?
    requires OverweightWithin(x, over)
    ensures Slip(x, e) >= 0.0 && OverweightWithin(Next(x, e), over + Slip(x, e))
  {
    var y := Issue(x, e.issued);
    var s := ApplySettles(x, e);
    IssueSound(x, e.issued);
    IssueOverweight(x, e.issued);
    SettledSound(y, e.call, s);
    SettledWrites(y, e.call, s);
    var q := DepositLoss(x.pool, e.call.who) - StakeLoss(x.pool, s.tag);
    SettleOverweight(y, Next(x, e), e.call.who, s, q);
    SlipBounds(x.pool, e.call);
    SharesInRange(y, s.tag);
    PartOfDifference(StakeShare(y, s.tag), q, Slip(x, e));
  }

  lemma EventWithin(x: State, e: Event, over: real)
    requires Sound(x) && OverweightWithin(x, over)
    ensures Slip(x, e) >= 0.0 && OverweightWithin(Next(x, e), over + Slip(x, e))
  {
    if Apply(x, e).Some? {
      if e.call.OffsetDebt? {
        OffsetWithin(x, e, over);
      } else if e.call.RegisterFrontEnd? {
        RegisterOverweight(x, e.call.who, e.rate);
      } else {
        CallWithin(x, e, over);
      }
    }
  }

  lemma OffsetDue(x: State, p: Pool)
    requires p.deposits == x.pool.deposits && p.stakes == x.pool.stakes
    ensures Due(x.(pool := p)) == Due(x)
  {
    var y := x.(pool := p);
    assert DueDeposits(y) == DueDeposits(x) && DueStakes(y) == DueStakes(x);
  }

  lemma RegisterDue(x: State, a: Address, rate: nat)
    requires Sound(x) && Register(x.pool, a).Some?
    ensures Due(State(Register(x.pool, a).value, x.deft.(rates := x.deft.rates[a := rate]))) == Due(x)
  {
    var y := State(Register(x.pool, a).value, x.deft.(rates := x.deft.rates[a := rate]));
    forall b | b in DueDeposits(y) ensures DueDeposit(y, b) == DueDeposit(x, b) {
      assert Registered(x.deft.rates, x.pool.deposits[b].tag) && a !in x.deft.rates;
    }
    forall t | t in DueStakes(y) ensures DueStake(y, t) == DueStake(x, t) {
      assert Registered(x.deft.rates, t) && a !in x.deft.rates;
    }
    assert DueDeposits(y) == DueDeposits(x) && DueStakes(y) == DueStakes(x);
  }

  /** What an event loses: floors of its payments, and the rate on stale weight. */
  ghost function Lost(x: State, e: Event): real
    requires Sound(x)
  {
    if Apply(x, e).None? || !Issues(x, e) then 0.0
    else PaymentLost(x, e) + OverIssue(DeftPerUnit(x, e.issued), Stale(x))
  }

  ghost function PaymentLost(x: State, e: Event): real
    requires Sound(x)
  {
    if e.call.OffsetDebt? then 0.0 else
      IssueSound(x, e.issued);
      UNIT * Floors(Issue(x, e.issued), e.call)
  }

  lemma CallLiability(x: State, e: Event)
    requires Sound(x) && Apply(x, e).Some? && !e.call.OffsetDebt? && !e.call.RegisterFrontEnd?
    ensures Liability(Next(x, e)) + UNIT * Paid(x, e) as real + PaymentLost(x, e) == Liability(Issue(x, e.issued))
  {
    var s := ApplySettles(x, e);
    IssueSound(x, e.issued);
    SettleDue(Issue(x, e.issued), e.call, s);
  }

  lemma OffsetLiability(x: State, e: Event)
    requires Sound(x) && Apply(x, e).Some? && e.call.OffsetDebt? && Issues(x, e)
    ensures Liability(Next(x, e)) == Liability(Issue(x, e.issued)) && Paid(x, e) == 0
  {
    OffsetDue(Issue(x, e.issued), Step(x.pool, e.call).value);
  }

  lemma IssuingLiability(x: State, e: Event)
    requires Sound(x) && Apply(x, e).Some? && Issues(x, e)
    ensures Liability(Next(x, e)) + UNIT * Paid(x, e) as real + Lost(x, e)
         == Liability(x) + UNIT * Issued(x, e) as real + OverIssue(PerUnit(x, e), Weight(x) - x.pool.total as real)
  {
    if x.pool.total == 0 {
      NothingIssued(x, e.issued);
    } else {
      IssueLiability(x, e.issued);
    }
    if e.call.OffsetDebt? {
      OffsetLiability(x, e);
    } else {
      CallLiability(x, e);
    }
  }

  /** Nothing is issued for a registration, a refused call or an offset that returns at once. */
  lemma IdleLiability(x: State, e: Event)
    requires Sound(x) && (Apply(x, e).None? || !Issues(x, e))
    ensures Liability(Next(x, e)) == Liability(x) && Paid(x, e) == 0
  {
    if Apply(x, e).Some? && e.call.RegisterFrontEnd? {
      RegisterDue(x, e.call.who, e.rate);
    }
  }

  /**
   * One event, exactly: paid, due, carried along and lost is what was due and carried along and
   * what is issued, up to the rate on the difference between the weight and the pool.
   */
  lemma EventLiability(x: State, e: Event)
    requires Sound(x)
    ensures Liability(Next(x, e)) + UNIT * Paid(x, e) as real + Lost(x, e)
         == Liability(x) + UNIT * Issued(x, e) as real + OverIssue(PerUnit(x, e), Weight(x) - x.pool.total as real)
  {
    if Apply(x, e).Some? && Issues(x, e) {
      IssuingLiability(x, e);
    } else {
      NoOverIssue(Weight(x) - x.pool.total as real);
      IdleLiability(x, e);
    }
  }

  lemma OverIssueNonNegative(perUnit: nat, stale: real)
    requires stale >= 0.0
    ensures OverIssue(perUnit, stale) >= 0.0
  {
  }

  /** What one event can lose. */
  ghost function LossLimit(x: State, e: Event): real
    requires Sound(x)
  {
    if Apply(x, e).None? || !Issues(x, e) || e.call.OffsetDebt? then 0.0 else
      IssueSound(x, e.issued);
      UNIT * FloorLimit(Issue(x, e.issued), e.call)
  }

  /** Nothing is created. */
  lemma LostNonNegative(x: State, e: Event)
    requires Sound(x)
    ensures Lost(x, e) >= 0.0
  {
    if Apply(x, e).Some? && Issues(x, e) {
      StaleBounds(x);
      OverIssueNonNegative(DeftPerUnit(x, e.issued), Stale(x));
      PaymentBounds(x, e);
    }
  }

  lemma PaymentBounds(x: State, e: Event)
    requires Sound(x) && Apply(x, e).Some? && Issues(x, e)
    ensures 0.0 <= PaymentLost(x, e) <= LossLimit(x, e)
  {
    if !e.call.OffsetDebt? {
      IssueSound(x, e.issued);
      FloorsBounds(Issue(x, e.issued), e.call);
    }
  }

  /** And while every position is within one shift, only the floors of payments lose anything. */
  lemma LostSmall(x: State, e: Event)
    requires Sound(x) && NoneBeyondReach(x.pool)
    ensures Lost(x, e) <= LossLimit(x, e)
  {
    if Apply(x, e).Some? && Issues(x, e) {
      StaleBounds(x);
      assert OverIssue(DeftPerUnit(x, e.issued), 0.0) == 0.0;
      PaymentBounds(x, e);
    }
  }

  lemma NoOverIssue(excess: real)
    ensures OverIssue(0, excess) == 0.0
  {
  }
}
