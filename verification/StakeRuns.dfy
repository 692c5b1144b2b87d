/**
 * The off-chain stakes against the contract's, over whole sequences of liquidations and openings.
 * The simulation never takes the collateral that leaves with a liquidation out of its total.
 */
module StakeRuns {
  import opened Base
  import opened Arith
  import opened Liquidation
  import opened TroveManager
  import opened TroveAccounting
  import opened TroveRuns
  import TotalRatio
  import opened StakeSimulation

  /** A liquidation of one trove, and the opening of another. */
  datatype Turn = Turn(gone: Address, low: nat, who: Address, coll: nat, amount: nat, fee: nat, high: nat)

  ghost function Liquidated(s: System, r: Turn): Option<System> {
    if r.gone in s.troves then LiquidateBatch(s, [r.gone], r.low) else None
  }

  ghost function Entered(s: System, r: Turn): Option<System> {
    var s1 := Liquidated(s, r);
    if s1.None? then None else Open(s1.value, r.who, r.coll, r.amount, r.fee, r.high)
  }

  /** All calls succeed. */
  ghost predicate Succeed(s: System, turns: seq<Turn>)
    decreases |turns|
  {
    turns != [] ==> Entered(s, turns[0]).Some? && Succeed(Entered(s, turns[0]).value, turns[1..])
  }

  ghost function EndOf(s: System, turns: seq<Turn>): System
    requires Succeed(s, turns)
    decreases |turns|
  {
    if turns == [] then s else EndOf(Entered(s, turns[0]).value, turns[1..])
  }

  /** What the simulation is fed: the stake on chain, and the entrant's collateral. */
  ghost function RoundOf(s: System, r: Turn): Round
    requires r.gone in s.troves
  {
    Round(s.troves[r.gone].stake, r.coll)
  }

  ghost function RoundsOf(s: System, turns: seq<Turn>): seq<Round>
    requires Succeed(s, turns)
    decreases |turns|
  {
    if turns == [] then []
    else [RoundOf(s, turns[0])] + RoundsOf(Entered(s, turns[0]).value, turns[1..])
  }

  /** The collateral that leaves the system with the liquidation. */
  ghost function Left(s: System, r: Turn): int
    requires Liquidated(s, r).Some?
  {
    SystemColl(s) - SystemColl(Liquidated(s, r).value)
  }

  ghost function AllLeft(s: System, turns: seq<Turn>): int
    requires Succeed(s, turns)
    decreases |turns|
  {
    if turns == [] then 0 else Left(s, turns[0]) + AllLeft(Entered(s, turns[0]).value, turns[1..])
  }

  // ---------------------------------------------------------------------------
  // One turn on chain
  // ---------------------------------------------------------------------------

  /** Something was liquidated, so the trove's stake is gone; its collateral is still there. */
  lemma TakenOut(s: System, a: Address, price: nat)
    requires a in s.troves && BatchStep(BatchStart(s, price), a, price).Some?
    requires BatchStep(BatchStart(s, price), a, price).value.totals.debt != 0
    ensures
      var b := BatchStep(BatchStart(s, price), a, price).value;
      && s.troves[a].stake <= s.totalStakes && b.s.totalStakes == s.totalStakes - s.troves[a].stake
      && SystemColl(b.s) == SystemColl(s)
  {
  }

  lemma FinishSnapshots(s: System, x: Split)
    requires Finish(s, x).Some?
    ensures
      var s' := Finish(s, x).value;
      && s'.totalStakesSnapshot == s'.totalStakes == s.totalStakes
      && s'.totalCollateralSnapshot == SystemColl(s')
  {
  }

  /** After a liquidation the snapshots are the stakes without the liquidated one, and what collateral is left. */
  lemma LiquidationSnapshots(s: System, r: Turn)
    requires Consistent(s) && Liquidated(s, r).Some?
    ensures
      var s', stake := Liquidated(s, r).value, s.troves[r.gone].stake;
      && stake <= s.totalStakes && s'.totalStakesSnapshot == s'.totalStakes == s.totalStakes - stake
      && s'.totalCollateralSnapshot == SystemColl(s') && Consistent(s') && Left(s, r) >= 0
  {
    var start := BatchStart(s, r.low);
    SingleBatch(s, r.gone, r.low);
    TakenOut(s, r.gone, r.low);
    var b := BatchStep(start, r.gone, r.low).value;
    FinishSnapshots(b.s, b.totals);
    assert BatchSound(s, start);
    BatchStepKeeps(s, start, r.gone, r.low);
    TotalRatio.FinishEffect(s, b);
    LiquidationKeeps(s, [r.gone], r.low);
  }

  /** The opening adds the entrant's collateral, and the stake that the snapshots give. */
  lemma OpeningStakes(s: System, r: Turn)
    requires Open(s, r.who, r.coll, r.amount, r.fee, r.high).Some?
    ensures
      var s' := Open(s, r.who, r.coll, r.amount, r.fee, r.high).value;
      && NewStake(s, r.coll).Some? && s'.totalStakes == s.totalStakes + NewStake(s, r.coll).value
      && SystemColl(s') == SystemColl(s) + r.coll
  {
  }

  lemma TurnOnChain(s: System, r: Turn)
    requires Consistent(s) && Entered(s, r).Some?
    ensures
      var s1, s', stake := Liquidated(s, r).value, Entered(s, r).value, s.troves[r.gone].stake;
      && Consistent(s') && stake <= s.totalStakes && Left(s, r) >= 0
      && s1.totalStakesSnapshot == s.totalStakes - stake
      && s1.totalCollateralSnapshot == SystemColl(s1) == SystemColl(s) - Left(s, r)
      && NewStake(s1, r.coll).Some?
      && s'.totalStakes == s.totalStakes - stake + NewStake(s1, r.coll).value
      && SystemColl(s') == SystemColl(s) - Left(s, r) + r.coll
  {
    LiquidationSnapshots(s, r);
    OpeningStakes(Liquidated(s, r).value, r);
    OpenKeeps(Liquidated(s, r).value, r.who, r.coll, r.amount, r.fee, r.high);
  }

  // ---------------------------------------------------------------------------
  // Over any sequence: the simulation is a lower bound
  // ---------------------------------------------------------------------------

  /** Fewer stakes over more collateral. */
  lemma SmallerStake(entrant: nat, stakes: nat, coll: nat, stakes': nat, coll': nat)
    requires stakes <= stakes' && coll >= coll' > 0
    ensures entrant * stakes / coll <= entrant * stakes' / coll'
  {
    var q := entrant * stakes / coll;
    assert q * coll <= entrant * stakes;
    MulMonotone(coll', coll, q);
    MulMonotone(stakes, stakes', entrant);
    QuotientAtLeast(entrant * stakes', coll', q);
  }

  /** The simulated totals, `lost` being the collateral they still count. */
  ghost predicate Below(t: Totals, s: System, lost: int) {
    && t.stakes <= s.totalStakes && t.stakes <= t.coll && t.coll > 0
    && lost >= 0 && t.coll == SystemColl(s) + lost
  }

  lemma TurnBelow(s: System, t: Totals, r: Turn, lost: int)
    requires Consistent(s) && Entered(s, r).Some? && Below(t, s, lost) && RoundOf(s, r).liquidated <= t.stakes
    ensures Below(Next(t, RoundOf(s, r)), Entered(s, r).value, lost + Left(s, r))
    ensures StakeOf(t, RoundOf(s, r)) <= NewStake(Liquidated(s, r).value, r.coll).value
  {
    TurnOnChain(s, r);
    var s1, left := Liquidated(s, r).value, t.stakes - RoundOf(s, r).liquidated;
    MulDivBelow(r.coll, left, t.coll);
    if s1.totalCollateralSnapshot > 0 {
      SmallerStake(r.coll, left, t.coll, s1.totalStakesSnapshot, s1.totalCollateralSnapshot);
    }
  }

  /**
   * As long as the simulation can take out the stakes it is told to, its total stakes never
   * exceed the contract's, and its total collateral exceeds the contract's by exactly what has
   * left with the liquidations.
   */
  lemma {:induction false} SimulationBelow(s: System, t: Totals, turns: seq<Turn>, lost: int)
    requires Consistent(s) && Succeed(s, turns) && Below(t, s, lost) && Admissible(t, RoundsOf(s, turns))
    ensures Below(StakeSimulation.After(t, RoundsOf(s, turns)), EndOf(s, turns), lost + AllLeft(s, turns))
    decreases |turns|
  {
    if turns != [] {
      var s' := Entered(s, turns[0]).value;
      var rounds := RoundsOf(s, turns);
      assert rounds[0] == RoundOf(s, turns[0]) && rounds[1..] == RoundsOf(s', turns[1..]);
      TurnOnChain(s, turns[0]);
      TurnBelow(s, t, turns[0], lost);
      SimulationBelow(s', Next(t, RoundOf(s, turns[0])), turns[1..], lost + Left(s, turns[0]));
    }
  }

  // ---------------------------------------------------------------------------
  // Equality
  // ---------------------------------------------------------------------------

  /** At every iteration the running-total formula gives every possible entrant the contract's stake. */
  ghost predicate AgreesThroughout(s: System, t: Totals, turns: seq<Turn>)
    requires Succeed(s, turns)
    decreases |turns|
  {
    turns != [] ==>
      var s1, s' := Liquidated(s, turns[0]).value, Entered(s, turns[0]).value;
      && RoundOf(s, turns[0]).liquidated <= t.stakes && t.coll > 0
      && (forall entrant: nat :: SameStake(s1, t, RoundOf(s, turns[0]), entrant))
      && AgreesThroughout(s', Next(t, RoundOf(s, turns[0])), turns[1..])
  }

  ghost predicate SameStake(s1: System, t: Totals, r: Round, entrant: nat)
    requires r.liquidated <= t.stakes && t.coll > 0
  {
    NewStake(s1, entrant) == Some(StakeOf(t, Round(r.liquidated, entrant)))
  }

  /** No liquidation takes collateral out of the system. */
  ghost predicate NothingLeaves(s: System, turns: seq<Turn>)
    requires Succeed(s, turns)
    decreases |turns|
  {
    turns != [] ==> Left(s, turns[0]) == 0 && NothingLeaves(Entered(s, turns[0]).value, turns[1..])
  }

  /** Every liquidation leaves stakes and collateral. */
  ghost predicate SomethingStays(s: System, turns: seq<Turn>)
    requires Succeed(s, turns)
    decreases |turns|
  {
    turns != [] ==>
      var s1 := Liquidated(s, turns[0]).value;
      && s1.totalStakes > 0 && SystemColl(s1) > 0
      && SomethingStays(Entered(s, turns[0]).value, turns[1..])
  }

  /** Two totals of collateral give all entrants the same stake only if they are equal. */
  lemma DifferentStake(stakes: nat, coll: nat, coll': nat)
    requires stakes > 0 && coll > coll' > 0
    ensures coll * coll' * stakes / coll < coll * coll' * stakes / coll'
  {
    UniqueQuotient(coll * coll' * stakes, coll, coll' * stakes, 0)
        by { assert coll * coll' * stakes == coll * (coll' * stakes); }
    UniqueQuotient(coll * coll' * stakes, coll', coll * stakes, 0)
        by { assert coll * coll' * stakes == coll' * (coll * stakes); }
    MulMonotone(coll' + 1, coll, stakes);
  }

  lemma TurnAgreesIff(s: System, r: Turn)
    requires Consistent(s) && Entered(s, r).Some?
    requires Liquidated(s, r).value.totalStakes > 0 && SystemColl(Liquidated(s, r).value) > 0
    ensures
      var t := Totals(s.totalStakes, SystemColl(s));
      && RoundOf(s, r).liquidated <= t.stakes && t.coll > 0
      && ((forall entrant: nat :: SameStake(Liquidated(s, r).value, t, RoundOf(s, r), entrant)) <==> Left(s, r) == 0)
      && (Left(s, r) == 0 ==>
            Next(t, RoundOf(s, r)) == Totals(Entered(s, r).value.totalStakes, SystemColl(Entered(s, r).value)))
  {
    LiquidationSnapshots(s, r);
    TurnOnChain(s, r);
    var s1, t := Liquidated(s, r).value, Totals(s.totalStakes, SystemColl(s));
    if Left(s, r) > 0 {
      var entrant := t.coll * SystemColl(s1);
      DifferentStake(s1.totalStakes, t.coll, SystemColl(s1));
      assert !SameStake(s1, t, RoundOf(s, r), entrant);
    }
  }

  /**
   * Starting from the contract's totals, the running-total formula agrees with the contract's
   * snapshot formula at every iteration if and only if no liquidation takes collateral out.
   */
  lemma {:induction false} AgreesIff(s: System, turns: seq<Turn>)
    requires Consistent(s) && Succeed(s, turns) && SomethingStays(s, turns)
    ensures AgreesThroughout(s, Totals(s.totalStakes, SystemColl(s)), turns) <==> NothingLeaves(s, turns)
    decreases |turns|
  {
    if turns != [] {
      TurnOnChain(s, turns[0]);
      TurnAgreesIff(s, turns[0]);
      if Left(s, turns[0]) == 0 {
        AgreesIff(Entered(s, turns[0]).value, turns[1..]);
      }
    }
  }

  /** And then the simulation ends with the contract's own totals. */
  lemma {:induction false} EqualTotals(s: System, turns: seq<Turn>)
    requires Consistent(s) && Succeed(s, turns) && SomethingStays(s, turns) && NothingLeaves(s, turns)
    ensures
      var t := Totals(s.totalStakes, SystemColl(s));
      && Admissible(t, RoundsOf(s, turns))
      && StakeSimulation.After(t, RoundsOf(s, turns))
          == Totals(EndOf(s, turns).totalStakes, SystemColl(EndOf(s, turns)))
    decreases |turns|
  {
    if turns != [] {
      var s', rounds := Entered(s, turns[0]).value, RoundsOf(s, turns);
      assert rounds[0] == RoundOf(s, turns[0]) && rounds[1..] == RoundsOf(s', turns[1..]);
      TurnOnChain(s, turns[0]);
      TurnAgreesIff(s, turns[0]);
      EqualTotals(s', turns[1..]);
    }
  }

  /** How the liquidated trove will be split, read off the state before the call. */
  ghost function SplitBefore(s: System, a: Address, price: nat): Split
    requires a in s.troves
  {
    var debt, coll, icr := EntireDebt(s.l, s.troves[a]), EntireColl(s.l, s.troves[a]), CurrentRatio(s, a, price);
    if !RecoveryMode(s, price) then OffsetSplit(debt, coll, s.pool.total)
    else
      var split := RecoverySplit(debt, coll, icr, CollateralRatio(SystemColl(s), SystemDebt(s), price),
          s.pool.total, price);
      if split.None? then NOTHING else split.value
  }

  lemma NormalTotals(b: Batch, a: Address, price: nat)
    requires a in b.s.troves && b.totals == NOTHING && NormalStep(b, a, price).Some?
    requires NormalStep(b, a, price).value.totals.debt != 0
    ensures NormalStep(b, a, price).value.totals ==
              OffsetSplit(EntireDebt(b.s.l, b.s.troves[a]), EntireColl(b.s.l, b.s.troves[a]), b.remaining)
  {
    AddsNothing(OffsetSplit(EntireDebt(b.s.l, b.s.troves[a]), EntireColl(b.s.l, b.s.troves[a]), b.remaining));
  }

  lemma RecoveryTotals(b: Batch, a: Address, price: nat)
    requires a in b.s.troves && b.totals == NOTHING && RecoveryStep(b, a, price).Some?
    requires RecoveryStep(b, a, price).value.totals.debt != 0
    ensures
      var t, tcr := b.s.troves[a], CollateralRatio(b.coll, b.debt, price);
      RecoverySplit(EntireDebt(b.s.l, t), EntireColl(b.s.l, t), CurrentRatio(b.s, a, price), tcr, b.remaining, price)
        == Some(RecoveryStep(b, a, price).value.totals)
  {
    var t, tcr := b.s.troves[a], CollateralRatio(b.coll, b.debt, price);
    var split := RecoverySplit(EntireDebt(b.s.l, t), EntireColl(b.s.l, t), CurrentRatio(b.s, a, price), tcr,
                               b.remaining, price);
    if split.Some? {
      AddsNothing(split.value);
    }
  }

  lemma TotalsBefore(s: System, r: Turn)
    requires Consistent(s) && Liquidated(s, r).Some?
    ensures BatchStep(BatchStart(s, r.low), r.gone, r.low).Some?
    ensures BatchStep(BatchStart(s, r.low), r.gone, r.low).value.totals == SplitBefore(s, r.gone, r.low)
  {
    var start := BatchStart(s, r.low);
    SingleBatch(s, r.gone, r.low);
    if start.normal {
      NormalTotals(start, r.gone, r.low);
    } else {
      RecoveryTotals(start, r.gone, r.low);
    }
  }

  lemma AddsNothing(x: Split)
    ensures Add(NOTHING, x) == x
  {
  }

  /** What leaves is the compensation, the pool's part and the surplus of that split. */
  lemma LeftIs(s: System, r: Turn)
    requires Consistent(s) && Liquidated(s, r).Some?
    ensures
      var x := SplitBefore(s, r.gone, r.low);
      Left(s, r) == x.gasColl + x.collToPool + x.surplus
  {
    SingleBatch(s, r.gone, r.low);
    TotalsBefore(s, r);
    TakenOut(s, r.gone, r.low);
    TotalRatio.LiquidationEffect(s, [r.gone], r.low);
  }

  /** A pure redistribution takes out the compensation, which is nothing for less than 200 units. */
  lemma RedistributionLeaves(s: System, r: Turn)
    requires Consistent(s) && Liquidated(s, r).Some? && CurrentRatio(s, r.gone, r.low) < MCR
    requires s.pool.total == 0 || (RecoveryMode(s, r.low) && CurrentRatio(s, r.gone, r.low) <= HUNDRED_PERCENT)
    ensures Left(s, r) == GasColl(EntireColl(s.l, s.troves[r.gone]))
    ensures Left(s, r) == 0 <==> EntireColl(s.l, s.troves[r.gone]) < PERCENT_DIVISOR
  {
    SingleBatch(s, r.gone, r.low);
    TotalRatio.NotTheOnly(s, r.gone, r.low);
    TotalRatio.AllRedistributed(s, r.gone, r.low);
    TotalRatio.LiquidationEffect(s, [r.gone], r.low);
  }
}
