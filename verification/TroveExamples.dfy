/**
 * A run, from deployment and by public calls only, on which pending debt outgrows the DefaultPool.
 * A liquidation leaves 20000 units of debt and 12 units of collateral for one other trove: enough
 * to move `L_USDDDebt`, too little to move `L_COLL`, which is all that `hasPendingRewards` reads.
 */
module TroveExamples {
  import opened Base
  import opened Liquidation
  import opened TroveManager
  import opened TroveAccounting
  import opened TroveRuns
  import opened Scenarios
  import StabilityPool

  const ALICE: Address := 1
  const CAROL: Address := 2

  const ALICE_COLL: nat := 10_000_000_000_000_000_000_000
  const ALICE_AMOUNT: nat := 1_989_850_746_268_656_716_417_911
  const ALICE_DEBT: nat := 2_000_000_000_000_000_000_000_000
  const CAROL_COLL: nat := 1_200_000_000_000_000_000
  const CAROL_AMOUNT: nat := 1_791_044_776_119_402_985_075
  const CAROL_DEBT: nat := 2_000_000_000_000_000_000_000

  /** All but 20000 units of Carol's debt. */
  const DEPOSIT: nat := 1_999_999_999_999_999_980_000
  const REST: nat := 20_000

  const HIGH: nat := 2_000_000_000_000_000_000_000
  const LOW: nat := 1_800_000_000_000_000_000_000

  const TOP_UP: Adjustment := Adjustment(ALICE_COLL, 0, 0, false, 0, 0)

  /** Two openings, a deposit, a price drop with Carol's liquidation, and a top-up by Alice. */
  function ScriptCall(k: nat): Call {
    if k == 0 then OpenTrove(ALICE, ALICE_COLL, ALICE_AMOUNT, FloorFee(ALICE_AMOUNT), HIGH)
    else if k == 1 then OpenTrove(CAROL, CAROL_COLL, CAROL_AMOUNT, FloorFee(CAROL_AMOUNT), HIGH)
    else if k == 2 then PoolCall(StabilityPool.ProvideToSP(ALICE, DEPOSIT, ZERO_ADDRESS))
    else if k == 3 then LiquidateTroves([CAROL], LOW)
    else AdjustTrove(ALICE, TOP_UP, LOW)
  }

  ghost predicate ScriptCalls(calls: seq<Call>) {
    |calls| == 5 && forall k {:trigger ScriptCall(k)} :: 0 <= k < |calls| ==> calls[k] == ScriptCall(k)
  }

  // ---------------------------------------------------------------------------
  // Stages
  // ---------------------------------------------------------------------------

  const ALICES: Trove := Trove(ALICE_DEBT, ALICE_COLL, ALICE_COLL, Rewards(0, 0))
  const CAROLS: Trove := Trove(CAROL_DEBT, CAROL_COLL, CAROL_COLL, Rewards(0, 0))

  ghost predicate Opened(s: System) {
    Fresh(s, ALICE_COLL, ALICE_DEBT) && s.troves == map[ALICE := ALICES]
  }

  ghost predicate BothOpened(s: System) {
    Fresh(s, ALICE_COLL + CAROL_COLL, ALICE_DEBT + CAROL_DEBT) && s.troves == map[ALICE := ALICES, CAROL := CAROLS]
  }

  ghost predicate Deposited(s: System) {
    && s.activeColl == s.totalStakes == ALICE_COLL + CAROL_COLL
    && s.activeDebt == s.supply == ALICE_DEBT + CAROL_DEBT
    && s.defaultColl == s.defaultDebt == 0 && s.l == Rewards(0, 0) && s.collError == s.debtError == 0
    && s.pool.total == DEPOSIT && s.troves == map[ALICE := ALICES, CAROL := CAROLS]
  }

  /** The rest is spread over Alice's stake: two units of debt per 1e18, no collateral. */
  ghost predicate Spread1(s: System) {
    && s.activeColl == s.totalStakes == s.totalStakesSnapshot == ALICE_COLL
    && s.totalCollateralSnapshot == ALICE_COLL + 12
    && s.activeDebt == ALICE_DEBT && s.supply == ALICE_DEBT + REST
    && s.defaultColl == 12 && s.defaultDebt == REST && s.l == Rewards(0, 2)
    && s.troves == map[ALICE := ALICES]
  }

  const STAKE: nat := 19_999_999_999_999_999_999_976

  ghost predicate Outgrown(s: System) {
    && s.l == Rewards(0, 2) && s.defaultDebt == REST
    && s.troves == map[ALICE := Trove(ALICE_DEBT, 2 * ALICE_COLL, STAKE, Rewards(0, 0))]
  }

  ghost predicate Stage(k: nat, s: System) {
    if k == 0 then Deployed(s)
    else if k == 1 then Opened(s)
    else if k == 2 then BothOpened(s)
    else if k == 3 then Deposited(s)
    else if k == 4 then Spread1(s)
    else Outgrown(s)
  }

  lemma AliceOpens(s: System, c: Call)
    requires Deployed(s) && Consistent(s)
          && c == OpenTrove(ALICE, ALICE_COLL, ALICE_AMOUNT, FloorFee(ALICE_AMOUNT), HIGH)
    ensures Opened(After(s, c))
  {
    DeployedFresh(s);
    AliceCanOpen();
    OpensFresh(s, ALICE, ALICE_COLL, ALICE_AMOUNT, HIGH);
  }

  lemma AliceCanOpen()
    ensures NewDebt(ALICE_AMOUNT) == ALICE_DEBT && CanOpen(ALICE_COLL, ALICE_AMOUNT, HIGH, 0, 0)
  {
  }

  lemma CarolOpens(s: System, c: Call)
    requires Opened(s) && Consistent(s)
    requires c == OpenTrove(CAROL, CAROL_COLL, CAROL_AMOUNT, FloorFee(CAROL_AMOUNT), HIGH)
    ensures BothOpened(After(s, c))
  {
    CarolCanOpen();
    OpensFresh(s, CAROL, CAROL_COLL, CAROL_AMOUNT, HIGH);
  }

  lemma CarolCanOpen()
    ensures NewDebt(CAROL_AMOUNT) == CAROL_DEBT && CanOpen(CAROL_COLL, CAROL_AMOUNT, HIGH, ALICE_COLL, ALICE_DEBT)
  {
  }

  lemma AliceDeposits(s: System, c: Call)
    requires BothOpened(s) && Consistent(s) && c == PoolCall(StabilityPool.ProvideToSP(ALICE, DEPOSIT, ZERO_ADDRESS))
    ensures Deposited(After(s, c))
  {
    assert |s.pool.deposits.Keys| == |s.pool.frontEnds| == 0;
  }

  lemma CarolBefore(s: System)
    requires Deposited(s)
    ensures PendingColl(s.l, s.troves[CAROL]) == PendingDebt(s.l, s.troves[CAROL]) == 0
    ensures CurrentRatio(s, CAROL, LOW) < MCR && !RecoveryMode(s, LOW)
  {
    assert CollateralRatio(CAROL_COLL, CAROL_DEBT, LOW) < MCR;
    assert CollateralRatio(ALICE_COLL + CAROL_COLL, ALICE_DEBT + CAROL_DEBT, LOW) >= CCR;
  }

  /** What is taken out and tallied. */
  const SPLIT: Split :=
    Split(CAROL_DEBT, CAROL_COLL, 6_000_000_000_000_000, GAS_COMPENSATION, DEPOSIT, 1_193_999_999_999_999_988,
        REST, 12, 0)

  lemma SplitIs()
    ensures OffsetSplit(CAROL_DEBT, CAROL_COLL, DEPOSIT) == SPLIT
  {
    assert 1_194_000_000_000_000_000 * DEPOSIT / CAROL_DEBT == 1_193_999_999_999_999_988;
  }

  /** The first trove of a batch, in Normal Mode and with nothing pending. */
  lemma TakesOut(s: System, a: Address, price: nat, x: Split, out: System)
    requires a in s.troves && CurrentRatio(s, a, price) < MCR && !RecoveryMode(s, price)
    requires TakeOut(s, a) == Some(out) && out.surplus == s.surplus
    requires x == OffsetSplit(EntireDebt(s.l, s.troves[a]), EntireColl(s.l, s.troves[a]), s.pool.total)
    requires x.surplus == 0 && x.debtToOffset <= s.pool.total
    ensures
      var b := BatchStep(BatchStart(s, price), a, price);
      b.Some? && b.value.totals == x && b.value.s == out
  {
    NothingAdded(x);
  }

  lemma NothingAdded(x: Split)
    ensures Add(NOTHING, x) == x
  {
  }

  lemma CarolOut(s: System, out: System)
    requires Deposited(s) && out == s.(troves := map[ALICE := ALICES], totalStakes := ALICE_COLL)
    ensures TakeOut(s, CAROL) == Some(out)
  {
    CarolBefore(s);
    assert |s.troves| == 2 && s.troves - {CAROL} == map[ALICE := ALICES];
  }

  lemma CarolTakenOut(s: System, out: System)
    requires Deposited(s) && out == s.(troves := map[ALICE := ALICES], totalStakes := ALICE_COLL)
    ensures
      var b := BatchStep(BatchStart(s, LOW), CAROL, LOW);
      b.Some? && b.value.totals == SPLIT && b.value.s == out
  {
    CarolBefore(s);
    SplitIs();
    CarolOut(s, out);
    TakesOut(s, CAROL, LOW, SPLIT, out);
  }

  lemma CarolFinished(s: System)
    requires s.activeColl == ALICE_COLL + CAROL_COLL && s.totalStakes == ALICE_COLL && s.gasPool >= GAS_COMPENSATION
    requires s.activeDebt == s.supply == ALICE_DEBT + CAROL_DEBT
    requires s.defaultColl == s.defaultDebt == 0 && s.l == Rewards(0, 0) && s.collError == s.debtError == 0
    requires s.pool.total == DEPOSIT && s.troves == map[ALICE := ALICES]
    ensures Finish(s, SPLIT).Some? && Spread1(Finish(s, SPLIT).value)
  {
  }

  lemma CarolBatch(s: System, out: System)
    requires Deposited(s) && out == s.(troves := map[ALICE := ALICES], totalStakes := ALICE_COLL)
    ensures LiquidateBatch(s, [CAROL], LOW) == Finish(out, SPLIT)
  {
    CarolTakenOut(s, out);
    SingleBatch(s, CAROL, LOW);
  }

  lemma ReserveHeld(s: System)
    requires Consistent(s) && CAROL in s.troves
    ensures s.gasPool >= GAS_COMPENSATION
  {
    TotalsBounds(s.l, s.troves);
    assert CAROL in s.troves.Keys && |s.troves.Keys| == |s.troves|;
  }

  lemma CarolLiquidated(s: System, c: Call)
    requires Deposited(s) && Consistent(s) && c == LiquidateTroves([CAROL], LOW)
    ensures Spread1(After(s, c))
  {
    var out := s.(troves := map[ALICE := ALICES], totalStakes := ALICE_COLL);
    CarolBatch(s, out);
    ReserveHeld(s);
    CarolFinished(out);
    assert After(s, c) == Finish(out, SPLIT).value;
  }

  /** Alice's rewards are not noticed, and her stake grows under the old snapshot. */
  lemma AliceTopsUp(s: System, c: Call)
    requires Spread1(s) && Consistent(s) && c == AdjustTrove(ALICE, TOP_UP, LOW)
    ensures Outgrown(After(s, c))
  {
    assert 2 * ALICE_COLL * ALICE_COLL / (ALICE_COLL + 12) == STAKE;
  }

  // ---------------------------------------------------------------------------
  // The run
  // ---------------------------------------------------------------------------

  ghost function Stages(): (nat, System) -> bool {
    (k: nat, s: System) => Stage(k, s)
  }

  lemma EachStep(k: nat, s: System)
    requires k < 5 && Consistent(s) && Stage(k, s)
    ensures Stage(k + 1, After(s, ScriptCall(k)))
  {
    var c := ScriptCall(k);
    if k == 0 {
      AliceOpens(s, c);
    } else if k == 1 {
      CarolOpens(s, c);
    } else if k == 2 {
      AliceDeposits(s, c);
    } else if k == 3 {
      CarolLiquidated(s, c);
    } else {
      AliceTopsUp(s, c);
    }
  }

  lemma EachLeads(calls: seq<Call>, k: nat)
    requires ScriptCalls(calls) && k < 5
    ensures Leads(Stages(), calls, k)
  {
    var c := ScriptCall(k);
    forall s: System ensures StageStep(Stages(), calls, k, s) {
      if Consistent(s) && Stage(k, s) {
        EachStep(k, s);
      }
    }
  }

  /** The trove's pending debt exceeds the DefaultPool's, and it cannot be taken out. */
  ghost predicate Refused(s: System) {
    && Consistent(s) && ALICE in s.troves && !Aligned(s.l, s.troves)
    && PendingDebt(s.l, s.troves[ALICE]) > s.defaultDebt && TakeOut(s, ALICE).None?
  }

  ghost function RefusedEnd(): System -> bool {
    (s: System) => Refused(s)
  }

  lemma OutgrownRefused(s: System)
    requires Outgrown(s) && Consistent(s)
    ensures Refused(s)
  {
    assert PendingDebt(s.l, s.troves[ALICE]) == STAKE * 2 / DECIMAL_PRECISION;
  }

  lemma ScriptRefuses(calls: seq<Call>)
    requires ScriptCalls(calls)
    ensures Script(Stages(), calls, RefusedEnd())
  {
    forall k: nat | k < |calls| ensures Leads(Stages(), calls, k) {
      EachLeads(calls, k);
    }
    forall s: System | Consistent(s) && Stage(5, s) ensures RefusedEnd()(s) {
      OutgrownRefused(s);
    }
  }

  lemma RunRefused(start: System, calls: seq<Call>)
    requires Deployed(start) && Consistent(start) && Script(Stages(), calls, RefusedEnd())
    ensures RefusedEnd()(Run(start, calls))
  {
    assert Stages()(0, start);
    RunEnds(Stages(), start, calls, RefusedEnd());
  }

  /** After the run Alice's trove is owed twice the debt that the DefaultPool has. */
  lemma OverlookedDebtRefused(start: System, calls: seq<Call>)
    requires Deployed(start) && ScriptCalls(calls)
    ensures Consistent(start) && Refused(Run(start, calls))
  {
    DeployedConsistent(start);
    ScriptRefuses(calls);
    RunRefused(start, calls);
  }
}
