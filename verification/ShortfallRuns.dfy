/**
 * Runs of the whole system, from deployment and by public calls only, after which the Stability
 * Pool cannot pay its depositors in full.
 */
module ShortfallRuns {
  import opened Base
  import opened TroveManager
  import opened TroveAccounting
  import opened TroveRuns
  import opened Scenarios
  import opened ShortfallPools
  import StabilityPool

  const WHALE: Address := 10
  const XENIA: Address := 11
  const YANN: Address := 12
  const ZOE: Address := 13

  /** The largest trove mints more than all deposits. */
  const WHALE_COLL: nat := 10_000_000_000_000_000_000_000_000
  const WHALE_AMOUNT: nat := 1_989_850_746_268_656_716_417_911
  const WHALE_DEBT: nat := 2_000_000_000_000_000_000_000_000

  const OPENING: nat := 4_000_000_000_000_000_000
  const LOWER: nat := 3_200_000_000_000_000_000
  const LOWEST: nat := 1_050_000_000_000_000_000

  function OpenCall(a: Address, amount: nat, coll: nat): Call {
    OpenTrove(a, coll, amount, FloorFee(amount), OPENING)
  }

  lemma MoreThanOne(troves: map<Address, Trove>, a: Address, b: Address)
    requires a in troves && b in troves && a != b
    ensures |troves| > 1
  {
    assert |troves.Keys - {a}| == |troves.Keys| - 1;
    assert b in troves.Keys - {a};
  }

  /** An opening, from its amounts. */
  lemma PlaysOpen(x: Point, a: Address, amount: nat, coll: nat, debt: nat, y: Point)
    requires x.Early? && a !in x.troves && OpensWith(amount, coll, debt, OPENING, x.coll, x.debt)
    requires y == Early(x.troves[a := Plain(debt, coll)], x.coll + coll, x.debt + debt)
    ensures Plays(x, OpenCall(a, amount, coll), y)
  {
  }

  /** A liquidation that the pool absorbs, with another trove to stay behind. */
  lemma PlaysAbsorb(
      troves: map<Address, Trove>, p: StabilityPool.Pool, a: Address, t: Trove, other: Address, price: nat,
      q: StabilityPool.Pool)
    requires a in troves && troves[a] == t && other in troves && a != other && Absorbs(p, t, price, q)
    ensures Plays(Late(troves, p), LiquidateTroves([a], price), Late(troves - {a}, q))
  {
    MoreThanOne(troves, a, other);
  }

  lemma WhaleOpens()
    ensures OpensWith(WHALE_AMOUNT, WHALE_COLL, WHALE_DEBT, OPENING, 0, 0)
  {
  }

  // ---------------------------------------------------------------------------
  // Alice's deposit
  // ---------------------------------------------------------------------------

  const AMOUNT1: nat := 105_273_631_840_796_019_928_030
  const AMOUNT2: nat := 798_805_970_149_253_732_089_777
  const AMOUNT3: nat := 79_402_985_074_626_865_671_642

  /** Four openings, a deposit, and three liquidations as the price falls. */
  function AlicesCall(k: nat): Call {
    if k == 0 then OpenCall(WHALE, WHALE_AMOUNT, WHALE_COLL)
    else if k == 1 then OpenCall(XENIA, AMOUNT1, COLL1)
    else if k == 2 then OpenCall(YANN, AMOUNT2, COLL2)
    else if k == 3 then OpenCall(ZOE, AMOUNT3, COLL3)
    else if k == 4 then PoolCall(StabilityPool.ProvideToSP(ALICE, DEPOSIT, ZERO_ADDRESS))
    else if k == 5 then LiquidateTroves([XENIA], LOWER)
    else if k == 6 then LiquidateTroves([YANN], LOWER)
    else LiquidateTroves([ZOE], LOWEST)
  }

  /** The troves after that many openings. */
  function AlicesTroves(n: nat): map<Address, Trove> {
    if n == 0 then map[]
    else if n == 1 then AlicesTroves(0)[WHALE := Plain(WHALE_DEBT, WHALE_COLL)]
    else if n == 2 then AlicesTroves(1)[XENIA := Plain(DEBT1, COLL1)]
    else if n == 3 then AlicesTroves(2)[YANN := Plain(DEBT2, COLL2)]
    else AlicesTroves(3)[ZOE := Plain(DEBT3, COLL3)]
  }

  /** The point before the call of that number. */
  function AlicesPoint(k: nat): Point {
    if k == 0 then Early(map[], 0, 0)
    else if k == 1 then Early(AlicesTroves(1), WHALE_COLL, WHALE_DEBT)
    else if k == 2 then Early(AlicesTroves(2), WHALE_COLL + COLL1, WHALE_DEBT + DEBT1)
    else if k == 3 then Early(AlicesTroves(3), WHALE_COLL + COLL1 + COLL2, WHALE_DEBT + DEBT1 + DEBT2)
    else if k == 4 then
      Early(AlicesTroves(4), WHALE_COLL + COLL1 + COLL2 + COLL3, WHALE_DEBT + DEBT1 + DEBT2 + DEBT3)
    else if k == 5 then Late(AlicesTroves(4), DEPOSITED)
    else if k == 6 then Late(AlicesTroves(4) - {XENIA}, ONCE)
    else if k == 7 then Late(AlicesTroves(4) - {XENIA} - {YANN}, TWICE)
    else Late(AlicesTroves(4) - {XENIA} - {YANN} - {ZOE}, THRICE)
  }

  lemma XeniaOpens()
    ensures OpensWith(AMOUNT1, COLL1, DEBT1, OPENING, WHALE_COLL, WHALE_DEBT)
  {
  }

  lemma YannOpens()
    ensures OpensWith(AMOUNT2, COLL2, DEBT2, OPENING, WHALE_COLL + COLL1, WHALE_DEBT + DEBT1)
  {
  }

  lemma ZoeOpens()
    ensures OpensWith(AMOUNT3, COLL3, DEBT3, OPENING, WHALE_COLL + COLL1 + COLL2, WHALE_DEBT + DEBT1 + DEBT2)
  {
  }

  lemma AlicesOpenings(k: nat)
    requires k < 4
    ensures Plays(AlicesPoint(k), AlicesCall(k), AlicesPoint(k + 1))
  {
    var x, y := AlicesPoint(k), AlicesPoint(k + 1);
    if k == 0 {
      WhaleOpens();
      PlaysOpen(x, WHALE, WHALE_AMOUNT, WHALE_COLL, WHALE_DEBT, y);
    } else if k == 1 {
      XeniaOpens();
      PlaysOpen(x, XENIA, AMOUNT1, COLL1, DEBT1, y);
    } else if k == 2 {
      YannOpens();
      PlaysOpen(x, YANN, AMOUNT2, COLL2, DEBT2, y);
    } else {
      ZoeOpens();
      PlaysOpen(x, ZOE, AMOUNT3, COLL3, DEBT3, y);
    }
  }

  lemma XeniaAbsorbed()
    ensures Absorbs(DEPOSITED, Plain(DEBT1, COLL1), LOWER, ONCE)
  {
    FirstOffset();
  }

  lemma XeniaLiquidated()
    ensures Plays(Late(AlicesTroves(4), DEPOSITED), LiquidateTroves([XENIA], LOWER),
          Late(AlicesTroves(4) - {XENIA}, ONCE))
  {
    XeniaAbsorbed();
    PlaysAbsorb(AlicesTroves(4), DEPOSITED, XENIA, Plain(DEBT1, COLL1), WHALE, LOWER, ONCE);
  }

  lemma YannAbsorbed()
    ensures Absorbs(ONCE, Plain(DEBT2, COLL2), LOWER, TWICE)
  {
    SecondOffset();
  }

  lemma YannLiquidated()
    ensures Plays(Late(AlicesTroves(4) - {XENIA}, ONCE), LiquidateTroves([YANN], LOWER),
          Late(AlicesTroves(4) - {XENIA} - {YANN}, TWICE))
  {
    YannAbsorbed();
    PlaysAbsorb(AlicesTroves(4) - {XENIA}, ONCE, YANN, Plain(DEBT2, COLL2), WHALE, LOWER, TWICE);
  }

  lemma ZoeAbsorbed()
    ensures Absorbs(TWICE, Plain(DEBT3, COLL3), LOWEST, THRICE)
  {
    ThirdOffset();
  }

  lemma ZoeLiquidated()
    ensures Plays(Late(AlicesTroves(4) - {XENIA} - {YANN}, TWICE), LiquidateTroves([ZOE], LOWEST),
          Late(AlicesTroves(4) - {XENIA} - {YANN} - {ZOE}, THRICE))
  {
    ZoeAbsorbed();
    PlaysAbsorb(AlicesTroves(4) - {XENIA} - {YANN}, TWICE, ZOE, Plain(DEBT3, COLL3), WHALE, LOWEST, THRICE);
  }

  lemma AlicesDeposit()
    ensures PoolMoves(AlicesPoint(4), StabilityPool.ProvideToSP(ALICE, DEPOSIT, ZERO_ADDRESS), DEPOSITED)
  {
    forall p | StabilityPool.WellFormed(p) && StabilityPool.Untouched(p)
      ensures StabilityPool.Step(p, StabilityPool.ProvideToSP(ALICE, DEPOSIT, ZERO_ADDRESS)) == Some(DEPOSITED)
    {
      DepositStage(p);
    }
  }

  lemma AlicesPlays(k: nat)
    requires k < 8
    ensures Plays(AlicesPoint(k), AlicesCall(k), AlicesPoint(k + 1))
  {
    if k < 4 {
      AlicesOpenings(k);
    } else if k == 4 {
      AlicesDeposit();
    } else if k == 5 {
      XeniaLiquidated();
    } else if k == 6 {
      YannLiquidated();
    } else {
      ZoeLiquidated();
    }
  }

  /** The first calls of the run, in this order. */
  ghost predicate AlicesCalls(calls: seq<Call>) {
    |calls| <= 8 && Performs(calls, AlicesCall)
  }

  lemma AlicesAllPlay()
    ensures ScriptPlays(AlicesPoint, AlicesCall, 8)
  {
    forall k: nat | k < 8 ensures ScenePlays(AlicesPoint, AlicesCall, k) {
      AlicesPlays(k);
    }
  }

  lemma AlicesRun(start: System, calls: seq<Call>)
    requires Deployed(start) && AlicesCalls(calls)
    ensures Consistent(start) && EndsAt(Run(start, calls), AlicesPoint(|calls|))
  {
    AlicesAllPlay();
    ScriptRuns(start, AlicesPoint, AlicesCall, 8, calls);
  }

  /** After two liquidations Alice's withdrawal in full reverts, whatever larger amount she names. */
  lemma LossFeedbackShortfall(start: System, calls: seq<Call>, amount: nat)
    requires Deployed(start) && AlicesCalls(calls) && |calls| == 7 && amount >= 91_000_000_000_000_000_000_000
    ensures Consistent(start) && TotalShort(Run(start, calls).pool, amount)
  {
    AlicesRun(start, calls);
    TwiceLast();
    TwiceShort(amount);
  }

  lemma TwiceLast()
    ensures AlicesPoint(7).Late? && AlicesPoint(7).pool == TWICE
  {
  }

  /** After a third one no provision, withdrawal or claim of hers succeeds any more. */
  lemma CollateralShortfall(start: System, calls: seq<Call>, amount: nat, tag: Address, clear: bool, hasTrove: bool)
    requires Deployed(start) && AlicesCalls(calls) && |calls| == 8
    ensures Consistent(start) && CollShort(Run(start, calls).pool, amount, tag, clear, hasTrove)
  {
    AlicesRun(start, calls);
    ThriceLast();
    ThriceShort(amount, tag, clear, hasTrove);
  }

  lemma ThriceLast()
    ensures AlicesPoint(8).Late? && AlicesPoint(8).pool == THRICE
  {
  }

  // ---------------------------------------------------------------------------
  // Alice's and Bob's deposits
  // ---------------------------------------------------------------------------

  const LARGE_AMOUNT: nat := 27_661_691_542_288_557_213_931
  const SMALL_AMOUNT: nat := 10_746_268_656_716_417_910_448

  /** Three openings, two deposits, a liquidation, a claim by Bob, and a second liquidation. */
  function SharedCall(k: nat): Call {
    if k == 0 then OpenCall(WHALE, WHALE_AMOUNT, WHALE_COLL)
    else if k == 1 then OpenCall(XENIA, LARGE_AMOUNT, LARGE)
    else if k == 2 then OpenCall(YANN, SMALL_AMOUNT, SMALL)
    else if k == 3 then PoolCall(StabilityPool.ProvideToSP(ALICE, ALICES, ZERO_ADDRESS))
    else if k == 4 then PoolCall(StabilityPool.ProvideToSP(BOB, BOBS, ZERO_ADDRESS))
    else if k == 5 then LiquidateTroves([XENIA], LOWEST)
    else if k == 6 then WithdrawDeposit(BOB, 0, YANN, LOWEST)
    else LiquidateTroves([YANN], LOWEST)
  }

  /** The troves after that many openings. */
  function SharedTroves(n: nat): map<Address, Trove> {
    if n == 0 then map[]
    else if n == 1 then SharedTroves(0)[WHALE := Plain(WHALE_DEBT, WHALE_COLL)]
    else if n == 2 then SharedTroves(1)[XENIA := Plain(LARGE, LARGE)]
    else SharedTroves(2)[YANN := Plain(SMALL, SMALL)]
  }

  /** The point before the call of that number. */
  function SharedPoint(k: nat): Point {
    if k == 0 then Early(map[], 0, 0)
    else if k == 1 then Early(SharedTroves(1), WHALE_COLL, WHALE_DEBT)
    else if k == 2 then Early(SharedTroves(2), WHALE_COLL + LARGE, WHALE_DEBT + LARGE)
    else if k == 3 then Early(SharedTroves(3), WHALE_COLL + LARGE + SMALL, WHALE_DEBT + LARGE + SMALL)
    else if k == 4 then Late(SharedTroves(3), ALONE)
    else if k == 5 then Late(SharedTroves(3), SHARED)
    else if k == 6 then Late(SharedTroves(3) - {XENIA}, REDUCED)
    else if k == 7 then Late(SharedTroves(3) - {XENIA}, CLAIMED)
    else Late(SharedTroves(3) - {XENIA} - {YANN}, LEFT)
  }

  lemma LargeOpens()
    ensures OpensWith(LARGE_AMOUNT, LARGE, LARGE, OPENING, WHALE_COLL, WHALE_DEBT)
  {
  }

  lemma SmallOpens()
    ensures OpensWith(SMALL_AMOUNT, SMALL, SMALL, OPENING, WHALE_COLL + LARGE, WHALE_DEBT + LARGE)
  {
  }

  lemma SharedOpenings(k: nat)
    requires k < 3
    ensures Plays(SharedPoint(k), SharedCall(k), SharedPoint(k + 1))
  {
    var x, y := SharedPoint(k), SharedPoint(k + 1);
    if k == 0 {
      WhaleOpens();
      PlaysOpen(x, WHALE, WHALE_AMOUNT, WHALE_COLL, WHALE_DEBT, y);
    } else if k == 1 {
      LargeOpens();
      PlaysOpen(x, XENIA, LARGE_AMOUNT, LARGE, LARGE, y);
    } else {
      SmallOpens();
      PlaysOpen(x, YANN, SMALL_AMOUNT, SMALL, SMALL, y);
    }
  }

  lemma LargeAbsorbed()
    ensures Absorbs(SHARED, Plain(LARGE, LARGE), LOWEST, REDUCED)
  {
    LargeOffset();
  }

  lemma SmallAbsorbed()
    ensures Absorbs(CLAIMED, Plain(SMALL, SMALL), LOWEST, LEFT)
  {
    SmallOffset();
  }

  lemma SharedDeposit()
    ensures PoolMoves(SharedPoint(3), StabilityPool.ProvideToSP(ALICE, ALICES, ZERO_ADDRESS), ALONE)
  {
    forall p | StabilityPool.WellFormed(p) && StabilityPool.Untouched(p)
      ensures StabilityPool.Step(p, StabilityPool.ProvideToSP(ALICE, ALICES, ZERO_ADDRESS)) == Some(ALONE)
    {
      AliceStage(p);
    }
  }

  lemma SharedPlays(k: nat)
    requires k < 8
    ensures Plays(SharedPoint(k), SharedCall(k), SharedPoint(k + 1))
  {
    if k < 3 {
      SharedOpenings(k);
    } else if k == 3 {
      SharedDeposit();
    } else if k == 4 {
      BobStage();
    } else if k == 5 {
      LargeAbsorbed();
      PlaysAbsorb(SharedTroves(3), SHARED, XENIA, Plain(LARGE, LARGE), WHALE, LOWEST, REDUCED);
    } else if k == 6 {
      ClaimStage();
    } else {
      SmallAbsorbed();
      PlaysAbsorb(SharedTroves(3) - {XENIA}, CLAIMED, YANN, Plain(SMALL, SMALL), WHALE, LOWEST, LEFT);
    }
  }

  /** The calls of the run, in this order. */
  ghost predicate SharedCalls(calls: seq<Call>) {
    |calls| <= 8 && Performs(calls, SharedCall)
  }

  lemma SharedAllPlay()
    ensures ScriptPlays(SharedPoint, SharedCall, 8)
  {
    forall k: nat | k < 8 ensures ScenePlays(SharedPoint, SharedCall, k) {
      SharedPlays(k);
    }
  }

  lemma SharedRun(start: System, calls: seq<Call>)
    requires Deployed(start) && SharedCalls(calls)
    ensures Consistent(start) && EndsAt(Run(start, calls), SharedPoint(|calls|))
  {
    SharedAllPlay();
    ScriptRuns(start, SharedPoint, SharedCall, 8, calls);
  }

  /** The stake is one unit short of the two deposits, which therefore cannot both be withdrawn in full. */
  lemma FrontEndStakeShortfall(start: System, calls: seq<Call>, amount: nat)
    requires Deployed(start) && SharedCalls(calls) && |calls| == 8 && amount >= 60_000_000_000_000_000_000_000
    ensures Consistent(start) && StakeShort(Run(start, calls).pool, amount)
  {
    SharedRun(start, calls);
    LeftLast();
    LeftShort(amount);
  }

  lemma LeftLast()
    ensures SharedPoint(8).Late? && SharedPoint(8).pool == LEFT
  {
  }
}
