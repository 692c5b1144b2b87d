/**
 * Pools on which withdrawal in full fails, with the offsets and deposits that lead to them. The
 * calls of the whole system that make these offsets are in `ShortfallRuns`.
 */
module ShortfallPools {
  import opened Base
  import opened Arith
  import opened StabilityPool
  import opened PoolWithdrawals

  const ALICE: Address := 1
  const BOB: Address := 2

  // ---------------------------------------------------------------------------
  // Evaluating calls
  // ---------------------------------------------------------------------------

  /** What an offset at `perUnit` collateral per unit staked leaves, apart from the product. */
  ghost predicate OffsetLeaves(p: Pool, debt: nat, coll: nat, perUnit: nat, q: Pool) {
    && q.total == p.total - debt && q.coll == p.coll + coll
    && q.now.scale == p.now.scale && q.now.epoch == p.now.epoch
    && q.sums == p.sums[(p.now.epoch, p.now.scale) :=
                          SumAt(p.sums, p.now.epoch, p.now.scale) + perUnit * p.now.P]
    && q.deposits == p.deposits && q.stakes == p.stakes && q.frontEnds == p.frontEnds
  }

  /**
   * Evaluates an offset from its quotients `perUnit` and `loss - 1`, the remainder `r` of the
   * latter and the remainder `s` of the product's division.
   */
  lemma OffsetBy(p: Pool, debt: nat, coll: nat, perUnit: nat, loss: nat, r: nat, s: nat, q: Pool)
    requires WellFormed(p) && OffsetLeaves(p, debt, coll, perUnit, q)
    requires 0 < debt < p.total && 0 < loss < DECIMAL_PRECISION
    requires coll * DECIMAL_PRECISION + p.collError == p.total * perUnit + q.collError && q.collError < p.total
    requires debt * DECIMAL_PRECISION - p.lossError == p.total * (loss - 1) + r && r + q.lossError == p.total
    requires p.now.P * (DECIMAL_PRECISION - loss) == DECIMAL_PRECISION * q.now.P + s
    requires r < p.total && s < DECIMAL_PRECISION && q.now.P >= SCALE_FACTOR
    ensures Offset(p, debt, coll) == Some(q)
  {
    LossBy(p, debt, loss, r);
    ProductBy(p.now, DECIMAL_PRECISION - loss, q.now, s);
    UniqueQuotient(coll * DECIMAL_PRECISION + p.collError, p.total, perUnit, q.collError);
  }

  lemma LossBy(p: Pool, debt: nat, loss: nat, r: nat)
    requires 0 < debt < p.total && 0 < loss && r < p.total
    requires debt * DECIMAL_PRECISION - p.lossError == p.total * (loss - 1) + r
    ensures !LossUnderflows(p, debt)
    ensures LossPerUnit(p, debt) == loss && LossErrorAfter(p, debt) == p.total - r
  {
    UniqueQuotient(p.total * (loss - 1) + r, p.total, loss - 1, r);
    assert loss * p.total == p.total * (loss - 1) + p.total;
  }

  lemma ProductBy(now: Product, factor: nat, next: Product, s: nat)
    requires factor > 0 && s < DECIMAL_PRECISION && next.P >= SCALE_FACTOR
    requires now.P * factor == DECIMAL_PRECISION * next.P + s
    requires next.scale == now.scale && next.epoch == now.epoch
    ensures NextProduct(now, factor) == next
  {
    UniqueQuotient(now.P * factor, DECIMAL_PRECISION, next.P, s);
  }

  lemma WellFormedAtFirstScale(p: Pool)
    requires 0 < p.now.P && p.now.scale == 0 && p.now.epoch == 0 && p.sums.Keys <= {(0, 0)}
    requires forall a :: a in p.deposits ==>
               var d := p.deposits[a];
               d.initial > 0 && d.S <= SumAt(p.sums, 0, 0) && d.at.scale == 0 && d.at.epoch == 0 && p.now.P <= d.at.P
    requires forall t :: t in p.stakes ==>
               var f := p.stakes[t];
               f.stake > 0 && f.at.scale == 0 && f.at.epoch == 0 && p.now.P <= f.at.P
    ensures WellFormed(p)
  {
    assert forall e, s :: (e, s) in p.sums ==> (e, s) in p.sums.Keys;
  }

  // ---------------------------------------------------------------------------
  // The loss error fed back twice
  // ---------------------------------------------------------------------------

  /** Alice deposits a million tokens; three liquidated troves are offset, each a little under par. */
  const DEPOSIT: nat := 1_000_000_000_000_000_000_000_000
  const DEBT1: nat := 106_000_000_000_000_000_027_670
  const COLL1: nat := 35_333_333_333_333_333_342_556
  const DEBT2: nat := 803_000_000_000_000_000_750_225
  const COLL2: nat := 267_666_666_666_666_666_916_741
  const DEBT3: nat := 80_000_000_000_000_000_000_000
  const COLL3: nat := 83_280_000_000_000_000_000_000

  function AlicesPool(total: nat, coll: nat, P: nat, sums: Sums, collError: nat, lossError: nat): Pool {
    var at := Product(DECIMAL_PRECISION, 0, 0);
    Pool(total, coll, Product(P, 0, 0), sums, collError, lossError,
         map[ALICE := Deposit(DEPOSIT, ZERO_ADDRESS, 0, at)],
         map[ZERO_ADDRESS := FrontEndStake(DEPOSIT, at)], {})
  }

  const DEPOSITED: Pool := AlicesPool(DEPOSIT, 0, DECIMAL_PRECISION, map[], 0, 0)

  const ONCE: Pool :=
    AlicesPool(893_999_999_999_999_999_972_330, 35_156_666_666_666_666_675_844, 893_999_999_999_999_999,
               map[(0, 0) := 35_156_666_666_666_666_000_000_000_000_000_000], 675_844_000_000_000_000_000_000,
               972_330_000_000_000_000_000_000)

  const TWICE: Pool :=
    AlicesPool(90_999_999_999_999_999_222_105, 301_485_000_000_000_000_258_002, 91_000_000_000_000_000,
               map[(0, 0) := 301_484_999_999_999_999_122_093_586_875_466_070], 846_245_070_451_155_853_843_100,
               45_251_521_252_796_420_586_360)

  const THRICE: Pool :=
    AlicesPool(10_999_999_999_999_999_222_105, 384_348_600_000_000_000_258_002, 10_999_999_999_999_999,
               map[(0, 0) := 384_348_600_000_000_000_668_093_586_875_466_070], 8_587_709_154_452_570_355_470,
               9_387_784_989_060_151_310_800)

  lemma DepositStage(p: Pool)
    requires WellFormed(p) && Untouched(p)
    ensures Step(p, ProvideToSP(ALICE, DEPOSIT, ZERO_ADDRESS)) == Some(DEPOSITED)
  {
    NothingMapped(p);
    assert p.deposits == map[] && p.stakes == map[] && p.sums == map[] && p.frontEnds == {};
  }

  lemma NothingMapped(p: Pool)
    requires Untouched(p)
    ensures p.deposits.Keys == {} && p.stakes.Keys == {} && p.sums.Keys == {} && p.frontEnds == {}
  {
    assert |p.deposits.Keys| == |p.stakes.Keys| == |p.sums.Keys| == 0;
  }

  lemma FirstOffset()
    ensures WellFormed(DEPOSITED) && Offset(DEPOSITED, DEBT1, 35_156_666_666_666_666_675_844) == Some(ONCE)
  {
    WellFormedAtFirstScale(DEPOSITED);
    OffsetBy(DEPOSITED, DEBT1, 35_156_666_666_666_666_675_844, 35_156_666_666_666_666, 106_000_000_000_000_001,
             27_670_000_000_000_000_000_000, 0, ONCE);
  }

  lemma SecondOffset()
    ensures WellFormed(ONCE) && Offset(ONCE, DEBT2, 266_328_333_333_333_333_582_158) == Some(TWICE)
  {
    WellFormedAtFirstScale(ONCE);
    OffsetBy(ONCE, DEBT2, 266_328_333_333_333_333_582_158, 297_906_413_124_533_930, 898_210_290_827_740_492,
             848_748_478_747_203_579_385_970, 50_210_290_827_740_492, TWICE);
  }

  lemma ThirdOffset()
    ensures WellFormed(TWICE) && Offset(TWICE, DEBT3, 82_863_600_000_000_000_000_000) == Some(THRICE)
  {
    WellFormedAtFirstScale(TWICE);
    OffsetBy(TWICE, DEBT3, 82_863_600_000_000_000_000_000, 910_589_010_989_011_006, 879_120_879_120_879_128,
             81_612_215_010_939_847_911_305, 352_000_000_000_000_000, THRICE);
  }

  /** The pool records 777895 units less than Alice's deposit compounds to. */
  ghost predicate TotalShort(p: Pool, amount: nat)
    requires WellFormed(p)
  {
    CompoundedDeposit(p, ALICE) == p.total + 777_895 && Withdraw(p, ALICE, amount, true).None?
  }

  lemma TwiceShort(amount: nat)
    requires amount >= 91_000_000_000_000_000_000_000
    ensures WellFormed(TWICE) && TotalShort(TWICE, amount)
  {
    WellFormedAtFirstScale(TWICE);
    UniqueQuotient(DEPOSIT * 91_000_000_000_000_000, DECIMAL_PRECISION, 91_000_000_000_000_000_000_000, 0);
    assert CompoundedDeposit(TWICE, ALICE) == 91_000_000_000_000_000_000_000;
  }

  /** Alice is credited with 410091 units more collateral than the pool holds, and refused everything. */
  ghost predicate CollShort(p: Pool, amount: nat, tag: Address, clear: bool, hasTrove: bool)
    requires WellFormed(p)
  {
    && DepositorGain(p, ALICE) == p.coll + 410_091
    && Provide(p, ALICE, amount, tag).None?
    && Withdraw(p, ALICE, amount, clear).None?
    && GainToTrove(p, ALICE, hasTrove).None?
  }

  lemma ThriceShort(amount: nat, tag: Address, clear: bool, hasTrove: bool)
    ensures WellFormed(THRICE) && CollShort(THRICE, amount, tag, clear, hasTrove)
  {
    WellFormedAtFirstScale(THRICE);
    ThriceGain();
  }

  lemma ThriceGain()
    requires WellFormed(THRICE)
    ensures DepositorGain(THRICE, ALICE) == 384_348_600_000_000_000_668_093
  {
    var x := DEPOSIT * 384_348_600_000_000_000_668_093_586_875_466_070;
    UniqueQuotient(x, DECIMAL_PRECISION, 384_348_600_000_000_000_668_093_586_875_466_070_000_000, 0);
    UniqueQuotient(x / DECIMAL_PRECISION, DECIMAL_PRECISION, 384_348_600_000_000_000_668_093, 586_875_466_070_000_000);
    assert THRICE.deposits[ALICE].initial == DEPOSIT;
    assert SumAt(THRICE.sums, 0, 0) == 384_348_600_000_000_000_668_093_586_875_466_070;
    assert SumAt(THRICE.sums, 0, 1) == 0;
  }

  // ---------------------------------------------------------------------------
  // The front end stake rounded once more than the deposits it stands for
  // ---------------------------------------------------------------------------

  /** Two deposits without a tag, two liquidated troves, and a claim by Bob in between. */
  const ALICES: nat := 3_000_000_000_000_000_000_002
  const BOBS: nat := 96_000_000_000_000_000_000_000
  const LARGE: nat := 28_000_000_000_000_000_000_000
  const SMALL: nat := 11_000_000_000_000_000_000_000

  const AT_START: Product := Product(DECIMAL_PRECISION, 0, 0)
  const AT_CLAIM: Product := Product(717_171_717_171_717_171, 0, 0)
  const S_CLAIM: nat := 281_414_141_414_141_414_000_000_000_000_000_000
  const STAKE: nat := 70_999_999_999_999_999_929_001
  const BOB_LEFT: nat := 68_848_484_848_484_848_416_000

  function SharedPool(
      total: nat, coll: nat, P: nat, sums: Sums, collError: nat, lossError: nat, bob: Deposit,
      stake: FrontEndStake): Pool
  {
    Pool(total, coll, Product(P, 0, 0), sums, collError, lossError,
         map[ALICE := Deposit(ALICES, ZERO_ADDRESS, 0, AT_START), BOB := bob],
         map[ZERO_ADDRESS := stake], {})
  }

  const BOB_JOINED: Deposit := Deposit(BOBS, ZERO_ADDRESS, 0, AT_START)
  const BOB_CLAIMED: Deposit := Deposit(BOB_LEFT, ZERO_ADDRESS, S_CLAIM, AT_CLAIM)

  const ALONE: Pool :=
    Pool(ALICES, 0, AT_START, map[], 0, 0, map[ALICE := Deposit(ALICES, ZERO_ADDRESS, 0, AT_START)],
         map[ZERO_ADDRESS := FrontEndStake(ALICES, AT_START)], {})

  const SHARED: Pool :=
    SharedPool(99_000_000_000_000_000_000_002, 0, DECIMAL_PRECISION, map[], 0, 0, BOB_JOINED,
               FrontEndStake(99_000_000_000_000_000_000_002, AT_START))

  const REDUCED: Pool :=
    SharedPool(71_000_000_000_000_000_000_002, 27_860_000_000_000_000_000_000, 717_171_717_171_717_171,
               map[(0, 0) := S_CLAIM], 13_999_437_171_717_171_717_172, 71_000_565_656_565_656_565_658, BOB_JOINED,
               FrontEndStake(99_000_000_000_000_000_000_002, AT_START))

  const CLAIMED: Pool :=
    SharedPool(71_000_000_000_000_000_000_002, 844_242_424_242_424_256_000, 717_171_717_171_717_171,
               map[(0, 0) := S_CLAIM], 13_999_437_171_717_171_717_172, 71_000_565_656_565_656_565_658, BOB_CLAIMED,
               FrontEndStake(STAKE, AT_CLAIM))

  const LEFT: Pool :=
    SharedPool(60_000_000_000_000_000_000_002, 11_789_242_424_242_424_256_000, 606_060_606_060_606_060,
               map[(0, 0) := 391_969_696_969_696_968_919_747_474_747_474_748], 65_999_128_861_858_016_787_596,
               43_000_875_515_720_586_143_122, BOB_CLAIMED, FrontEndStake(STAKE, AT_CLAIM))

  lemma AliceStage(p: Pool)
    requires WellFormed(p) && Untouched(p)
    ensures Step(p, ProvideToSP(ALICE, ALICES, ZERO_ADDRESS)) == Some(ALONE)
  {
    NothingMapped(p);
    assert p.deposits == map[] && p.stakes == map[] && p.sums == map[] && p.frontEnds == {};
  }

  lemma BobStage()
    ensures WellFormed(ALONE) && Step(ALONE, ProvideToSP(BOB, BOBS, ZERO_ADDRESS)) == Some(SHARED)
  {
    WellFormedAtFirstScale(ALONE);
    CompoundedUnmoved(AT_START, ALICES);
    assert CompoundedStake(ALONE, ZERO_ADDRESS) == ALICES;
    assert ALONE.deposits[BOB := BOB_JOINED] == SHARED.deposits;
    assert ALONE.stakes[ZERO_ADDRESS := FrontEndStake(99_000_000_000_000_000_000_002, AT_START)] == SHARED.stakes;
  }

  lemma LargeOffset()
    ensures WellFormed(SHARED) && Offset(SHARED, LARGE, 27_860_000_000_000_000_000_000) == Some(REDUCED)
  {
    WellFormedAtFirstScale(SHARED);
    OffsetBy(SHARED, LARGE, 27_860_000_000_000_000_000_000, 281_414_141_414_141_414, 282_828_282_828_282_829,
             27_999_434_343_434_343_434_344, 0, REDUCED);
  }

  lemma ClaimValues()
    requires WellFormed(REDUCED)
    ensures CompoundedDeposit(REDUCED, BOB) == BOB_LEFT && CompoundedStake(REDUCED, ZERO_ADDRESS) == STAKE
    ensures DepositorGain(REDUCED, BOB) == 27_015_757_575_757_575_744_000
  {
    UniqueQuotient(BOBS * 717_171_717_171_717_171, DECIMAL_PRECISION, BOB_LEFT, 0);
    UniqueQuotient(99_000_000_000_000_000_000_002 * 717_171_717_171_717_171, DECIMAL_PRECISION, STAKE,
                   434_343_434_343_434_342);
    var x := BOBS * S_CLAIM;
    UniqueQuotient(x, DECIMAL_PRECISION, 27_015_757_575_757_575_744_000_000_000_000_000_000_000, 0);
    UniqueQuotient(x / DECIMAL_PRECISION, DECIMAL_PRECISION, 27_015_757_575_757_575_744_000, 0);
    assert SumAt(REDUCED.sums, 0, 0) == S_CLAIM && SumAt(REDUCED.sums, 0, 1) == 0;
  }

  lemma ClaimStage()
    ensures WellFormed(REDUCED) && Step(REDUCED, WithdrawFromSP(BOB, 0, true)) == Some(CLAIMED)
  {
    WellFormedAtFirstScale(REDUCED);
    ClaimValues();
    assert SumAt(REDUCED.sums, 0, 0) == S_CLAIM && REDUCED.deposits[BOB] == BOB_JOINED;
    assert REDUCED.deposits[BOB := BOB_CLAIMED] == CLAIMED.deposits;
    assert REDUCED.stakes[ZERO_ADDRESS := FrontEndStake(STAKE, AT_CLAIM)] == CLAIMED.stakes;
  }

  lemma SmallOffset()
    ensures WellFormed(CLAIMED) && Offset(CLAIMED, SMALL, 10_945_000_000_000_000_000_000) == Some(LEFT)
  {
    WellFormedAtFirstScale(CLAIMED);
    OffsetBy(CLAIMED, SMALL, 10_945_000_000_000_000_000_000, 154_154_929_577_464_788, 154_929_577_464_788_732,
             27_999_124_484_279_413_856_880, 282_828_282_828_282_828, LEFT);
  }

  /**
   * The pool covers both deposits with room to spare, yet the stake recorded for their tag is
   * one unit short of them, so whichever of the two withdraws in full last is refused.
   */
  ghost predicate StakeShort(p: Pool, amount: nat)
    requires WellFormed(p)
  {
    && CompoundedDeposit(p, ALICE) + CompoundedDeposit(p, BOB) < p.total
    && CompoundedDeposit(p, ALICE) + CompoundedDeposit(p, BOB) == CompoundedStake(p, ZERO_ADDRESS) + 1
    && forall order :: BothInOrder(order) ==> WithdrawAll(p, order, amount).None?
  }

  predicate BothInOrder(order: seq<Address>) {
    |order| == 2 && ((order[0] == ALICE && order[1] == BOB) || (order[0] == BOB && order[1] == ALICE))
  }

  lemma LeftShort(amount: nat)
    requires amount >= 60_000_000_000_000_000_000_000
    ensures WellFormed(LEFT) && StakeShort(LEFT, amount)
  {
    WellFormedAtFirstScale(LEFT);
    LeftValues();
    forall order | BothInOrder(order) ensures WithdrawAll(LEFT, order, amount).None? {
      Refused(LEFT, order, amount);
    }
  }

  lemma LeftValues()
    requires WellFormed(LEFT)
    ensures CompoundedDeposit(LEFT, ALICE) == 1_818_181_818_181_818_180_001
    ensures CompoundedDeposit(LEFT, BOB) == 58_181_818_181_818_181_760_000
    ensures CompoundedStake(LEFT, ZERO_ADDRESS) == 59_999_999_999_999_999_940_000
  {
    UniqueQuotient(ALICES * 606_060_606_060_606_060, DECIMAL_PRECISION, 1_818_181_818_181_818_180_001,
                   212_121_212_121_212_120);
    UniqueQuotient(BOB_LEFT * 606_060_606_060_606_060, 717_171_717_171_717_171, 58_181_818_181_818_181_760_000, 0);
    UniqueQuotient(STAKE * 606_060_606_060_606_060, 717_171_717_171_717_171, 59_999_999_999_999_999_940_000,
                   606_060_606_060_606_060);
  }

  /** Two withdrawals under one tag whose stake does not cover both. */
  lemma Refused(p: Pool, order: seq<Address>, amount: nat)
    requires WellFormed(p) && |order| == 2 && order[0] != order[1] && order[0] in p.deposits && order[1] in p.deposits
    requires p.deposits[order[0]].tag == p.deposits[order[1]].tag
    requires CompoundedDeposit(p, order[0]) <= amount && CompoundedDeposit(p, order[1]) <= amount
    requires CompoundedStake(p, p.deposits[order[0]].tag) < CompoundedDeposit(p, order[0])
          + CompoundedDeposit(p, order[1])
    ensures WithdrawAll(p, order, amount).None?
  {
    var a, b := order[0], order[1];
    if Withdraw(p, a, amount, true).Some? {
      FullWithdrawalEffect(p, a, amount);
      var q := Withdraw(p, a, amount, true).value;
      assert q.deposits[b] == p.deposits[b];
      FullWithdrawalIff(q, b, amount);
      assert order[1..][0] == b;
    }
  }
}
