/** What every call of the trove system keeps, and what therefore holds after every run. */
module TroveRuns {
  import opened Base
  import opened Arith
  import opened IntSums
  import opened Liquidation
  import opened TroveManager
  import opened TroveAccounting
  import opened RedemptionWalk
  import StabilityPool

  /** Collateral held by the four pools. */
  ghost function Held(s: System): int {
    s.activeColl + s.defaultColl + s.pool.coll + s.surplusColl
  }

  /** At most one unit of collateral dust for each of `moves` reward applications. */
  ghost predicate DustWithin(s: System, s': System, moves: nat) {
    BooksOf(s).collDust <= BooksOf(s').collDust <= BooksOf(s).collDust + DECIMAL_PRECISION * moves
  }

  lemma DustAdds(s: System, s1: System, s2: System, m: nat, n: nat)
    requires DustWithin(s, s1, m) && DustWithin(s1, s2, n)
    ensures DustWithin(s, s2, m + n)
  {
  }

  /** Debt rewards are noticed, and the DefaultPool's debt covers at least as much as before. */
  ghost predicate DebtKept(s: System, s': System) {
    Aligned(s.l, s.troves) ==> Aligned(s'.l, s'.troves) && BooksOf(s).debtDust <= BooksOf(s').debtDust
  }

  /** At most one unit of debt dust for each of `moves` reward applications, in an aligned system. */
  ghost predicate DebtDustWithin(aligned: bool, s: System, s': System, moves: nat) {
    aligned ==> BooksOf(s').debtDust <= BooksOf(s).debtDust + DECIMAL_PRECISION * moves
  }

  // ---------------------------------------------------------------------------
  // Borrower operations
  // ---------------------------------------------------------------------------

  lemma OpenKeeps(s: System, a: Address, coll: nat, amount: nat, fee: nat, price: nat)
    requires Consistent(s) && Open(s, a, coll, amount, fee, price).Some?
    ensures
      var s' := Open(s, a, coll, amount, fee, price).value;
      && Consistent(s') && BooksOf(s') == BooksOf(s) && Held(s') == Held(s) + coll && DebtKept(s, s')
  {
    var netDebt := if RecoveryMode(s, price) then amount else amount + fee;
    NewTroveBooks(s, a, netDebt + GAS_COMPENSATION, coll);
  }

  /** The trove's new stake meets the old debt snapshot when `hasPendingRewards` overlooks the debt. */
  ghost function StaleDebt(s: System, s': System, a: Address): int
    requires a in s.troves && a in s'.troves
  {
    if s.troves[a].snap.coll < s.l.coll then 0
    else DebtClaim(s.l, s'.troves[a]) - DebtClaim(s.l, s.troves[a])
  }

  lemma AppliedKeeps(s: System, a: Address)
    requires Consistent(s) && a in s.troves && ApplyRewards(s, a).Some?
    ensures
      var s', b := ApplyRewards(s, a).value, BooksOf(s);
      && Consistent(s') && a in s'.troves && s'.l == s.l && Held(s') == Held(s)
      && DustAdded(b, BooksOf(s'))
      && s'.troves[a].snap.coll == s.l.coll
      && (s.troves[a].snap.coll < s.l.coll ==> s'.troves[a].snap == s.l)
      && (s.troves[a].snap.coll == s.l.coll ==> s' == s)
      && s'.troves.Keys == s.troves.Keys && SystemColl(s') == SystemColl(s) && SystemDebt(s') == SystemDebt(s)
  {
    ApplyRewardsBooks(s, a);
  }

  lemma AdjustAppliedKeeps(s: System, a: Address, x: Adjustment, price: nat)
    requires Consistent(s) && a in s.troves && s.troves[a].snap.coll == s.l.coll
    requires AdjustApplied(s, a, x, price).Some?
    ensures
      var s', b := AdjustApplied(s, a, x, price).value, BooksOf(s);
      && Consistent(s') && a in s'.troves && s'.l == s.l
      && BooksOf(s') == b.(debtDust := b.debtDust + DebtClaim(s.l, s.troves[a]) - DebtClaim(s.l, s'.troves[a]))
      && s'.troves[a].snap == s.troves[a].snap
      && Held(s') == Held(s) + x.collIn - x.collOut
  {
    var t, net := s.troves[a], NetChange(s, x, price);
    var coll := t.coll + x.collIn - x.collOut;
    var debt := if x.increase then t.debt + net else t.debt - net;
    WrittenKeeps(s, a, debt, coll, WriteTrove(s, a, debt, coll, t.snap).value,
                 AdjustApplied(s, a, x, price).value);
  }

  /** A trove rewritten under its own snapshot, and the pools moved by the same amounts. */
  lemma WrittenKeeps(s: System, a: Address, debt: nat, coll: nat, s1: System, s': System)
    requires Consistent(s) && a in s.troves && s.troves[a].snap.coll == s.l.coll
    requires WriteTrove(s, a, debt, coll, s.troves[a].snap) == Some(s1) && debt >= MIN_DEBT
    requires s' == s1.(activeColl := s'.activeColl, activeDebt := s'.activeDebt, supply := s'.supply)
    requires s'.activeColl - s.activeColl == coll - s.troves[a].coll
    requires s'.activeDebt - s.activeDebt == debt - s.troves[a].debt == s'.supply - s.supply
    ensures
      var b := BooksOf(s);
      && Consistent(s') && a in s'.troves && s'.l == s.l && s'.troves[a].snap == s.troves[a].snap
      && BooksOf(s') == b.(debtDust := b.debtDust + DebtClaim(s.l, s.troves[a]) - DebtClaim(s.l, s'.troves[a]))
  {
    WriteTroveBooks(s, a, debt, coll, s.troves[a].snap);
    NoClaim(s.l, s.troves[a]);
    NoClaim(s.l, s'.troves[a]);
  }

  /** An adjustment keeps the books, up to dust and to debt that `hasPendingRewards` overlooked. */
  lemma AdjustKeeps(s: System, a: Address, x: Adjustment, price: nat)
    requires Consistent(s) && Adjust(s, a, x, price).Some?
    ensures
      var s', b := Adjust(s, a, x, price).value, BooksOf(s);
      && Consistent(s') && DustWithin(s, s', 1) && a in s.troves && a in s'.troves
      && b.debtDust <= BooksOf(s').debtDust + StaleDebt(s, s', a) < b.debtDust + DECIMAL_PRECISION
      && Held(s') == Held(s) + x.collIn - x.collOut
  {
    AppliedKeeps(s, a);
    var s1 := ApplyRewards(s, a).value;
    AdjustAppliedKeeps(s1, a, x, price);
    NoClaim(s.l, s1.troves[a]);
    NoClaim(s.l, Adjust(s, a, x, price).value.troves[a]);
  }

  lemma AdjustKeepsDebt(s: System, a: Address, x: Adjustment, price: nat)
    requires Consistent(s) && Adjust(s, a, x, price).Some?
    ensures DebtKept(s, Adjust(s, a, x, price).value)
    ensures DebtDustWithin(Aligned(s.l, s.troves), s, Adjust(s, a, x, price).value, 1)
  {
    if Aligned(s.l, s.troves) {
      AdjustKeeps(s, a, x, price);
      AppliedAligned(s, a);
      var s1 := ApplyRewards(s, a).value;
      AppliedKeeps(s, a);
      AdjustAppliedKeeps(s1, a, x, price);
      NoClaim(s.l, s.troves[a]);
      NoClaim(s.l, Adjust(s, a, x, price).value.troves[a]);
    }
  }

  lemma AppliedAligned(s: System, a: Address)
    requires a in s.troves && ApplyRewards(s, a).Some? && Aligned(s.l, s.troves)
    requires s.troves[a].snap.coll <= s.l.coll
    ensures Aligned(s.l, ApplyRewards(s, a).value.troves)
    ensures ApplyRewards(s, a).value.troves[a].snap == s.l
  {
  }

  lemma CloseKeeps(s: System, a: Address, funds: nat, price: nat)
    requires Consistent(s) && Close(s, a, funds, price).Some?
    ensures
      var s' := Close(s, a, funds, price).value;
      && Consistent(s') && DustWithin(s, s', 1) && DebtKept(s, s') && a in s.troves
      && DebtDustWithin(Aligned(s.l, s.troves), s, s', 1)
      && Held(s') == Held(s) - EntireColl(s.l, s.troves[a])
  {
    AppliedKeeps(s, a);
    var s1 := ApplyRewards(s, a).value;
    CloseTroveBooks(s1, a);
    NoClaim(s.l, s1.troves[a]);
    if s.troves[a].snap.coll == s.l.coll {
      assert PendingColl(s.l, s.troves[a]) == 0;
    }
  }

  lemma ClaimKeeps(s: System, a: Address)
    requires Consistent(s) && Claim(s, a).Some?
    ensures
      var s' := Claim(s, a).value;
      && Consistent(s') && BooksOf(s') == BooksOf(s) && DebtKept(s, s') && Held(s') == Held(s) - s.surplus[a]
  {
    SumRemove(s.surplus, a);
  }

  // ---------------------------------------------------------------------------
  // Liquidation
  // ---------------------------------------------------------------------------

  lemma AddSurplusSum(surplus: map<Address, nat>, a: Address, amount: nat)
    ensures Sum(AddSurplus(surplus, a, amount)) == Sum(surplus) + amount
  {
    if amount != 0 {
      SumUpdate(surplus, a, amount + if a in surplus then surplus[a] else 0);
    }
  }

  lemma CompleteAdd(t: Split, x: Split, pool: nat, remaining: nat)
    requires Complete(t, pool) && Complete(x, remaining) && t.debtToOffset + remaining == pool
    ensures Complete(Add(t, x), pool)
  {
  }

  /** A batch has taken out exactly what its totals say. */
  ghost predicate BatchSound(s: System, b: Batch) {
    && b.s.pool == s.pool && StabilityPool.WellFormed(s.pool)
    && SnapshotsReached(b.s.l, b.s.troves) && MinimumDebt(b.s.troves) && b.s.l == s.l
    && Complete(b.totals, s.pool.total) && b.totals.debtToOffset + b.remaining == s.pool.total
    && SameButDust(Books(b.totals.coll, b.totals.debt, 0, b.totals.gasDebt, 0, 0 - b.totals.surplus, 0, 0),
        BooksOf(b.s))
    && Held(b.s) == Held(s) && DebtKept(s, b.s)
  }

  lemma LiquidateOneKeeps(s: System, b: Batch, a: Address, x: Split)
    requires BatchSound(s, b) && a in b.s.troves && LiquidateOne(b, a, x).Some?
    requires Complete(x, b.remaining) && x.gasDebt == GAS_COMPENSATION
    requires x.debt == EntireDebt(b.s.l, b.s.troves[a]) && x.coll == EntireColl(b.s.l, b.s.troves[a])
    ensures BatchSound(s, LiquidateOne(b, a, x).value)
    ensures DustWithin(b.s, LiquidateOne(b, a, x).value.s, 1)
    ensures DebtDustWithin(true, b.s, LiquidateOne(b, a, x).value.s, 1)
  {
    TakeOutBooks(b.s, a);
    AddSurplusSum(b.s.surplus, a, x.surplus);
    CompleteAdd(b.totals, x, s.pool.total, b.remaining);
  }

  lemma BatchStepKeeps(s: System, b: Batch, a: Address, price: nat)
    requires BatchSound(s, b) && BatchStep(b, a, price).Some?
    ensures BatchSound(s, BatchStep(b, a, price).value)
    ensures DustWithin(b.s, BatchStep(b, a, price).value.s, 1)
    ensures DebtDustWithin(true, b.s, BatchStep(b, a, price).value.s, 1)
  {
    if a in b.s.troves {
      var t := b.s.troves[a];
      var debt, coll := EntireDebt(b.s.l, t), EntireColl(b.s.l, t);
      OffsetSplitComplete(debt, coll, b.remaining);
      if b.normal {
        if CurrentRatio(b.s, a, price) < MCR {
          LiquidateOneKeeps(s, b, a, OffsetSplit(debt, coll, b.remaining));
        }
      } else {
        RecoveryStepKeeps(s, b, a, price);
      }
    }
  }

  lemma RecoveryStepKeeps(s: System, b: Batch, a: Address, price: nat)
    requires BatchSound(s, b) && a in b.s.troves && RecoveryStep(b, a, price).Some?
    ensures BatchSound(s, RecoveryStep(b, a, price).value)
    ensures DustWithin(b.s, RecoveryStep(b, a, price).value.s, 1)
    ensures DebtDustWithin(true, b.s, RecoveryStep(b, a, price).value.s, 1)
  {
    var t, tcr := b.s.troves[a], CollateralRatio(b.coll, b.debt, price);
    var debt, coll := EntireDebt(b.s.l, t), EntireColl(b.s.l, t);
    RecoveryTable(debt, coll, tcr, b.remaining, price);
    var x := RecoverySplit(debt, coll, CollateralRatio(coll, debt, price), tcr, b.remaining, price).value;
    if RecoveryStep(b, a, price).value.s != b.s && x != NOTHING {
      LiquidateOneKeeps(s, b, a, x);
    }
  }

  lemma {:induction false} BatchAllKeeps(s: System, b: Batch, who: seq<Address>, price: nat)
    requires BatchSound(s, b) && BatchAll(b, who, price).Some?
    ensures BatchSound(s, BatchAll(b, who, price).value)
    ensures DustWithin(b.s, BatchAll(b, who, price).value.s, |who|)
    ensures DebtDustWithin(true, b.s, BatchAll(b, who, price).value.s, |who|)
    decreases |who|
  {
    if who != [] {
      BatchStepKeeps(s, b, who[0], price);
      BatchAllKeeps(s, BatchStep(b, who[0], price).value, who[1..], price);
    }
  }

  lemma SingleBatch(s: System, a: Address, price: nat)
    ensures BatchAll(BatchStart(s, price), [a], price) == BatchStep(BatchStart(s, price), a, price)
  {
    var next := BatchStep(BatchStart(s, price), a, price);
    assert [a][1..] == [];
  }

  /** After a redistribution the debt rewards are noticed if the collateral rewards moved as well. */
  ghost predicate CollateralMoves(s: System, s': System) {
    s.l.debt < s'.l.debt ==> s.l.coll < s'.l.coll
  }

  lemma SpreadKeeps(s: System, b: Batch)
    requires BatchSound(s, b) && Spread(b.s, b.totals).Some?
    ensures
      var s', x, k := Spread(b.s, b.totals).value, b.totals, BooksOf(b.s);
      && BooksOf(s') == k.(coll := k.coll - x.collToPool - x.collToRedistribute,
                           debt := k.debt - x.debtToOffset - x.debtToRedistribute)
      && StabilityPool.WellFormed(s'.pool) && SnapshotsReached(s'.l, s'.troves)
      && s'.troves == b.s.troves && Held(s') == Held(b.s)
      && s.l.coll <= s'.l.coll && s.l.debt <= s'.l.debt
  {
    var x := b.totals;
    OffsetDebtBooks(b.s, x.debtToOffset, x.collToPool);
    var s1 := OffsetDebt(b.s, x.debtToOffset, x.collToPool).value;
    assert Held(s1) == Held(b.s) && s1.troves == b.s.troves && s1.l == b.s.l;
    RedistributeBooks(s1, x.debtToRedistribute, x.collToRedistribute);
    RedistributeFrame(s1, x.debtToRedistribute, x.collToRedistribute);
  }

  lemma SettleBooks(s: System, x: Split)
    requires Settle(s, x).Some?
    ensures
      var s', k := Settle(s, x).value, BooksOf(s);
      && BooksOf(s') == k.(coll := k.coll - x.surplus - x.gasColl, reserve := k.reserve - x.gasDebt,
                           surplus := k.surplus + x.surplus)
      && Held(s') == Held(s) - x.gasColl && s'.troves == s.troves && s'.l == s.l && s'.pool == s.pool
  {
  }

  lemma FinishKeeps(s: System, b: Batch)
    requires BatchSound(s, b) && BooksOf(b.s).collDust >= 0 && Finish(b.s, b.totals).Some?
    ensures
      var s' := Finish(b.s, b.totals).value;
      && Consistent(s') && BooksOf(s').collDust == BooksOf(b.s).collDust
      && BooksOf(s').debtDust == BooksOf(b.s).debtDust && Held(s') == Held(s) - b.totals.gasColl
      && (CollateralMoves(s, s') ==> DebtKept(s, s'))
  {
    SpreadKeeps(s, b);
    SettleBooks(Spread(b.s, b.totals).value, b.totals);
    var s' := Finish(b.s, b.totals).value;
    if CollateralMoves(s, s') && Aligned(s.l, s.troves) {
      assert Aligned(s'.l, s'.troves);
    }
  }

  /** A batch liquidation keeps the books; the gas compensation is all that leaves the pools. */
  lemma LiquidationKeeps(s: System, who: seq<Address>, price: nat)
    requires Consistent(s) && LiquidateBatch(s, who, price).Some?
    ensures
      var s' := LiquidateBatch(s, who, price).value;
      && Consistent(s') && DustWithin(s, s', |who|) && DebtDustWithin(true, s, s', |who|)
      && BatchAll(BatchStart(s, price), who, price).Some?
      && Held(s') == Held(s) - BatchAll(BatchStart(s, price), who, price).value.totals.gasColl
      && (CollateralMoves(s, s') ==> DebtKept(s, s'))
  {
    var start := BatchStart(s, price);
    assert BatchSound(s, start);
    BatchAllKeeps(s, start, who, price);
    FinishKeeps(s, BatchAll(start, who, price).value);
  }

  // ---------------------------------------------------------------------------
  // Redemption
  // ---------------------------------------------------------------------------

  /** The redemption has taken exactly what it recorded out of the troves. */
  ghost predicate RedemptionSound(s: System, r: Redemption) {
    && r.s.pool == s.pool && StabilityPool.WellFormed(s.pool)
    && SnapshotsReached(r.s.l, r.s.troves) && MinimumDebt(r.s.troves) && r.s.l == s.l
    && SameButDust(Books(r.drawn, r.redeemed, 0, 0, 0, 0, 0, 0), BooksOf(r.s))
    && Held(r.s) == Held(s) && DebtKept(s, r.s)
  }

  lemma CloseRedeemedBooks(s: System, a: Address, coll: nat)
    requires a in s.troves && CloseRedeemed(s, a, coll).Some? && s.troves[a].snap.coll == s.l.coll
    ensures
      var s', t, k := CloseRedeemed(s, a, coll).value, s.troves[a], BooksOf(s);
      && BooksOf(s') == k.(coll := k.coll + t.coll - coll, debt := k.debt + t.debt - GAS_COMPENSATION,
                           debtDust := k.debtDust + DebtClaim(s.l, t))
      && s'.troves == s.troves - {a} && s'.l == s.l && s'.pool == s.pool && Held(s') == Held(s)
  {
    CloseTroveBooks(s, a);
    NoClaim(s.l, s.troves[a]);
    AddSurplusSum(s.surplus, a, coll);
  }

  lemma PartialBooks(s: System, a: Address, debt: nat, coll: nat)
    requires a in s.troves && s.troves[a].snap.coll == s.l.coll && WriteTrove(s, a, debt, coll, s.troves[a].snap).Some?
    ensures
      var s', t, k := WriteTrove(s, a, debt, coll, s.troves[a].snap).value, s.troves[a], BooksOf(s);
      && BooksOf(s')
          == k.(coll := k.coll + t.coll - coll, debt := k.debt + t.debt - debt, debtDust := BooksOf(s').debtDust)
      && (t.snap == s.l ==> BooksOf(s').debtDust == k.debtDust)
  {
    WriteTroveBooks(s, a, debt, coll, s.troves[a].snap);
    NoClaim(s.l, s.troves[a]);
    NoClaim(s.l, WriteTrove(s, a, debt, coll, s.troves[a].snap).value.troves[a]);
  }

  lemma FullKeeps(s: System, r: Redemption, a: Address, lot: nat, collLot: nat)
    requires RedemptionSound(s, r) && a in r.s.troves && r.s.troves[a].snap.coll == r.s.l.coll
    requires lot <= r.remaining && r.s.troves[a].debt == lot + GAS_COMPENSATION && collLot <= r.s.troves[a].coll
    requires CloseRedeemed(r.s, a, r.s.troves[a].coll - collLot).Some?
    ensures
      var r' := Redeemed(r, CloseRedeemed(r.s, a, r.s.troves[a].coll - collLot).value, lot, collLot);
      && RedemptionSound(s, r') && BooksOf(r'.s).collDust == BooksOf(r.s).collDust
      && DebtDustWithin(r.s.troves[a].snap == r.s.l, r.s, r'.s, 0)
  {
    CloseRedeemedBooks(r.s, a, r.s.troves[a].coll - collLot);
    NoClaim(r.s.l, r.s.troves[a]);
  }

  lemma PartialKeeps(s: System, r: Redemption, a: Address, lot: nat, collLot: nat, s': System)
    requires RedemptionSound(s, r) && a in r.s.troves && r.s.troves[a].snap.coll == r.s.l.coll
    requires lot <= r.remaining && r.s.troves[a].debt >= lot + MIN_DEBT && collLot <= r.s.troves[a].coll
    requires
      var t := r.s.troves[a];
      WriteTrove(r.s, a, t.debt - lot, t.coll - collLot, t.snap) == Some(s')
    ensures
      var r' := Redeemed(r, s', lot, collLot);
      && RedemptionSound(s, r') && BooksOf(r'.s).collDust == BooksOf(r.s).collDust
      && DebtDustWithin(r.s.troves[a].snap == r.s.l, r.s, r'.s, 0)
  {
    PartialBooks(r.s, a, r.s.troves[a].debt - lot, r.s.troves[a].coll - collLot);
  }

  lemma RedeemAppliedKeeps(s: System, r: Redemption, a: Address, price: nat, hint: nat)
    requires RedemptionSound(s, r) && a in r.s.troves && price > 0 && RedeemApplied(r, a, price, hint).Some?
    requires r.s.troves[a].snap.coll == r.s.l.coll
    ensures
      var r' := RedeemApplied(r, a, price, hint).value;
      && RedemptionSound(s, r') && BooksOf(r'.s).collDust == BooksOf(r.s).collDust
      && DebtDustWithin(r.s.troves[a].snap == r.s.l, r.s, r'.s, 0)
  {
    var t := r.s.troves[a];
    var lot := Lot(r, t);
    var collLot := CollLot(lot, price);
    if t.debt - lot == GAS_COMPENSATION {
      FullKeeps(s, r, a, lot, collLot);
    } else if !RedeemApplied(r, a, price, hint).value.cancelled {
      PartialKeeps(s, r, a, lot, collLot, WriteTrove(r.s, a, t.debt - lot, t.coll - collLot, t.snap).value);
    }
  }

  lemma RedeemFromKeeps(s: System, r: Redemption, a: Address, price: nat, hint: nat)
    requires RedemptionSound(s, r) && RedeemFrom(r, a, price, hint).Some?
    ensures RedemptionSound(s, RedeemFrom(r, a, price, hint).value)
    ensures DustWithin(r.s, RedeemFrom(r, a, price, hint).value.s, 1)
    ensures DebtDustWithin(Aligned(s.l, s.troves), r.s, RedeemFrom(r, a, price, hint).value.s, 1)
  {
    ApplyRewardsBooks(r.s, a);
    var s1 := ApplyRewards(r.s, a).value;
    if Aligned(r.s.l, r.s.troves) {
      AppliedAligned(r.s, a);
    }
    RedeemAppliedKeeps(s, r.(s := s1), a, price, hint);
  }

  /** How many troves have had their rewards applied. */
  ghost function Applied(r: Redemption): nat {
    r.steps + if r.cancelled then 1 else 0
  }

  /** From `r` to `r'`: still sound, with the dust of the rewards applied in between. */
  ghost predicate Progress(s: System, r: Redemption, r': Redemption) {
    && Applied(r) <= Applied(r')
    && (RedemptionSound(s, r) ==>
          && RedemptionSound(s, r') && DustWithin(r.s, r'.s, Applied(r') - Applied(r))
          && DebtDustWithin(Aligned(s.l, s.troves), r.s, r'.s, Applied(r') - Applied(r)))
  }

  lemma ProgressAdds(s: System, r: Redemption, r1: Redemption, r2: Redemption)
    requires Progress(s, r, r1) && Progress(s, r1, r2)
    ensures Progress(s, r, r2)
  {
    if RedemptionSound(s, r) {
      DustAdds(r.s, r1.s, r2.s, Applied(r1) - Applied(r), Applied(r2) - Applied(r1));
    }
  }

  lemma NoProgress(s: System, r: Redemption)
    ensures Progress(s, r, r)
  {
  }

  lemma StepProgress(s: System, r: Redemption, a: Address, price: nat, hint: nat)
    requires RedeemFrom(r, a, price, hint).Some? && !r.cancelled
    ensures Progress(s, r, RedeemFrom(r, a, price, hint).value)
  {
    StepShape(r, a, price, hint);
    if RedemptionSound(s, r) {
      RedeemFromKeeps(s, r, a, price, hint);
    }
  }

  lemma RedeemAlongKeeps(s: System, r: Redemption, order: seq<Address>, price: nat, hint: nat, limit: nat)
    requires RedemptionSound(s, r) && !r.cancelled && RedeemAlong(r, order, price, hint, limit).Some?
    ensures RedemptionSound(s, RedeemAlong(r, order, price, hint, limit).value)
    ensures DustWithin(r.s, RedeemAlong(r, order, price, hint, limit).value.s, |order|)
    ensures DebtDustWithin(Aligned(s.l, s.troves), r.s, RedeemAlong(r, order, price, hint, limit).value.s, |order|)
  {
    var ready := (x: Redemption, o: seq<Address>) => !x.cancelled;
    var good := (x: Redemption, y: Redemption) => Progress(s, x, y);
    forall x, o ensures StepGood(ready, good, x, o, price, hint) {
      if ready(x, o) && o != [] && RedeemFrom(x, o[0], price, hint).Some? {
        StepProgress(s, x, o[0], price, hint);
      }
    }
    forall x ensures good(x, x) {
      NoProgress(s, x);
    }
    forall x, y, z | good(x, y) && good(y, z) ensures good(x, z) {
      ProgressAdds(s, x, y, z);
    }
    WalkInduction(ready, good, r, order, price, hint, limit);
    AppliedBounded(r, order, price, hint, limit);
    DustWeakens(r.s, RedeemAlong(r, order, price, hint, limit).value.s,
                Applied(RedeemAlong(r, order, price, hint, limit).value) - Applied(r), |order|);
  }

  lemma DustWeakens(s: System, s': System, m: nat, n: nat)
    requires DustWithin(s, s', m) && m <= n
    ensures DustWithin(s, s', n)
  {
  }

  lemma {:induction false} AppliedBounded(r: Redemption, order: seq<Address>, price: nat, hint: nat, limit: nat)
    requires !r.cancelled && RedeemAlong(r, order, price, hint, limit).Some?
    ensures Applied(RedeemAlong(r, order, price, hint, limit).value) <= Applied(r) + |order|
    decreases |order|
  {
    if order != [] && r.remaining != 0 && limit != 0 {
      StepShape(r, order[0], price, hint);
      var next := RedeemFrom(r, order[0], price, hint).value;
      if !next.cancelled {
        AppliedBounded(next, order[1..], price, hint, limit - 1);
      }
    }
  }

  /** A redemption keeps the books; the collateral drawn is all that leaves the pools. */
  lemma RedeemKeeps(s: System, funds: nat, amount: nat, order: seq<Address>, price: nat, hint: nat, limit: nat,
      fee: nat)
    requires Consistent(s) && Redeem(s, funds, amount, order, price, hint, limit, fee).Some?
    ensures
      var s' := Redeem(s, funds, amount, order, price, hint, limit, fee).value;
      var r := RedeemAlong(Redemption(s, amount, 0, 0, 0, false), order, price, hint, limit);
      && r.Some? && Consistent(s') && DustWithin(s, s', |order|) && DebtKept(s, s')
      && DebtDustWithin(Aligned(s.l, s.troves), s, s', |order|)
      && Held(s') == Held(s) - r.value.drawn
      && s'.supply == s.supply - r.value.redeemed - GAS_COMPENSATION * (|s.troves| - |s'.troves|)
  {
    var start := Redemption(s, amount, 0, 0, 0, false);
    RedeemAlongKeeps(s, start, order, price, hint, limit);
    SupplyOverReserves(start, order, price, hint, limit);
    TotalsBounds(s.l, s.troves);
    var s' := Redeem(s, funds, amount, order, price, hint, limit, fee).value;
    TotalsBounds(s'.l, s'.troves);
  }

  /** The walk burns the reserves of closed troves and nothing else. */
  lemma {:induction false} SupplyOverReserves(r: Redemption, order: seq<Address>, price: nat, hint: nat, limit: nat)
    requires RedeemAlong(r, order, price, hint, limit).Some?
    ensures
      var s' := RedeemAlong(r, order, price, hint, limit).value.s;
      s'.supply - s'.gasPool == r.s.supply - r.s.gasPool
    decreases |order|
  {
    if order != [] && r.remaining != 0 && limit != 0 && !r.cancelled {
      SupplyOverReserves(RedeemFrom(r, order[0], price, hint).value, order[1..], price, hint, limit - 1);
    }
  }

  // ---------------------------------------------------------------------------
  // The Stability Pool
  // ---------------------------------------------------------------------------

  lemma PoolCallKeeps(s: System, c: StabilityPool.Call)
    requires Consistent(s) && CallPool(s, c).Some?
    ensures
      var s' := CallPool(s, c).value;
      && Consistent(s') && BooksOf(s') == BooksOf(s) && DebtKept(s, s')
      && Held(s') == Held(s) - (if c.RegisterFrontEnd? then 0 else StabilityPool.DepositorGain(s.pool, c.who))
  {
    StabilityPool.StepKeepsWellFormed(s.pool, c);
    match c
    case ProvideToSP(a, amount, tag) =>
      var t := StabilityPool.ProvideSettles(s.pool, a, amount, tag);
    case WithdrawFromSP(a, amount, clear) =>
      var t := StabilityPool.WithdrawSettles(s.pool, a, amount, clear);
    case RegisterFrontEnd(_) =>
  }

  lemma MoveGainKeeps(s: System, a: Address, price: nat)
    requires Consistent(s) && MoveGain(s, a, price).Some?
    ensures
      var s' := MoveGain(s, a, price).value;
      && Consistent(s') && DustWithin(s, s', 1) && DebtKept(s, s') && Held(s') == Held(s)
      && DebtDustWithin(Aligned(s.l, s.troves), s, s', 1)
  {
    var gain := StabilityPool.DepositorGain(s.pool, a);
    var t := StabilityPool.WithdrawSettles(s.pool, a, 0, true);
    var s1 := s.(pool := StabilityPool.GainToTrove(s.pool, a, a in s.troves).value);
    StabilityPool.SettleKeepsWellFormed(s.pool, a, t);
    AdjustKeeps(s1, a, Adjustment(gain, 0, 0, false, 0, 0), price);
    AdjustKeepsDebt(s1, a, Adjustment(gain, 0, 0, false, 0, 0), price);
  }

  // ---------------------------------------------------------------------------
  // Runs
  // ---------------------------------------------------------------------------

  /** The collateral a successful call brings in, less what it pays out. */
  ghost function Flow(s: System, c: Call): int
    requires StabilityPool.WellFormed(s.pool) && Step(s, c).Some?
  {
    match c
    case OpenTrove(_, coll, _, _, _) => coll
    case AdjustTrove(_, x, _) => x.collIn - x.collOut
    case CloseOwnTrove(a, _, _) => 0 - EntireColl(s.l, s.troves[a])
    case ClaimCollateral(a) => -(s.surplus[a] as int)
    case LiquidateTroves(batch, price) => 0 - BatchAll(BatchStart(s, price), batch, price).value.totals.gasColl
    case RedeemCollateral(_, amount, order, price, hint, limit, _) =>
      0 - RedeemAlong(Redemption(s, amount, 0, 0, 0, false), order, price, hint, limit).value.drawn
    case PoolCall(call) =>
      if call.RegisterFrontEnd? then 0 else 0 - StabilityPool.DepositorGain(s.pool, call.who)
    case WithdrawDeposit(a, _, _, _) => 0 - StabilityPool.DepositorGain(s.pool, a)
    case GainToTrove(_, _) => 0
  }

  /** How many troves' rewards a call may apply. */
  ghost function Moves(c: Call): nat {
    match c
    case LiquidateTroves(batch, _) => |batch|
    case RedeemCollateral(_, _, order, _, _, _, _) => |order|
    case AdjustTrove(_, _, _) => 1
    case CloseOwnTrove(_, _, _) => 1
    case GainToTrove(_, _) => 1
    case _ => 0
  }

  /** Every successful call keeps all books and accounts for every unit of collateral. */
  lemma StepKeeps(s: System, c: Call)
    requires Consistent(s) && Step(s, c).Some?
    ensures
      var s' := Step(s, c).value;
      && Consistent(s') && Held(s') == Held(s) + Flow(s, c) && DustWithin(s, s', Moves(c))
      && DebtDustWithin(Aligned(s.l, s.troves), s, s', Moves(c))
      && (CollateralMoves(s, s') ==> DebtKept(s, s'))
  {
    match c
    case OpenTrove(a, coll, amount, fee, price) => OpenKeeps(s, a, coll, amount, fee, price);
    case AdjustTrove(a, x, price) => AdjustKeeps(s, a, x, price); AdjustKeepsDebt(s, a, x, price);
    case CloseOwnTrove(a, funds, price) => CloseKeeps(s, a, funds, price);
    case ClaimCollateral(a) => ClaimKeeps(s, a);
    case LiquidateTroves(batch, price) => LiquidationKeeps(s, batch, price);
    case RedeemCollateral(funds, amount, order, price, hint, limit, fee) =>
      RedeemKeeps(s, funds, amount, order, price, hint, limit, fee);
    case PoolCall(call) => PoolCallKeeps(s, call);
    case WithdrawDeposit(a, amount, last, price) =>
      PoolCallKeeps(s, StabilityPool.WithdrawFromSP(a, amount, LastCovered(s, last, price)));
    case GainToTrove(a, price) => MoveGainKeeps(s, a, price);
  }

  /** A call that reverts changes nothing. */
  ghost function After(s: System, c: Call): (s': System)
    requires Consistent(s)
    ensures Consistent(s')
  {
    if Step(s, c).None? then s else
      StepKeeps(s, c);
      Step(s, c).value
  }

  ghost function FlowOf(s: System, c: Call): int
    requires Consistent(s)
  {
    if Step(s, c).None? then 0 else Flow(s, c)
  }

  ghost function Run(s: System, calls: seq<Call>): (s': System)
    requires Consistent(s)
    ensures Consistent(s')
    decreases |calls|
  {
    if calls == [] then s else Run(After(s, calls[0]), calls[1..])
  }

  ghost function NetFlow(s: System, calls: seq<Call>): int
    requires Consistent(s)
    decreases |calls|
  {
    if calls == [] then 0 else FlowOf(s, calls[0]) + NetFlow(After(s, calls[0]), calls[1..])
  }

  ghost function AllMoves(calls: seq<Call>): nat
    decreases |calls|
  {
    if calls == [] then 0 else Moves(calls[0]) + AllMoves(calls[1..])
  }

  lemma {:induction false} RunKeeps(s: System, calls: seq<Call>)
    requires Consistent(s)
    ensures DustWithin(s, Run(s, calls), AllMoves(calls))
    ensures Held(Run(s, calls)) == Held(s) + NetFlow(s, calls)
    decreases |calls|
  {
    if calls != [] {
      if Step(s, calls[0]).Some? {
        StepKeeps(s, calls[0]);
      }
      RunKeeps(After(s, calls[0]), calls[1..]);
    }
  }

  lemma DeployedConsistent(s: System)
    requires Deployed(s)
    ensures Consistent(s) && BooksOf(s) == Books(0, 0, 0, 0, 0, 0, 0, 0) && Held(s) == 0
    ensures Aligned(s.l, s.troves)
  {
    NothingOwed(s.surplus);
    NoTroves(s.l, s.troves);
    EmptyPoolWellFormed(s.pool);
  }

  lemma NothingOwed(surplus: map<Address, nat>)
    requires |surplus| == 0
    ensures Sum(surplus) == 0
  {
    assert |surplus.Keys| == 0;
  }

  lemma NoTroves(l: Rewards, troves: map<Address, Trove>)
    requires |troves| == 0
    ensures Totals(l, troves) == Tally(0, 0, 0, 0, 0, 0)
    ensures forall a :: a !in troves
  {
    assert |troves.Keys| == 0;
  }

  lemma EmptyPoolWellFormed(p: StabilityPool.Pool)
    requires StabilityPool.Untouched(p)
    ensures StabilityPool.WellFormed(p)
  {
    assert |p.deposits.Keys| == |p.stakes.Keys| == |p.sums.Keys| == 0;
    assert forall k :: k in p.sums ==> k in p.sums.Keys;
  }

  /**
   * After every run from deployment: the supply is the system debt, the GasPool holds one reserve
   * per active trove, the ActivePool and the stakes are the sums over the troves, no trove is
   * below the minimum debt, the four pools hold exactly the collateral that came in and did not
   * leave, and the DefaultPool covers all pending collateral with at most one unit of dust per
   * reward application.
   */
  lemma BooksBalance(start: System, calls: seq<Call>)
    requires Deployed(start)
    ensures Consistent(start)
    ensures
      var s := Run(start, calls);
      var v := Totals(s.l, s.troves);
      && s.supply == s.activeDebt + s.defaultDebt
      && s.gasPool == GAS_COMPENSATION * |s.troves|
      && s.activeColl == v.coll && s.activeDebt == v.debt && s.totalStakes == v.stake
      && s.surplusColl == Sum(s.surplus)
      && Held(s) == NetFlow(start, calls)
      && (forall a :: a in s.troves ==> s.troves[a].debt >= MIN_DEBT)
      && v.collClaim + s.collError <= DECIMAL_PRECISION * s.defaultColl
           <= v.collClaim + s.collError + DECIMAL_PRECISION * AllMoves(calls)
  {
    DeployedConsistent(start);
    RunKeeps(start, calls);
    Balance(start, Run(start, calls), AllMoves(calls));
  }

  lemma Balance(start: System, s: System, moves: nat)
    requires Consistent(s) && BooksOf(start).collDust == 0 && DustWithin(start, s, moves)
    ensures
      var v := Totals(s.l, s.troves);
      && s.supply == s.activeDebt + s.defaultDebt
      && s.gasPool == GAS_COMPENSATION * |s.troves|
      && s.activeColl == v.coll && s.activeDebt == v.debt && s.totalStakes == v.stake
      && s.surplusColl == Sum(s.surplus)
      && (forall a :: a in s.troves ==> s.troves[a].debt >= MIN_DEBT)
      && v.collClaim + s.collError <= DECIMAL_PRECISION * s.defaultColl
           <= v.collClaim + s.collError + DECIMAL_PRECISION * moves
  {
    TotalsBounds(s.l, s.troves);
  }

  // ---------------------------------------------------------------------------
  // The debt side of the DefaultPool
  // ---------------------------------------------------------------------------

  /** No redistribution of the run is too small in collateral to move `L_COLL`. */
  ghost predicate CollateralAlwaysMoves(s: System, calls: seq<Call>)
    requires Consistent(s)
    decreases |calls|
  {
    calls != [] ==>
      CollateralMoves(s, After(s, calls[0])) && CollateralAlwaysMoves(After(s, calls[0]), calls[1..])
  }

  lemma {:induction false} RunKeepsDebt(s: System, calls: seq<Call>)
    requires Consistent(s) && CollateralAlwaysMoves(s, calls) && Aligned(s.l, s.troves)
    ensures Aligned(Run(s, calls).l, Run(s, calls).troves)
    ensures BooksOf(s).debtDust <= BooksOf(Run(s, calls)).debtDust
    ensures DebtDustWithin(true, s, Run(s, calls), AllMoves(calls))
    decreases |calls|
  {
    if calls != [] {
      if Step(s, calls[0]).Some? {
        StepKeeps(s, calls[0]);
      }
      RunKeepsDebt(After(s, calls[0]), calls[1..]);
    }
  }

  /** On such a run from deployment the DefaultPool's debt covers the claims, with at most as much dust. */
  lemma DebtBalances(start: System, calls: seq<Call>)
    requires Deployed(start) && Consistent(start) && CollateralAlwaysMoves(start, calls)
    ensures
      var s := Run(start, calls);
      var v := Totals(s.l, s.troves);
      v.debtClaim + s.debtError <= DECIMAL_PRECISION * s.defaultDebt
        <= v.debtClaim + s.debtError + DECIMAL_PRECISION * AllMoves(calls)
  {
    DeployedConsistent(start);
    RunKeepsDebt(start, calls);
  }

  /**
   * On such a run the DefaultPool also covers all pending debt, so that no trove's rewards are
   * ever refused: they can be applied, and the trove taken out, at any time and in any order.
   */
  lemma RewardsNeverRefused(start: System, calls: seq<Call>, a: Address)
    requires Deployed(start) && Consistent(start) && CollateralAlwaysMoves(start, calls)
    requires a in Run(start, calls).troves
    ensures
      var s := Run(start, calls);
      && ApplyRewards(s, a).Some?
      && MoveRewards(s, PendingDebt(s.l, s.troves[a]), PendingColl(s.l, s.troves[a])).Some?
  {
    DeployedConsistent(start);
    RunKeepsDebt(start, calls);
    RewardsAvailable(Run(start, calls), a);
  }

  lemma RewardsAvailable(s: System, a: Address)
    requires Consistent(s) && BooksOf(s).debtDust >= 0 && a in s.troves
    ensures ApplyRewards(s, a).Some?
    ensures MoveRewards(s, PendingDebt(s.l, s.troves[a]), PendingColl(s.l, s.troves[a])).Some?
  {
    PendingCollCovered(s, a);
    PendingDebtCovered(s, a);
  }

  lemma QuotientPositiveIff(n: nat, d: nat)
    requires d > 0
    ensures n / d > 0 <==> n >= d
  {
    if n < d {
      QuotientBelow(n, d, 1);
    } else {
      QuotientAtLeast(n, d, 1);
    }
  }

  /**
   * When a redistribution leaves debt rewards that `hasPendingRewards` overlooks: exactly when
   * its collateral is too little to move `L_COLL`, its debt moves `L_USDDDebt`, and some trove
   * had nothing pending.
   */
  lemma OverlookedIff(s: System, debt: nat, coll: nat)
    requires SnapshotsReached(s.l, s.troves) && Aligned(s.l, s.troves) && debt > 0
    requires Redistribute(s, debt, coll).Some?
    ensures
      var s' := Redistribute(s, debt, coll).value;
      !Aligned(s'.l, s'.troves) <==>
        && coll * DECIMAL_PRECISION + s.collError < s.totalStakes
        && debt * DECIMAL_PRECISION + s.debtError >= s.totalStakes
        && exists a :: a in s.troves && s.troves[a].snap.coll == s.l.coll
  {
    MovesAligned(s.troves, s.l, coll * DECIMAL_PRECISION + s.collError, debt * DECIMAL_PRECISION + s.debtError,
                 s.totalStakes);
  }

  /** Sums that rise by the quotients of `c` and `d`. */
  lemma MovesAligned(troves: map<Address, Trove>, l: Rewards, c: nat, d: nat, stakes: nat)
    requires SnapshotsReached(l, troves) && Aligned(l, troves) && stakes > 0
    ensures !Aligned(Rewards(l.coll + c / stakes, l.debt + d / stakes), troves) <==>
              c < stakes && d >= stakes && exists a :: a in troves && troves[a].snap.coll == l.coll
  {
    QuotientPositiveIff(c, stakes);
    QuotientPositiveIff(d, stakes);
    RisenAligned(troves, l, Rewards(l.coll + c / stakes, l.debt + d / stakes));
  }

  lemma RisenAligned(troves: map<Address, Trove>, l: Rewards, l': Rewards)
    requires SnapshotsReached(l, troves) && Aligned(l, troves) && l.coll <= l'.coll && l.debt <= l'.debt
    ensures !Aligned(l', troves) <==>
              l.coll == l'.coll && l.debt < l'.debt && exists a :: a in troves && troves[a].snap.coll == l.coll
  {
  }
}
