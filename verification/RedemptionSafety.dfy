/** When a redemption step is refused, and what a redemption does to the troves' ratios. */
module RedemptionSafety {
  import opened Base
  import opened Arith
  import opened Liquidation
  import opened TroveManager
  import opened TroveAccounting
  import opened TroveRuns
  import opened RedemptionWalk
  import opened RedemptionStart

  // ---------------------------------------------------------------------------
  // One lot
  // ---------------------------------------------------------------------------

  /** At 100% or more, a trove covers its own debt, and a lot takes no more than the lot's share. */
  lemma LotWithinShare(coll: nat, debt: nat, price: nat, lot: nat)
    requires debt > 0 && lot <= debt && CollateralRatio(coll, debt, price) >= HUNDRED_PERCENT
    ensures price > 0 && CollLot(lot, price) * debt <= coll * lot && CollLot(lot, price) <= coll
  {
    var x := coll * price;
    assert x == x / debt * debt + x % debt;
    MulMonotone(DECIMAL_PRECISION, x / debt, debt);
    if price > 0 {
      var c := CollLot(lot, price);
      LotValue(lot, price);
      ShareBelow(c, lot, coll, debt, price);
      if c > coll {
        MulMonotone(lot, debt, coll);
        MulMonotone(coll + 1, c, debt);
      }
    }
  }

  lemma ShareBelow(c: nat, lot: nat, coll: nat, debt: nat, price: nat)
    requires price > 0 && c * price <= lot * DECIMAL_PRECISION && DECIMAL_PRECISION * debt <= coll * price
    ensures c * debt <= coll * lot
  {
    if c * debt > coll * lot {
      MulMonotone(coll * lot + 1, c * debt, price);
      MulMonotone(c * price, lot * DECIMAL_PRECISION, debt);
      MulMonotone(DECIMAL_PRECISION * debt, coll * price, lot);
    }
  }

  /** What is left after a lot is collateralised at least as well as before. */
  lemma LotRaisesRatio(coll: nat, debt: nat, price: nat, lot: nat)
    requires debt > 0 && lot <= debt && CollateralRatio(coll, debt, price) >= HUNDRED_PERCENT
    ensures price > 0 && RatioAtLeast(coll - CollLot(lot, price), debt - lot, coll, debt)
  {
    LotWithinShare(coll, debt, price, lot);
    var c := CollLot(lot, price);
    assert (coll - c) * debt == coll * debt - c * debt;
    assert coll * (debt - lot) == coll * debt - coll * lot;
  }

  // ---------------------------------------------------------------------------
  // One step
  // ---------------------------------------------------------------------------

  /** The state of a redemption of which `r.redeemed` and `r.drawn` are still to be booked. */
  ghost predicate UnderWay(r: Redemption) {
    && !r.cancelled
    && SnapshotsReached(r.s.l, r.s.troves) && MinimumDebt(r.s.troves) && Aligned(r.s.l, r.s.troves)
    && SameButDust(Books(r.drawn, r.redeemed, 0, 0, 0, 0, 0, 0), BooksOf(r.s))
    && BooksOf(r.s).collDust >= 0 && BooksOf(r.s).debtDust >= 0
  }

  /** The pools hold what closing or rewriting any trove takes out of them. */
  lemma Holdings(r: Redemption, a: Address)
    requires UnderWay(r) && a in r.s.troves
    ensures
      var t := r.s.troves[a];
      && t.stake <= r.s.totalStakes && t.coll <= r.s.activeColl
      && GAS_COMPENSATION <= t.debt <= r.s.activeDebt <= r.s.supply && GAS_COMPENSATION <= r.s.gasPool
      && PendingColl(r.s.l, t) <= r.s.defaultColl && PendingDebt(r.s.l, t) <= r.s.defaultDebt
  {
    var t := r.s.troves[a];
    TotalsInclude(r.s.l, r.s.troves, a);
    TotalsBounds(r.s.l, r.s.troves);
    Remainder(CollClaim(r.s.l, t));
    PendingDebtCovered(r.s, a);
    assert a in r.s.troves.Keys && |r.s.troves| >= 1;
  }

  /** Applied rewards are part of the trove, and nothing else changes for it. */
  lemma AppliedTrove(r: Redemption, a: Address)
    requires UnderWay(r) && a in r.s.troves
    ensures ApplyRewards(r.s, a).Some?
    ensures
      var s := ApplyRewards(r.s, a).value;
      var t := r.s.troves[a];
      && UnderWay(r.(s := s)) && a in s.troves && s.troves.Keys == r.s.troves.Keys && s.l == r.s.l
      && s.troves[a] == t.(coll := EntireColl(s.l, t), debt := EntireDebt(s.l, t), snap := s.l)
      && PendingColl(s.l, s.troves[a]) == 0 && PendingDebt(s.l, s.troves[a]) == 0
      && s.totalStakesSnapshot == r.s.totalStakesSnapshot && s.totalCollateralSnapshot == r.s.totalCollateralSnapshot
      && (forall b :: b != a ==> SameAt(r.s, s, b))
  {
    Holdings(r, a);
    ApplyRewardsBooks(r.s, a);
    NoClaim(r.s.l, r.s.troves[a]);
    NoClaim(r.s.l, ApplyRewards(r.s, a).value.troves[a]);
  }

  /** Why a partial redemption that is not cancelled can still fail: a zero ratio or no stake to give. */
  ghost predicate CannotReinsert(r: Redemption, a: Address, price: nat, hint: nat)
    requires PartialAt(r, a) && price > 0
  {
    && HintMatches(r, a, price, hint) && NetDebtLeft(r, a) >= MIN_NET_DEBT
    && (hint == 0
        || NewStake(r.s, ApplyRewards(r.s, a).value.troves[a].coll - CollLot(r.remaining, price)).None?)
  }

  /**
   * On a trove at 100% or more no pool, stake or collateral subtraction can fail. A step is
   * refused exactly when it would close the only trove, or when the rest cannot be re-inserted.
   */
  lemma StepRefusedIff(r: Redemption, a: Address, price: nat, hint: nat)
    requires UnderWay(r) && a in r.s.troves && CurrentRatio(r.s, a, price) >= HUNDRED_PERCENT
    ensures price > 0
    ensures RedeemFrom(r, a, price, hint).None? <==>
              if PartialAt(r, a) then CannotReinsert(r, a, price, hint) else |r.s.troves| <= 1
  {
    AppliedTrove(r, a);
    var r1 := r.(s := ApplyRewards(r.s, a).value);
    var t := r1.s.troves[a];
    Holdings(r1, a);
    LotWithinShare(t.coll, t.debt, price, Lot(r1, t));
    assert |r1.s.troves| == |r.s.troves| by { assert |r1.s.troves.Keys| == |r.s.troves.Keys|; }
  }

  // ---------------------------------------------------------------------------
  // The whole walk
  // ---------------------------------------------------------------------------

  /** A trove's entire collateral per unit of entire debt, exactly. */
  ghost function ExactRatio(s: System, b: Address): real
    requires b in s.troves
  {
    var coll, debt := EntireColl(s.l, s.troves[b]), EntireDebt(s.l, s.troves[b]);
    if debt == 0 then 0.0 else coll as real / debt as real
  }

  /** A trove still open afterwards was open, and is at least as well collateralised as before. */
  ghost predicate NoWorse(s: System, s': System, b: Address) {
    b in s'.troves ==> b in s.troves && ExactRatio(s, b) <= ExactRatio(s', b)
  }

  lemma StepNoWorse(r: Redemption, a: Address, price: nat, hint: nat, b: Address)
    requires UnderWay(r) && RedeemFrom(r, a, price, hint).Some?
    requires CurrentRatio(r.s, a, price) >= HUNDRED_PERCENT
    ensures NoWorse(r.s, RedeemFrom(r, a, price, hint).value.s, b)
  {
    AppliedTrove(r, a);
    StepShape(r, a, price, hint);
    var r1 := r.(s := ApplyRewards(r.s, a).value);
    var r' := RedeemFrom(r, a, price, hint).value;
    if b != a {
      assert SameAt(r.s, r'.s, b);
    } else if a in r'.s.troves {
      var t := r1.s.troves[a];
      LotRaisesRatio(t.coll, t.debt, price, Lot(r1, t));
      NoClaim(r.s.l, r'.s.troves[a]);
      CompareRatios(r'.s.troves[a].coll, r'.s.troves[a].debt, t.coll, t.debt);
    }
  }

  ghost predicate AllCovered(s: System, order: seq<Address>, price: nat) {
    forall i :: 0 <= i < |order| ==> CurrentRatio(s, order[i], price) >= HUNDRED_PERCENT
  }

  /** Troves not reached yet still have the ratios they started with. */
  lemma StillCovered(r: Redemption, order: seq<Address>, price: nat, hint: nat)
    requires order != [] && Distinct(order) && !r.cancelled && RedeemFrom(r, order[0], price, hint).Some?
    requires AllCovered(r.s, order, price)
    ensures AllCovered(RedeemFrom(r, order[0], price, hint).value.s, order[1..], price)
  {
    StepShape(r, order[0], price, hint);
    var s' := RedeemFrom(r, order[0], price, hint).value.s;
    forall i | 0 <= i < |order[1..]| ensures CurrentRatio(s', order[1..][i], price) >= HUNDRED_PERCENT {
      assert order[1..][i] == order[i + 1] && order[i + 1] != order[0];
      assert SameAt(r.s, s', order[i + 1]);
    }
  }

  lemma SoundIsUnderWay(s: System, r: Redemption)
    requires Consistent(s) && Aligned(s.l, s.troves) && BooksOf(s).debtDust >= 0
    requires RedemptionSound(s, r) && BooksOf(r.s).collDust >= 0 && !r.cancelled
    ensures UnderWay(r)
  {
  }

  /** A redemption under way in `s`, with covered troves ahead. */
  ghost predicate Walking(s: System, r: Redemption, order: seq<Address>, price: nat) {
    && Consistent(s) && Aligned(s.l, s.troves) && BooksOf(s).debtDust >= 0
    && RedemptionSound(s, r) && BooksOf(r.s).collDust >= 0 && !r.cancelled
    && Distinct(order) && AllCovered(r.s, order, price)
  }

  lemma WalkingStep(s: System, r: Redemption, order: seq<Address>, price: nat, hint: nat, b: Address)
    requires Walking(s, r, order, price) && order != [] && RedeemFrom(r, order[0], price, hint).Some?
    ensures
      var next := RedeemFrom(r, order[0], price, hint).value;
      NoWorse(r.s, next.s, b) && (!next.cancelled ==> Walking(s, next, order[1..], price))
  {
    SoundIsUnderWay(s, r);
    StepNoWorse(r, order[0], price, hint, b);
    RedeemFromKeeps(s, r, order[0], price, hint);
    StillCovered(r, order, price, hint);
  }

  lemma WalkNoWorse(s: System, r: Redemption, order: seq<Address>, price: nat, hint: nat, limit: nat, b: Address)
    requires Walking(s, r, order, price) && RedeemAlong(r, order, price, hint, limit).Some?
    ensures NoWorse(r.s, RedeemAlong(r, order, price, hint, limit).value.s, b)
  {
    var ready := (x: Redemption, o: seq<Address>) => Walking(s, x, o, price);
    var good := (x: Redemption, y: Redemption) => NoWorse(x.s, y.s, b);
    forall x, o ensures StepGood(ready, good, x, o, price, hint) {
      if ready(x, o) && o != [] && RedeemFrom(x, o[0], price, hint).Some? {
        WalkingStep(s, x, o, price, hint, b);
      }
    }
    WalkInduction(ready, good, r, order, price, hint, limit);
  }

  /**
   * A redemption from troves at 100% or more: it walks a prefix of the order, pays collateral of
   * equal value, and leaves no open trove worse collateralised than before.
   */
  lemma RedemptionFair(s: System, funds: nat, amount: nat, order: seq<Address>, price: nat, hint: nat,
      limit: nat, fee: nat)
    requires Consistent(s) && Aligned(s.l, s.troves) && BooksOf(s).debtDust >= 0
    requires Distinct(order) && AllCovered(s, order, price)
    requires Redeem(s, funds, amount, order, price, hint, limit, fee).Some?
    ensures
      var s' := Redeem(s, funds, amount, order, price, hint, limit, fee).value;
      var start := Redemption(s, amount, 0, 0, 0, false);
      var r := RedeemAlong(start, order, price, hint, limit);
      && r.Some? && WalkShape(start, r.value, order, limit) && PaidValue(start, r.value, price)
      && s'.troves == r.value.s.troves && (forall b :: NoWorse(s, s', b))
  {
    var start := Redemption(s, amount, 0, 0, 0, false);
    WalkHasShape(start, order, price, hint, limit);
    WalkValue(start, order, price, hint, limit);
    var s' := Redeem(s, funds, amount, order, price, hint, limit, fee).value;
    forall b ensures NoWorse(s, s', b) {
      WalkNoWorse(s, start, order, price, hint, limit, b);
    }
  }

  /** Where a redemption starts on a list, by scan or by an accepted hint at a position. */
  ghost predicate Starts(ids: seq<Address>, icr: Ratios, n: nat) {
    n == Scan(ids, icr) || (0 < n <= |ids| && ValidHint(ids, icr, n - 1))
  }

  lemma VisitsDistinct(ids: seq<Address>, n: nat)
    requires Distinct(ids) && n <= |ids|
    ensures Distinct(VisitOrder(ids, n))
  {
    var order := VisitOrder(ids, n);
    forall i, j | 0 <= i < j < n ensures order[i] != order[j] {
      assert order[i] == ids[n - 1 - i] && order[j] == ids[n - 1 - j];
    }
  }

  /** On a descending list the condition on the visited troves is met, wherever the redemption is told to start. */
  lemma ListRedemptionFair(
      s: System, funds: nat, amount: nat, ids: seq<Address>, n: nat, price: nat, hint: nat, limit: nat, fee: nat)
    requires Consistent(s) && Aligned(s.l, s.troves) && BooksOf(s).debtDust >= 0
    requires Distinct(ids) && Descending(ids, CurrentRatios(s, price)) && Starts(ids, CurrentRatios(s, price), n)
    requires Redeem(s, funds, amount, VisitOrder(ids, n), price, hint, limit, fee).Some?
    ensures
      var order := VisitOrder(ids, Scan(ids, CurrentRatios(s, price)));
      var s' := Redeem(s, funds, amount, VisitOrder(ids, n), price, hint, limit, fee).value;
      var start := Redemption(s, amount, 0, 0, 0, false);
      var r := RedeemAlong(start, order, price, hint, limit);
      && VisitOrder(ids, n) == order && r.Some? && s'.troves == r.value.s.troves
      && WalkShape(start, r.value, order, limit) && PaidValue(start, r.value, price)
      && (forall b :: NoWorse(s, s', b))
  {
    var icr := CurrentRatios(s, price);
    VisitsAscending(ids, icr);
    var order := VisitOrder(ids, n);
    VisitsDistinct(ids, n);
    forall i | 0 <= i < |order| ensures CurrentRatio(s, order[i], price) >= HUNDRED_PERCENT {
      assert order[i] in order;
      assert icr(order[i]) >= MCR;
    }
    RedemptionFair(s, funds, amount, order, price, hint, limit, fee);
  }
}
