/**
 * The TroveManager over the sorted list: the updates of troves, stakes and pools, where a
 * redemption starts, the redemption itself and batch liquidation. A failing call is rolled back
 * as a whole, so nothing is promised about the variables in that case.
 */
module TroveManagerContract {
  import opened Base
  import opened Liquidation
  import opened TroveManager
  import opened RedemptionStart
  import SortedTroves
  import StabilityPool

  /** `getNominalICR`. */
  function NominalRatios(troves: map<Address, Trove>, l: Rewards): Ratios {
    a => if a in troves then NominalRatio(EntireColl(l, troves[a]), EntireDebt(l, troves[a])) else INFINITE_RATIO
  }

  /** A call that reverts, or leaves that state. */
  ghost predicate Becomes(ok: bool, s: System, result: Option<System>) {
    ok == result.Some? && (ok ==> s == result.value)
  }

  /** The first `n` nodes are the same. */
  ghost predicate Prefix(ids: seq<Address>, ids': seq<Address>, n: nat) {
    n <= |ids| && n <= |ids'| && ids[..n] == ids'[..n]
  }

  lemma PrefixShrinks(ids: seq<Address>, ids': seq<Address>, n: nat)
    requires Prefix(ids, ids', n + 1)
    ensures Prefix(ids, SortedTroves.RemoveAt(ids', n), n)
  {
    assert ids[..n] == ids[..n + 1][..n];
    assert ids'[..n] == ids'[..n + 1][..n];
  }

  /** From a redemption under way, with a number of nodes to go and a limit. */
  type Walk = (Redemption, nat, nat) -> Option<Redemption>

  /** The walk along the list, as a value; the trigger keeps its definition out of the loop. */
  ghost predicate WalksAlong(walk: Walk, ids: seq<Address>, price: nat, hint: nat) {
    forall r: Redemption, k: nat, limit: nat {:trigger RedeemAlong(r, VisitOrder(ids, k), price, hint, limit)} ::
      k <= |ids| ==> walk(r, k, limit) == RedeemAlong(r, VisitOrder(ids, k), price, hint, limit)
  }

  lemma WalkUnfolds(walk: Walk, r: Redemption, ids: seq<Address>, n: nat, price: nat, hint: nat, limit: nat)
    requires 0 < n <= |ids| && r.remaining > 0 && limit > 0 && !r.cancelled && WalksAlong(walk, ids, price, hint)
    ensures
      var next := RedeemFrom(r, ids[n - 1], price, hint);
      walk(r, n, limit) == if next.None? then None else walk(next.value, n - 1, limit - 1)
  {
    assert VisitOrder(ids, n)[1..] == VisitOrder(ids, n - 1);
    var here := RedeemAlong(r, VisitOrder(ids, n), price, hint, limit);
    var next := RedeemFrom(r, ids[n - 1], price, hint);
    if next.Some? {
      var there := RedeemAlong(next.value, VisitOrder(ids, n - 1), price, hint, limit - 1);
    }
  }

  lemma WalkEnds(walk: Walk, r: Redemption, ids: seq<Address>, n: nat, price: nat, hint: nat, limit: nat)
    requires n <= |ids| && (n == 0 || r.remaining == 0 || limit == 0 || r.cancelled)
    requires WalksAlong(walk, ids, price, hint)
    ensures walk(r, n, limit) == Some(r)
  {
    var here := RedeemAlong(r, VisitOrder(ids, n), price, hint, limit);
  }

  // ---------------------------------------------------------------------------
  // Batches
  // ---------------------------------------------------------------------------

  /** The rest of a batch, from a position of the array on. */
  type Batches = (Batch, nat) -> Option<Batch>

  ghost predicate RunsThrough(rest: Batches, who: seq<Address>, price: nat) {
    forall b: Batch, i: nat {:trigger BatchAll(b, who[i..], price)} ::
      i <= |who| ==> rest(b, i) == BatchAll(b, who[i..], price)
  }

  lemma BatchUnfolds(rest: Batches, b: Batch, who: seq<Address>, i: nat, price: nat)
    requires i <= |who| && RunsThrough(rest, who, price)
    ensures i == |who| ==> rest(b, i) == Some(b)
    ensures i < |who| ==>
              var next := BatchStep(b, who[i], price);
              rest(b, i) == if next.None? then None else rest(next.value, i + 1)
  {
    var here := BatchAll(b, who[i..], price);
    if i < |who| {
      assert who[i..][1..] == who[i + 1..];
      var next := BatchStep(b, who[i], price);
      if next.Some? {
        var there := BatchAll(next.value, who[i + 1..], price);
      }
    }
  }

  /** New amounts for a listed trove; the list refuses a ratio of zero. */
  ghost function Rewritten(s: System, a: Address, debt: nat, coll: nat): Option<System>
    requires a in s.troves
  {
    if NominalRatio(coll, debt) == 0 then None else WriteTrove(s, a, debt, coll, s.troves[a].snap)
  }

  /** The outcome for a trove, from the lot taken out of it. */
  ghost function Outcome(r: Redemption, s: Option<System>, lot: nat, collLot: nat): Option<Redemption>
    requires lot <= r.remaining
  {
    if s.None? then None else Some(Redeemed(r, s.value, lot, collLot))
  }

  lemma LotTaken(r: Redemption, a: Address, price: nat, hint: nat, t: Trove, lot: nat, collLot: nat)
    requires a in r.s.troves && price > 0 && t == r.s.troves[a] && t.debt >= GAS_COMPENSATION
    requires lot == Lot(r, t) && collLot == CollLot(lot, price) && collLot <= t.coll
    ensures
      var debt, coll := t.debt - lot, t.coll - collLot;
      && lot <= r.remaining && lot <= t.debt && (debt != GAS_COMPENSATION ==> lot == r.remaining)
      && RedeemApplied(r, a, price, hint) ==
           if debt == GAS_COMPENSATION then Outcome(r, CloseRedeemed(r.s, a, coll), lot, collLot)
           else if NominalRatio(coll, debt) != hint || debt - GAS_COMPENSATION < MIN_NET_DEBT then
             Some(r.(cancelled := true))
           else Outcome(r, Rewritten(r.s, a, debt, coll), lot, collLot)
  {
  }

  /** Amounts written first and the stake afterwards, or both at once. */
  lemma WrittenTwice(s: System, a: Address, t: Trove)
    requires t.stake == if a in s.troves then s.troves[a].stake else 0
    ensures WriteTrove(s.(troves := s.troves[a := t]), a, t.debt, t.coll, t.snap)
          == WriteTrove(s, a, t.debt, t.coll, t.snap)
  {
    var stake := NewStake(s, t.coll);
    if stake.Some? {
      var t' := t.(stake := stake.value);
      assert s.troves[a := t][a := t'] == s.troves[a := t'];
    }
  }

  lemma SplitUp(n: nat, d: nat)
    requires d > 0
    ensures n - n / d * d == n % d
  {
  }

  class TroveManagerState {
    var sys: System
    const sortedTroves: SortedTroves.SortedTroves

    /** The list holds exactly the active troves. */
    ghost predicate Valid()
      reads this, sortedTroves
    {
      sortedTroves.Valid() && forall a :: a in sortedTroves.ids <==> a in sys.troves
    }

    constructor (sys: System, list: SortedTroves.SortedTroves)
      requires list.Valid() && forall a :: a in list.ids <==> a in sys.troves
      ensures this.sys == sys && sortedTroves == list && Valid()
    {
      this.sys, sortedTroves := sys, list;
    }

    // -------------------------------------------------------------------------
    // Where a redemption starts
    // -------------------------------------------------------------------------

    /** `_isValidFirstRedemptionHint`. */
    method IsValidFirstRedemptionHint(hint: Address, price: nat) returns (valid: bool)
      requires Valid()
      ensures valid <==> hint in sortedTroves.ids
                         && ValidHint(sortedTroves.ids, CurrentRatios(sys, price), sortedTroves.IndexOf(hint))
    {
      if hint == ZERO_ADDRESS || hint !in sortedTroves.nodes || CurrentRatio(sys, hint, price) < MCR {
        return false;
      }
      sortedTroves.LinksOf(hint);
      var next := sortedTroves.Next(hint);
      return next == ZERO_ADDRESS || CurrentRatio(sys, next, price) < MCR;
    }

    /** The hint if it passes the test, otherwise the first redeemable trove from the end of the list. */
    method FirstToRedeem(hint: Address, price: nat) returns (current: Address, ghost n: nat)
      requires Valid()
      ensures n <= |sortedTroves.ids| && current == SortedTroves.Before(sortedTroves.ids, n)
      ensures current != ZERO_ADDRESS ==> current in sortedTroves.ids && CurrentRatio(sys, current, price) >= MCR
      ensures current == ZERO_ADDRESS ==> forall a :: a in sys.troves ==> CurrentRatio(sys, a, price) < MCR
      ensures
        var ids, icr := sortedTroves.ids, CurrentRatios(sys, price);
        n == Scan(ids, icr) || (hint in ids && n == sortedTroves.IndexOf(hint) + 1 && ValidHint(ids, icr, n - 1))
    {
      ghost var ids, icr := sortedTroves.ids, CurrentRatios(sys, price);
      var valid := IsValidFirstRedemptionHint(hint, price);
      if valid {
        return hint, sortedTroves.IndexOf(hint) + 1;
      }
      current, n := LastRedeemable(price);
    }

    method LastRedeemable(price: nat) returns (current: Address, ghost n: nat)
      requires Valid()
      ensures n == Scan(sortedTroves.ids, CurrentRatios(sys, price))
      ensures current == SortedTroves.Before(sortedTroves.ids, n)
      ensures current != ZERO_ADDRESS ==> current in sortedTroves.ids && CurrentRatio(sys, current, price) >= MCR
      ensures current == ZERO_ADDRESS ==> forall a :: a in sys.troves ==> CurrentRatio(sys, a, price) < MCR
    {
      ghost var ids, icr := sortedTroves.ids, CurrentRatios(sys, price);
      current, n := sortedTroves.tail, |ids|;
      SkipNone(ids, icr);
      while current != ZERO_ADDRESS && CurrentRatio(sys, current, price) < MCR
        invariant n <= |ids| && current == SortedTroves.Before(ids, n)
        invariant Skipped(ids, icr, n)
        decreases n
      {
        PositionOf(current, n - 1);
        sortedTroves.LinksOf(current);
        SkipOne(ids, icr, n);
        current, n := sortedTroves.Prev(current), n - 1;
      }
      if n > 0 {
        PositionOf(current, n - 1);
      }
      SkipEnds(ids, icr, n);
      if n == 0 {
        forall a | a in sys.troves ensures CurrentRatio(sys, a, price) < MCR {
          assert a in ids && !Redeemable(ids, icr, sortedTroves.IndexOf(a));
        }
      }
    }

    lemma PositionOf(a: Address, k: nat)
      requires Valid() && k < |sortedTroves.ids| && sortedTroves.ids[k] == a
      ensures a in sortedTroves.ids && sortedTroves.IndexOf(a) == k
    {
    }

    // -------------------------------------------------------------------------
    // Where a withdrawal from the Stability Pool is stopped
    // -------------------------------------------------------------------------

    /** `_requireNoUnderCollateralizedTroves`: on a list in order the last trove speaks for all. */
    method NoneUnderCollateralized(price: nat) returns (clear: bool)
      requires Valid()
      ensures clear <==> LastCovered(sys, sortedTroves.tail, price)
      ensures Descending(sortedTroves.ids, CurrentRatios(sys, price)) ==>
                (clear <==> forall a :: a in sys.troves ==> CurrentRatio(sys, a, price) >= MCR)
    {
      ghost var ids := sortedTroves.ids;
      if ids != [] {
        assert ids[|ids| - 1] in ids;
      }
      clear := CurrentRatio(sys, sortedTroves.tail, price) >= MCR;
    }

    /** `withdrawFromSP` over the list; a withdrawal of nothing does not look at it. */
    method WithdrawFromSP(a: Address, amount: nat, price: nat) returns (ok: bool)
      requires Valid() && StabilityPool.WellFormed(sys.pool)
      modifies this`sys
      ensures Becomes(ok, sys, WithdrawFromPool(old(sys), a, amount, sortedTroves.tail, price)) && (ok ==> Valid())
    {
      if amount != 0 {
        var clear := NoneUnderCollateralized(price);
        if !clear {
          return false;
        }
      }
      var pool := StabilityPool.Withdraw(sys.pool, a, amount, true);
      if pool.None? {
        return false;
      }
      sys := sys.(pool := pool.value);
      ok := true;
    }

    // -------------------------------------------------------------------------
    // Troves, stakes and pools
    // -------------------------------------------------------------------------

    /** `_movePendingTroveRewardsToActivePool`. */
    method MovePendingRewards(debt: nat, coll: nat) returns (ok: bool)
      modifies this`sys
      ensures Becomes(ok, sys, MoveRewards(old(sys), debt, coll))
    {
      if sys.defaultDebt < debt {
        return false;
      }
      sys := sys.(defaultDebt := sys.defaultDebt - debt);
      sys := sys.(activeDebt := sys.activeDebt + debt);
      if sys.defaultColl < coll {
        return false;
      }
      sys := sys.(defaultColl := sys.defaultColl - coll);
      sys := sys.(activeColl := sys.activeColl + coll);
      ok := true;
    }

    method SetTrove(a: Address, t: Trove)
      modifies this`sys
      ensures sys == old(sys).(troves := old(sys).troves[a := t])
    {
      sys := sys.(troves := sys.troves[a := t]);
    }

    /** `_applyPendingRewards`: the trove first, then the pools. */
    method ApplyPendingRewards(a: Address) returns (ok: bool)
      requires a in sys.troves
      modifies this`sys
      ensures Becomes(ok, sys, ApplyRewards(old(sys), a))
    {
      var t := sys.troves[a];
      if !HasPendingRewards(sys.l, t) {
        return true;
      }
      var coll, debt := PendingColl(sys.l, t), PendingDebt(sys.l, t);
      t := t.(coll := t.coll + coll);
      t := t.(debt := t.debt + debt);
      t := t.(snap := sys.l);
      SetTrove(a, t);
      ok := MovePendingRewards(debt, coll);
    }

    /** `_updateStakeAndTotalStakes`. */
    method UpdateStakeAndTotalStakes(a: Address) returns (ok: bool)
      requires a in sys.troves
      modifies this`sys
      ensures Becomes(ok, sys,
            WriteTrove(old(sys), a, old(sys).troves[a].debt, old(sys).troves[a].coll, old(sys).troves[a].snap))
    {
      var t := sys.troves[a];
      var newStake := NewStake(sys, t.coll);
      if newStake.None? || sys.totalStakes < t.stake {
        return false;
      }
      SetTrove(a, t.(stake := newStake.value));
      sys := sys.(totalStakes := sys.totalStakes - t.stake + newStake.value);
      ok := true;
    }

    /** New amounts, and the stake that goes with them. */
    method WriteAmounts(a: Address, debt: nat, coll: nat, snap: Rewards) returns (ok: bool)
      modifies this`sys
      ensures Becomes(ok, sys, WriteTrove(old(sys), a, debt, coll, snap))
    {
      var t := Trove(debt, coll, if a in sys.troves then sys.troves[a].stake else 0, snap);
      WrittenTwice(sys, a, t);
      SetTrove(a, t);
      ok := UpdateStakeAndTotalStakes(a);
    }

    /** Removes a trove that is no longer active from the list. */
    method Unlist(a: Address, ghost was: System)
      requires sortedTroves.Valid() && (forall b :: b in sortedTroves.ids <==> b in was.troves)
      requires a in was.troves && sys.troves == was.troves - {a}
      modifies sortedTroves
      ensures Valid() && sortedTroves.ids == SortedTroves.RemoveAt(old(sortedTroves.ids), old(sortedTroves.IndexOf(a)))
    {
      ghost var ids, k := sortedTroves.ids, sortedTroves.IndexOf(a);
      var ok := sortedTroves.Remove(a);
      SortedTroves.RemovedMembers(ids, k);
    }

    /** `reInsert` of a trove, with its new ratio. */
    method Relist(a: Address, ratio: nat, upper: Address, lower: Address) returns (ok: bool, ghost k: nat)
      requires Valid() && a in sys.troves
      modifies sortedTroves
      ensures Valid() && ok == (ratio > 0)
      ensures ok ==>
                var rest := SortedTroves.RemoveAt(old(sortedTroves.ids), old(sortedTroves.IndexOf(a)));
                && SortedTroves.Fits(rest, NominalRatios(sys.troves, sys.l), ratio, k)
                && sortedTroves.ids == SortedTroves.InsertAt(rest, k, a)
    {
      ghost var ids, i := sortedTroves.ids, sortedTroves.IndexOf(a);
      SortedTroves.RemovedMembers(ids, i);
      ok, k := sortedTroves.ReInsert(NominalRatios(sys.troves, sys.l), a, ratio, upper, lower);
      if ok {
        SortedTroves.InsertedMembers(SortedTroves.RemoveAt(ids, i), k, a);
      }
    }

    /** `_removeStake` and `_closeTrove`; the trove leaves the list with it. */
    method RemoveTrove(a: Address) returns (ok: bool)
      requires Valid() && a in sys.troves
      modifies this`sys, sortedTroves
      ensures Becomes(ok, sys, CloseTrove(old(sys), a))
      ensures ok ==>
                && Valid()
                && sortedTroves.ids == SortedTroves.RemoveAt(old(sortedTroves.ids), old(sortedTroves.IndexOf(a)))
    {
      ok := RemoveStakeAndEntry(a);
      if ok {
        Unlist(a, old(sys));
      }
    }

    method RemoveStakeAndEntry(a: Address) returns (ok: bool)
      requires a in sys.troves
      modifies this`sys
      ensures Becomes(ok, sys, CloseTrove(old(sys), a))
    {
      if sys.totalStakes < sys.troves[a].stake {
        return false;
      }
      sys := sys.(totalStakes := sys.totalStakes - sys.troves[a].stake);
      if |sys.troves| <= 1 {
        return false;
      }
      sys := sys.(troves := sys.troves - {a});
      ok := true;
    }

    // -------------------------------------------------------------------------
    // Redemption
    // -------------------------------------------------------------------------

    /** `_redeemCloseTrove`. */
    method RedeemCloseTrove(a: Address, coll: nat) returns (ok: bool)
      modifies this`sys
      ensures ok == (old(sys).supply >= GAS_COMPENSATION && old(sys).gasPool >= GAS_COMPENSATION
                     && old(sys).activeDebt >= GAS_COMPENSATION && old(sys).activeColl >= coll)
      ensures ok ==> sys == old(sys).(
                supply := old(sys).supply - GAS_COMPENSATION, gasPool := old(sys).gasPool - GAS_COMPENSATION,
                activeDebt := old(sys).activeDebt - GAS_COMPENSATION, activeColl := old(sys).activeColl - coll,
                surplus := AddSurplus(old(sys).surplus, a, coll), surplusColl := old(sys).surplusColl + coll)
    {
      if sys.gasPool < GAS_COMPENSATION || sys.supply < GAS_COMPENSATION || sys.activeDebt < GAS_COMPENSATION {
        return false;
      }
      sys := sys.(gasPool := sys.gasPool - GAS_COMPENSATION);
      sys := sys.(supply := sys.supply - GAS_COMPENSATION);
      sys := sys.(activeDebt := sys.activeDebt - GAS_COMPENSATION);
      sys := sys.(surplus := AddSurplus(sys.surplus, a, coll));
      if sys.activeColl < coll {
        return false;
      }
      sys := sys.(activeColl := sys.activeColl - coll);
      sys := sys.(surplusColl := sys.surplusColl + coll);
      ok := true;
    }

    /** A trove redeemed to the last reserve: closed, off the list, its surplus set aside. */
    method CloseByRedemption(a: Address, coll: nat) returns (ok: bool)
      requires Valid() && a in sys.troves
      modifies this`sys, sortedTroves
      ensures Becomes(ok, sys, CloseRedeemed(old(sys), a, coll))
      ensures ok ==>
                && Valid()
                && sortedTroves.ids == SortedTroves.RemoveAt(old(sortedTroves.ids), old(sortedTroves.IndexOf(a)))
    {
      ok := RemoveTrove(a);
      if ok {
        ok := RedeemCloseTrove(a, coll);
      }
    }

    /** A trove redeemed in part: reinserted under its new ratio, then written. */
    method RedeemPartially(a: Address, debt: nat, coll: nat, upper: Address, lower: Address) returns (ok: bool)
      requires Valid() && a in sys.troves
      modifies this`sys, sortedTroves
      ensures Becomes(ok, sys, Rewritten(old(sys), a, debt, coll)) && (ok ==> Valid())
    {
      ghost var k;
      ok, k := Relist(a, NominalRatio(coll, debt), upper, lower);
      if ok {
        ok := WriteAmounts(a, debt, coll, sys.troves[a].snap);
      }
    }

    /** `_redeemCollateralFromTrove`: a lot of the debt against collateral of equal value. */
    method RedeemLot(r: Redemption, a: Address, price: nat, hint: nat, upper: Address, lower: Address)
      returns (next: Option<Redemption>)
      requires Valid() && r.s == sys && a in sys.troves && !r.cancelled && price > 0
      modifies this`sys, sortedTroves
      ensures next == RedeemApplied(r, a, price, hint)
      ensures next.Some? ==> Valid() && sys == next.value.s
      ensures next.Some? && next.value.remaining > 0 && !next.value.cancelled ==>
                sortedTroves.ids == SortedTroves.RemoveAt(old(sortedTroves.ids), old(sortedTroves.IndexOf(a)))
    {
      var t := sys.troves[a];
      if t.debt < GAS_COMPENSATION {
        return None;
      }
      var lot := Lot(r, t);
      var collLot := CollLot(lot, price);
      if t.coll < collLot {
        return None;
      }
      LotTaken(r, a, price, hint, t, lot, collLot);
      var debt, coll, ok := t.debt - lot, t.coll - collLot, true;
      if debt == GAS_COMPENSATION {
        ok := CloseByRedemption(a, coll);
      } else if NominalRatio(coll, debt) != hint || debt - GAS_COMPENSATION < MIN_NET_DEBT {
        return Some(r.(cancelled := true));
      } else {
        ok := RedeemPartially(a, debt, coll, upper, lower);
      }
      next := if ok then Some(Redeemed(r, sys, lot, collLot)) else None;
    }

    /**
     * One trove of a redemption: its rewards, its lot, and its place in the list. Only a trove
     * that is closed leaves the list, and only a partial redemption moves one.
     */
    method RedeemFromTrove(r: Redemption, a: Address, price: nat, hint: nat, upper: Address, lower: Address)
      returns (next: Option<Redemption>)
      requires Valid() && r.s == sys && a in sys.troves && !r.cancelled
      modifies this`sys, sortedTroves
      ensures next == RedeemFrom(r, a, price, hint)
      ensures next.Some? ==> Valid() && sys == next.value.s
      ensures next.Some? && next.value.remaining > 0 && !next.value.cancelled ==>
                sortedTroves.ids == SortedTroves.RemoveAt(old(sortedTroves.ids), old(sortedTroves.IndexOf(a)))
    {
      if price == 0 {
        return None;
      }
      var applied := ApplyPendingRewards(a);
      if !applied {
        return None;
      }
      next := RedeemLot(r.(s := sys), a, price, hint, upper, lower);
    }

    /** `redeemCollateral`, with the fee in collateral as an argument. */
    method RedeemCollateral(
        funds: nat, amount: nat, firstHint: Address, upper: Address, lower: Address, hint: nat,
        maxIterations: nat, price: nat, fee: nat) returns (ok: bool, ghost n: nat)
      requires Valid()
      modifies this`sys, sortedTroves
      ensures
        var ids, icr := old(sortedTroves.ids), CurrentRatios(old(sys), price);
        && n <= |ids|
        && (n == Scan(ids, icr)
            || (firstHint in ids && n == old(sortedTroves.IndexOf(firstHint)) + 1 && ValidHint(ids, icr, n - 1)))
        && var limit := if maxIterations == 0 then INFINITE_RATIO else maxIterations;
           var after := Redeem(old(sys), funds, amount, VisitOrder(ids, n), price, hint, limit, fee);
           ok == after.Some? && (ok ==> Valid() && sys == after.value)
    {
      var current;
      current, n := FirstToRedeem(firstHint, price);
      if CollateralRatio(SystemColl(sys), SystemDebt(sys), price) < MCR || amount == 0 || funds < amount {
        return false, n;
      }
      var limit := if maxIterations == 0 then INFINITE_RATIO else maxIterations;
      ghost var ids := sortedTroves.ids;
      ghost var walk := (x: Redemption, k: nat, l: nat) =>
        if k <= |ids| then RedeemAlong(x, VisitOrder(ids, k), price, hint, l) else None;
      var redeemed, r := RedeemLoop(current, n, amount, price, hint, upper, lower, limit, walk);
      ok := redeemed;
      if ok {
        ok := Burn(r, fee);
      }
    }

    method Burn(r: Redemption, fee: nat) returns (ok: bool)
      requires Valid() && r.s == sys
      modifies this`sys
      ensures ok == BurnRedeemed(r, fee).Some? && (ok ==> Valid() && sys == BurnRedeemed(r, fee).value)
    {
      ok := r.drawn > fee && sys.supply >= r.redeemed && sys.activeDebt >= r.redeemed && sys.activeColl >= r.drawn;
      if ok {
        sys := sys.(supply := sys.supply - r.redeemed, activeDebt := sys.activeDebt - r.redeemed,
                    activeColl := sys.activeColl - r.drawn);
      }
    }

    lemma PrefixLinks(ids: seq<Address>, n: nat, a: Address)
      requires Valid() && n > 0 && Prefix(ids, sortedTroves.ids, n) && a == ids[n - 1]
      ensures a in sys.troves && a in sortedTroves.ids && sortedTroves.IndexOf(a) == n - 1
      ensures sortedTroves.Prev(a) == SortedTroves.Before(ids, n - 1)
    {
      assert ids[..n][n - 1] == sortedTroves.ids[..n][n - 1];
      PositionOf(a, n - 1);
      sortedTroves.LinksOf(a);
      assert n > 1 ==> ids[..n][n - 2] == sortedTroves.ids[..n][n - 2];
    }

    /** Between two troves of a redemption that started on the list `ids`, with `left` to go. */
    ghost predicate Between(ids: seq<Address>, left: nat, current: Address, r: Redemption)
      reads this, sortedTroves
    {
      && Valid() && sys == r.s && left <= |ids| && current == SortedTroves.Before(ids, left)
      && ZERO_ADDRESS !in ids
      && (r.remaining > 0 && !r.cancelled ==> Prefix(ids, sortedTroves.ids, left))
    }

    /** The next trove is looked up before the list changes. */
    method RedeemNext(
        r: Redemption, current: Address, ghost ids: seq<Address>, ghost left: nat,
        price: nat, hint: nat, upper: Address, lower: Address, ghost limit: nat, ghost walk: Walk)
      returns (next: Option<Redemption>, nextToCheck: Address)
      requires left > 0 && r.remaining > 0 && !r.cancelled && Between(ids, left, current, r)
      requires limit > 0 && WalksAlong(walk, ids, price, hint)
      modifies this`sys, sortedTroves
      ensures walk(r, left, limit) == if next.None? then None else walk(next.value, left - 1, limit - 1)
      ensures next.Some? ==> Between(ids, left - 1, nextToCheck, next.value)
    {
      PrefixLinks(ids, left, current);
      nextToCheck := sortedTroves.Prev(current);
      PrefixShrinks(ids, sortedTroves.ids, left - 1);
      WalkUnfolds(walk, r, ids, left, price, hint, limit);
      next := RedeemFromTrove(r, current, price, hint, upper, lower);
    }

    /** The walk up the list. What it meets is the order of the list as it was at the start. */
    method RedeemLoop(
        start: Address, ghost n: nat, amount: nat, price: nat, hint: nat, upper: Address, lower: Address, max: nat,
        ghost walk: Walk)
      returns (ok: bool, r: Redemption)
      requires Valid() && n <= |sortedTroves.ids| && start == SortedTroves.Before(sortedTroves.ids, n)
      requires WalksAlong(walk, sortedTroves.ids, price, hint)
      modifies this`sys, sortedTroves
      ensures
        var end := walk(Redemption(old(sys), amount, 0, 0, 0, false), n, max);
        ok == end.Some? && (ok ==> Valid() && r == end.value && sys == r.s)
    {
      ghost var ids := sortedTroves.ids;
      r := Redemption(sys, amount, 0, 0, 0, false);
      ghost var end := walk(r, n, max);
      var current, limit := start, max;
      ghost var left: nat := n;
      while current != ZERO_ADDRESS && r.remaining > 0 && limit > 0 && !r.cancelled
        invariant Between(ids, left, current, r)
        invariant end == walk(r, left, limit)
        decreases left
      {
        var next;
        next, current := RedeemNext(r, current, ids, left, price, hint, upper, lower, limit, walk);
        if next.None? {
          return false, r;
        }
        limit := limit - 1;
        r, left := next.value, left - 1;
      }
      WalkEnds(walk, r, ids, left, price, hint, limit);
      ok := true;
    }

    // -------------------------------------------------------------------------
    // Liquidation
    // -------------------------------------------------------------------------

    /** The trove's rewards join the ActivePool, its stake and its place in the list go. */
    method TakeOutTrove(a: Address) returns (ok: bool)
      requires Valid() && a in sys.troves
      modifies this`sys, sortedTroves
      ensures Becomes(ok, sys, TakeOut(old(sys), a)) && (ok ==> Valid())
    {
      var t := sys.troves[a];
      ok := MovePendingRewards(PendingDebt(sys.l, t), PendingColl(sys.l, t));
      if ok {
        ok := RemoveTrove(a);
      }
    }

    /** `accountSurplus` of the CollSurplusPool, if there is any. */
    method AccountSurplus(a: Address, amount: nat)
      modifies this`sys
      ensures sys == old(sys).(surplus := AddSurplus(old(sys).surplus, a, amount))
    {
      if amount > 0 {
        var before := if a in sys.surplus then sys.surplus[a] else 0;
        sys := sys.(surplus := sys.surplus[a := before + amount]);
      }
    }

    /** A liquidated trove's split, tallied. */
    method LiquidateTrove(b: Batch, a: Address, x: Split) returns (next: Option<Batch>)
      requires Valid() && b.s == sys && a in sys.troves
      modifies this`sys, sortedTroves
      ensures next == LiquidateOne(b, a, x)
      ensures next.Some? ==> Valid() && sys == next.value.s
    {
      var ok := TakeOutTrove(a);
      if !ok || b.remaining < x.debtToOffset {
        return None;
      }
      AccountSurplus(a, x.surplus);
      next := Some(b.(s := sys, remaining := b.remaining - x.debtToOffset, totals := Add(b.totals, x)));
    }

    /** `_liquidateNormalMode`, for a trove below 110%. */
    method LiquidateNormalMode(b: Batch, a: Address, price: nat) returns (next: Option<Batch>)
      requires Valid() && b.s == sys
      modifies this`sys, sortedTroves
      ensures next == NormalStep(b, a, price)
      ensures next.Some? ==> Valid() && sys == next.value.s
    {
      if CurrentRatio(sys, a, price) >= MCR || a !in sys.troves {
        return Some(b);
      }
      var t := sys.troves[a];
      next := LiquidateTrove(b, a, OffsetSplit(EntireDebt(sys.l, t), EntireColl(sys.l, t), b.remaining));
    }

    /** `_liquidateRecoveryMode`, by the ratio of the trove, and the amounts that track the system. */
    method LiquidateRecoveryMode(b: Batch, a: Address, price: nat) returns (next: Option<Batch>)
      requires Valid() && b.s == sys
      modifies this`sys, sortedTroves
      ensures next == RecoveryStep(b, a, price)
      ensures next.Some? ==> Valid() && sys == next.value.s
    {
      if a !in sys.troves {
        return Some(b);
      }
      var icr, t := CurrentRatio(sys, a, price), sys.troves[a];
      if icr >= MCR && b.remaining == 0 {
        return Some(b);
      }
      var tcr := CollateralRatio(b.coll, b.debt, price);
      var x, after := NOTHING, b;
      if |sys.troves| > 1 {
        var split := RecoverySplit(EntireDebt(sys.l, t), EntireColl(sys.l, t), icr, tcr, b.remaining, price);
        if split.None? {
          return None;
        }
        x := split.value;
      }
      if x != NOTHING {
        var done := LiquidateTrove(b, a, x);
        if done.None? {
          return None;
        }
        after := done.value;
      }
      if b.debt < x.debtToOffset || b.coll < x.collToPool {
        return None;
      }
      after := after.(debt := b.debt - x.debtToOffset);
      after := after.(coll := b.coll - x.collToPool);
      next := Some(after.(normal := CollateralRatio(after.coll, after.debt, price) >= CCR));
    }

    /** One trove of the batch, in the mode that the batch has come to. */
    method LiquidateNext(b: Batch, who: seq<Address>, i: nat, price: nat, ghost rest: Batches)
        returns (next: Option<Batch>)
      requires Valid() && b.s == sys && i < |who| && RunsThrough(rest, who, price)
      modifies this`sys, sortedTroves
      ensures rest(b, i) == if next.None? then None else rest(next.value, i + 1)
      ensures next.Some? ==> Valid() && sys == next.value.s
    {
      BatchUnfolds(rest, b, who, i, price);
      if b.normal {
        next := LiquidateNormalMode(b, who[i], price);
      } else {
        next := LiquidateRecoveryMode(b, who[i], price);
      }
    }

    method LiquidationLoop(who: seq<Address>, price: nat, ghost rest: Batches) returns (ok: bool, b: Batch)
      requires Valid() && RunsThrough(rest, who, price)
      modifies this`sys, sortedTroves
      ensures
        var end := rest(BatchStart(old(sys), price), 0);
        ok == end.Some? && (ok ==> Valid() && b == end.value && sys == b.s)
    {
      b := BatchStart(sys, price);
      ghost var end := rest(b, 0);
      var i := 0;
      while i < |who|
        invariant 0 <= i <= |who| && Valid() && sys == b.s
        invariant end == rest(b, i)
      {
        var next := LiquidateNext(b, who, i, price, rest);
        if next.None? {
          return false, b;
        }
        b, i := next.value, i + 1;
      }
      BatchUnfolds(rest, b, who, i, price);
      ok := true;
    }

    /** The Stability Pool's part: debt and supply burnt, collateral from the ActivePool. */
    method OffsetWithPool(debt: nat, coll: nat) returns (ok: bool)
      modifies this`sys
      ensures Becomes(ok, sys, OffsetDebt(old(sys), debt, coll)) && (ok ==> sys.troves == old(sys).troves)
    {
      var pool := StabilityPool.Offset(sys.pool, debt, coll);
      if pool.None? {
        return false;
      }
      if sys.pool.total == 0 || debt == 0 {
        return true;
      }
      sys := sys.(pool := pool.value);
      if sys.activeDebt < debt || sys.supply < debt || sys.activeColl < coll {
        return false;
      }
      sys := sys.(activeDebt := sys.activeDebt - debt);
      sys := sys.(supply := sys.supply - debt);
      sys := sys.(activeColl := sys.activeColl - coll);
      ok := true;
    }

    /** `_redistributeDebtAndColl`: the running totals with their remainders, then the pools. */
    method RedistributeDebtAndColl(debt: nat, coll: nat) returns (ok: bool)
      modifies this`sys
      ensures Becomes(ok, sys, Redistribute(old(sys), debt, coll)) && (ok ==> sys.troves == old(sys).troves)
    {
      if debt == 0 {
        return true;
      }
      if sys.totalStakes == 0 {
        return false;
      }
      var collNumerator := coll * DECIMAL_PRECISION + sys.collError;
      var debtNumerator := debt * DECIMAL_PRECISION + sys.debtError;
      var collPerUnit, debtPerUnit := collNumerator / sys.totalStakes, debtNumerator / sys.totalStakes;
      SplitUp(collNumerator, sys.totalStakes);
      SplitUp(debtNumerator, sys.totalStakes);
      sys := sys.(collError := collNumerator - collPerUnit * sys.totalStakes);
      sys := sys.(debtError := debtNumerator - debtPerUnit * sys.totalStakes);
      sys := sys.(l := sys.l.(coll := sys.l.coll + collPerUnit));
      sys := sys.(l := sys.l.(debt := sys.l.debt + debtPerUnit));
      ok := MoveToDefaultPool(debt, coll);
    }

    method MoveToDefaultPool(debt: nat, coll: nat) returns (ok: bool)
      modifies this`sys
      ensures ok == (old(sys).activeDebt >= debt && old(sys).activeColl >= coll)
      ensures ok ==> sys == old(sys).(
                activeDebt := old(sys).activeDebt - debt, defaultDebt := old(sys).defaultDebt + debt,
                activeColl := old(sys).activeColl - coll, defaultColl := old(sys).defaultColl + coll)
    {
      if sys.activeDebt < debt || sys.activeColl < coll {
        return false;
      }
      sys := sys.(activeDebt := sys.activeDebt - debt);
      sys := sys.(defaultDebt := sys.defaultDebt + debt);
      sys := sys.(activeColl := sys.activeColl - coll);
      sys := sys.(defaultColl := sys.defaultColl + coll);
      ok := true;
    }

    /** The surplus, `_updateSystemSnapshots_excludeCollRemainder` and `_sendGasCompensation`. */
    method SettleTotals(x: Split) returns (ok: bool)
      modifies this`sys
      ensures Becomes(ok, sys, Settle(old(sys), x)) && (ok ==> sys.troves == old(sys).troves)
    {
      if sys.activeColl < x.surplus {
        return false;
      }
      sys := sys.(activeColl := sys.activeColl - x.surplus);
      sys := sys.(surplusColl := sys.surplusColl + x.surplus);
      if sys.activeColl < x.gasColl {
        return false;
      }
      sys := sys.(totalStakesSnapshot := sys.totalStakes);
      sys := sys.(totalCollateralSnapshot := sys.activeColl - x.gasColl + sys.defaultColl);
      if sys.gasPool < x.gasDebt {
        return false;
      }
      sys := sys.(gasPool := sys.gasPool - x.gasDebt);
      sys := sys.(activeColl := sys.activeColl - x.gasColl);
      ok := true;
    }

    method FinishLiquidation(x: Split) returns (ok: bool)
      requires Valid()
      modifies this`sys
      ensures Becomes(ok, sys, Finish(old(sys), x)) && (ok ==> Valid())
    {
      if x.debt == 0 {
        return false;
      }
      ok := OffsetWithPool(x.debtToOffset, x.collToPool);
      if ok {
        ok := RedistributeDebtAndColl(x.debtToRedistribute, x.collToRedistribute);
      }
      if ok {
        ok := SettleTotals(x);
      }
    }

    /** `batchLiquidateTroves`. */
    method BatchLiquidateTroves(who: seq<Address>, price: nat) returns (ok: bool)
      requires Valid()
      modifies this`sys, sortedTroves
      ensures Becomes(ok, sys, LiquidateBatch(old(sys), who, price)) && (ok ==> Valid())
    {
      if who == [] {
        return false;
      }
      ghost var rest := (b: Batch, i: nat) => if i <= |who| then BatchAll(b, who[i..], price) else None;
      assert who[0..] == who;
      var done, b := LiquidationLoop(who, price, rest);
      if !done {
        return false;
      }
      ok := FinishLiquidation(b.totals);
    }
  }
}
