/**
 * Opening, adjusting and closing a trove, with its place in the sorted list. Amounts and refusals
 * are those of the trove system, and the list stays sorted by the current nominal ratios.
 */
module BorrowerOperations {
  import opened Base
  import opened Liquidation
  import opened TroveManager
  import opened TroveManagerContract
  import SortedTroves

  ghost predicate InOrder(s: System, ids: seq<Address>) {
    SortedTroves.Sorted(ids, NominalRatios(s.troves, s.l))
  }

  /** The trove at position `k`, of recorded ratio `x`, was put where it fits. */
  ghost predicate PutAt(nicr: Ratios, rest: seq<Address>, x: nat, k: nat, a: Address, ids: seq<Address>) {
    SortedTroves.Fits(rest, nicr, x, k) && ids == SortedTroves.InsertAt(rest, k, a)
  }

  /** The other troves are as they were. */
  ghost predicate OthersKept(s: System, s': System, a: Address) {
    s'.l == s.l && forall b :: b != a ==>
      (b in s.troves <==> b in s'.troves) && (b in s.troves ==> s'.troves[b] == s.troves[b])
  }

  lemma SameOrder(s: System, s': System, a: Address, ids: seq<Address>)
    requires InOrder(s, ids) && OthersKept(s, s', a) && a !in ids
    ensures InOrder(s', ids)
  {
    var nicr, nicr' := NominalRatios(s.troves, s.l), NominalRatios(s'.troves, s'.l);
    forall i, j | 0 <= i < j < |ids| ensures nicr'(ids[i]) >= nicr'(ids[j]) {
      assert nicr(ids[i]) >= nicr(ids[j]) && ids[i] in ids && ids[j] in ids;
    }
  }

  /** A trove without rewards to come is listed under its own ratio. */
  lemma InsertedInOrder(s: System, s': System, a: Address, rest: seq<Address>, x: nat, k: nat, ids: seq<Address>)
    requires InOrder(s, rest) && OthersKept(s, s', a) && a !in rest
          && PutAt(NominalRatios(s'.troves, s'.l), rest, x, k, a, ids)
    requires a in s'.troves && s'.troves[a].snap == s'.l && x == NominalRatio(s'.troves[a].coll, s'.troves[a].debt)
    ensures InOrder(s', ids)
  {
    SameOrder(s, s', a, rest);
    NothingPending(s'.l, s'.troves[a]);
    SortedTroves.InsertionSortedIff(rest, NominalRatios(s'.troves, s'.l), a, k);
  }

  lemma NothingPending(l: Rewards, t: Trove)
    requires t.snap == l
    ensures EntireColl(l, t) == t.coll && EntireDebt(l, t) == t.debt
  {
  }

  lemma RemovedInOrder(s: System, s': System, a: Address, ids: seq<Address>, k: nat)
    requires InOrder(s, ids) && OthersKept(s, s', a) && Distinct(ids) && k < |ids| && ids[k] == a
    ensures a !in SortedTroves.RemoveAt(ids, k) && InOrder(s, SortedTroves.RemoveAt(ids, k))
    ensures InOrder(s', SortedTroves.RemoveAt(ids, k))
  {
    SortedTroves.RemovalSorted(ids, NominalRatios(s.troves, s.l), k);
    SortedTroves.RemovedMembers(ids, k);
    SameOrder(s, s', a, SortedTroves.RemoveAt(ids, k));
  }

  /** The debt of a new trove: the amount, the fee outside Recovery Mode, and the reserve. */
  function OpenDebt(s: System, amount: nat, fee: nat, price: nat): nat {
    (if RecoveryMode(s, price) then amount else amount + fee) + GAS_COMPENSATION
  }

  /** What `openTrove` requires. */
  predicate OpenAllowed(s: System, a: Address, coll: nat, debt: nat, price: nat) {
    && a !in s.troves && debt >= MIN_NET_DEBT + GAS_COMPENSATION && NominalRatio(coll, debt) > 0
    && var ratio := CollateralRatio(coll, debt, price);
       if RecoveryMode(s, price) then ratio >= CCR
       else ratio >= MCR && CollateralRatio(SystemColl(s) + coll, SystemDebt(s) + debt, price) >= CCR
  }

  ghost function Established(s: System, a: Address, coll: nat, debt: nat): Option<System> {
    var written := WriteTrove(s, a, debt, coll, s.l);
    if written.None? then None else Some(Booked(written.value, coll, debt))
  }

  ghost function Booked(s: System, coll: nat, debt: nat): (s': System)
    ensures s'.troves == s.troves && s'.l == s.l
  {
    s.(activeColl := s.activeColl + coll, activeDebt := s.activeDebt + debt,
       supply := s.supply + debt, gasPool := s.gasPool + GAS_COMPENSATION)
  }

  lemma OpenSplits(s: System, a: Address, coll: nat, amount: nat, fee: nat, price: nat)
    ensures
      var debt := OpenDebt(s, amount, fee, price);
      Open(s, a, coll, amount, fee, price) == if OpenAllowed(s, a, coll, debt, price)
          then Established(s, a, coll, debt) else None
  {
  }

  /** The listed trove has its recorded ratio, and the other troves are as they were. */
  ghost predicate Placed(s: System, s': System, a: Address, rest: seq<Address>, k: nat, ids: seq<Address>) {
    && a in s'.troves && OthersKept(s, s', a)
    && PutAt(NominalRatios(s'.troves, s'.l), rest, NominalRatio(s'.troves[a].coll, s'.troves[a].debt), k, a, ids)
  }

  lemma EstablishedPlaced(s: System, a: Address, coll: nat, debt: nat, rest: seq<Address>, k: nat, ids: seq<Address>)
    requires Established(s, a, coll, debt).Some? && a !in rest
    requires
      var s' := Established(s, a, coll, debt).value;
      PutAt(NominalRatios(s'.troves, s'.l), rest, NominalRatio(coll, debt), k, a, ids)
    ensures
      var s' := Established(s, a, coll, debt).value;
      Placed(s, s', a, rest, k, ids) && (InOrder(s, rest) ==> InOrder(s', ids))
  {
    var s' := Established(s, a, coll, debt).value;
    if InOrder(s, rest) {
      InsertedInOrder(s, s', a, rest, NominalRatio(coll, debt), k, ids);
    }
  }

  /** The amounts of a trove after an adjustment that its collateral and debt allow. */
  function AdjustedColl(t: Trove, x: Adjustment): nat
    requires x.collOut <= t.coll + x.collIn
  {
    t.coll + x.collIn - x.collOut
  }

  function AdjustedDebt(t: Trove, x: Adjustment, net: nat): nat
    requires x.increase || net <= t.debt
  {
    if x.increase then t.debt + net else t.debt - net
  }

  /** What `_adjustTrove` requires of a trove whose rewards are applied. */
  predicate AdjustAllowed(s: System, t: Trove, x: Adjustment, net: nat, price: nat) {
    && x.collOut <= t.coll + x.collIn && (x.increase || net <= t.debt)
    && ValidAdjustment(s, x, price, t.coll, t.debt, AdjustedColl(t, x), AdjustedDebt(t, x, net))
    && (!x.increase && x.change > 0 ==>
          AdjustedDebt(t, x, net) >= GAS_COMPENSATION + MIN_NET_DEBT && x.funds >= net)
  }

  ghost function TokensMoved(s: System, x: Adjustment, net: nat): Option<System> {
    if s.activeColl + x.collIn < x.collOut || (!x.increase && (s.activeDebt < net || s.supply < net)) then None
    else Some(s.(activeColl := s.activeColl + x.collIn - x.collOut,
                 activeDebt := if x.increase then s.activeDebt + net else s.activeDebt - net,
                 supply := if x.increase then s.supply + net else s.supply - net))
  }

  ghost function RewrittenAndMoved(s: System, a: Address, coll: nat, debt: nat, x: Adjustment, net: nat): Option<System>
    requires a in s.troves
  {
    var written := Rewritten(s, a, debt, coll);
    if written.None? then None else TokensMoved(written.value, x, net)
  }

  lemma AdjustSplits(s: System, a: Address, x: Adjustment, price: nat)
    requires a in s.troves
    ensures
      var t, net := s.troves[a], NetChange(s, x, price);
      AdjustApplied(s, a, x, price) ==
        if AdjustAllowed(s, t, x, net, price) then
          RewrittenAndMoved(s, a, AdjustedColl(t, x), AdjustedDebt(t, x, net), x, net)
        else None
  {
  }

  /** What `closeTrove` requires of a trove whose rewards are applied. */
  predicate CloseAllowed(s: System, t: Trove, funds: nat, price: nat) {
    && t.debt >= GAS_COMPENSATION && funds >= t.debt - GAS_COMPENSATION
    && t.coll <= SystemColl(s) && t.debt <= SystemDebt(s)
    && CollateralRatio(SystemColl(s) - t.coll, SystemDebt(s) - t.debt, price) >= CCR
  }

  ghost function Repaid(s: System, debt: nat, coll: nat): Option<System> {
    if s.activeDebt < debt || s.supply < debt || s.gasPool < GAS_COMPENSATION || s.activeColl < coll then None
    else Some(s.(activeDebt := s.activeDebt - debt, supply := s.supply - debt,
                 gasPool := s.gasPool - GAS_COMPENSATION, activeColl := s.activeColl - coll))
  }

  lemma CloseSplits(s: System, a: Address, funds: nat, price: nat)
    requires a in s.troves
    ensures
      var t, closed := s.troves[a], TroveManager.CloseTrove(s, a);
      CloseApplied(s, a, funds, price) ==
        if !CloseAllowed(s, t, funds, price) || closed.None? then None else Repaid(closed.value, t.debt, t.coll)
  {
  }

  lemma RewrittenPlaced(
      s: System, a: Address, coll: nat, debt: nat, x: Adjustment, net: nat, rest: seq<Address>, k: nat,
      ids: seq<Address>)
    requires a in s.troves && RewrittenAndMoved(s, a, coll, debt, x, net).Some?
    requires
      var s' := RewrittenAndMoved(s, a, coll, debt, x, net).value;
      PutAt(NominalRatios(s'.troves, s'.l), rest, NominalRatio(coll, debt), k, a, ids)
    ensures Placed(s, RewrittenAndMoved(s, a, coll, debt, x, net).value, a, rest, k, ids)
  {
  }

  /** No redistribution has reached the trove's debt and not its collateral. */
  ghost predicate AlignedTrove(l: Rewards, t: Trove) {
    t.snap.coll <= l.coll && (t.snap.coll == l.coll ==> t.snap.debt == l.debt)
  }

  lemma AppliedOutcome(s: System, a: Address)
    requires a in s.troves && ApplyRewards(s, a).Some?
    ensures
      var s' := ApplyRewards(s, a).value;
      a in s'.troves && s'.troves.Keys == s.troves.Keys && OthersKept(s, s', a)
      && (AlignedTrove(s.l, s.troves[a]) ==> s'.troves[a].snap == s'.l)
  {
  }

  lemma AdjustedSnap(s: System, a: Address, x: Adjustment, price: nat)
    requires a in s.troves && AdjustApplied(s, a, x, price).Some?
    ensures a in AdjustApplied(s, a, x, price).value.troves
    ensures AdjustApplied(s, a, x, price).value.troves[a].snap == s.troves[a].snap
  {
  }

  /** After an adjustment: the trove is where its recorded ratio fits, and in order if it overlooks no debt. */
  ghost predicate Replaced(s: System, s1: System, s2: System, a: Address, ids: seq<Address>, i: nat, k: nat,
      ids': seq<Address>)
    requires i < |ids| && a in s.troves
  {
    && Placed(s1, s2, a, SortedTroves.RemoveAt(ids, i), k, ids')
    && (AlignedTrove(s.l, s.troves[a]) && InOrder(s, ids) ==> InOrder(s2, ids'))
  }

  lemma AdjustedInOrder(
      s: System, s1: System, s2: System, a: Address, x: Adjustment, price: nat, ids: seq<Address>, i: nat,
      k: nat, ids': seq<Address>)
    requires a in s.troves && ApplyRewards(s, a) == Some(s1) && a in s1.troves
          && AdjustApplied(s1, a, x, price) == Some(s2)
    requires Distinct(ids) && i < |ids| && ids[i] == a && Placed(s1, s2, a, SortedTroves.RemoveAt(ids, i), k, ids')
    ensures Replaced(s, s1, s2, a, ids, i, k, ids')
  {
    var rest := SortedTroves.RemoveAt(ids, i);
    if AlignedTrove(s.l, s.troves[a]) && InOrder(s, ids) {
      AppliedOutcome(s, a);
      AdjustedSnap(s1, a, x, price);
      RemovedInOrder(s, s1, a, ids, i);
      InsertedInOrder(s1, s2, a, rest, NominalRatio(s2.troves[a].coll, s2.troves[a].debt), k, ids');
    }
  }

  /** The first checks of `_adjustTrove`. */
  predicate Adjustable(s: System, a: Address, x: Adjustment) {
    && (x.increase ==> x.change != 0) && (x.collIn == 0 || x.collOut == 0)
    && (x.collIn != 0 || x.collOut != 0 || x.change != 0) && a in s.troves
  }

  lemma AdjustUnfolds(s: System, a: Address, x: Adjustment, price: nat)
    ensures Adjustable(s, a, x) && ApplyRewards(s, a).Some? ==>
              var s1 := ApplyRewards(s, a).value;
              a in s1.troves && s1.troves.Keys == s.troves.Keys
                  && Adjust(s, a, x, price) == AdjustApplied(s1, a, x, price)
    ensures !Adjustable(s, a, x) || ApplyRewards(s, a).None? ==> Adjust(s, a, x, price).None?
    ensures Adjust(s, a, x, price).Some? ==> a in s.troves && ApplyRewards(s, a).Some?
  {
  }

  class BorrowerOps {
    const manager: TroveManagerState

    constructor (manager: TroveManagerState)
      ensures this.manager == manager
    {
      this.manager := manager;
    }

    // -------------------------------------------------------------------------
    // Opening
    // -------------------------------------------------------------------------

    /** Who can be listed: not `address(0)`, and not past the capacity of the list. */
    predicate Listable(a: Address)
      reads this, manager, manager.sortedTroves
    {
      a != ZERO_ADDRESS && manager.sortedTroves.size != manager.sortedTroves.maxSize
    }

    /** `insert` of the new trove. */
    method List(a: Address, x: nat, upper: Address, lower: Address, ghost was: System) returns (ok: bool, ghost k: nat)
      requires manager.sortedTroves.Valid() && (forall b :: b in manager.sortedTroves.ids <==> b in was.troves)
      requires x > 0 && a !in was.troves && manager.sys.troves.Keys == was.troves.Keys + {a}
      modifies manager.sortedTroves
      ensures ok == old(Listable(a))
      ensures ok ==> manager.Valid()
                     && PutAt(NominalRatios(manager.sys.troves, manager.sys.l), old(manager.sortedTroves.ids), x, k, a,
                              manager.sortedTroves.ids)
    {
      ghost var ids := manager.sortedTroves.ids;
      ok, k := manager.sortedTroves.Insert(NominalRatios(manager.sys.troves, manager.sys.l), a, x, upper, lower);
      if ok {
        SortedTroves.InsertedMembers(ids, k, a);
      }
    }

    /** The collateral joins the ActivePool; the amount, the fee and the reserve are minted. */
    method BookOpening(coll: nat, debt: nat)
      modifies manager`sys
      ensures manager.sys == Booked(old(manager.sys), coll, debt)
    {
      manager.sys := manager.sys.(activeColl := manager.sys.activeColl + coll);
      manager.sys := manager.sys.(activeDebt := manager.sys.activeDebt + debt);
      manager.sys := manager.sys.(supply := manager.sys.supply + debt);
      manager.sys := manager.sys.(gasPool := manager.sys.gasPool + GAS_COMPENSATION);
    }

    method WriteAndList(a: Address, coll: nat, debt: nat, upper: Address, lower: Address)
        returns (ok: bool, ghost k: nat)
      requires manager.Valid() && a !in manager.sys.troves && NominalRatio(coll, debt) > 0
      modifies manager`sys, manager.sortedTroves
      ensures Becomes(ok, manager.sys,
                      if old(Listable(a)) then WriteTrove(old(manager.sys), a, debt, coll, old(manager.sys).l)
                          else None)
      ensures ok ==> manager.Valid()
                     && PutAt(NominalRatios(manager.sys.troves, manager.sys.l), old(manager.sortedTroves.ids),
                              NominalRatio(coll, debt), k, a, manager.sortedTroves.ids)
    {
      k := 0;
      ok := manager.WriteAmounts(a, debt, coll, manager.sys.l);
      if ok {
        ok, k := List(a, NominalRatio(coll, debt), upper, lower, old(manager.sys));
      }
    }

    /** The new trove: written, listed, booked. */
    method Establish(a: Address, coll: nat, debt: nat, upper: Address, lower: Address) returns (ok: bool, ghost k: nat)
      requires manager.Valid() && a !in manager.sys.troves && NominalRatio(coll, debt) > 0
      modifies manager`sys, manager.sortedTroves
      ensures Becomes(ok, manager.sys, if old(Listable(a)) then Established(old(manager.sys), a, coll, debt) else None)
      ensures ok ==> manager.Valid()
                     && PutAt(NominalRatios(manager.sys.troves, manager.sys.l), old(manager.sortedTroves.ids),
                              NominalRatio(coll, debt), k, a, manager.sortedTroves.ids)
    {
      ok, k := WriteAndList(a, coll, debt, upper, lower);
      if ok {
        ghost var written := manager.sys;
        BookOpening(coll, debt);
        assert Established(old(manager.sys), a, coll, debt) == Some(Booked(written, coll, debt));
      }
    }

    /** `openTrove`. */
    method OpenTrove(a: Address, coll: nat, amount: nat, fee: nat, price: nat, upper: Address, lower: Address)
      returns (ok: bool, ghost k: nat)
      requires manager.Valid()
      modifies manager`sys, manager.sortedTroves
      ensures Becomes(ok, manager.sys,
                      if old(Listable(a)) then Open(old(manager.sys), a, coll, amount, fee, price) else None)
      ensures ok ==>
                && manager.Valid()
                    && Placed(old(manager.sys), manager.sys, a, old(manager.sortedTroves.ids), k,
                        manager.sortedTroves.ids)
                && (InOrder(old(manager.sys), old(manager.sortedTroves.ids))
                    ==> InOrder(manager.sys, manager.sortedTroves.ids))
    {
      k := 0;
      var debt := OpenDebt(manager.sys, amount, fee, price);
      OpenSplits(manager.sys, a, coll, amount, fee, price);
      if !OpenAllowed(manager.sys, a, coll, debt, price) {
        return false, k;
      }
      ok, k := Establish(a, coll, debt, upper, lower);
      if ok {
        EstablishedPlaced(old(manager.sys), a, coll, debt, old(manager.sortedTroves.ids), k, manager.sortedTroves.ids);
      }
    }

    // -------------------------------------------------------------------------
    // Adjusting
    // -------------------------------------------------------------------------

    /** `_moveTokensAndCollfromAdjustment`. */
    method MoveTokens(x: Adjustment, net: nat) returns (ok: bool)
      modifies manager`sys
      ensures Becomes(ok, manager.sys, TokensMoved(old(manager.sys), x, net))
    {
      if x.increase {
        manager.sys := manager.sys.(activeDebt := manager.sys.activeDebt + net);
        manager.sys := manager.sys.(supply := manager.sys.supply + net);
      } else {
        if manager.sys.activeDebt < net || manager.sys.supply < net {
          return false;
        }
        manager.sys := manager.sys.(activeDebt := manager.sys.activeDebt - net);
        manager.sys := manager.sys.(supply := manager.sys.supply - net);
      }
      if manager.sys.activeColl + x.collIn < x.collOut {
        return false;
      }
      manager.sys := manager.sys.(activeColl := manager.sys.activeColl + x.collIn - x.collOut);
      ok := true;
    }

    method WriteAndRelist(a: Address, coll: nat, debt: nat, upper: Address, lower: Address)
        returns (ok: bool, ghost k: nat)
      requires manager.Valid() && a in manager.sys.troves
      modifies manager`sys, manager.sortedTroves
      ensures Becomes(ok, manager.sys, Rewritten(old(manager.sys), a, debt, coll))
      ensures ok ==> manager.Valid()
                     && PutAt(NominalRatios(manager.sys.troves, manager.sys.l),
                         SortedTroves.RemoveAt(old(manager.sortedTroves.ids), old(manager.sortedTroves.IndexOf(a))),
                              NominalRatio(coll, debt), k, a, manager.sortedTroves.ids)
    {
      k := 0;
      ok := manager.WriteAmounts(a, debt, coll, manager.sys.troves[a].snap);
      if ok {
        ok, k := manager.Relist(a, NominalRatio(coll, debt), upper, lower);
      }
    }

    method RewriteAndMove(a: Address, coll: nat, debt: nat, x: Adjustment, net: nat, upper: Address, lower: Address)
      returns (ok: bool, ghost k: nat)
      requires manager.Valid() && a in manager.sys.troves
      modifies manager`sys, manager.sortedTroves
      ensures Becomes(ok, manager.sys, RewrittenAndMoved(old(manager.sys), a, coll, debt, x, net))
      ensures ok ==> manager.Valid()
                     && PutAt(NominalRatios(manager.sys.troves, manager.sys.l),
                              SortedTroves.RemoveAt(old(manager.sortedTroves.ids),
                                  old(manager.sortedTroves.IndexOf(a))),
                              NominalRatio(coll, debt), k, a, manager.sortedTroves.ids)
    {
      ok, k := WriteAndRelist(a, coll, debt, upper, lower);
      if ok {
        ok := MoveTokens(x, net);
      }
    }

    /** The adjustment of a trove whose rewards are applied. */
    method AdjustRewarded(a: Address, x: Adjustment, price: nat, upper: Address, lower: Address)
      returns (ok: bool, ghost k: nat)
      requires manager.Valid() && a in manager.sys.troves
      modifies manager`sys, manager.sortedTroves
      ensures Becomes(ok, manager.sys, AdjustApplied(old(manager.sys), a, x, price))
      ensures ok ==>
                && manager.Valid()
                && Placed(old(manager.sys), manager.sys, a,
                          SortedTroves.RemoveAt(old(manager.sortedTroves.ids), old(manager.sortedTroves.IndexOf(a))), k,
                          manager.sortedTroves.ids)
    {
      k := 0;
      var t, net := manager.sys.troves[a], NetChange(manager.sys, x, price);
      AdjustSplits(manager.sys, a, x, price);
      if !AdjustAllowed(manager.sys, t, x, net, price) {
        return false, k;
      }
      var coll, debt := AdjustedColl(t, x), AdjustedDebt(t, x, net);
      ghost var rest := SortedTroves.RemoveAt(manager.sortedTroves.ids, manager.sortedTroves.IndexOf(a));
      ok, k := RewriteAndMove(a, coll, debt, x, net, upper, lower);
      if ok {
        RewrittenPlaced(old(manager.sys), a, coll, debt, x, net, rest, k, manager.sortedTroves.ids);
      }
    }

    /** `_adjustTrove`: rewards first; a trove that overlooks no debt ends up in order. */
    method AdjustTrove(a: Address, x: Adjustment, price: nat, upper: Address, lower: Address)
      returns (ok: bool, ghost k: nat)
      requires manager.Valid()
      modifies manager`sys, manager.sortedTroves
      ensures Becomes(ok, manager.sys, Adjust(old(manager.sys), a, x, price))
      ensures ok ==>
                && manager.Valid()
                && Replaced(old(manager.sys), ApplyRewards(old(manager.sys), a).value, manager.sys, a,
                            old(manager.sortedTroves.ids), old(manager.sortedTroves.IndexOf(a)), k,
                                manager.sortedTroves.ids)
    {
      k := 0;
      ghost var s := manager.sys;
      AdjustUnfolds(s, a, x, price);
      if !Adjustable(manager.sys, a, x) {
        return false, k;
      }
      ghost var ids, i := manager.sortedTroves.ids, manager.sortedTroves.IndexOf(a);
      ok := manager.ApplyPendingRewards(a);
      if ok {
        ghost var s1 := manager.sys;
        ok, k := AdjustRewarded(a, x, price, upper, lower);
        if ok {
          AdjustedInOrder(s, s1, manager.sys, a, x, price, ids, i, k, manager.sortedTroves.ids);
        }
      }
    }

    // -------------------------------------------------------------------------
    // Closing
    // -------------------------------------------------------------------------

    /** The debt is repaid, the reserve from the GasPool, and the collateral sent to the owner. */
    method RepayAll(debt: nat, coll: nat) returns (ok: bool)
      requires debt >= GAS_COMPENSATION
      modifies manager`sys
      ensures Becomes(ok, manager.sys, Repaid(old(manager.sys), debt, coll))
    {
      var net := debt - GAS_COMPENSATION;
      if manager.sys.activeDebt < net || manager.sys.supply < net {
        return false;
      }
      manager.sys := manager.sys.(activeDebt := manager.sys.activeDebt - net);
      manager.sys := manager.sys.(supply := manager.sys.supply - net);
      if manager.sys.activeDebt < GAS_COMPENSATION || manager.sys.supply < GAS_COMPENSATION
         || manager.sys.gasPool < GAS_COMPENSATION
      {
        return false;
      }
      manager.sys := manager.sys.(activeDebt := manager.sys.activeDebt - GAS_COMPENSATION);
      manager.sys := manager.sys.(supply := manager.sys.supply - GAS_COMPENSATION);
      manager.sys := manager.sys.(gasPool := manager.sys.gasPool - GAS_COMPENSATION);
      if manager.sys.activeColl < coll {
        return false;
      }
      manager.sys := manager.sys.(activeColl := manager.sys.activeColl - coll);
      ok := true;
    }

    /** The closure of a trove whose rewards are applied. */
    method CloseRewarded(a: Address, funds: nat, price: nat) returns (ok: bool)
      requires manager.Valid() && a in manager.sys.troves
      modifies manager`sys, manager.sortedTroves
      ensures Becomes(ok, manager.sys, CloseApplied(old(manager.sys), a, funds, price))
      ensures ok ==>
                && manager.Valid() && a !in manager.sys.troves && OthersKept(old(manager.sys), manager.sys, a)
                && manager.sortedTroves.ids
                   == SortedTroves.RemoveAt(old(manager.sortedTroves.ids), old(manager.sortedTroves.IndexOf(a)))
    {
      var t := manager.sys.troves[a];
      CloseSplits(manager.sys, a, funds, price);
      if !CloseAllowed(manager.sys, t, funds, price) {
        return false;
      }
      ok := manager.RemoveTrove(a);
      if ok {
        ok := RepayAll(t.debt, t.coll);
      }
    }

    /** `closeTrove`: the others keep their order. */
    method CloseTrove(a: Address, funds: nat, price: nat) returns (ok: bool)
      requires manager.Valid()
      modifies manager`sys, manager.sortedTroves
      ensures Becomes(ok, manager.sys, Close(old(manager.sys), a, funds, price))
      ensures ok ==>
                && manager.Valid() && a !in manager.sortedTroves.ids
                && manager.sortedTroves.ids
                   == SortedTroves.RemoveAt(old(manager.sortedTroves.ids), old(manager.sortedTroves.IndexOf(a)))
                && (InOrder(old(manager.sys), old(manager.sortedTroves.ids))
                    ==> InOrder(manager.sys, manager.sortedTroves.ids))
    {
      if a !in manager.sys.troves || RecoveryMode(manager.sys, price) {
        return false;
      }
      ghost var s, ids, i := manager.sys, manager.sortedTroves.ids, manager.sortedTroves.IndexOf(a);
      ok := manager.ApplyPendingRewards(a);
      if !ok {
        return;
      }
      AppliedOutcome(s, a);
      ok := CloseRewarded(a, funds, price);
      if ok && InOrder(s, ids) {
        RemovedInOrder(s, manager.sys, a, ids, i);
      }
    }
  }
}
