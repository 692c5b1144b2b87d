/**
 * The books of the trove system: by how much each recorded total misses the sum it stands for.
 * Every elementary move changes these discrepancies by a known amount, and every whole call
 * brings them back to zero.
 */
module TroveAccounting {
  import opened Base
  import opened IntSums
  import opened Liquidation
  import opened TroveManager
  import StabilityPool

  // ---------------------------------------------------------------------------
  // Sums over troves
  // ---------------------------------------------------------------------------

  /** A trove's share in every total. Claims on the DefaultPool are before the division by 1e18. */
  datatype Tally = Tally(coll: int, debt: int, stake: int, reserve: int, collClaim: int, debtClaim: int)

  ghost function CollClaim(l: Rewards, t: Trove): nat {
    t.stake * Since(l.coll, t.snap.coll)
  }

  ghost function DebtClaim(l: Rewards, t: Trove): nat {
    t.stake * Since(l.debt, t.snap.debt)
  }

  ghost function Of(l: Rewards, t: Trove): Tally {
    Tally(t.coll, t.debt, t.stake, GAS_COMPENSATION, CollClaim(l, t), DebtClaim(l, t))
  }

  ghost function Plus(v: Tally, w: Tally): Tally {
    Tally(v.coll + w.coll, v.debt + w.debt, v.stake + w.stake, v.reserve + w.reserve,
          v.collClaim + w.collClaim, v.debtClaim + w.debtClaim)
  }

  ghost function Minus(v: Tally, w: Tally): Tally {
    Tally(v.coll - w.coll, v.debt - w.debt, v.stake - w.stake, v.reserve - w.reserve,
          v.collClaim - w.collClaim, v.debtClaim - w.debtClaim)
  }

  ghost function PickTrove(troves: map<Address, Trove>): Address
    requires troves.Keys != {}
  {
    var a :| a in troves;
    a
  }

  ghost function Totals(l: Rewards, troves: map<Address, Trove>): Tally
    decreases |troves|
  {
    if troves.Keys == {} then Tally(0, 0, 0, 0, 0, 0) else
      var a := PickTrove(troves);
      assert |troves - {a}| < |troves| by { SmallerMap(troves, a); }
      Plus(Of(l, troves[a]), Totals(l, troves - {a}))
  }

  lemma {:induction false} TotalsWithout(l: Rewards, troves: map<Address, Trove>, a: Address)
    requires a in troves
    ensures Totals(l, troves - {a}) == Minus(Totals(l, troves), Of(l, troves[a]))
    decreases |troves|
  {
    var p := PickTrove(troves);
    if p != a {
      SmallerMap(troves, p);
      SmallerMap(troves, a);
      TotalsWithout(l, troves - {p}, a);
      TotalsWithout(l, troves - {a}, p);
      EitherOrder(troves, p, a);
      Exchange(Totals(l, troves - {a}), Totals(l, troves - {p}), Of(l, troves[p]), Of(l, troves[a]));
    }
  }

  lemma EitherOrder(troves: map<Address, Trove>, p: Address, a: Address)
    ensures troves - {p} - {a} == troves - {a} - {p}
  {
  }

  lemma Exchange(x: Tally, y: Tally, p: Tally, a: Tally)
    requires Minus(x, p) == Minus(y, a)
    ensures x == Minus(Plus(p, y), a)
  {
  }

  lemma TotalsWith(l: Rewards, troves: map<Address, Trove>, a: Address, t: Trove)
    ensures Totals(l, troves[a := t]) ==
              if a in troves then Plus(Minus(Totals(l, troves), Of(l, troves[a])), Of(l, t))
              else Plus(Totals(l, troves), Of(l, t))
  {
    TotalsWithout(l, troves[a := t], a);
    assert troves[a := t] - {a} == troves - {a};
    if a in troves {
      TotalsWithout(l, troves, a);
    } else {
      assert troves - {a} == troves;
    }
  }

  ghost predicate SnapshotsReached(l: Rewards, troves: map<Address, Trove>) {
    forall a :: a in troves ==> troves[a].snap.coll <= l.coll && troves[a].snap.debt <= l.debt
  }

  lemma ClaimRises(stake: nat, x: nat, y: nat)
    ensures stake * (x + y) == stake * x + y * stake
  {
  }

  lemma OfRises(l: Rewards, l': Rewards, t: Trove)
    requires t.snap.coll <= l.coll <= l'.coll && t.snap.debt <= l.debt <= l'.debt
    ensures CollClaim(l', t) == CollClaim(l, t) + (l'.coll - l.coll) * t.stake
    ensures DebtClaim(l', t) == DebtClaim(l, t) + (l'.debt - l.debt) * t.stake
  {
    ClaimRises(t.stake, l.coll - t.snap.coll, l'.coll - l.coll);
    ClaimRises(t.stake, l.debt - t.snap.debt, l'.debt - l.debt);
  }

  /** A rise of the running sums adds the same amount per unit staked to every claim. */
  lemma {:induction false} TotalsRise(l: Rewards, l': Rewards, troves: map<Address, Trove>)
    requires l.coll <= l'.coll && l.debt <= l'.debt && SnapshotsReached(l, troves)
    ensures
      var v := Totals(l, troves);
      Totals(l', troves) == v.(collClaim := v.collClaim + (l'.coll - l.coll) * v.stake,
                               debtClaim := v.debtClaim + (l'.debt - l.debt) * v.stake)
    decreases |troves|
  {
    if troves.Keys != {} {
      var a := PickTrove(troves);
      SmallerMap(troves, a);
      TotalsRise(l, l', troves - {a});
      OfRises(l, l', troves[a]);
      var rest := Totals(l, troves - {a}).stake;
      Distribute(l'.coll - l.coll, troves[a].stake, rest);
      Distribute(l'.debt - l.debt, troves[a].stake, rest);
    }
  }

  lemma {:induction false} TotalsBounds(l: Rewards, troves: map<Address, Trove>)
    ensures Totals(l, troves).stake >= 0
    ensures Totals(l, troves).reserve == GAS_COMPENSATION * |troves|
    ensures forall a :: a in troves ==>
              && CollClaim(l, troves[a]) <= Totals(l, troves).collClaim
              && DebtClaim(l, troves[a]) <= Totals(l, troves).debtClaim
    ensures Totals(l, troves).collClaim >= 0 && Totals(l, troves).debtClaim >= 0
    decreases |troves|
  {
    if troves.Keys != {} {
      var p := PickTrove(troves);
      SmallerMap(troves, p);
      TotalsBounds(l, troves - {p});
      assert |troves - {p}| == |troves| - 1 by { assert (troves - {p}).Keys == troves.Keys - {p}; }
      forall a | a in troves
        ensures CollClaim(l, troves[a]) <= Totals(l, troves).collClaim
        ensures DebtClaim(l, troves[a]) <= Totals(l, troves).debtClaim
      {
        if a != p {
          assert a in troves - {p};
        }
      }
    }
  }

  lemma {:induction false} TotalsInclude(l: Rewards, troves: map<Address, Trove>, a: Address)
    requires a in troves
    ensures
      var t, v := troves[a], Totals(l, troves);
      t.coll <= v.coll && t.debt <= v.debt && t.stake <= v.stake
  {
    TotalsWithout(l, troves, a);
    TotalsNonNegative(l, troves - {a});
  }

  lemma {:induction false} TotalsNonNegative(l: Rewards, troves: map<Address, Trove>)
    ensures var v := Totals(l, troves); v.coll >= 0 && v.debt >= 0 && v.stake >= 0
    decreases |troves|
  {
    if troves.Keys != {} {
      SmallerMap(troves, PickTrove(troves));
      TotalsNonNegative(l, troves - {PickTrove(troves)});
    }
  }

  // ---------------------------------------------------------------------------
  // The books
  // ---------------------------------------------------------------------------

  /**
   * What each total exceeds its sum by: collateral and debt of the ActivePool, stakes, reserves
   * of the GasPool, supply over system debt, surplus over the balances owed. The dust is what
   * the DefaultPool holds beyond all claims and the remainder carried along, times 1e18.
   */
  datatype Books = Books(
    coll: int, debt: int, stake: int, reserve: int, supply: int, surplus: int, collDust: int, debtDust: int)

  ghost function BooksOf(s: System): Books {
    var v := Totals(s.l, s.troves);
    Books(s.activeColl - v.coll, s.activeDebt - v.debt, s.totalStakes - v.stake, s.gasPool - v.reserve,
          s.supply - SystemDebt(s), s.surplusColl - Sum(s.surplus),
          DECIMAL_PRECISION * s.defaultColl - v.collClaim - s.collError,
          DECIMAL_PRECISION * s.defaultDebt - v.debtClaim - s.debtError)
  }

  /** New dust on either side, less than one unit each. */
  ghost predicate DustAdded(b: Books, b': Books) {
    && b.collDust <= b'.collDust < b.collDust + DECIMAL_PRECISION
    && b.debtDust <= b'.debtDust < b.debtDust + DECIMAL_PRECISION
  }

  /** Two books that differ in dust only. */
  ghost predicate SameButDust(b: Books, b': Books) {
    b' == b.(collDust := b'.collDust, debtDust := b'.debtDust)
  }

  lemma Remainder(claim: nat)
    ensures 0 <= claim - DECIMAL_PRECISION * (claim / DECIMAL_PRECISION) < DECIMAL_PRECISION
  {
  }

  // ---------------------------------------------------------------------------
  // Elementary moves
  // ---------------------------------------------------------------------------

  lemma WriteTroveBooks(s: System, a: Address, debt: nat, coll: nat, snap: Rewards)
    requires WriteTrove(s, a, debt, coll, snap).Some? && a in s.troves
    ensures
      var s', t, b := WriteTrove(s, a, debt, coll, snap).value, s.troves[a], BooksOf(s);
      BooksOf(s') == b.(coll := b.coll + t.coll - coll, debt := b.debt + t.debt - debt,
                        collDust := b.collDust + CollClaim(s.l, t) - CollClaim(s.l, s'.troves[a]),
                        debtDust := b.debtDust + DebtClaim(s.l, t) - DebtClaim(s.l, s'.troves[a]))
  {
    TotalsWith(s.l, s.troves, a, WriteTrove(s, a, debt, coll, snap).value.troves[a]);
  }

  lemma NewTroveBooks(s: System, a: Address, debt: nat, coll: nat)
    requires WriteTrove(s, a, debt, coll, s.l).Some? && a !in s.troves
    ensures
      var s', b := WriteTrove(s, a, debt, coll, s.l).value, BooksOf(s);
      BooksOf(s') == b.(coll := b.coll - coll, debt := b.debt - debt, reserve := b.reserve - GAS_COMPENSATION)
  {
    TotalsWith(s.l, s.troves, a, WriteTrove(s, a, debt, coll, s.l).value.troves[a]);
  }

  lemma CloseTroveBooks(s: System, a: Address)
    requires a in s.troves && CloseTrove(s, a).Some?
    ensures
      var s', t, b := CloseTrove(s, a).value, s.troves[a], BooksOf(s);
      BooksOf(s') == b.(coll := b.coll + t.coll, debt := b.debt + t.debt, reserve := b.reserve + GAS_COMPENSATION,
                        collDust := b.collDust + CollClaim(s.l, t), debtDust := b.debtDust + DebtClaim(s.l, t))
  {
    TotalsWithout(s.l, s.troves, a);
  }

  lemma MoveRewardsBooks(s: System, debt: nat, coll: nat)
    requires MoveRewards(s, debt, coll).Some?
    ensures
      var s', b := MoveRewards(s, debt, coll).value, BooksOf(s);
      BooksOf(s') == b.(coll := b.coll + coll, debt := b.debt + debt,
                        collDust := b.collDust - DECIMAL_PRECISION * coll,
                        debtDust := b.debtDust - DECIMAL_PRECISION * debt)
  {
  }

  /** Applying a trove's rewards moves them between the pools and leaves only dust behind. */
  lemma ApplyRewardsBooks(s: System, a: Address)
    requires a in s.troves && ApplyRewards(s, a).Some? && SnapshotsReached(s.l, s.troves)
    ensures
      var s' := ApplyRewards(s, a).value;
      && SameButDust(BooksOf(s), BooksOf(s')) && DustAdded(BooksOf(s), BooksOf(s'))
      && SnapshotsReached(s'.l, s'.troves) && s'.troves.Keys == s.troves.Keys
      && SystemColl(s') == SystemColl(s) && SystemDebt(s') == SystemDebt(s)
      && s'.troves[a].snap.coll == s.l.coll
      && (s.troves[a].snap.coll < s.l.coll ==> s'.troves[a].snap == s.l)
  {
    var t := s.troves[a];
    if HasPendingRewards(s.l, t) {
      var s' := ApplyRewards(s, a).value;
      TotalsWith(s.l, s.troves, a, s'.troves[a]);
      Remainder(CollClaim(s.l, t));
      Remainder(DebtClaim(s.l, t));
      NoClaim(s.l, s'.troves[a]);
    }
  }

  lemma NoClaim(l: Rewards, t: Trove)
    ensures t.snap.coll == l.coll ==> CollClaim(l, t) == 0
    ensures t.snap.debt == l.debt ==> DebtClaim(l, t) == 0
  {
  }

  /** Taking a trove out leaves its entire collateral and debt loose in the ActivePool. */
  lemma TakeOutBooks(s: System, a: Address)
    requires a in s.troves && TakeOut(s, a).Some?
    ensures
      var s', t, b := TakeOut(s, a).value, s.troves[a], BooksOf(s);
      && SameButDust(b.(coll := b.coll + EntireColl(s.l, t), debt := b.debt + EntireDebt(s.l, t),
                        reserve := b.reserve + GAS_COMPENSATION), BooksOf(s'))
      && DustAdded(b, BooksOf(s'))
  {
    var t := s.troves[a];
    var debt, coll := PendingDebt(s.l, t), PendingColl(s.l, t);
    MoveRewardsBooks(s, debt, coll);
    CloseTroveBooks(MoveRewards(s, debt, coll).value, a);
    Remainder(CollClaim(s.l, t));
    Remainder(DebtClaim(s.l, t));
  }

  /** The remainder carried to the next division makes a redistribution exact. */
  lemma Feedback(held: nat, amount: nat, claims: int, error: nat, stakes: int, rise: nat, error': nat)
    requires amount * DECIMAL_PRECISION + error == rise * stakes + error'
    ensures DECIMAL_PRECISION * (held + amount) - (claims + rise * stakes) - error'
         == DECIMAL_PRECISION * held - claims - error
  {
  }

  lemma Divided(x: nat, stakes: nat, l: nat)
    requires stakes > 0
    ensures l <= l + x / stakes && x == (l + x / stakes - l) * stakes + x % stakes
  {
  }

  /** Sums that rise by whole quotients, with the remainders carried along. */
  lemma RiseBooks(s: System, s': System, debt: nat, coll: nat)
    requires SnapshotsReached(s.l, s.troves) && BooksOf(s).stake == 0
    requires s.l.coll <= s'.l.coll && s.l.debt <= s'.l.debt && debt <= s.activeDebt && coll <= s.activeColl
    requires s' == s.(l := s'.l, collError := s'.collError, debtError := s'.debtError,
                      activeDebt := s.activeDebt - debt, defaultDebt := s.defaultDebt + debt,
                      activeColl := s.activeColl - coll, defaultColl := s.defaultColl + coll)
    requires coll * DECIMAL_PRECISION + s.collError == (s'.l.coll - s.l.coll) * s.totalStakes + s'.collError
    requires debt * DECIMAL_PRECISION + s.debtError == (s'.l.debt - s.l.debt) * s.totalStakes + s'.debtError
    ensures
      var b := BooksOf(s);
      BooksOf(s') == b.(coll := b.coll - coll, debt := b.debt - debt) && SnapshotsReached(s'.l, s'.troves)
  {
    var v := Totals(s.l, s.troves);
    TotalsRise(s.l, s'.l, s.troves);
    Feedback(s.defaultColl, coll, v.collClaim, s.collError, v.stake, s'.l.coll - s.l.coll, s'.collError);
    Feedback(s.defaultDebt, debt, v.debtClaim, s.debtError, v.stake, s'.l.debt - s.l.debt, s'.debtError);
  }

  /** Redistribution loses nothing: the dust of both sides is unchanged. */
  lemma RedistributeBooks(s: System, debt: nat, coll: nat)
    requires Redistribute(s, debt, coll).Some? && SnapshotsReached(s.l, s.troves)
    requires BooksOf(s).stake == 0 && (debt == 0 ==> coll == 0)
    ensures
      var s', b := Redistribute(s, debt, coll).value, BooksOf(s);
      && BooksOf(s') == b.(coll := b.coll - coll, debt := b.debt - debt)
      && SnapshotsReached(s'.l, s'.troves)
  {
    if debt != 0 {
      Divided(coll * DECIMAL_PRECISION + s.collError, s.totalStakes, s.l.coll);
      Divided(debt * DECIMAL_PRECISION + s.debtError, s.totalStakes, s.l.debt);
      RedistributeFrame(s, debt, coll);
      RiseBooks(s, Redistribute(s, debt, coll).value, debt, coll);
    }
  }

  /** What a redistribution leaves alone. */
  lemma RedistributeFrame(s: System, debt: nat, coll: nat)
    requires Redistribute(s, debt, coll).Some?
    ensures
      var s' := Redistribute(s, debt, coll).value;
      && s'.troves == s.troves && s'.pool == s.pool && s'.surplusColl == s.surplusColl
      && SystemColl(s') == SystemColl(s) && s.l.coll <= s'.l.coll && s.l.debt <= s'.l.debt
  {
  }

  lemma OffsetDebtBooks(s: System, debt: nat, coll: nat)
    requires OffsetDebt(s, debt, coll).Some? && StabilityPool.WellFormed(s.pool)
    requires debt <= s.pool.total && (debt == 0 ==> coll == 0)
    ensures
      var s', b := OffsetDebt(s, debt, coll).value, BooksOf(s);
      && BooksOf(s') == b.(coll := b.coll - coll, debt := b.debt - debt)
      && StabilityPool.WellFormed(s'.pool)
      && s' == s.(pool := s'.pool, activeDebt := s.activeDebt - debt, supply := s.supply - debt,
                  activeColl := s.activeColl - coll)
      && s'.pool.coll == s.pool.coll + coll && s'.pool.total == s.pool.total - debt
  {
    StabilityPool.OffsetKeepsWellFormed(s.pool, debt, coll);
  }

  // ---------------------------------------------------------------------------
  // Consistency
  // ---------------------------------------------------------------------------

  const MIN_DEBT: nat := GAS_COMPENSATION + MIN_NET_DEBT

  ghost predicate MinimumDebt(troves: map<Address, Trove>) {
    forall a :: a in troves ==> troves[a].debt >= MIN_DEBT
  }

  /** All totals equal their sums, and the DefaultPool holds at least the collateral claimed. */
  ghost predicate Consistent(s: System) {
    && StabilityPool.WellFormed(s.pool)
    && SnapshotsReached(s.l, s.troves)
    && MinimumDebt(s.troves)
    && SameButDust(Books(0, 0, 0, 0, 0, 0, 0, 0), BooksOf(s))
    && BooksOf(s).collDust >= 0
  }

  /** In a consistent system no pending collateral exceeds the DefaultPool. */
  lemma PendingCollCovered(s: System, a: Address)
    requires Consistent(s) && a in s.troves
    ensures PendingColl(s.l, s.troves[a]) <= s.defaultColl
  {
    TotalsBounds(s.l, s.troves);
    Remainder(CollClaim(s.l, s.troves[a]));
  }

  lemma PendingDebtCovered(s: System, a: Address)
    requires a in s.troves && BooksOf(s).debtDust >= 0
    ensures PendingDebt(s.l, s.troves[a]) <= s.defaultDebt
  {
    TotalsBounds(s.l, s.troves);
    Remainder(DebtClaim(s.l, s.troves[a]));
  }

  /** A snapshot that lags in debt lags in collateral too, so that `hasPendingRewards` sees it. */
  ghost predicate Aligned(l: Rewards, troves: map<Address, Trove>) {
    forall a :: a in troves ==> troves[a].snap.coll == l.coll ==> troves[a].snap.debt == l.debt
  }
}
