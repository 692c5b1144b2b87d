/**
 * Which troves a batch liquidation takes, in plain amounts: each turn is decided by the trove's
 * own ratio, by what the earlier troves of the list have left in the Stability Pool, and by the
 * system after their offsets.
 */
module BatchOutcome {
  import opened Base
  import opened Liquidation
  import opened TroveManager
  import opened TroveAccounting
  import opened TroveRuns
  import opened LiquidationSafety
  import opened TroveEffects
  import StabilityPool
  import PoolWithdrawals

  // ---------------------------------------------------------------------------
  // One turn
  // ---------------------------------------------------------------------------

  ghost function CollOf(s: System, a: Address): nat {
    if a in s.troves then EntireColl(s.l, s.troves[a]) else 0
  }

  ghost function DebtOf(s: System, a: Address): nat {
    if a in s.troves then EntireDebt(s.l, s.troves[a]) else 0
  }

  /** A trove below 110% before the call. */
  ghost predicate Poor(s: System, a: Address, price: nat) {
    Below(CollOf(s, a), DebtOf(s, a), price, MCR)
  }

  /** The troves taken so far, the totals of their splits, and whether the batch counts as in Normal Mode. */
  datatype Course = Course(gone: set<Address>, totals: Split, normal: bool)

  ghost function Minus(a: nat, b: nat): nat {
    if b <= a then a - b else 0
  }

  /** What the pool has left. */
  ghost function Left(s: System, y: Course): nat {
    Minus(s.pool.total, y.totals.debtToOffset)
  }

  /** The system after the offsets so far. */
  ghost function CollBy(s: System, y: Course): nat {
    Minus(SystemColl(s), y.totals.collToPool)
  }

  ghost function DebtBy(s: System, y: Course): nat {
    Minus(SystemDebt(s), y.totals.debtToOffset)
  }

  /** At 110% or more, below the system's own ratio, and with no more debt than the pool has left. */
  ghost predicate Capped(s: System, y: Course, a: Address, price: nat) {
    && !Poor(s, a, price) && 0 < Left(s, y) && DebtOf(s, a) <= Left(s, y)
    && CollateralRatio(CollOf(s, a), DebtOf(s, a), price) < CollateralRatio(CollBy(s, y), DebtBy(s, y), price)
  }

  /** The trove is taken when its turn comes. */
  ghost predicate Due(s: System, y: Course, a: Address, price: nat) {
    && a in s.troves && a !in y.gone
    && if y.normal then Poor(s, a, price)
       else |s.troves| - |y.gone| > 1 && (Poor(s, a, price) || Capped(s, y, a, price))
  }

  ghost function PartOf(s: System, y: Course, a: Address, price: nat): Split {
    var coll, debt := CollOf(s, a), DebtOf(s, a);
    if !Poor(s, a, price) then
      var capped := CappedSplit(debt, coll, price);
      if capped.None? then NOTHING else capped.value
    else if !y.normal && Below(coll, debt, price, HUNDRED_PERCENT + 1) then RedistributionSplit(debt, coll)
    else OffsetSplit(debt, coll, Left(s, y))
  }

  /** The batch comes to Normal Mode once what is left of the system stands at 150% or more, and stays in it. */
  ghost function Take(s: System, y: Course, a: Address, price: nat): Course {
    if !Due(s, y, a, price) then y else
      var y' := y.(gone := y.gone + {a}, totals := Add(y.totals, PartOf(s, y, a, price)));
      y'.(normal := y.normal || !Below(CollBy(s, y'), DebtBy(s, y'), price, CCR))
  }

  ghost function Start(s: System, price: nat): Course {
    Course({}, NOTHING, !InRecovery(s, price))
  }

  /** After all turns of `who`. */
  ghost function Sofar(s: System, who: seq<Address>, price: nat): Course {
    if who == [] then Start(s, price)
    else Take(s, Sofar(s, who[..|who| - 1], price), who[|who| - 1], price)
  }

  /** Position `i` of the list is taken at its turn. */
  ghost predicate TakenAt(s: System, who: seq<Address>, i: nat, price: nat) {
    i < |who| && Due(s, Sofar(s, who[..i], price), who[i], price)
  }

  // ---------------------------------------------------------------------------
  // The batch follows the turns
  // ---------------------------------------------------------------------------

  ghost predicate Matches(s: System, b: Batch, y: Course, price: nat) {
    && y.gone <= s.troves.Keys && b.s.troves == s.troves - y.gone && b.s.l == s.l && b.s.pool == s.pool
    && b.totals == y.totals && y.totals.debtToOffset <= s.pool.total && b.remaining == Left(s, y)
    && b.normal == y.normal && (!b.normal ==> Tracked(s, b, y, price))
  }

  ghost predicate Tracked(s: System, b: Batch, y: Course, price: nat) {
    && y.totals.collToPool <= SystemColl(s) && y.totals.debtToOffset <= SystemDebt(s)
    && b.coll == CollBy(s, y) && b.debt == DebtBy(s, y) && Below(b.coll, b.debt, price, CCR)
  }

  lemma StartMatches(s: System, price: nat)
    ensures Matches(s, BatchStart(s, price), Start(s, price), price)
  {
    RecoveryModeIff(s, price);
  }

  lemma KeysLeft(s: System, gone: set<Address>)
    requires gone <= s.troves.Keys
    ensures |s.troves - gone| == |s.troves| - |gone|
  {
    assert (s.troves - gone).Keys == s.troves.Keys - gone;
  }

  lemma RatiosAhead(s: System, b: Batch, y: Course, a: Address, price: nat)
    requires Matches(s, b, y, price)
    ensures a in b.s.troves <==> a in s.troves && a !in y.gone
    ensures a in b.s.troves ==> b.s.troves[a] == s.troves[a]
    ensures a in b.s.troves ==> (CurrentRatio(b.s, a, price) < MCR <==> Poor(s, a, price))
    ensures |b.s.troves| == |s.troves| - |y.gone|
  {
    KeysLeft(s, y.gone);
    RatioBelowIff(CollOf(s, a), DebtOf(s, a), price, MCR);
  }

  /** One trove out, whatever its split. */
  lemma OneMatches(s: System, b: Batch, y: Course, a: Address, x: Split, price: nat)
    requires Matches(s, b, y, price) && a in b.s.troves && LiquidateOne(b, a, x).Some?
    ensures
      var b', totals := LiquidateOne(b, a, x).value, Add(y.totals, x);
      && y.gone + {a} <= s.troves.Keys && b'.s.troves == s.troves - (y.gone + {a}) && b'.s.l == s.l
      && b'.s.pool == s.pool && b'.totals == totals && totals.debtToOffset <= s.pool.total
      && b'.remaining == s.pool.total - totals.debtToOffset && b'.normal == b.normal
      && b'.coll == b.coll && b'.debt == b.debt
  {
    assert s.troves - y.gone - {a} == s.troves - (y.gone + {a});
  }

  lemma NormalMatches(s: System, b: Batch, y: Course, a: Address, price: nat)
    requires Matches(s, b, y, price) && b.normal && BatchStep(b, a, price).Some?
    ensures Matches(s, BatchStep(b, a, price).value, Take(s, y, a, price), price)
  {
    RatiosAhead(s, b, y, a, price);
    if Due(s, y, a, price) {
      OneMatches(s, b, y, a, OffsetSplit(DebtOf(s, a), CollOf(s, a), b.remaining), price);
    }
  }

  /** The row of the table that the turn comes to. */
  lemma RowIs(s: System, b: Batch, y: Course, a: Address, price: nat)
    requires Matches(s, b, y, price) && !b.normal && a in b.s.troves
    requires Poor(s, a, price) || b.remaining > 0
    ensures
      var icr, tcr := CurrentRatio(b.s, a, price), CollateralRatio(b.coll, b.debt, price);
      var x := RecoverySplit(DebtOf(s, a), CollOf(s, a), icr, tcr, b.remaining, price);
      if Poor(s, a, price) || Capped(s, y, a, price) then x.Some? ==> x.value == PartOf(s, y, a, price)
      else x == Some(NOTHING)
  {
    RatiosAhead(s, b, y, a, price);
    RatioBelowIff(CollOf(s, a), DebtOf(s, a), price, HUNDRED_PERCENT + 1);
  }

  lemma RecoveryMatches(s: System, b: Batch, y: Course, a: Address, price: nat)
    requires Matches(s, b, y, price) && !b.normal && BatchStep(b, a, price).Some?
    ensures Matches(s, BatchStep(b, a, price).value, Take(s, y, a, price), price)
  {
    RatiosAhead(s, b, y, a, price);
    RatioBelowIff(b.coll, b.debt, price, CCR);
    if a in b.s.troves && (Poor(s, a, price) || b.remaining > 0) {
      RowIs(s, b, y, a, price);
      if Due(s, y, a, price) {
        TakenMatches(s, b, y, a, price);
      }
    }
  }

  lemma TakenMatches(s: System, b: Batch, y: Course, a: Address, price: nat)
    requires Matches(s, b, y, price) && !b.normal && BatchStep(b, a, price).Some? && a in b.s.troves
    requires Due(s, y, a, price)
    ensures Matches(s, BatchStep(b, a, price).value, Take(s, y, a, price), price)
  {
    RatiosAhead(s, b, y, a, price);
    RowIs(s, b, y, a, price);
    var x := PartOf(s, y, a, price);
    assert x != NOTHING && LiquidateOne(b, a, x).Some?;
    OneMatches(s, b, y, a, x, price);
    var b' := BatchStep(b, a, price).value;
    RatioBelowIff(b'.coll, b'.debt, price, CCR);
  }

  lemma StepMatches(s: System, b: Batch, y: Course, a: Address, price: nat)
    requires Matches(s, b, y, price) && BatchStep(b, a, price).Some?
    ensures Matches(s, BatchStep(b, a, price).value, Take(s, y, a, price), price)
  {
    if b.normal {
      NormalMatches(s, b, y, a, price);
    } else {
      RecoveryMatches(s, b, y, a, price);
    }
  }

  lemma NextPrefix(s: System, who: seq<Address>, k: nat, price: nat)
    requires k < |who|
    ensures Sofar(s, who[..k + 1], price) == Take(s, Sofar(s, who[..k], price), who[k], price)
    ensures who[k..][0] == who[k] && who[k..][1..] == who[k + 1..]
  {
    assert who[..k + 1][..k] == who[..k];
  }

  lemma {:induction false} AllMatch(s: System, b: Batch, who: seq<Address>, k: nat, price: nat)
    requires k <= |who| && Matches(s, b, Sofar(s, who[..k], price), price) && BatchAll(b, who[k..], price).Some?
    ensures Matches(s, BatchAll(b, who[k..], price).value, Sofar(s, who, price), price)
    decreases |who| - k
  {
    if k == |who| {
      assert who[..k] == who;
    } else {
      NextPrefix(s, who, k, price);
      StepMatches(s, b, Sofar(s, who[..k], price), who[k], price);
      AllMatch(s, BatchStep(b, who[k], price).value, who, k + 1, price);
    }
  }

  /** The state of a successful batch when all turns are over. */
  lemma BatchFollows(s: System, who: seq<Address>, price: nat)
    requires BatchAll(BatchStart(s, price), who, price).Some?
    ensures Matches(s, BatchAll(BatchStart(s, price), who, price).value, Sofar(s, who, price), price)
  {
    StartMatches(s, price);
    assert who[..0] == [] && who[0..] == who;
    AllMatch(s, BatchStart(s, price), who, 0, price);
  }

  // ---------------------------------------------------------------------------
  // Who is gone
  // ---------------------------------------------------------------------------

  lemma {:induction false} GoneAtTurn(s: System, who: seq<Address>, price: nat, a: Address)
    ensures a in Sofar(s, who, price).gone <==> exists i :: 0 <= i < |who| && who[i] == a && TakenAt(s, who, i, price)
  {
    if who != [] {
      var n := |who| - 1;
      GoneAtTurn(s, who[..n], price, a);
      assert forall i :: 0 <= i <= n ==> who[..n][..i] == who[..i];
      assert forall i :: 0 <= i < n ==> (TakenAt(s, who[..n], i, price) <==> TakenAt(s, who, i, price));
      assert a == who[n] && TakenAt(s, who, n, price) ==> a in Sofar(s, who, price).gone;
    }
  }

  /**
   * A trove is gone after a batch exactly when it was due at one of its turns; all others are left
   * as they were.
   */
  lemma BatchTakesIff(s: System, who: seq<Address>, price: nat, a: Address)
    requires LiquidateBatch(s, who, price).Some? && a in s.troves
    ensures
      var s' := LiquidateBatch(s, who, price).value;
      && (a !in s'.troves <==> exists i :: 0 <= i < |who| && who[i] == a && TakenAt(s, who, i, price))
      && (a in s'.troves ==> s'.troves[a] == s.troves[a])
  {
    BatchFollows(s, who, price);
    GoneAtTurn(s, who, price, a);
    FinishTroves(BatchAll(BatchStart(s, price), who, price).value);
  }

  lemma FinishTroves(b: Batch)
    requires Finish(b.s, b.totals).Some?
    ensures Finish(b.s, b.totals).value.troves == b.s.troves && b.totals.debt > 0
  {
  }

  // ---------------------------------------------------------------------------
  // Normal Mode
  // ---------------------------------------------------------------------------

  ghost function PoorOf(s: System, who: seq<Address>, price: nat): set<Address> {
    set a | a in who && a in s.troves && Poor(s, a, price)
  }

  lemma {:induction false} NormalCourse(s: System, who: seq<Address>, price: nat)
    requires !InRecovery(s, price)
    ensures Sofar(s, who, price).normal && Sofar(s, who, price).gone == PoorOf(s, who, price)
  {
    if who != [] {
      var n := |who| - 1;
      NormalCourse(s, who[..n], price);
      assert who == who[..n] + [who[n]];
    }
  }

  lemma NormalBatchTakes(s: System, who: seq<Address>, price: nat)
    requires LiquidateBatch(s, who, price).Some? && !InRecovery(s, price)
    ensures LiquidateBatch(s, who, price).value.troves == s.troves - PoorOf(s, who, price)
    ensures Sofar(s, who, price).totals.debt > 0
  {
    BatchFollows(s, who, price);
    NormalCourse(s, who, price);
    FinishTroves(BatchAll(BatchStart(s, price), who, price).value);
  }

  /** Begun in Normal Mode, a batch takes exactly the troves of its list that stood below 110%. */
  lemma NormalBatchTakesIff(s: System, who: seq<Address>, price: nat, a: Address)
    requires LiquidateBatch(s, who, price).Some? && !InRecovery(s, price) && a in s.troves
    ensures a !in LiquidateBatch(s, who, price).value.troves <==> a in who && Poor(s, a, price)
  {
    NormalBatchTakes(s, who, price);
  }

  ghost function PickFrom(ks: set<Address>): Address
    requires ks != {}
  {
    var k :| k in ks;
    k
  }

  ghost function SumOver(ks: set<Address>, f: Address -> int): int {
    if ks == {} then 0 else f(PickFrom(ks)) + SumOver(ks - {PickFrom(ks)}, f)
  }

  lemma {:induction false} SumOverWithout(ks: set<Address>, f: Address -> int, a: Address)
    requires a in ks
    ensures SumOver(ks, f) == SumOver(ks - {a}, f) + f(a)
  {
    var k := PickFrom(ks);
    if k != a {
      SumOverWithout(ks - {k}, f, a);
      SumOverWithout(ks - {a}, f, k);
      assert ks - {k} - {a} == ks - {a} - {k};
    }
  }

  lemma SumOverWith(ks: set<Address>, f: Address -> int, a: Address)
    requires a !in ks
    ensures SumOver(ks + {a}, f) == SumOver(ks, f) + f(a)
  {
    SumOverWithout(ks + {a}, f, a);
    assert ks + {a} - {a} == ks;
  }

  ghost function DebtsOf(s: System): Address -> int {
    (a: Address) => DebtOf(s, a)
  }

  ghost function CollsOf(s: System): Address -> int {
    (a: Address) => CollOf(s, a)
  }

  /** The compensation: half a percent of each trove's collateral, rounded down. */
  ghost function GasOf(s: System): Address -> int {
    (a: Address) => CollOf(s, a) / 200
  }

  lemma NormalPart(s: System, y: Course, a: Address, price: nat)
    requires y.normal && Due(s, y, a, price) && y.totals.debtToOffset == Min(s.pool.total, y.totals.debt)
    ensures
      var x, x' := y.totals, Take(s, y, a, price).totals;
      && x'.debt == x.debt + DebtOf(s, a) && x'.coll == x.coll + CollOf(s, a)
      && x'.gasColl == x.gasColl + CollOf(s, a) / 200 && x'.gasDebt == x.gasDebt + GAS_COMPENSATION
      && x'.debtToOffset == Min(s.pool.total, x'.debt) && x'.surplus == x.surplus
  {
  }

  /** The totals are sums over the troves taken. */
  ghost predicate Summed(s: System, x: Split, gone: set<Address>) {
    && x.debt == SumOver(gone, DebtsOf(s)) && x.coll == SumOver(gone, CollsOf(s))
    && x.gasColl == SumOver(gone, GasOf(s)) && x.gasDebt == GAS_COMPENSATION * |gone|
    && x.debtToOffset == Min(s.pool.total, x.debt) && x.surplus == 0
  }

  lemma SumsWith(s: System, gone: set<Address>, a: Address)
    requires a !in gone
    ensures SumOver(gone + {a}, DebtsOf(s)) == SumOver(gone, DebtsOf(s)) + DebtOf(s, a)
    ensures SumOver(gone + {a}, CollsOf(s)) == SumOver(gone, CollsOf(s)) + CollOf(s, a)
    ensures SumOver(gone + {a}, GasOf(s)) == SumOver(gone, GasOf(s)) + CollOf(s, a) / 200
    ensures GAS_COMPENSATION * |gone + {a}| == GAS_COMPENSATION * |gone| + GAS_COMPENSATION
  {
    SumOverWith(gone, DebtsOf(s), a);
    SumOverWith(gone, CollsOf(s), a);
    SumOverWith(gone, GasOf(s), a);
    assert |gone + {a}| == |gone| + 1;
  }

  lemma SummedWith(s: System, y: Course, a: Address, price: nat)
    requires y.normal && Due(s, y, a, price) && Summed(s, y.totals, y.gone)
    ensures Summed(s, Take(s, y, a, price).totals, y.gone + {a})
  {
    NormalPart(s, y, a, price);
    SumsWith(s, y.gone, a);
  }

  lemma NothingSummed(s: System)
    ensures Summed(s, NOTHING, {})
  {
  }

  lemma {:induction false} NormalTotals(s: System, who: seq<Address>, price: nat)
    requires !InRecovery(s, price)
    ensures Summed(s, Sofar(s, who, price).totals, Sofar(s, who, price).gone)
  {
    if who == [] {
      NothingSummed(s);
    } else {
      var n := |who| - 1;
      var y := Sofar(s, who[..n], price);
      NormalTotals(s, who[..n], price);
      NormalCourse(s, who[..n], price);
      if Due(s, y, who[n], price) {
        SummedWith(s, y, who[n], price);
      }
    }
  }

  // ---------------------------------------------------------------------------
  // Recovery Mode
  // ---------------------------------------------------------------------------

  /** A trove of the list below 110% is gone, unless no other trove is left. */
  lemma RecoveryBatchTakes(s: System, who: seq<Address>, price: nat, a: Address)
    requires LiquidateBatch(s, who, price).Some? && a in s.troves && a in who && Poor(s, a, price)
    ensures
      var s' := LiquidateBatch(s, who, price).value;
      a !in s'.troves || s'.troves.Keys == {a}
  {
    BatchFollows(s, who, price);
    FinishTroves(BatchAll(BatchStart(s, price), who, price).value);
    PoorGone(s, who, price, a);
    var y := Sofar(s, who, price);
    KeysLeft(s, y.gone);
    if a !in y.gone {
      OnlyKey((s.troves - y.gone).Keys, a);
    }
  }

  lemma OnlyKey(keys: set<Address>, a: Address)
    requires a in keys && |keys| <= 1
    ensures keys == {a}
  {
    assert |keys - {a}| == |keys| - 1;
  }

  lemma {:induction false} PoorGone(s: System, who: seq<Address>, price: nat, a: Address)
    requires a in s.troves && a in who && Poor(s, a, price)
    ensures
      var y := Sofar(s, who, price);
      a in y.gone || |s.troves| - |y.gone| <= 1
  {
    var n := |who| - 1;
    var y := Sofar(s, who[..n], price);
    assert who == who[..n] + [who[n]];
    if who[n] != a {
      PoorGone(s, who[..n], price, a);
    }
  }

  /** The batch is back in Normal Mode once the offsets of some first turns have left the system at 150%. */
  lemma {:induction false} BackInNormalModeIff(s: System, who: seq<Address>, price: nat)
    ensures Sofar(s, who, price).normal <==> exists j :: 0 <= j <= |who| && Healthy(s, Sofar(s, who[..j], price), price)
  {
    if who == [] {
      assert who[..0] == [];
    } else {
      var n := |who| - 1;
      BackInNormalModeIff(s, who[..n], price);
      assert forall j :: 0 <= j <= n ==> who[..n][..j] == who[..j];
      assert who[..n + 1] == who;
      if Sofar(s, who[..n], price).normal {
        var j :| 0 <= j <= |who[..n]| && Healthy(s, Sofar(s, who[..n][..j], price), price);
        assert who[..n][..j] == who[..j];
        assert 0 <= j <= |who| && Healthy(s, Sofar(s, who[..j], price), price);
      }
    }
  }

  ghost predicate Healthy(s: System, y: Course, price: nat) {
    !Below(CollBy(s, y), DebtBy(s, y), price, CCR)
  }

  // ---------------------------------------------------------------------------
  // What the call moves
  // ---------------------------------------------------------------------------

  /** What the turns leave for the end. */
  ghost predicate Unmoved(s: System, s': System) {
    && s'.pool == s.pool && SystemColl(s') == SystemColl(s) && SystemDebt(s') == SystemDebt(s)
    && s'.supply == s.supply && s'.surplusColl == s.surplusColl && s'.gasPool == s.gasPool
  }

  lemma StepUnmoved(b: Batch, a: Address, price: nat)
    requires BatchStep(b, a, price).Some?
    ensures Unmoved(b.s, BatchStep(b, a, price).value.s)
  {
  }

  lemma {:induction false} BatchUnmoved(b: Batch, who: seq<Address>, price: nat)
    requires BatchAll(b, who, price).Some?
    ensures Unmoved(b.s, BatchAll(b, who, price).value.s)
    decreases |who|
  {
    if who != [] {
      StepUnmoved(b, who[0], price);
      BatchUnmoved(BatchStep(b, who[0], price).value, who[1..], price);
    }
  }

  lemma FinishMoves(s: System, x: Split)
    requires Finish(s, x).Some? && Complete(x, s.pool.total)
    ensures
      var s' := Finish(s, x).value;
      && s'.pool.total == s.pool.total - x.debtToOffset && s'.supply == s.supply - x.debtToOffset
      && SystemDebt(s') == SystemDebt(s) - x.debtToOffset && s'.pool.coll == s.pool.coll + x.collToPool
      && s'.surplusColl == s.surplusColl + x.surplus && s'.gasPool == s.gasPool - x.gasDebt
      && SystemColl(s') == SystemColl(s) - x.collToPool - x.surplus - x.gasColl
      && s'.totalStakes == s.totalStakes
      && s'.totalStakesSnapshot == s'.totalStakes && s'.totalCollateralSnapshot == SystemColl(s')
  {
  }

  /** The pools, the supply, the compensation and the snapshots after a batch. */
  lemma BatchEffect(s: System, who: seq<Address>, price: nat)
    requires Consistent(s) && LiquidateBatch(s, who, price).Some?
    ensures
      var s', x := LiquidateBatch(s, who, price).value, Sofar(s, who, price).totals;
      && s'.pool.total == s.pool.total - x.debtToOffset && s'.supply == s.supply - x.debtToOffset
      && SystemDebt(s') == SystemDebt(s) - x.debtToOffset && s'.pool.coll == s.pool.coll + x.collToPool
      && s'.surplusColl == s.surplusColl + x.surplus && s'.gasPool == s.gasPool - x.gasDebt
      && SystemColl(s') == SystemColl(s) - x.collToPool - x.surplus - x.gasColl
      && s'.totalStakesSnapshot == s'.totalStakes && s'.totalCollateralSnapshot == SystemColl(s')
  {
    BatchFollows(s, who, price);
    var b := BatchAll(BatchStart(s, price), who, price).value;
    assert BatchSound(s, BatchStart(s, price));
    BatchAllKeeps(s, BatchStart(s, price), who, price);
    BatchUnmoved(BatchStart(s, price), who, price);
    FinishMoves(b.s, b.totals);
  }

  /**
   * In Normal Mode the pool pays for the entire debts of the troves below 110% as far as it
   * reaches, and the caller gets half a percent of each one's collateral and its reserve.
   */
  lemma NormalBatchEffect(s: System, who: seq<Address>, price: nat)
    requires Consistent(s) && LiquidateBatch(s, who, price).Some? && !InRecovery(s, price)
    ensures SumOver(PoorOf(s, who, price), DebtsOf(s)) >= 0
    ensures
      var s', gone := LiquidateBatch(s, who, price).value, PoorOf(s, who, price);
      var paid := Min(s.pool.total, SumOver(gone, DebtsOf(s)));
      && s'.troves == s.troves - gone && gone != {}
      && s'.pool.total == s.pool.total - paid && s'.supply == s.supply - paid
      && SystemDebt(s') == SystemDebt(s) - paid
      && s'.gasPool == s.gasPool - GAS_COMPENSATION * |gone|
      && Held(s') == Held(s) - SumOver(gone, GasOf(s)) && s'.surplusColl == s.surplusColl
  {
    NormalBatchTakes(s, who, price);
    NormalTotals(s, who, price);
    NormalCourse(s, who, price);
    BatchEffect(s, who, price);
    NothingSummed(s);
  }

  // ---------------------------------------------------------------------------
  // When a batch is refused
  // ---------------------------------------------------------------------------

  /** The turn of the only trove left, due in Normal Mode, where it cannot be closed. */
  ghost predicate LastDueAt(s: System, who: seq<Address>, i: nat, price: nat) {
    && TakenAt(s, who, i, price) && Sofar(s, who[..i], price).normal
    && |s.troves| - |Sofar(s, who[..i], price).gone| <= 1
  }

  lemma TurnRefusedIff(s: System, b: Batch, who: seq<Address>, i: nat, price: nat)
    requires i < |who| && BatchCovered(s, b) && Matches(s, b, Sofar(s, who[..i], price), price)
    ensures BatchStep(b, who[i], price).None? <==> LastDueAt(s, who, i, price)
  {
    StepRefusedIff(s, b, who[i], price);
    RatiosAhead(s, b, Sofar(s, who[..i], price), who[i], price);
  }

  lemma {:induction false} TurnsRefusedIff(s: System, b: Batch, who: seq<Address>, k: nat, price: nat)
    requires k <= |who| && BatchCovered(s, b) && Matches(s, b, Sofar(s, who[..k], price), price)
    ensures BatchAll(b, who[k..], price).None? <==> exists i :: k <= i < |who| && LastDueAt(s, who, i, price)
    decreases |who| - k
  {
    if k < |who| {
      NextPrefix(s, who, k, price);
      TurnRefusedIff(s, b, who, k, price);
      if BatchStep(b, who[k], price).Some? {
        StepMatches(s, b, Sofar(s, who[..k], price), who[k], price);
        StepCovered(s, b, who[k], price);
        TurnsRefusedIff(s, BatchStep(b, who[k], price).value, who, k + 1, price);
      }
    }
  }

  /** The pool cannot take the offset, in the terms of `PoolWithdrawals.OffsetRefusedIff`. */
  ghost predicate OffsetRefused(p: StabilityPool.Pool, debt: nat) {
    p.total > 0 && debt > 0
    && (debt > p.total
        || (debt < p.total && debt * DECIMAL_PRECISION < p.lossError)
        || (debt < p.total && PoolWithdrawals.Surviving(p, debt) > 0
            && p.now.P * PoolWithdrawals.Surviving(p, debt) < StabilityPool.SCALE_FACTOR))
  }

  lemma FinishRefusedIff(s: System, b: Batch, y: Course, price: nat)
    requires BatchCovered(s, b) && Matches(s, b, y, price)
    ensures FinishRefused(b) <==>
              || y.totals.debt == 0 || OffsetRefused(s.pool, y.totals.debtToOffset)
              || (y.totals.debtToRedistribute > 0 && Totals(s.l, s.troves - y.gone).stake == 0)
  {
    PoolWithdrawals.OffsetRefusedIff(s.pool, y.totals.debtToOffset, y.totals.collToPool);
  }

  lemma PartDebt(s: System, y: Course, a: Address, price: nat)
    requires MinimumDebt(s.troves) && a in s.troves
    ensures PartOf(s, y, a, price).debt == DebtOf(s, a) >= MIN_DEBT
  {
    RatioBelowIff(CollOf(s, a), DebtOf(s, a), price, MCR);
    if !Poor(s, a, price) {
      CapCovered(DebtOf(s, a), CollOf(s, a), price);
    }
  }

  /** No trove is due at any turn exactly when there is no debt to liquidate. */
  lemma {:induction false} SomeGoneIff(s: System, who: seq<Address>, price: nat)
    requires MinimumDebt(s.troves)
    ensures Sofar(s, who, price).gone == {} <==> Sofar(s, who, price).totals.debt == 0
  {
    if who != [] {
      var n := |who| - 1;
      SomeGoneIff(s, who[..n], price);
      if Due(s, Sofar(s, who[..n], price), who[n], price) {
        PartDebt(s, Sofar(s, who[..n], price), who[n], price);
      }
    }
  }

  lemma TurnsFromStart(s: System, who: seq<Address>, price: nat)
    requires Consistent(s) && BooksOf(s).debtDust >= 0
    ensures
      var end := BatchAll(BatchStart(s, price), who, price);
      && (end.None? <==> MeetsOnlyTrove(BatchStart(s, price), who, price))
      && (end.None? <==> exists i :: 0 <= i < |who| && LastDueAt(s, who, i, price))
      && (end.Some? ==> BatchCovered(s, end.value))
  {
    var start := BatchStart(s, price);
    StartMatches(s, price);
    assert BatchCovered(s, start);
    assert who[..0] == [] && who[0..] == who;
    TurnsRefusedIff(s, start, who, 0, price);
    BatchAllRefusedIff(s, start, who, price);
  }

  /**
   * A batch is refused exactly when its list is empty, a turn comes to the only trove left in
   * Normal Mode, no trove is due, the pool cannot take the offset, or there is debt to share and
   * no stake left.
   */
  lemma BatchRefusedIff(s: System, who: seq<Address>, price: nat)
    requires Consistent(s) && BooksOf(s).debtDust >= 0
    ensures
      var y := Sofar(s, who, price);
      LiquidateBatch(s, who, price).None? <==>
        || who == [] || y.gone == {}
        || (exists i :: 0 <= i < |who| && LastDueAt(s, who, i, price))
        || OffsetRefused(s.pool, y.totals.debtToOffset)
        || (y.totals.debtToRedistribute > 0 && Totals(s.l, s.troves - y.gone).stake == 0)
  {
    var start := BatchStart(s, price);
    TurnsFromStart(s, who, price);
    LiquidationRefusedIff(s, who, price);
    SomeGoneIff(s, who, price);
    if BatchAll(start, who, price).Some? {
      BatchFollows(s, who, price);
      FinishRefusedIff(s, BatchAll(start, who, price).value, Sofar(s, who, price), price);
    }
  }
}
