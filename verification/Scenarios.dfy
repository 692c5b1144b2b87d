/** Evaluating concrete runs of the trove system: openings before anything else has happened, and prefixes of runs. */
module Scenarios {
  import opened Base
  import opened Liquidation
  import opened TroveManager
  import opened TroveAccounting
  import opened TroveRuns
  import opened LiquidationSafety
  import StabilityPool

  // ---------------------------------------------------------------------------
  // Runs
  // ---------------------------------------------------------------------------

  /** A call leads from each stage to the next. */
  ghost predicate StageStep(stage: (nat, System) -> bool, calls: seq<Call>, k: nat, s: System) {
    k < |calls| && Consistent(s) && stage(k, s) ==> stage(k + 1, After(s, calls[k]))
  }

  /** Whatever the state at stage `k`, its call leads to stage `k + 1`. */
  ghost predicate Leads(stage: (nat, System) -> bool, calls: seq<Call>, k: nat) {
    forall s :: StageStep(stage, calls, k, s)
  }

  lemma {:induction false} RunStages(stage: (nat, System) -> bool, calls: seq<Call>, k: nat, s: System)
    requires k <= |calls| && Consistent(s) && stage(k, s)
    requires forall i: nat :: i < |calls| ==> Leads(stage, calls, i)
    ensures stage(|calls|, Run(s, calls[k..]))
    decreases |calls| - k
  {
    if k < |calls| {
      assert Leads(stage, calls, k) && StageStep(stage, calls, k, s);
      assert calls[k..][0] == calls[k] && calls[k..][1..] == calls[k + 1..];
      RunStages(stage, calls, k + 1, After(s, calls[k]));
    }
  }

  /** The calls lead from stage to stage, and what the last one implies is `end`. */
  ghost predicate Script(stage: (nat, System) -> bool, calls: seq<Call>, end: System -> bool) {
    (forall i: nat :: i < |calls| ==> Leads(stage, calls, i)) && Implies(stage, |calls|, end)
  }

  ghost predicate Implies(stage: (nat, System) -> bool, k: nat, end: System -> bool) {
    forall s {:trigger end(s)} :: Consistent(s) && stage(k, s) ==> end(s)
  }

  lemma RunEnds(stage: (nat, System) -> bool, start: System, calls: seq<Call>, end: System -> bool)
    requires Consistent(start) && stage(0, start) && Script(stage, calls, end)
    ensures end(Run(start, calls))
  {
    RunStages(stage, calls, 0, start);
    assert calls[0..] == calls;
  }

  // ---------------------------------------------------------------------------
  // Openings
  // ---------------------------------------------------------------------------

  /** No liquidation and no deposit yet: two amounts are all there is. */
  ghost predicate Fresh(s: System, coll: nat, debt: nat) {
    && s.activeColl == s.totalStakes == coll && s.activeDebt == s.supply == debt
    && s.defaultColl == s.defaultDebt == 0 && s.l == Rewards(0, 0) && s.collError == s.debtError == 0
    && s.totalStakesSnapshot == s.totalCollateralSnapshot == 0 && StabilityPool.Untouched(s.pool)
  }

  /** The borrowing fee at a base rate of zero. */
  function FloorFee(amount: nat): nat {
    amount / 200
  }

  function NewDebt(amount: nat): nat {
    amount + FloorFee(amount) + GAS_COMPENSATION
  }

  /** An opening in Normal Mode, at the lowest fee. */
  ghost predicate CanOpen(coll: nat, amount: nat, price: nat, systemColl: nat, systemDebt: nat) {
    && amount + FloorFee(amount) >= MIN_NET_DEBT && NominalRatio(coll, NewDebt(amount)) > 0
    && CollateralRatio(systemColl, systemDebt, price) >= CCR
    && CollateralRatio(coll, NewDebt(amount), price) >= MCR
    && CollateralRatio(systemColl + coll, systemDebt + NewDebt(amount), price) >= CCR
  }

  lemma OpensFresh(s: System, a: Address, coll: nat, amount: nat, price: nat)
    requires Fresh(s, s.activeColl, s.activeDebt) && a !in s.troves
    requires CanOpen(coll, amount, price, s.activeColl, s.activeDebt)
    ensures
      var r := Open(s, a, coll, amount, FloorFee(amount), price);
      && r.Some? && Fresh(r.value, s.activeColl + coll, s.activeDebt + NewDebt(amount))
      && r.value.troves == s.troves[a := Trove(NewDebt(amount), coll, coll, Rewards(0, 0))]
      && r.value.pool == s.pool
  {
  }

  lemma DeployedFresh(s: System)
    requires Deployed(s)
    ensures Fresh(s, 0, 0) && s.troves == map[]
  {
    assert |s.troves.Keys| == 0;
  }

  // ---------------------------------------------------------------------------
  // Openings, calls of the pool, and liquidations that it absorbs
  // ---------------------------------------------------------------------------

  /** Nothing has been redistributed. */
  ghost predicate Quiet(s: System) {
    && Consistent(s) && BooksOf(s).debtDust >= 0 && s.l == Rewards(0, 0)
    && forall a :: a in s.troves ==> s.troves[a].snap == Rewards(0, 0)
  }

  /** A point of a run: openings only so far, or a pool and troves. */
  datatype Point =
    | Early(troves: map<Address, Trove>, coll: nat, debt: nat)
    | Late(troves: map<Address, Trove>, pool: StabilityPool.Pool)

  ghost predicate Reached(s: System, x: Point) {
    && Quiet(s) && s.troves == x.troves
    && match x
       case Early(_, coll, debt) => Fresh(s, coll, debt)
       case Late(_, pool) => s.pool == pool
  }

  /** A trove as it is opened, before any redistribution. */
  function Plain(debt: nat, coll: nat): Trove {
    Trove(debt, coll, coll, Rewards(0, 0))
  }

  /** The amount and its fee make that debt, and the ratios allow the opening. */
  ghost predicate OpensWith(amount: nat, coll: nat, debt: nat, price: nat, systemColl: nat, systemDebt: nat) {
    NewDebt(amount) == debt && CanOpen(coll, amount, price, systemColl, systemDebt)
  }

  /** A trove between 100% and 110%, offset as a whole, takes the pool from `p` to `q`. */
  ghost predicate Absorbs(p: StabilityPool.Pool, t: Trove, price: nat, q: StabilityPool.Pool) {
    && t.debt <= p.total && HUNDRED_PERCENT < CollateralRatio(t.coll, t.debt, price) < MCR
    && GasColl(t.coll) <= t.coll && StabilityPool.Offset(p, t.debt, t.coll - GasColl(t.coll)) == Some(q)
  }

  ghost predicate PoolMoves(x: Point, c: StabilityPool.Call, q: StabilityPool.Pool) {
    && !c.OffsetDebt? && !c.WithdrawCollGainToTrove?
    && forall p {:trigger StabilityPool.WellFormed(p)} ::
         StabilityPool.WellFormed(p) && (if x.Late? then p == x.pool else StabilityPool.Untouched(p)) ==>
         StabilityPool.Step(p, c) == Some(q)
  }

  /** The call takes the one point to the other, by what the points say alone. */
  ghost predicate Plays(x: Point, c: Call, y: Point) {
    match c
    case OpenTrove(a, coll, amount, fee, price) =>
      && x.Early? && y.Early? && a !in x.troves && fee == FloorFee(amount) && y.debt >= x.debt
      && OpensWith(amount, coll, y.debt - x.debt, price, x.coll, x.debt)
      && y == Early(x.troves[a := Plain(y.debt - x.debt, coll)], x.coll + coll, y.debt)
    case PoolCall(call) => y.Late? && y.troves == x.troves && !call.WithdrawFromSP? && PoolMoves(x, call, y.pool)
    case WithdrawDeposit(a, amount, _, _) =>
      y.Late? && y.troves == x.troves && amount == 0 && PoolMoves(x, StabilityPool.WithdrawFromSP(a, 0, true), y.pool)
    case LiquidateTroves(batch, price) =>
      && x.Late? && y.Late? && |batch| == 1 && batch[0] in x.troves && |x.troves| > 1
      && Absorbs(x.pool, x.troves[batch[0]], price, y.pool) && y.troves == x.troves - {batch[0]}
    case _ => false
  }

  lemma Opens(
      s: System, troves: map<Address, Trove>, systemColl: nat, systemDebt: nat,
      a: Address, coll: nat, amount: nat, debt: nat, price: nat)
    requires Quiet(s) && Fresh(s, systemColl, systemDebt) && s.troves == troves && a !in troves
    requires OpensWith(amount, coll, debt, price, systemColl, systemDebt)
    ensures
      var s' := After(s, OpenTrove(a, coll, amount, FloorFee(amount), price));
      && Quiet(s') && Fresh(s', systemColl + coll, systemDebt + debt) && s'.troves == troves[a := Plain(debt, coll)]
  {
    OpensFresh(s, a, coll, amount, price);
    OpenKeeps(s, a, coll, amount, FloorFee(amount), price);
  }

  lemma PlaysOpeningMeans(x: Point, c: Call, y: Point)
    requires Plays(x, c, y) && c.OpenTrove?
    ensures x.Early? && y.Early? && c.who !in x.troves && c.fee == FloorFee(c.amount) && y.debt >= x.debt
    ensures OpensWith(c.amount, c.coll, y.debt - x.debt, c.price, x.coll, x.debt)
    ensures y == Early(x.troves[c.who := Plain(y.debt - x.debt, c.coll)], x.coll + c.coll, y.debt)
  {
  }

  lemma PlaysOpening(s: System, x: Point, c: Call, y: Point)
    requires Reached(s, x) && Plays(x, c, y) && c.OpenTrove?
    ensures Reached(After(s, c), y)
  {
    PlaysOpeningMeans(x, c, y);
    Opens(s, x.troves, x.coll, x.debt, c.who, c.coll, c.amount, y.debt - x.debt, c.price);
  }

  lemma PlaysPoolCall(s: System, x: Point, c: Call, y: Point)
    requires Reached(s, x) && Plays(x, c, y) && c.PoolCall?
    ensures Reached(After(s, c), y)
  {
    assert StabilityPool.WellFormed(s.pool);
    PoolCallKeeps(s, c.call);
  }

  /** A claim does not depend on the last trove. */
  lemma PlaysClaim(s: System, x: Point, c: Call, y: Point)
    requires Reached(s, x) && Plays(x, c, y) && c.WithdrawDeposit?
    ensures Reached(After(s, c), y)
  {
    assert StabilityPool.WellFormed(s.pool);
    PoolCallKeeps(s, StabilityPool.WithdrawFromSP(c.who, 0, LastCovered(s, c.last, c.price)));
  }

  lemma Liquidates(
      s: System, pool: StabilityPool.Pool, troves: map<Address, Trove>, a: Address, price: nat, q: StabilityPool.Pool)
    requires Quiet(s) && s.pool == pool && s.troves == troves && a in troves && |troves| > 1
    requires Absorbs(pool, troves[a], price, q)
    ensures
      var s' := After(s, LiquidateTroves([a], price));
      Quiet(s') && s'.pool == q && s'.troves == troves - {a}
  {
    OffsetWhole(s, a, price, q);
    LiquidationKeepsDust(s, [a], price);
  }

  /** Nothing is pending, so the recorded amounts are the entire ones. */
  lemma Due(s: System, a: Address, price: nat, q: StabilityPool.Pool)
    requires Quiet(s) && a in s.troves && |s.troves| > 1 && Absorbs(s.pool, s.troves[a], price, q)
    ensures DueForOffset(s, a, price)
    ensures EntireDebt(s.l, s.troves[a]) == s.troves[a].debt && EntireColl(s.l, s.troves[a]) == s.troves[a].coll
  {
    NoClaim(s.l, s.troves[a]);
  }

  lemma OffsetWhole(s: System, a: Address, price: nat, q: StabilityPool.Pool)
    requires Quiet(s) && a in s.troves && |s.troves| > 1 && Absorbs(s.pool, s.troves[a], price, q)
    ensures
      var r := LiquidateBatch(s, [a], price);
      r.Some? && r.value.troves == s.troves - {a} && r.value.l == s.l && r.value.pool == q
  {
    Due(s, a, price, q);
    AbsorbedByPool(s, a, price);
  }

  lemma PlaysLiquidation(s: System, x: Point, c: Call, y: Point)
    requires Reached(s, x) && Plays(x, c, y) && c.LiquidateTroves?
    ensures Reached(After(s, c), y)
  {
    assert c.batch == [c.batch[0]];
    Liquidates(s, x.pool, x.troves, c.batch[0], c.price, y.pool);
  }

  lemma LiquidationKeepsDust(s: System, who: seq<Address>, price: nat)
    requires Quiet(s) && LiquidateBatch(s, who, price).Some? && LiquidateBatch(s, who, price).value.l == s.l
    ensures Consistent(LiquidateBatch(s, who, price).value)
    ensures BooksOf(LiquidateBatch(s, who, price).value).debtDust >= 0
  {
    LiquidationKeeps(s, who, price);
    assert Aligned(s.l, s.troves);
  }

  lemma PlaysOut(s: System, x: Point, c: Call, y: Point)
    requires Reached(s, x) && Plays(x, c, y)
    ensures Reached(After(s, c), y)
  {
    match c
    case OpenTrove(_, _, _, _, _) => PlaysOpening(s, x, c, y);
    case PoolCall(_) => PlaysPoolCall(s, x, c, y);
    case WithdrawDeposit(_, _, _, _) => PlaysClaim(s, x, c, y);
    case LiquidateTroves(_, _) => PlaysLiquidation(s, x, c, y);
  }

  /** The call of that number takes the point of that number to the next. */
  ghost predicate ScenePlays(point: nat -> Point, script: nat -> Call, k: nat) {
    Plays(point(k), script(k), point(k + 1))
  }

  ghost predicate ScriptPlays(point: nat -> Point, script: nat -> Call, n: nat) {
    forall k: nat :: k < n ==> ScenePlays(point, script, k)
  }

  /** The first calls of a script, in this order. */
  ghost predicate Performs(calls: seq<Call>, script: nat -> Call) {
    forall k {:trigger calls[k]} :: 0 <= k < |calls| ==> calls[k] == script(k)
  }

  ghost function PointStages(point: nat -> Point): (nat, System) -> bool {
    (k: nat, s: System) => Reached(s, point(k))
  }

  lemma ScriptLeads(point: nat -> Point, script: nat -> Call, n: nat, calls: seq<Call>, k: nat)
    requires ScriptPlays(point, script, n) && k < |calls| <= n && Performs(calls, script)
    ensures Leads(PointStages(point), calls, k)
  {
    assert ScenePlays(point, script, k) && calls[k] == script(k);
    forall s: System ensures StageStep(PointStages(point), calls, k, s) {
      if Consistent(s) && Reached(s, point(k)) {
        PlaysOut(s, point(k), calls[k], point(k + 1));
      }
    }
  }

  lemma DeployedReaches(start: System, x: Point)
    requires Deployed(start) && x == Early(map[], 0, 0)
    ensures Consistent(start) && Reached(start, x)
  {
    DeployedConsistent(start);
    DeployedFresh(start);
  }

  /** The pool of a point. */
  ghost predicate EndsAt(s: System, x: Point) {
    Consistent(s) && (x.Late? ==> s.pool == x.pool)
  }

  /** From deployment, the calls lead to the point of their number. */
  lemma ScriptRuns(start: System, point: nat -> Point, script: nat -> Call, n: nat, calls: seq<Call>)
    requires Deployed(start) && ScriptPlays(point, script, n) && point(0) == Early(map[], 0, 0)
    requires |calls| <= n && Performs(calls, script)
    ensures Consistent(start) && EndsAt(Run(start, calls), point(|calls|))
  {
    DeployedReaches(start, point(0));
    forall k: nat | k < |calls| ensures Leads(PointStages(point), calls, k) {
      ScriptLeads(point, script, n, calls, k);
    }
    RunStages(PointStages(point), calls, 0, start);
    assert calls[0..] == calls;
  }
}
