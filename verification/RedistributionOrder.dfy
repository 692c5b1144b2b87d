/**
 * Why the sorted list may stay untouched while redistributions change every ratio: with
 * corrected stakes, each trove earns rewards in proportion to its entire collateral, pending
 * rewards included. Amounts are exact reals here; the integer contract is in `TroveManager`.
 */
module RedistributionOrder {
  import opened Base
  import opened Arith
  import opened RealSums
  import SortedTroves

  /** `L_COLL` and `L_USDDDebt`: rewards per unit staked. */
  datatype Rewards = Rewards(coll: real, debt: real)

  datatype Trove = Trove(coll: real, debt: real, stake: real, snap: Rewards)

  datatype State = State(
    troves: map<Address, Trove>,
    list: seq<Address>,             // from the largest ratio to the smallest
    totalStakesSnapshot: real,
    totalCollateralSnapshot: real,
    l: Rewards
  )

  const INITIAL: State := State(map[], [], 0.0, 0.0, Rewards(0.0, 0.0))

  /** Recorded collateral plus the pending reward. */
  ghost function EntireColl(l: Rewards, t: Trove): real {
    t.coll + Times(t.stake, l.coll - t.snap.coll)
  }

  ghost function EntireDebt(l: Rewards, t: Trove): real {
    t.debt + Times(t.stake, l.debt - t.snap.debt)
  }

  /** `_computeNewStake`. */
  ghost function NewStake(s: State, coll: real): real {
    if s.totalCollateralSnapshot == 0.0 then coll
    else coll * s.totalStakesSnapshot / s.totalCollateralSnapshot
  }

  /** A trove written just now: fresh stake and snapshots. */
  ghost function Fresh(s: State, coll: real, debt: real): Trove {
    Trove(coll, debt, NewStake(s, coll), s.l)
  }

  /** The first trove's ratio is at least the second's, without dividing. */
  ghost predicate AtLeastAsSafe(l: Rewards, t: Trove, u: Trove) {
    EntireColl(l, t) * EntireDebt(l, u) >= EntireColl(l, u) * EntireDebt(l, t)
  }

  /** The list holds exactly the active troves. */
  ghost predicate Lists(troves: map<Address, Trove>, list: seq<Address>) {
    && Distinct(list)
    && (forall a :: a in list <==> a in troves)
  }

  type Relation = (Address, Address) -> bool

  ghost predicate Pairwise(list: seq<Address>, r: Relation) {
    forall i, j :: 0 <= i < j < |list| ==> r(list[i], list[j])
  }

  ghost function SafetyOrder(s: State): Relation {
    (a: Address, b: Address) => a in s.troves && b in s.troves && AtLeastAsSafe(s.l, s.troves[a], s.troves[b])
  }

  /** The list is sorted by ratio, largest first. */
  ghost predicate Ordered(s: State) {
    Pairwise(s.list, SafetyOrder(s))
  }

  /** Every trove's stake is the same fraction of its entire collateral. */
  ghost predicate Proportional(s: State, ratio: real) {
    && ratio > 0.0
    && (forall a :: a in s.troves ==> ProportionalTrove(s.l, s.troves[a], ratio))
    && (if s.totalCollateralSnapshot == 0.0 then ratio == 1.0
        else s.totalStakesSnapshot == Times(ratio, s.totalCollateralSnapshot))
  }

  ghost predicate ProportionalTrove(l: Rewards, t: Trove, ratio: real) {
    EntireColl(l, t) > 0.0 && EntireDebt(l, t) > 0.0 && t.stake == Times(ratio, EntireColl(l, t))
  }

  // ---------------------------------------------------------------------------
  // One pair of troves
  // ---------------------------------------------------------------------------

  /** The ratio order of two troves after rewards of `x` and `y` per unit staked. */
  ghost predicate OrderAfter(ci: real, di: real, si: real, cj: real, dj: real, sj: real, x: real, y: real) {
    (ci + si * x) * (dj + sj * y) >= (cj + sj * x) * (di + si * y)
  }

  lemma OrderExpands(ci: real, di: real, si: real, cj: real, dj: real, sj: real, x: real, y: real)
    ensures (ci + si * x) * (dj + sj * y) - (cj + sj * x) * (di + si * y)
         == (ci * dj - cj * di) + x * (si * dj - sj * di) + y * (ci * sj - cj * si)
  {
  }

  /**
   * The order of two troves survives every redistribution exactly when the ratio of their
   * stakes lies between the ratio of their debts and the ratio of their collaterals.
   */
  lemma PairOrderIff(ci: real, di: real, si: real, cj: real, dj: real, sj: real)
    requires ci > 0.0 && di > 0.0 && si > 0.0 && cj > 0.0 && dj > 0.0 && sj > 0.0
    requires ci * dj >= cj * di
    ensures (forall x, y :: x >= 0.0 && y >= 0.0 ==> OrderAfter(ci, di, si, cj, dj, sj, x, y))
       <==> sj * di <= si * dj && si * cj <= sj * ci
  {
    var gap, p, q := ci * dj - cj * di, si * dj - sj * di, ci * sj - cj * si;
    if p >= 0.0 && q >= 0.0 {
      forall x, y | x >= 0.0 && y >= 0.0 ensures OrderAfter(ci, di, si, cj, dj, sj, x, y) {
        OrderExpands(ci, di, si, cj, dj, sj, x, y);
        assert x * p >= 0.0 && y * q >= 0.0;
      }
    } else if p < 0.0 {
      var x := (gap + 1.0) / -p;
      assert x * p == -(gap + 1.0);
      OrderExpands(ci, di, si, cj, dj, sj, x, 0.0);
      assert !OrderAfter(ci, di, si, cj, dj, sj, x, 0.0);
    } else {
      var y := (gap + 1.0) / -q;
      assert y * q == -(gap + 1.0);
      OrderExpands(ci, di, si, cj, dj, sj, 0.0, y);
      assert !OrderAfter(ci, di, si, cj, dj, sj, 0.0, y);
    }
  }

  /** Stakes proportional to collateral scale the gap between two troves by a positive factor. */
  lemma ProportionalPair(ci: real, di: real, cj: real, dj: real, k: real, x: real, y: real)
    requires k > 0.0 && x >= 0.0 && ci * dj >= cj * di
    ensures OrderAfter(ci, di, k * ci, cj, dj, k * cj, x, y)
  {
    OrderExpands(ci, di, k * ci, cj, dj, k * cj, x, y);
    var gap := ci * dj - cj * di;
    assert k * ci * dj - k * cj * di == k * gap;
    assert ci * (k * cj) - cj * (k * ci) == 0.0;
    assert x * (k * gap) >= 0.0;
  }

  // ---------------------------------------------------------------------------
  // Operations
  // ---------------------------------------------------------------------------

  datatype Op =
    | Open(who: Address, coll: real, debt: real, k: nat)
    | Adjust(who: Address, coll: real, debt: real, k: nat)  // resulting amounts
    | Close(who: Address)
    | Apply(who: Address)                                   // pending rewards written to the trove
    | Liquidate(gone: set<Address>, coll: real, debt: real) // amounts to redistribute

  ghost function Without(list: seq<Address>, gone: set<Address>): seq<Address> {
    if list == [] then []
    else (if list[0] in gone then [] else [list[0]]) + Without(list[1..], gone)
  }

  /** The neighbours of position `k` allow `a` in between. */
  ghost predicate Fits(list: seq<Address>, r: Relation, a: Address, k: nat) {
    && k <= |list|
    && (0 < k ==> r(list[k - 1], a))
    && (k < |list| ==> r(a, list[k]))
  }

  ghost function StakesOf(troves: map<Address, Trove>): map<Address, real> {
    map a | a in troves :: troves[a].stake
  }

  ghost function CollsOf(l: Rewards, troves: map<Address, Trove>): map<Address, real> {
    map a | a in troves :: EntireColl(l, troves[a])
  }

  /** The trove is written afresh and moves to position `k` among the others. */
  ghost function Put(s: State, a: Address, coll: real, debt: real, k: nat): State
    requires k <= |Without(s.list, {a})|
  {
    s.(troves := s.troves[a := Fresh(s, coll, debt)], list := SortedTroves.InsertAt(Without(s.list, {a}), k, a))
  }

  ghost function Drop(s: State, gone: set<Address>): State {
    s.(troves := s.troves - gone, list := Without(s.list, gone))
  }

  ghost function Applied(l: Rewards, t: Trove): Trove {
    Trove(EntireColl(l, t), EntireDebt(l, t), t.stake, l)
  }

  /** Rewards per unit staked go to the survivors; the snapshots follow. */
  ghost function Redistribute(s: State, coll: real, debt: real): State
    requires RealSum(StakesOf(s.troves)) > 0.0
  {
    var total := RealSum(StakesOf(s.troves));
    var l' := Rewards(s.l.coll + coll / total, s.l.debt + debt / total);
    s.(l := l', totalStakesSnapshot := total, totalCollateralSnapshot := RealSum(CollsOf(l', s.troves)))
  }

  ghost predicate Enabled(s: State, op: Op) {
    match op
    case Open(a, coll, debt, k) =>
      && a !in s.troves && coll > 0.0 && debt > 0.0 && k <= |Without(s.list, {a})|
      && Fits(Without(s.list, {a}), SafetyOrder(Put(s, a, coll, debt, k)), a, k)
    case Adjust(a, coll, debt, k) =>
      && a in s.troves && coll > 0.0 && debt > 0.0 && k <= |Without(s.list, {a})|
      && Fits(Without(s.list, {a}), SafetyOrder(Put(s, a, coll, debt, k)), a, k)
    case Close(a) => a in s.troves
    case Apply(a) => a in s.troves
    case Liquidate(gone, coll, debt) =>
      && gone <= s.troves.Keys && coll >= 0.0 && debt >= 0.0
      && RealSum(StakesOf((s.troves - gone))) > 0.0
  }

  ghost function Step(s: State, op: Op): State
    requires Enabled(s, op)
  {
    match op
    case Open(a, coll, debt, k) => Put(s, a, coll, debt, k)
    case Adjust(a, coll, debt, k) => Put(s, a, coll, debt, k)
    case Close(a) => Drop(s, {a})
    case Apply(a) => s.(troves := s.troves[a := Applied(s.l, s.troves[a])])
    case Liquidate(gone, coll, debt) => Redistribute(Drop(s, gone), coll, debt)
  }

  ghost predicate Sound(s: State, ratio: real) {
    Lists(s.troves, s.list) && Proportional(s, ratio) && Ordered(s)
  }

  // ---------------------------------------------------------------------------
  // Lists
  // ---------------------------------------------------------------------------

  lemma {:induction false} WithoutMembers(list: seq<Address>, gone: set<Address>)
    ensures forall a :: a in Without(list, gone) <==> a in list && a !in gone
    ensures Distinct(list) ==> Distinct(Without(list, gone))
  {
    if list != [] {
      WithoutMembers(list[1..], gone);
      assert list == [list[0]] + list[1..];
      if Distinct(list) {
        assert list[0] !in list[1..];
      }
    }
  }

  lemma {:induction false} WithoutPairwise(list: seq<Address>, gone: set<Address>, r: Relation)
    requires Pairwise(list, r)
    ensures Pairwise(Without(list, gone), r)
    decreases |list|
  {
    if list != [] {
      WithoutMembers(list[1..], gone);
      WithoutPairwise(list[1..], gone, r);
      var rest := Without(list[1..], gone);
      forall j | 0 <= j < |rest| ensures r(list[0], rest[j]) {
        assert rest[j] in list[1..];
        var i :| 0 <= i < |list[1..]| && list[1..][i] == rest[j];
        assert list[i + 1] == rest[j];
      }
    }
  }

  ghost predicate TransitiveOn(list: seq<Address>, a: Address, r: Relation) {
    && (forall x, y :: x in list && y in list && r(x, y) && r(y, a) ==> r(x, a))
    && (forall x, y :: x in list && y in list && r(a, x) && r(x, y) ==> r(a, y))
  }

  lemma InsertPairwise(list: seq<Address>, r: Relation, a: Address, k: nat)
    requires Pairwise(list, r) && Fits(list, r, a, k) && TransitiveOn(list, a, r)
    ensures Pairwise(SortedTroves.InsertAt(list, k, a), r)
  {
    var longer := SortedTroves.InsertAt(list, k, a);
    forall i, j | 0 <= i < j < |longer| ensures r(longer[i], longer[j]) {
      if j == k {
        assert list[i] in list && list[k - 1] in list;
        assert i == k - 1 || r(list[i], list[k - 1]);
      } else if i == k {
        assert list[k] in list && list[j - 1] in list;
        assert j - 1 == k || r(list[k], list[j - 1]);
      }
    }
  }

  lemma InsertMembers(list: seq<Address>, k: nat, a: Address)
    requires k <= |list| && Distinct(list) && a !in list
    ensures Distinct(SortedTroves.InsertAt(list, k, a))
    ensures forall x :: x in SortedTroves.InsertAt(list, k, a) <==> x == a || x in list
  {
    SortedTroves.InsertedMembers(list, k, a);
    SortedTroves.InsertedDistinct(list, k, a);
  }

  lemma InsertLists(troves: map<Address, Trove>, list: seq<Address>, a: Address, k: nat, t: Trove)
    requires Lists(troves, list) && k <= |Without(list, {a})|
    ensures Lists(troves[a := t], SortedTroves.InsertAt(Without(list, {a}), k, a))
  {
    WithoutMembers(list, {a});
    InsertMembers(Without(list, {a}), k, a);
  }

  // ---------------------------------------------------------------------------
  // Steps
  // ---------------------------------------------------------------------------

  lemma Transitive(ca: real, da: real, cb: real, db: real, cc: real, dc: real)
    requires da > 0.0 && db > 0.0 && dc > 0.0
    requires ca * db >= cb * da && cb * dc >= cc * db
    ensures ca * dc >= cc * da
  {
    assert ca * db * dc >= cb * da * dc;
    assert cb * dc * da >= cc * db * da;
    if ca * dc < cc * da {
      StrictlyScaled(ca * dc, cc * da, db);
    }
  }

  lemma SafeTransitive(l: Rewards, t: Trove, u: Trove, v: Trove)
    requires EntireDebt(l, t) > 0.0 && EntireDebt(l, u) > 0.0 && EntireDebt(l, v) > 0.0
    requires AtLeastAsSafe(l, t, u) && AtLeastAsSafe(l, u, v)
    ensures AtLeastAsSafe(l, t, v)
  {
    Transitive(EntireColl(l, t), EntireDebt(l, t), EntireColl(l, u), EntireDebt(l, u),
               EntireColl(l, v), EntireDebt(l, v));
  }

  lemma FreshProportional(s: State, coll: real, debt: real, ratio: real)
    requires Proportional(s, ratio) && coll > 0.0 && debt > 0.0
    ensures ProportionalTrove(s.l, Fresh(s, coll, debt), ratio)
  {
    var t := Fresh(s, coll, debt);
    assert Times(t.stake, 0.0) == 0.0;
    assert EntireColl(s.l, t) == coll && EntireDebt(s.l, t) == debt;
    if s.totalCollateralSnapshot != 0.0 {
      Cancel(coll, ratio, s.totalCollateralSnapshot);
    }
  }

  lemma Cancel(coll: real, ratio: real, snapshot: real)
    requires snapshot != 0.0
    ensures coll * Times(ratio, snapshot) / snapshot == Times(ratio, coll)
  {
    assert coll * (ratio * snapshot) == (ratio * coll) * snapshot;
  }

  /** An order that holds between two listed troves carries over where their amounts do. */
  lemma OrderKept(s: State, s': State, list: seq<Address>)
    requires Pairwise(list, SafetyOrder(s))
    requires forall a :: a in list ==> a in s.troves && a in s'.troves
    requires forall a, b :: a in list && b in list && AtLeastAsSafe(s.l, s.troves[a], s.troves[b]) ==>
               AtLeastAsSafe(s'.l, s'.troves[a], s'.troves[b])
    ensures Pairwise(list, SafetyOrder(s'))
  {
    forall i, j | 0 <= i < j < |list| ensures SafetyOrder(s')(list[i], list[j]) {
      assert SafetyOrder(s)(list[i], list[j]);
      assert list[i] in list && list[j] in list;
    }
  }

  lemma TransitiveAround(s: State, list: seq<Address>, a: Address, ratio: real)
    requires Proportional(s, ratio)
    ensures TransitiveOn(list, a, SafetyOrder(s))
  {
    var r := SafetyOrder(s);
    forall x, y, z | r(x, y) && r(y, z) ensures r(x, z) {
      assert ProportionalTrove(s.l, s.troves[x], ratio) && ProportionalTrove(s.l, s.troves[y], ratio)
          && ProportionalTrove(s.l, s.troves[z], ratio);
      SafeTransitive(s.l, s.troves[x], s.troves[y], s.troves[z]);
    }
  }

  lemma PutSound(s: State, a: Address, coll: real, debt: real, k: nat, ratio: real)
    requires Sound(s, ratio) && coll > 0.0 && debt > 0.0 && k <= |Without(s.list, {a})|
    requires Fits(Without(s.list, {a}), SafetyOrder(Put(s, a, coll, debt, k)), a, k)
    ensures Sound(Put(s, a, coll, debt, k), ratio)
  {
    var s', rest := Put(s, a, coll, debt, k), Without(s.list, {a});
    InsertLists(s.troves, s.list, a, k, Fresh(s, coll, debt));
    FreshProportional(s, coll, debt, ratio);
    WithoutMembers(s.list, {a});
    WithoutPairwise(s.list, {a}, SafetyOrder(s));
    OrderKept(s, s', rest);
    TransitiveAround(s', rest, a, ratio);
    InsertPairwise(rest, SafetyOrder(s'), a, k);
  }

  lemma DropSound(s: State, gone: set<Address>, ratio: real)
    requires Sound(s, ratio)
    ensures Sound(Drop(s, gone), ratio)
  {
    WithoutMembers(s.list, gone);
    WithoutPairwise(s.list, gone, SafetyOrder(s));
    OrderKept(s, Drop(s, gone), Without(s.list, gone));
  }

  ghost function DebtsOf(l: Rewards, troves: map<Address, Trove>): map<Address, real> {
    map a | a in troves :: EntireDebt(l, troves[a])
  }

  /** The entire amounts grow by the rewards per unit, times the stake. */
  ghost predicate Grown(l: Rewards, l': Rewards, t: Trove, x: real, y: real) {
    && EntireColl(l', t) == EntireColl(l, t) + Times(x, t.stake)
    && EntireDebt(l', t) == EntireDebt(l, t) + Times(y, t.stake)
  }

  lemma RewardsAdd(l: Rewards, t: Trove, x: real, y: real)
    ensures Grown(l, Rewards(l.coll + x, l.debt + y), t, x, y)
  {
  }

  lemma SumsGrow(l: Rewards, l': Rewards, troves: map<Address, Trove>, x: real, y: real)
    requires forall a :: a in troves ==> Grown(l, l', troves[a], x, y)
    ensures RealSum(CollsOf(l', troves)) == RealSum(CollsOf(l, troves)) + Times(x, RealSum(StakesOf(troves)))
    ensures RealSum(DebtsOf(l', troves)) == RealSum(DebtsOf(l, troves)) + Times(y, RealSum(StakesOf(troves)))
  {
    CollsGrow(l, l', troves, x, y);
    DebtsGrow(l, l', troves, x, y);
  }

  lemma CollsGrow(l: Rewards, l': Rewards, troves: map<Address, Trove>, x: real, y: real)
    requires forall a :: a in troves ==> Grown(l, l', troves[a], x, y)
    ensures RealSum(CollsOf(l', troves)) == RealSum(CollsOf(l, troves)) + Times(x, RealSum(StakesOf(troves)))
  {
    RealSumAddScaled(CollsOf(l', troves), CollsOf(l, troves), StakesOf(troves), x);
  }

  lemma DebtsGrow(l: Rewards, l': Rewards, troves: map<Address, Trove>, x: real, y: real)
    requires forall a :: a in troves ==> Grown(l, l', troves[a], x, y)
    ensures RealSum(DebtsOf(l', troves)) == RealSum(DebtsOf(l, troves)) + Times(y, RealSum(StakesOf(troves)))
  {
    RealSumAddScaled(DebtsOf(l', troves), DebtsOf(l, troves), StakesOf(troves), y);
  }

  lemma ShareTimes(x: real, y: real)
    requires y > 0.0
    ensures Times(x / y, y) == x
  {
  }

  /** A redistribution gives the survivors, in proportion to their stakes, what it takes and no more. */
  lemma RedistributionConserves(s: State, coll: real, debt: real)
    requires RealSum(StakesOf(s.troves)) > 0.0
    ensures
      var s', total := Redistribute(s, coll, debt), RealSum(StakesOf(s.troves));
      && s'.troves == s.troves && s'.totalStakesSnapshot == total
      && s'.totalCollateralSnapshot == RealSum(CollsOf(s'.l, s.troves)) == RealSum(CollsOf(s.l, s.troves)) + coll
      && RealSum(DebtsOf(s'.l, s.troves)) == RealSum(DebtsOf(s.l, s.troves)) + debt
      && (forall a :: a in s.troves ==> Grown(s.l, s'.l, s.troves[a], coll / total, debt / total))
  {
    var s', total := Redistribute(s, coll, debt), RealSum(StakesOf(s.troves));
    forall a | a in s.troves ensures Grown(s.l, s'.l, s.troves[a], coll / total, debt / total) {
      RewardsAdd(s.l, s.troves[a], coll / total, debt / total);
    }
    SumsGrow(s.l, s'.l, s.troves, coll / total, debt / total);
    ShareTimes(coll, total);
    ShareTimes(debt, total);
  }

  lemma AppliedUnchanged(l: Rewards, t: Trove)
    ensures EntireColl(l, Applied(l, t)) == EntireColl(l, t)
    ensures EntireDebt(l, Applied(l, t)) == EntireDebt(l, t)
  {
    assert Times(t.stake, 0.0) == 0.0;
  }

  lemma SamePair(l: Rewards, t: Trove, u: Trove, t': Trove, u': Trove)
    requires t' == t || t' == Applied(l, t)
    requires u' == u || u' == Applied(l, u)
    requires AtLeastAsSafe(l, t, u)
    ensures AtLeastAsSafe(l, t', u')
  {
    AppliedUnchanged(l, t);
    AppliedUnchanged(l, u);
  }

  lemma ApplySound(s: State, a: Address, ratio: real)
    requires Sound(s, ratio) && a in s.troves
    ensures Sound(s.(troves := s.troves[a := Applied(s.l, s.troves[a])]), ratio)
  {
    var s' := s.(troves := s.troves[a := Applied(s.l, s.troves[a])]);
    AppliedUnchanged(s.l, s.troves[a]);
    assert Proportional(s', ratio);
    forall x, y | x in s.list && y in s.list && AtLeastAsSafe(s.l, s.troves[x], s.troves[y])
      ensures AtLeastAsSafe(s.l, s'.troves[x], s'.troves[y])
    {
      SamePair(s.l, s.troves[x], s.troves[y], s'.troves[x], s'.troves[y]);
    }
    OrderKept(s, s', s.list);
  }

  // ---------------------------------------------------------------------------
  // Redistribution
  // ---------------------------------------------------------------------------

  lemma RewardAdds(l: Rewards, l': Rewards, t: Trove, x: real, y: real)
    requires l'.coll == l.coll + x && l'.debt == l.debt + y
    ensures EntireColl(l', t) == EntireColl(l, t) + t.stake * x
    ensures EntireDebt(l', t) == EntireDebt(l, t) + t.stake * y
  {
    TimesAdd(t.stake, l.coll - t.snap.coll, x, l'.coll - t.snap.coll);
    TimesAdd(t.stake, l.debt - t.snap.debt, y, l'.debt - t.snap.debt);
  }

  /** The common fraction after a reward of `x` per unit staked. */
  lemma ProportionAfter(c: real, stake: real, ratio: real, x: real)
    requires c > 0.0 && ratio > 0.0 && x >= 0.0 && stake == Times(ratio, c)
    ensures 1.0 + ratio * x >= 1.0
    ensures c + stake * x == c * (1.0 + ratio * x)
    ensures stake == Times(ratio / (1.0 + ratio * x), c + stake * x)
  {
    var f := 1.0 + ratio * x;
    assert stake * x == ratio * c * x == c * (ratio * x);
    assert (ratio / f) * (c * f) == (ratio / f) * f * c == ratio * c;
  }

  lemma RedistributedTrove(l: Rewards, l': Rewards, t: Trove, ratio: real, x: real, y: real)
    requires ProportionalTrove(l, t, ratio) && ratio > 0.0 && x >= 0.0 && y >= 0.0
    requires l'.coll == l.coll + x && l'.debt == l.debt + y
    ensures 1.0 + ratio * x >= 1.0
    ensures ProportionalTrove(l', t, ratio / (1.0 + ratio * x))
  {
    RewardAdds(l, l', t, x, y);
    ProportionAfter(EntireColl(l, t), t.stake, ratio, x);
    assert t.stake >= 0.0;
    assert t.stake * y >= 0.0 && t.stake * x >= 0.0;
  }

  lemma RedistributedPair(l: Rewards, l': Rewards, t: Trove, u: Trove, ratio: real, x: real, y: real)
    requires ProportionalTrove(l, t, ratio) && ProportionalTrove(l, u, ratio) && ratio > 0.0 && x >= 0.0
    requires l'.coll == l.coll + x && l'.debt == l.debt + y
    requires AtLeastAsSafe(l, t, u)
    ensures AtLeastAsSafe(l', t, u)
  {
    RewardAdds(l, l', t, x, y);
    RewardAdds(l, l', u, x, y);
    ProportionalPair(EntireColl(l, t), EntireDebt(l, t), EntireColl(l, u), EntireDebt(l, u), ratio, x, y);
  }

  lemma RedistributedProportion(s: State, coll: real, debt: real, ratio: real) returns (ratio': real)
    requires Proportional(s, ratio) && coll >= 0.0 && debt >= 0.0 && RealSum(StakesOf(s.troves)) > 0.0
    ensures Proportional(Redistribute(s, coll, debt), ratio')
  {
    var s', total := Redistribute(s, coll, debt), RealSum(StakesOf(s.troves));
    var x, y := coll / total, debt / total;
    assert ratio * x >= 0.0;
    ratio' := ratio / (1.0 + ratio * x);
    forall a | a in s.troves ensures ProportionalTrove(s'.l, s.troves[a], ratio') {
      RedistributedTrove(s.l, s'.l, s.troves[a], ratio, x, y);
    }
    assert forall a :: a in s.troves ==>
      StakesOf(s.troves)[a] == Times(ratio', CollsOf(s'.l, s.troves)[a]);
    RealSumScale(StakesOf(s.troves), CollsOf(s'.l, s.troves), ratio');
    assert Times(ratio', 0.0) == 0.0;
  }

  lemma RedistributedOrder(s: State, coll: real, debt: real, ratio: real)
    requires Sound(s, ratio) && coll >= 0.0 && debt >= 0.0 && RealSum(StakesOf(s.troves)) > 0.0
    ensures Ordered(Redistribute(s, coll, debt))
  {
    var s', total := Redistribute(s, coll, debt), RealSum(StakesOf(s.troves));
    forall a, b | a in s.list && b in s.list && AtLeastAsSafe(s.l, s.troves[a], s.troves[b])
      ensures AtLeastAsSafe(s'.l, s.troves[a], s.troves[b])
    {
      assert a in s.troves && b in s.troves;
      RedistributedPair(s.l, s'.l, s.troves[a], s.troves[b], ratio, coll / total, debt / total);
    }
    OrderKept(s, s', s.list);
  }

  // ---------------------------------------------------------------------------
  // Runs
  // ---------------------------------------------------------------------------

  /** Every operation keeps the list sorted and the stakes proportional. */
  lemma StepSound(s: State, op: Op, ratio: real) returns (ratio': real)
    requires Sound(s, ratio) && Enabled(s, op)
    ensures Sound(Step(s, op), ratio')
  {
    ratio' := ratio;
    match op
    case Open(a, coll, debt, k) => PutSound(s, a, coll, debt, k, ratio);
    case Adjust(a, coll, debt, k) => PutSound(s, a, coll, debt, k, ratio);
    case Close(a) => DropSound(s, {a}, ratio);
    case Apply(a) => ApplySound(s, a, ratio);
    case Liquidate(gone, coll, debt) =>
      DropSound(s, gone, ratio);
      RedistributedOrder(Drop(s, gone), coll, debt, ratio);
      ratio' := RedistributedProportion(Drop(s, gone), coll, debt, ratio);
  }

  /** In a sound state one surviving trove is all a liquidation asks for. */
  lemma SurvivorsHaveStake(s: State, gone: set<Address>, survivor: Address, ratio: real)
    requires Sound(s, ratio) && survivor in s.troves && survivor !in gone
    ensures RealSum(StakesOf(s.troves - gone)) > 0.0
  {
    var stakes := StakesOf(s.troves - gone);
    forall a | a in stakes ensures stakes[a] > 0.0 {
      assert ProportionalTrove(s.l, s.troves[a], ratio);
    }
    RealSumRemove(StakesOf(s.troves - gone), survivor);
    RealSumNonNegative(StakesOf(s.troves - gone) - {survivor});
    assert StakesOf(s.troves - gone)[survivor] > 0.0;
  }

  ghost predicate Possible(s: State, ops: seq<Op>)
    decreases |ops|
  {
    ops != [] ==> Enabled(s, ops[0]) && Possible(Step(s, ops[0]), ops[1..])
  }

  ghost function Run(s: State, ops: seq<Op>): State
    requires Possible(s, ops)
    decreases |ops|
  {
    if ops == [] then s else Run(Step(s, ops[0]), ops[1..])
  }

  lemma {:induction false} RunSound(s: State, ops: seq<Op>, ratio: real) returns (ratio': real)
    requires Sound(s, ratio) && Possible(s, ops)
    ensures Sound(Run(s, ops), ratio')
    decreases |ops|
  {
    ratio' := ratio;
    if ops != [] {
      ratio' := StepSound(s, ops[0], ratio);
      ratio' := RunSound(Step(s, ops[0]), ops[1..], ratio');
    }
  }

  /**
   * After every run of opens, adjustments, closures, reward applications and liquidations the
   * list is sorted by the current ratios, although a redistribution changes all of them and
   * moves no node, and all stakes are the same fraction of the entire collateral.
   */
  lemma ListStaysSorted(ops: seq<Op>)
    requires Possible(INITIAL, ops)
    ensures Ordered(Run(INITIAL, ops))
    ensures exists ratio :: Proportional(Run(INITIAL, ops), ratio)
  {
    var ratio := RunSound(INITIAL, ops, 1.0);
  }
}
