/**
 * When a redemption as a whole is refused, and what a successful one redeems and draws, from
 * amounts that can be read before the call: the entire collateral and debt of each trove it
 * would visit.
 */
module RedemptionOutcome {
  import opened Base
  import opened Liquidation
  import opened TroveManager
  import opened TroveAccounting
  import opened TroveRuns
  import opened RedemptionStart
  import opened RedemptionWalk
  import opened RedemptionSafety
  import opened TroveEffects

  // ---------------------------------------------------------------------------
  // The plan
  // ---------------------------------------------------------------------------

  /** A trove's entire amounts. */
  datatype Position = Position(coll: nat, debt: nat)

  ghost predicate Listed(s: System, order: seq<Address>) {
    forall a :: a in order ==> a in s.troves
  }

  ghost function Amounts(s: System, order: seq<Address>): seq<Position>
    requires Listed(s, order)
  {
    seq(|order|, i requires 0 <= i < |order| =>
      Position(EntireColl(s.l, s.troves[order[i]]), EntireDebt(s.l, s.troves[order[i]])))
  }

  /** What can be redeemed from a trove. */
  ghost function Net(x: Position): int {
    x.debt - GAS_COMPENSATION
  }

  ghost function Nets(xs: seq<Position>): int {
    if xs == [] then 0 else Net(xs[0]) + Nets(xs[1..])
  }

  /** The collateral of that value at the price, rounded down. */
  ghost function FaceValue(debt: int, price: nat): int {
    if debt < 0 || price == 0 then 0 else debt * DECIMAL_PRECISION / price
  }

  ghost function FaceValues(xs: seq<Position>, price: nat): int {
    if xs == [] then 0 else FaceValue(Net(xs[0]), price) + FaceValues(xs[1..], price)
  }

  /** No trove falls short of the minimum. */
  ghost predicate Regular(xs: seq<Position>) {
    forall i :: 0 <= i < |xs| ==> xs[i].debt >= MIN_DEBT
  }

  /** The number of troves that the amount redeems in full, within the limit. */
  ghost predicate IsCount(xs: seq<Position>, amount: nat, limit: nat, n: nat) {
    && n <= |xs| && n <= limit && Nets(xs[..n]) <= amount
    && (n < |xs| && n < limit ==> amount < Nets(xs[..n + 1]))
  }

  ghost function Count(xs: seq<Position>, amount: nat, limit: nat): (n: nat)
    requires Regular(xs)
    ensures IsCount(xs, amount, limit, n)
  {
    if xs == [] || limit == 0 || amount < Net(xs[0]) then
      FirstNet(xs);
      0
    else
      var n := Count(xs[1..], amount - Net(xs[0]), limit - 1);
      CountExtends(xs, amount, limit, n);
      n + 1
  }

  lemma FirstNet(xs: seq<Position>)
    ensures Nets(xs[..0]) == 0 && (xs != [] ==> Nets(xs[..1]) == Net(xs[0]))
  {
    if xs != [] {
      assert xs[..1][1..] == [];
    }
  }

  lemma PrefixNets(xs: seq<Position>, n: nat, price: nat)
    requires 0 < n <= |xs|
    ensures Nets(xs[..n]) == Net(xs[0]) + Nets(xs[1..][..n - 1])
    ensures FaceValues(xs[..n], price) == FaceValue(Net(xs[0]), price) + FaceValues(xs[1..][..n - 1], price)
  {
    assert xs[..n][1..] == xs[1..][..n - 1];
  }

  lemma CountExtends(xs: seq<Position>, amount: nat, limit: nat, n: nat)
    requires xs != [] && limit > 0 && 0 <= Net(xs[0]) <= amount
    requires IsCount(xs[1..], amount - Net(xs[0]), limit - 1, n)
    ensures IsCount(xs, amount, limit, n + 1)
  {
    PrefixNets(xs, n + 1, 0);
    if n + 1 < |xs| {
      PrefixNets(xs, n + 2, 0);
    }
  }

  /** There is only one such number. */
  lemma {:induction false} CountUnique(xs: seq<Position>, amount: nat, limit: nat, n: nat)
    requires Regular(xs) && IsCount(xs, amount, limit, n)
    ensures n == Count(xs, amount, limit)
    decreases |xs|
  {
    if xs != [] && limit > 0 {
      FirstNet(xs);
      if n == 0 {
        assert amount < Net(xs[0]);
      } else {
        NetsNonNegative(xs[1..][..n - 1]);
        PrefixNets(xs, n, 0);
        if n < |xs| {
          PrefixNets(xs, n + 1, 0);
        }
        CountUnique(xs[1..], amount - Net(xs[0]), limit - 1, n - 1);
      }
    }
  }

  lemma {:induction false} NetsNonNegative(xs: seq<Position>)
    requires Regular(xs)
    ensures Nets(xs) >= 0
  {
    if xs != [] {
      NetsNonNegative(xs[1..]);
    }
  }

  /** What is left for the trove after those, if there is one. */
  ghost predicate PartLeft(xs: seq<Position>, amount: nat, limit: nat, n: nat) {
    n < |xs| && n < limit && amount > Nets(xs[..n])
  }

  /** The hint names the ratio that redeeming `rest` leaves, and enough debt stays. */
  ghost predicate Accepts(x: Position, rest: int, price: nat, hint: nat) {
    var coll, debt := x.coll - FaceValue(rest, price), x.debt - rest;
    coll >= 0 && debt >= MIN_DEBT && NominalRatio(coll, debt) == hint
  }

  /** The last trove is redeemed from in part. */
  ghost predicate PartTaken(xs: seq<Position>, amount: nat, limit: nat, n: nat, price: nat, hint: nat) {
    PartLeft(xs, amount, limit, n) && Accepts(xs[n], amount - Nets(xs[..n]), price, hint)
  }

  /** And it cannot be written back: a ratio of zero, or no stake to give. */
  ghost predicate Stuck(s: System, xs: seq<Position>, amount: nat, limit: nat, n: nat, price: nat, hint: nat) {
    PartTaken(xs, amount, limit, n, price, hint) && (hint == 0 || NoStake(s))
  }

  ghost function Taken(xs: seq<Position>, amount: nat, limit: nat, n: nat, price: nat, hint: nat): int
    requires n <= |xs|
  {
    if PartTaken(xs, amount, limit, n, price, hint) then amount else Nets(xs[..n])
  }

  ghost function Drawn(xs: seq<Position>, amount: nat, limit: nat, n: nat, price: nat, hint: nat): int
    requires n <= |xs|
  {
    FaceValues(xs[..n], price)
      + if PartTaken(xs, amount, limit, n, price, hint) then FaceValue(amount - Nets(xs[..n]), price) else 0
  }

  // ---------------------------------------------------------------------------
  // One trove
  // ---------------------------------------------------------------------------

  ghost function PositionOf(s: System, a: Address): Position
    requires a in s.troves
  {
    Position(EntireColl(s.l, s.troves[a]), EntireDebt(s.l, s.troves[a]))
  }

  /** What a step leaves alone. */
  ghost predicate OthersAsBefore(s: System, s': System, a: Address) {
    && s'.l == s.l && s'.totalStakesSnapshot == s.totalStakesSnapshot
    && s'.totalCollateralSnapshot == s.totalCollateralSnapshot && (forall b :: b != a ==> SameAt(s, s', b))
  }

  lemma OneLess(s: System, s': System, a: Address)
    requires a in s.troves && a !in s'.troves && forall b :: b != a ==> SameAt(s, s', b)
    ensures |s'.troves| == |s.troves| - 1
  {
    forall b ensures b in s'.troves.Keys <==> b in s.troves.Keys - {a} {
      assert b != a ==> SameAt(s, s', b);
    }
    assert s'.troves.Keys == s.troves.Keys - {a};
    assert |s.troves.Keys - {a}| == |s.troves.Keys| - 1;
  }

  /** The same for a trove whose rewards are applied. */
  lemma FullApplied(r: Redemption, a: Address, price: nat, hint: nat)
    requires a in r.s.troves && price > 0 && GAS_COMPENSATION <= r.s.troves[a].debt
    requires r.remaining >= r.s.troves[a].debt - GAS_COMPENSATION && RedeemApplied(r, a, price, hint).Some?
    ensures
      var r', net := RedeemApplied(r, a, price, hint).value, r.s.troves[a].debt - GAS_COMPENSATION;
      && !r'.cancelled && r'.remaining == r.remaining - net && r'.redeemed == r.redeemed + net
      && r'.drawn == r.drawn + FaceValue(net, price) && r'.steps == r.steps + 1 && a !in r'.s.troves
      && r'.s.totalStakesSnapshot == r.s.totalStakesSnapshot
      && r'.s.totalCollateralSnapshot == r.s.totalCollateralSnapshot
  {
    assert Lot(r, r.s.troves[a]) == r.s.troves[a].debt - GAS_COMPENSATION;
  }

  lemma FullNotPartial(r: Redemption, a: Address)
    requires UnderWay(r) && a in r.s.troves && r.remaining >= Net(PositionOf(r.s, a))
    ensures !PartialAt(r, a)
  {
    AppliedTrove(r, a);
  }

  lemma FullTaken(r: Redemption, a: Address, price: nat, hint: nat)
    requires UnderWay(r) && a in r.s.troves && r.remaining >= Net(PositionOf(r.s, a))
    requires RedeemFrom(r, a, price, hint).Some?
    ensures
      var r', net := RedeemFrom(r, a, price, hint).value, Net(PositionOf(r.s, a));
      && !r'.cancelled && r'.remaining == r.remaining - net && r'.redeemed == r.redeemed + net
      && r'.drawn == r.drawn + FaceValue(net, price) && r'.steps == r.steps + 1 && a !in r'.s.troves
      && r'.s.totalStakesSnapshot == r.s.totalStakesSnapshot
      && r'.s.totalCollateralSnapshot == r.s.totalCollateralSnapshot
  {
    AppliedTrove(r, a);
    FullApplied(r.(s := ApplyRewards(r.s, a).value), a, price, hint);
  }

  /** A trove that the amount redeems in full is closed, unless it is the only one. */
  lemma FullStep(r: Redemption, a: Address, price: nat, hint: nat)
    requires UnderWay(r) && a in r.s.troves && CurrentRatio(r.s, a, price) >= HUNDRED_PERCENT
    requires r.remaining >= Net(PositionOf(r.s, a))
    ensures RedeemFrom(r, a, price, hint).None? <==> |r.s.troves| <= 1
    ensures RedeemFrom(r, a, price, hint).Some? ==>
              var r', net := RedeemFrom(r, a, price, hint).value, Net(PositionOf(r.s, a));
              && !r'.cancelled && r'.remaining == r.remaining - net && r'.redeemed == r.redeemed + net
              && r'.drawn == r.drawn + FaceValue(net, price) && r'.steps == r.steps + 1
              && a !in r'.s.troves && |r'.s.troves| == |r.s.troves| - 1 && OthersAsBefore(r.s, r'.s, a)
  {
    StepRefusedIff(r, a, price, hint);
    FullNotPartial(r, a);
    if RedeemFrom(r, a, price, hint).Some? {
      FullTaken(r, a, price, hint);
      StepShape(r, a, price, hint);
      OneLess(r.s, RedeemFrom(r, a, price, hint).value.s, a);
    }
  }

  /** A trove that the amount redeems in part is written back if the hint is right and enough debt stays. */
  lemma PartStep(r: Redemption, a: Address, price: nat, hint: nat)
    requires UnderWay(r) && a in r.s.troves && CurrentRatio(r.s, a, price) >= HUNDRED_PERCENT
    requires 0 < r.remaining < Net(PositionOf(r.s, a))
    ensures
      var x := PositionOf(r.s, a);
      var accepted, next := Accepts(x, r.remaining, price, hint), RedeemFrom(r, a, price, hint);
      && (next.None? <==> accepted && (hint == 0 || NoStake(r.s)))
      && (next.Some? ==>
            var r' := next.value;
            && OthersAsBefore(r.s, r'.s, a) && a in r'.s.troves && |r'.s.troves| == |r.s.troves|
            && r'.cancelled == !accepted && r'.s.troves[a].snap == r.s.l
            && (if accepted then
                  && r'.remaining == 0 && r'.redeemed == r.redeemed + r.remaining && r'.steps == r.steps + 1
                  && r'.drawn == r.drawn + FaceValue(r.remaining, price)
                  && r'.s.troves[a].coll == x.coll - FaceValue(r.remaining, price)
                  && r'.s.troves[a].debt == x.debt - r.remaining
                else
                  && r'.remaining == r.remaining && r'.redeemed == r.redeemed && r'.steps == r.steps
                  && r'.drawn == r.drawn && r'.s.troves[a].coll == x.coll && r'.s.troves[a].debt == x.debt))
  {
    AppliedTrove(r, a);
    StepRefusedIff(r, a, price, hint);
    var x := PositionOf(r.s, a);
    LotWithinShare(x.coll, x.debt, price, r.remaining);
    NewStakeIs(r.s, x.coll - CollLot(r.remaining, price));
    if RedeemFrom(r, a, price, hint).Some? {
      StepShape(r, a, price, hint);
      SameNumber(r.s, RedeemFrom(r, a, price, hint).value.s, a);
    }
  }

  lemma SameNumber(s: System, s': System, a: Address)
    requires a in s.troves && a in s'.troves && forall b :: b != a ==> SameAt(s, s', b)
    ensures |s'.troves| == |s.troves|
  {
    forall b ensures b in s'.troves.Keys <==> b in s.troves.Keys {
      assert b != a ==> SameAt(s, s', b);
    }
    assert s'.troves.Keys == s.troves.Keys;
  }

  // ---------------------------------------------------------------------------
  // The walk
  // ---------------------------------------------------------------------------

  /** What the walk ends with, from the plan for its first `n` troves. */
  ghost predicate Ends(
      r: Redemption, end: Redemption, xs: seq<Position>, order: seq<Address>, limit: nat, n: nat, price: nat, hint: nat)
    requires n <= |xs| == |order|
  {
    && end.redeemed == r.redeemed + Taken(xs, r.remaining, limit, n, price, hint)
    && end.drawn == r.drawn + Drawn(xs, r.remaining, limit, n, price, hint)
    && end.remaining == r.remaining - Taken(xs, r.remaining, limit, n, price, hint)
    && |end.s.troves| == |r.s.troves| - n && end.s.l == r.s.l
    && (forall i :: 0 <= i < n ==> order[i] !in end.s.troves)
    && (PartLeft(xs, r.remaining, limit, n) ==>
          LastAfter(end.s, order[n], xs[n], r.remaining - Nets(xs[..n]), price, hint))
    && (forall b :: b !in order[..n] && !(PartLeft(xs, r.remaining, limit, n) && b == order[n]) ==>
          SameAt(r.s, end.s, b))
  }

  /** The trove where the amount ends: redeemed from in part, or with its rewards applied and no more. */
  ghost predicate LastAfter(s: System, a: Address, x: Position, rest: int, price: nat, hint: nat) {
    && a in s.troves && s.troves[a].snap == s.l
    && s.troves[a].coll == x.coll - (if Accepts(x, rest, price, hint) then FaceValue(rest, price) else 0)
    && s.troves[a].debt == x.debt - (if Accepts(x, rest, price, hint) then rest else 0)
  }

  ghost predicate Refused(
      s: System, xs: seq<Position>, amount: nat, limit: nat, n: nat, price: nat, hint: nat)
  {
    (n > 0 && n == |s.troves|) || Stuck(s, xs, amount, limit, n, price, hint)
  }

  ghost predicate Walked(
      r: Redemption, order: seq<Address>, price: nat, hint: nat, limit: nat, xs: seq<Position>, n: nat)
    requires n <= |xs| == |order|
  {
    var end := RedeemAlong(r, order, price, hint, limit);
    && (end.None? <==> Refused(r.s, xs, r.remaining, limit, n, price, hint))
    && (end.Some? ==> Ends(r, end.value, xs, order, limit, n, price, hint))
  }

  lemma WalkingUnderWay(s: System, r: Redemption, order: seq<Address>, price: nat)
    requires Walking(s, r, order, price)
    ensures UnderWay(r)
  {
    SoundIsUnderWay(s, r);
  }

  lemma RegularAmounts(r: Redemption, order: seq<Address>)
    requires MinimumDebt(r.s.troves) && Listed(r.s, order)
    ensures Regular(Amounts(r.s, order))
  {
    forall i | 0 <= i < |order| ensures Amounts(r.s, order)[i].debt >= MIN_DEBT {
      assert order[i] in order;
    }
  }

  /** Where no trove is redeemed in full. */
  lemma WalkStops(s: System, r: Redemption, order: seq<Address>, price: nat, hint: nat, limit: nat)
    requires Walking(s, r, order, price) && Listed(r.s, order)
    requires IsCount(Amounts(r.s, order), r.remaining, limit, 0)
    ensures Walked(r, order, price, hint, limit, Amounts(r.s, order), 0)
  {
    var xs := Amounts(r.s, order);
    WalkingUnderWay(s, r, order, price);
    FirstNet(xs);
    if order != [] && limit > 0 && r.remaining > 0 {
      assert order[0] in order && xs[0] == PositionOf(r.s, order[0]);
      PartStep(r, order[0], price, hint);
      PartEnds(r, order, price, hint, limit, xs);
    }
  }

  lemma PartEnds(r: Redemption, order: seq<Address>, price: nat, hint: nat, limit: nat, xs: seq<Position>)
    requires |xs| == |order| > 0 && limit > 0 && r.remaining > 0 && !r.cancelled && order[0] in r.s.troves
    requires RedeemFrom(r, order[0], price, hint).Some? ==>
               RedeemFrom(r, order[0], price, hint).value.cancelled
               || RedeemFrom(r, order[0], price, hint).value.remaining == 0
    ensures RedeemAlong(r, order, price, hint, limit) == RedeemFrom(r, order[0], price, hint)
  {
    var next := RedeemFrom(r, order[0], price, hint);
    if next.Some? {
      var there := RedeemAlong(next.value, order[1..], price, hint, limit - 1);
    }
  }

  /** The plan for the rest, once the first trove is closed. */
  lemma PlanExtends(xs: seq<Position>, amount: nat, limit: nat, n: nat, price: nat, hint: nat)
    requires 0 < n <= |xs| && limit > 0 && 0 <= Net(xs[0]) <= amount && IsCount(xs, amount, limit, n)
    ensures
      var rest, left := xs[1..], amount - Net(xs[0]);
      && IsCount(rest, left, limit - 1, n - 1)
      && (PartLeft(xs, amount, limit, n) <==> PartLeft(rest, left, limit - 1, n - 1))
      && (PartTaken(xs, amount, limit, n, price, hint) <==> PartTaken(rest, left, limit - 1, n - 1, price, hint))
      && amount - Nets(xs[..n]) == left - Nets(rest[..n - 1])
      && Taken(xs, amount, limit, n, price, hint) == Net(xs[0]) + Taken(rest, left, limit - 1, n - 1, price, hint)
      && Drawn(xs, amount, limit, n, price, hint)
         == FaceValue(Net(xs[0]), price) + Drawn(rest, left, limit - 1, n - 1, price, hint)
  {
    PrefixNets(xs, n, price);
    if n < |xs| {
      PrefixNets(xs, n + 1, price);
      assert xs[n] == xs[1..][n - 1];
    }
  }

  /** The amounts of the troves ahead are those of the start. */
  lemma AmountsAhead(r: Redemption, next: Redemption, order: seq<Address>)
    requires order != [] && Distinct(order) && Listed(r.s, order) && OthersAsBefore(r.s, next.s, order[0])
    ensures Listed(next.s, order[1..]) && Amounts(next.s, order[1..]) == Amounts(r.s, order)[1..]
  {
    forall i | 0 <= i < |order[1..]| ensures SameAt(r.s, next.s, order[1..][i]) && order[1..][i] in r.s.troves {
      assert order[1..][i] == order[i + 1] && order[i + 1] in order;
    }
  }

  lemma EndsExtend(
      r: Redemption, next: Redemption, end: Redemption, xs: seq<Position>, order: seq<Address>, limit: nat, n: nat,
      price: nat, hint: nat)
    requires 0 < n <= |xs| == |order| && limit > 0 && Distinct(order) && 0 <= Net(xs[0]) <= r.remaining
    requires IsCount(xs, r.remaining, limit, n) && OthersAsBefore(r.s, next.s, order[0])
    requires next.remaining == r.remaining - Net(xs[0]) && next.redeemed == r.redeemed + Net(xs[0])
    requires next.drawn == r.drawn + FaceValue(Net(xs[0]), price) && |next.s.troves| == |r.s.troves| - 1
    requires order[0] !in next.s.troves
    requires Ends(next, end, xs[1..], order[1..], limit - 1, n - 1, price, hint)
    ensures Ends(r, end, xs, order, limit, n, price, hint)
  {
    PlanExtends(xs, r.remaining, limit, n, price, hint);
    EndsTroves(r, next, end, order, n, PartLeft(xs, r.remaining, limit, n));
  }

  lemma EndsTroves(r: Redemption, next: Redemption, end: Redemption, order: seq<Address>, n: nat, part: bool)
    requires 0 < n <= |order| && Distinct(order) && (part ==> n < |order|)
    requires order[0] !in next.s.troves && forall b :: b != order[0] ==> SameAt(r.s, next.s, b)
    requires forall i :: 0 <= i < n - 1 ==> order[1..][i] !in end.s.troves
    requires forall b :: b !in order[1..][..n - 1] && !(part && b == order[1..][n - 1]) ==> SameAt(next.s, end.s, b)
    ensures forall i :: 0 <= i < n ==> order[i] !in end.s.troves
    ensures part ==> order[1..][n - 1] == order[n]
    ensures forall b :: b !in order[..n] && !(part && b == order[n]) ==> SameAt(r.s, end.s, b)
  {
    assert order[..n] == [order[0]] + order[1..][..n - 1];
    assert order[0] !in order[1..][..n - 1];
    assert SameAt(next.s, end.s, order[0]);
    forall i | 0 <= i < n ensures order[i] !in end.s.troves {
      if i > 0 {
        assert order[i] == order[1..][i - 1];
      }
    }
    forall b | b !in order[..n] && !(part && b == order[n]) ensures SameAt(r.s, end.s, b) {
      assert b != order[0] && b !in order[1..][..n - 1];
      assert SameAt(r.s, next.s, b) && SameAt(next.s, end.s, b);
    }
  }

  lemma WalkUnfolds(r: Redemption, order: seq<Address>, price: nat, hint: nat, limit: nat)
    requires order != [] && r.remaining > 0 && limit > 0 && !r.cancelled
    ensures
      var next := RedeemFrom(r, order[0], price, hint);
      RedeemAlong(r, order, price, hint, limit)
        == if next.None? then None else RedeemAlong(next.value, order[1..], price, hint, limit - 1)
  {
  }

  lemma AtLeastTwo(keys: set<Address>, a: Address, b: Address)
    requires a in keys && b in keys && a != b
    ensures |keys| >= 2
  {
    assert |keys - {a}| == |keys| - 1 && b in keys - {a};
  }

  /** The only trove ends the walk. */
  lemma OnlyOne(s: System, order: seq<Address>, n: nat)
    requires order != [] && Distinct(order) && Listed(s, order) && |s.troves| <= 1 && 0 < n <= |order|
    ensures n == |s.troves|
  {
    assert order[0] in order && order[0] in s.troves.Keys && |s.troves.Keys| == |s.troves|;
    if |order| > 1 {
      assert order[1] in order;
      AtLeastTwo(s.troves.Keys, order[0], order[1]);
    }
  }

  /** The first trove is redeemed in full, and the rest is planned as before. */
  ghost predicate FirstTaken(
      r: Redemption, r': Redemption, order: seq<Address>, xs: seq<Position>, limit: nat, n: nat, price: nat)
    requires order != [] && |xs| == |order|
  {
    && OthersAsBefore(r.s, r'.s, order[0]) && r'.remaining == r.remaining - Net(xs[0])
    && r'.redeemed == r.redeemed + Net(xs[0]) && r'.drawn == r.drawn + FaceValue(Net(xs[0]), price)
    && |r'.s.troves| == |r.s.troves| - 1 && order[0] !in r'.s.troves
  }

  lemma FirstFull(s: System, r: Redemption, order: seq<Address>, price: nat, hint: nat, limit: nat, n: nat)
    requires Walking(s, r, order, price) && Listed(r.s, order) && IsCount(Amounts(r.s, order), r.remaining, limit, n)
    requires n > 0
    ensures
      var xs, next := Amounts(r.s, order), RedeemFrom(r, order[0], price, hint);
      && r.remaining > 0 && !r.cancelled && 0 <= Net(xs[0]) <= r.remaining
      && (next.None? <==> |r.s.troves| <= 1)
      && (next.Some? ==>
            var r' := next.value;
            && Walking(s, r', order[1..], price) && Listed(r'.s, order[1..])
            && Amounts(r'.s, order[1..]) == xs[1..] && IsCount(xs[1..], r'.remaining, limit - 1, n - 1)
            && FirstTaken(r, r', order, xs, limit, n, price))
  {
    var a, xs := order[0], Amounts(r.s, order);
    assert a in order && xs[0] == PositionOf(r.s, a);
    WalkingUnderWay(s, r, order, price);
    RegularAmounts(r, order);
    PrefixNets(xs, n, price);
    NetsNonNegative(xs[1..][..n - 1]);
    FullStep(r, a, price, hint);
    PlanExtends(xs, r.remaining, limit, n, price, hint);
    if RedeemFrom(r, a, price, hint).Some? {
      WalkingStep(s, r, order, price, hint, a);
      AmountsAhead(r, RedeemFrom(r, a, price, hint).value, order);
    }
  }

  /** What holds of the redemption, the troves ahead, the limit, the count and the amounts. */
  type Claim = (Redemption, seq<Address>, nat, nat, seq<Position>) -> bool

  /** Either the claim holds here, or one trove is closed and the claim fails of the rest as well. */
  ghost predicate StepOutcome(
      prep: Claim, out: Claim, price: nat, hint: nat, r: Redemption, order: seq<Address>, limit: nat, n: nat,
      xs: seq<Position>)
  {
    prep(r, order, limit, n, xs) && !out(r, order, limit, n, xs) ==>
      && n > 0 && limit > 0 && order != [] && xs != [] && RedeemFrom(r, order[0], price, hint).Some?
      && var next := RedeemFrom(r, order[0], price, hint).value;
         && prep(next, order[1..], limit - 1, n - 1, xs[1..])
         && !out(next, order[1..], limit - 1, n - 1, xs[1..])
  }

  ghost predicate AllStepsOut(prep: Claim, out: Claim, price: nat, hint: nat) {
    forall r, o, l, n, xs :: StepOutcome(prep, out, price, hint, r, o, l, n, xs)
  }

  lemma {:induction false} WalkInduct(
      prep: Claim, out: Claim, r: Redemption, order: seq<Address>, price: nat, hint: nat, limit: nat, n: nat,
      xs: seq<Position>)
    requires prep(r, order, limit, n, xs) && AllStepsOut(prep, out, price, hint)
    ensures out(r, order, limit, n, xs)
    decreases n
  {
    if !out(r, order, limit, n, xs) {
      assert StepOutcome(prep, out, price, hint, r, order, limit, n, xs);
      var next := RedeemFrom(r, order[0], price, hint).value;
      WalkInduct(prep, out, next, order[1..], price, hint, limit - 1, n - 1, xs[1..]);
    }
  }

  ghost predicate Planned(
      s: System, price: nat, r: Redemption, order: seq<Address>, limit: nat, n: nat, xs: seq<Position>)
  {
    Walking(s, r, order, price) && Listed(r.s, order) && xs == Amounts(r.s, order) && IsCount(xs, r.remaining, limit, n)
  }

  ghost predicate WalkedOut(
      r: Redemption, order: seq<Address>, price: nat, hint: nat, limit: nat, n: nat, xs: seq<Position>)
  {
    n <= |xs| == |order| && Walked(r, order, price, hint, limit, xs, n)
  }

  lemma PlannedRest(
      s: System, r: Redemption, order: seq<Address>, price: nat, hint: nat, limit: nat, n: nat, xs: seq<Position>)
    requires Planned(s, price, r, order, limit, n, xs) && n > 0 && RedeemFrom(r, order[0], price, hint).Some?
    ensures
      var next := RedeemFrom(r, order[0], price, hint).value;
      && 0 < n <= |xs| == |order| && limit > 0 && Distinct(order) && 0 <= Net(xs[0]) <= r.remaining
      && IsCount(xs, r.remaining, limit, n) && |r.s.troves| > 1 && r.remaining > 0 && !r.cancelled
      && FirstTaken(r, next, order, xs, limit, n, price)
      && Planned(s, price, next, order[1..], limit - 1, n - 1, xs[1..])
  {
    FirstFull(s, r, order, price, hint, limit, n);
    WalkingDistinct(s, r, order, price);
  }

  lemma PlannedNone(
      s: System, r: Redemption, order: seq<Address>, price: nat, hint: nat, limit: nat, n: nat, xs: seq<Position>)
    requires Planned(s, price, r, order, limit, n, xs) && n > 0 && RedeemFrom(r, order[0], price, hint).None?
    ensures WalkedOut(r, order, price, hint, limit, n, xs)
  {
    FirstFull(s, r, order, price, hint, limit, n);
    WalkingDistinct(s, r, order, price);
    NoFirst(r, order, price, hint, limit, n, xs);
  }

  lemma PlannedStops(
      s: System, r: Redemption, order: seq<Address>, price: nat, hint: nat, limit: nat, xs: seq<Position>)
    requires Planned(s, price, r, order, limit, 0, xs)
    ensures WalkedOut(r, order, price, hint, limit, 0, xs)
  {
    WalkStops(s, r, order, price, hint, limit);
  }

  lemma PlannedOn(
      s: System, r: Redemption, order: seq<Address>, price: nat, hint: nat, limit: nat, n: nat, xs: seq<Position>)
    requires Planned(s, price, r, order, limit, n, xs) && n > 0 && RedeemFrom(r, order[0], price, hint).Some?
    requires xs != [] && order != [] && limit > 0
    requires WalkedOut(
               RedeemFrom(r, order[0], price, hint).value, order[1..], price, hint, limit - 1, n - 1, xs[1..])
    ensures WalkedOut(r, order, price, hint, limit, n, xs)
  {
    PlannedRest(s, r, order, price, hint, limit, n, xs);
    FirstThenRest(r, RedeemFrom(r, order[0], price, hint).value, order, price, hint, limit, n, xs);
  }

  lemma PlannedStep(
      s: System, r: Redemption, order: seq<Address>, price: nat, hint: nat, limit: nat, n: nat, xs: seq<Position>)
    requires Planned(s, price, r, order, limit, n, xs) && !WalkedOut(r, order, price, hint, limit, n, xs)
    ensures n > 0 && limit > 0 && order != [] && xs != [] && RedeemFrom(r, order[0], price, hint).Some?
    ensures
      var next := RedeemFrom(r, order[0], price, hint).value;
      && Planned(s, price, next, order[1..], limit - 1, n - 1, xs[1..])
      && !WalkedOut(next, order[1..], price, hint, limit - 1, n - 1, xs[1..])
  {
    if n == 0 {
      PlannedStops(s, r, order, price, hint, limit, xs);
    } else if RedeemFrom(r, order[0], price, hint).None? {
      PlannedNone(s, r, order, price, hint, limit, n, xs);
    } else {
      PlannedRest(s, r, order, price, hint, limit, n, xs);
      if WalkedOut(RedeemFrom(r, order[0], price, hint).value, order[1..], price, hint, limit - 1, n - 1, xs[1..]) {
        PlannedOn(s, r, order, price, hint, limit, n, xs);
      }
    }
  }

  ghost function PlannedOf(s: System, price: nat): Claim {
    (r: Redemption, order: seq<Address>, limit: nat, n: nat, xs: seq<Position>) =>
      Planned(s, price, r, order, limit, n, xs)
  }

  ghost function WalkedOf(price: nat, hint: nat): Claim {
    (r: Redemption, order: seq<Address>, limit: nat, n: nat, xs: seq<Position>) =>
      WalkedOut(r, order, price, hint, limit, n, xs)
  }

  ghost predicate IsPlan(prep: Claim, s: System, price: nat) {
    forall r, order, limit, n, xs {:trigger prep(r, order, limit, n, xs)} ::
      prep(r, order, limit, n, xs) <==> Planned(s, price, r, order, limit, n, xs)
  }

  ghost predicate IsWalk(out: Claim, price: nat, hint: nat) {
    forall r, order, limit, n, xs {:trigger out(r, order, limit, n, xs)} ::
      out(r, order, limit, n, xs) <==> WalkedOut(r, order, price, hint, limit, n, xs)
  }

  lemma StepOut(
      prep: Claim, out: Claim, s: System, r: Redemption, order: seq<Address>, price: nat, hint: nat, limit: nat,
      n: nat, xs: seq<Position>)
    requires IsPlan(prep, s, price) && IsWalk(out, price, hint)
    requires prep(r, order, limit, n, xs) && !out(r, order, limit, n, xs)
    ensures n > 0 && limit > 0 && order != [] && xs != [] && RedeemFrom(r, order[0], price, hint).Some?
    ensures
      var next := RedeemFrom(r, order[0], price, hint).value;
      prep(next, order[1..], limit - 1, n - 1, xs[1..]) && !out(next, order[1..], limit - 1, n - 1, xs[1..])
  {
    PlannedStep(s, r, order, price, hint, limit, n, xs);
  }

  lemma StepsOut(prep: Claim, out: Claim, s: System, price: nat, hint: nat)
    requires IsPlan(prep, s, price) && IsWalk(out, price, hint)
    ensures AllStepsOut(prep, out, price, hint)
  {
    forall r, o, l, n, xs ensures StepOutcome(prep, out, price, hint, r, o, l, n, xs) {
      if prep(r, o, l, n, xs) && !out(r, o, l, n, xs) {
        StepOut(prep, out, s, r, o, price, hint, l, n, xs);
      }
    }
  }

  lemma WalkOutcome(
      s: System, r: Redemption, order: seq<Address>, price: nat, hint: nat, limit: nat, n: nat, xs: seq<Position>)
    requires Planned(s, price, r, order, limit, n, xs)
    ensures WalkedOut(r, order, price, hint, limit, n, xs)
  {
    StepsOut(PlannedOf(s, price), WalkedOf(price, hint), s, price, hint);
    WalkInduct(PlannedOf(s, price), WalkedOf(price, hint), r, order, price, hint, limit, n, xs);
  }

  lemma WalkingDistinct(s: System, r: Redemption, order: seq<Address>, price: nat)
    requires Walking(s, r, order, price)
    ensures Distinct(order)
  {
  }

  lemma NoFirst(
      r: Redemption, order: seq<Address>, price: nat, hint: nat, limit: nat, n: nat, xs: seq<Position>)
    requires 0 < n <= |xs| == |order| && limit > 0 && r.remaining > 0 && !r.cancelled
    requires Distinct(order) && Listed(r.s, order) && |r.s.troves| <= 1
    requires RedeemFrom(r, order[0], price, hint).None?
    ensures Walked(r, order, price, hint, limit, xs, n)
  {
    OnlyOne(r.s, order, n);
    WalkUnfolds(r, order, price, hint, limit);
  }

  lemma FirstThenRest(
      r: Redemption, next: Redemption, order: seq<Address>, price: nat, hint: nat, limit: nat, n: nat,
      xs: seq<Position>)
    requires 0 < n <= |xs| == |order| && limit > 0 && Distinct(order) && 0 <= Net(xs[0]) <= r.remaining
    requires IsCount(xs, r.remaining, limit, n) && |r.s.troves| > 1 && r.remaining > 0 && !r.cancelled
    requires RedeemFrom(r, order[0], price, hint) == Some(next) && FirstTaken(r, next, order, xs, limit, n, price)
    requires Walked(next, order[1..], price, hint, limit - 1, xs[1..], n - 1)
    ensures Walked(r, order, price, hint, limit, xs, n)
  {
    WalkUnfolds(r, order, price, hint, limit);
    PlanExtends(xs, r.remaining, limit, n, price, hint);
    RefusedExtends(r.s, next.s, xs, r.remaining, limit, n, price, hint);
    var end := RedeemAlong(r, order, price, hint, limit);
    if end.Some? {
      EndsExtend(r, next, end.value, xs, order, limit, n, price, hint);
    }
  }

  lemma RefusedExtends(
      s: System, s': System, xs: seq<Position>, amount: nat, limit: nat, n: nat, price: nat, hint: nat)
    requires 0 < n <= |xs| && limit > 0 && 0 <= Net(xs[0]) <= amount && IsCount(xs, amount, limit, n)
    requires |s'.troves| == |s.troves| - 1 && |s.troves| > 1 && (NoStake(s) <==> NoStake(s'))
    ensures Refused(s, xs, amount, limit, n, price, hint)
       <==> Refused(s', xs[1..], amount - Net(xs[0]), limit - 1, n - 1, price, hint)
  {
    PlanExtends(xs, amount, limit, n, price, hint);
  }

  // ---------------------------------------------------------------------------
  // The call
  // ---------------------------------------------------------------------------

  /** No redemption succeeds while the system as a whole is below 110%, in any state and from any start. */
  lemma NoRedemptionBelow(
      s: System, funds: nat, amount: nat, order: seq<Address>, price: nat, hint: nat, limit: nat, fee: nat)
    requires Below(SystemColl(s), SystemDebt(s), price, MCR)
    ensures Redeem(s, funds, amount, order, price, hint, limit, fee).None?
  {
    RatioBelowIff(SystemColl(s), SystemDebt(s), price, MCR);
  }

  /** A system in which rewards can be applied, and troves ahead that all stand at 100% or more. */
  ghost predicate Ready(s: System, order: seq<Address>, price: nat) {
    && Consistent(s) && Aligned(s.l, s.troves) && BooksOf(s).debtDust >= 0
    && Distinct(order) && Listed(s, order) && AllCovered(s, order, price)
  }

  lemma ReadyPlanned(s: System, amount: nat, order: seq<Address>, price: nat, limit: nat)
    requires Ready(s, order, price)
    ensures Regular(Amounts(s, order))
    ensures
      var xs, r := Amounts(s, order), Redemption(s, amount, 0, 0, 0, false);
      Planned(s, price, r, order, limit, Count(xs, amount, limit), xs)
  {
    RegularAmounts(Redemption(s, amount, 0, 0, 0, false), order);
  }

  /** Nothing but the fee can stop the call once the walk is through. */
  lemma BurnRefusedIff(s: System, r: Redemption, fee: nat)
    requires Consistent(s) && RedemptionSound(s, r)
    ensures BurnRedeemed(r, fee).None? <==> r.drawn <= fee
  {
    TotalsNonNegative(r.s.l, r.s.troves);
  }

  lemma WalkSound(s: System, amount: nat, order: seq<Address>, price: nat, hint: nat, limit: nat)
    requires Consistent(s)
    requires RedeemAlong(Redemption(s, amount, 0, 0, 0, false), order, price, hint, limit).Some?
    ensures RedemptionSound(s, RedeemAlong(Redemption(s, amount, 0, 0, 0, false), order, price, hint, limit).value)
  {
    RedeemAlongKeeps(s, Redemption(s, amount, 0, 0, 0, false), order, price, hint, limit);
  }

  /** The call in terms of its walk. */
  lemma RedeemIs(
      s: System, funds: nat, amount: nat, order: seq<Address>, price: nat, hint: nat, limit: nat, fee: nat)
    ensures
      var end := RedeemAlong(Redemption(s, amount, 0, 0, 0, false), order, price, hint, limit);
      && (Redeem(s, funds, amount, order, price, hint, limit, fee).None? <==>
            || Below(SystemColl(s), SystemDebt(s), price, MCR) || amount == 0 || funds < amount
            || end.None? || BurnRedeemed(end.value, fee).None?)
      && (Redeem(s, funds, amount, order, price, hint, limit, fee).Some? ==>
            && end.Some? && BurnRedeemed(end.value, fee).Some?
            && Redeem(s, funds, amount, order, price, hint, limit, fee) == BurnRedeemed(end.value, fee))
  {
    RatioBelowIff(SystemColl(s), SystemDebt(s), price, MCR);
  }

  /**
   * A redemption is refused exactly when the system is below 110%, the amount is zero or beyond
   * the caller's balance, the amount closes every trove there is, the rest of the last trove
   * cannot be written back, or the collateral drawn does not exceed the fee.
   */
  lemma RedemptionRefusedIff(
      s: System, funds: nat, amount: nat, order: seq<Address>, price: nat, hint: nat, limit: nat, fee: nat)
    requires Ready(s, order, price)
    ensures Regular(Amounts(s, order))
    ensures
      var xs := Amounts(s, order);
      var n := Count(xs, amount, limit);
      Redeem(s, funds, amount, order, price, hint, limit, fee).None? <==>
        || Below(SystemColl(s), SystemDebt(s), price, MCR) || amount == 0 || funds < amount
        || (n > 0 && n == |s.troves|) || Stuck(s, xs, amount, limit, n, price, hint)
        || Drawn(xs, amount, limit, n, price, hint) <= fee
  {
    var r, xs := Redemption(s, amount, 0, 0, 0, false), Amounts(s, order);
    ReadyPlanned(s, amount, order, price, limit);
    var n := Count(xs, amount, limit);
    WalkOutcome(s, r, order, price, hint, limit, n, xs);
    RedeemIs(s, funds, amount, order, price, hint, limit, fee);
    if RedeemAlong(r, order, price, hint, limit).Some? {
      WalkSound(s, amount, order, price, hint, limit);
      BurnRefusedIff(s, RedeemAlong(r, order, price, hint, limit).value, fee);
    }
  }

  /** What the troves look like afterwards. */
  ghost predicate TrovesAfter(
      s: System, s': System, xs: seq<Position>, order: seq<Address>, amount: nat, limit: nat, n: nat, price: nat,
      hint: nat)
    requires n <= |xs| == |order|
  {
    && (forall i :: 0 <= i < n ==> order[i] !in s'.troves)
    && (PartLeft(xs, amount, limit, n) ==> LastAfter(s', order[n], xs[n], amount - Nets(xs[..n]), price, hint))
    && (forall b :: b !in order[..n] && !(PartLeft(xs, amount, limit, n) && b == order[n]) ==> SameAt(s, s', b))
  }

  lemma TrovesOfEnd(
      s: System, end: Redemption, s': System, xs: seq<Position>, order: seq<Address>, amount: nat, limit: nat, n: nat,
      price: nat, hint: nat, fee: nat)
    requires n <= |xs| == |order| && BurnRedeemed(end, fee) == Some(s')
    requires Ends(Redemption(s, amount, 0, 0, 0, false), end, xs, order, limit, n, price, hint)
    ensures TrovesAfter(s, s', xs, order, amount, limit, n, price, hint) && |s'.troves| == |s.troves| - n
    ensures end.redeemed == Taken(xs, amount, limit, n, price, hint)
    ensures end.drawn == Drawn(xs, amount, limit, n, price, hint) && s'.l == s.l
  {
  }

  lemma WalkEnds(
      s: System, funds: nat, amount: nat, order: seq<Address>, price: nat, hint: nat, limit: nat, fee: nat)
    requires Ready(s, order, price) && Redeem(s, funds, amount, order, price, hint, limit, fee).Some?
    ensures Regular(Amounts(s, order))
    ensures
      var xs, r := Amounts(s, order), Redemption(s, amount, 0, 0, 0, false);
      var end := RedeemAlong(r, order, price, hint, limit);
      && end.Some? && Redeem(s, funds, amount, order, price, hint, limit, fee) == BurnRedeemed(end.value, fee)
      && Ends(r, end.value, xs, order, limit, Count(xs, amount, limit), price, hint)
  {
    var r, xs := Redemption(s, amount, 0, 0, 0, false), Amounts(s, order);
    ReadyPlanned(s, amount, order, price, limit);
    WalkOutcome(s, r, order, price, hint, limit, Count(xs, amount, limit), xs);
    RedeemIs(s, funds, amount, order, price, hint, limit, fee);
  }

  lemma ReservesOf(s: System)
    requires Consistent(s)
    ensures s.gasPool == GAS_COMPENSATION * |s.troves|
  {
    TotalsBounds(s.l, s.troves);
  }

  /**
   * A successful redemption closes the troves the amount redeems in full, takes the rest from
   * the next one if the hint allows it, and leaves all others alone. The supply falls by what is
   * redeemed and one reserve for each closed trove; the collateral drawn leaves the system.
   */
  lemma RedemptionEffect(
      s: System, funds: nat, amount: nat, order: seq<Address>, price: nat, hint: nat, limit: nat, fee: nat)
    requires Ready(s, order, price) && Redeem(s, funds, amount, order, price, hint, limit, fee).Some?
    ensures Regular(Amounts(s, order))
    ensures
      var xs := Amounts(s, order);
      var n := Count(xs, amount, limit);
      var s' := Redeem(s, funds, amount, order, price, hint, limit, fee).value;
      && TrovesAfter(s, s', xs, order, amount, limit, n, price, hint) && |s'.troves| == |s.troves| - n
      && s'.supply == s.supply - Taken(xs, amount, limit, n, price, hint) - GAS_COMPENSATION * n
      && Held(s') == Held(s) - Drawn(xs, amount, limit, n, price, hint)
      && s'.gasPool == s.gasPool - GAS_COMPENSATION * n && s'.l == s.l
  {
    var r, xs := Redemption(s, amount, 0, 0, 0, false), Amounts(s, order);
    WalkEnds(s, funds, amount, order, price, hint, limit, fee);
    RedeemKeeps(s, funds, amount, order, price, hint, limit, fee);
    var s' := Redeem(s, funds, amount, order, price, hint, limit, fee).value;
    var end := RedeemAlong(r, order, price, hint, limit).value;
    TrovesOfEnd(s, end, s', xs, order, amount, limit, Count(xs, amount, limit), price, hint, fee);
    ReservesOf(s);
    ReservesOf(s');
  }

  /**
   * On a list in descending order the call, wherever it is told to start, is the one over the
   * troves at 110% or more, and those are the troves the two results above speak of.
   */
  lemma ListRedemption(s: System, ids: seq<Address>, n: nat, price: nat)
    requires Consistent(s) && Aligned(s.l, s.troves) && BooksOf(s).debtDust >= 0
    requires Distinct(ids) && Descending(ids, CurrentRatios(s, price)) && Starts(ids, CurrentRatios(s, price), n)
    requires Listed(s, ids)
    ensures Ready(s, VisitOrder(ids, n), price)
    ensures forall a :: a in VisitOrder(ids, n) <==> a in ids && CurrentRatio(s, a, price) >= MCR
    ensures VisitOrder(ids, n) == VisitOrder(ids, Scan(ids, CurrentRatios(s, price)))
  {
    var icr := CurrentRatios(s, price);
    VisitsAscending(ids, icr);
    var order := VisitOrder(ids, n);
    VisitsDistinct(ids, n);
    forall i | 0 <= i < |order| ensures CurrentRatio(s, order[i], price) >= HUNDRED_PERCENT {
      assert order[i] in order;
      assert icr(order[i]) >= MCR;
    }
  }
}
