/** What a redemption takes, from whom, and in which order. */
module RedemptionWalk {
  import opened Base
  import opened IntSums
  import opened Liquidation
  import opened TroveManager

  /** Same trove, or same absence of one. */
  ghost predicate SameAt(s: System, s': System, a: Address) {
    (a in s.troves <==> a in s'.troves) && (a in s.troves ==> s.troves[a] == s'.troves[a])
  }

  // ---------------------------------------------------------------------------
  // One trove
  // ---------------------------------------------------------------------------

  /** One step touches one trove, and leaves it open only if it is the last one or cancelled. */
  lemma StepShape(r: Redemption, a: Address, price: nat, hint: nat)
    requires RedeemFrom(r, a, price, hint).Some? && !r.cancelled
    ensures
      var r' := RedeemFrom(r, a, price, hint).value;
      && r'.s.l == r.s.l && a in r.s.troves
      && (forall b :: b != a ==> SameAt(r.s, r'.s, b))
      && r'.redeemed + r'.remaining == r.redeemed + r.remaining
      && (if r'.cancelled then
            r' == r.(s := ApplyRewards(r.s, a).value, cancelled := true)
          else
            r'.steps == r.steps + 1 && (a in r'.s.troves ==> r'.remaining == 0))
  {
  }

  /** Collateral worth the debt cancelled, short of it by at most `n` units. */
  ghost predicate EqualValue(coll: int, debt: int, n: int, price: nat) {
    coll * price <= debt * DECIMAL_PRECISION <= (coll + n) * price
  }

  lemma AddValue(c1: int, d1: int, n1: int, c2: int, d2: int, n2: int, price: nat)
    requires EqualValue(c1, d1, n1, price) && EqualValue(c2, d2, n2, price)
    ensures EqualValue(c1 + c2, d1 + d2, n1 + n2, price)
  {
    Distribute(price, c1, c2);
    Distribute(price, c1 + n1, c2 + n2);
  }

  /** From `r` to `r'`, what was paid is worth what was cancelled, up to one unit per trove. */
  ghost predicate PaidValue(r: Redemption, r': Redemption, price: nat) {
    EqualValue(r'.drawn - r.drawn, r'.redeemed - r.redeemed, r'.steps - r.steps, price)
  }

  lemma PaidValueAdds(r: Redemption, next: Redemption, r': Redemption, price: nat)
    requires PaidValue(r, next, price) && PaidValue(next, r', price)
    ensures PaidValue(r, r', price)
  {
    AddValue(next.drawn - r.drawn, next.redeemed - r.redeemed, next.steps - r.steps,
             r'.drawn - next.drawn, r'.redeemed - next.redeemed, r'.steps - next.steps, price);
  }

  lemma NothingPaid(r: Redemption, price: nat)
    ensures PaidValue(r, r, price)
  {
  }

  lemma StepValue(r: Redemption, a: Address, price: nat, hint: nat)
    requires RedeemFrom(r, a, price, hint).Some? && !r.cancelled
    ensures PaidValue(r, RedeemFrom(r, a, price, hint).value, price)
  {
    var s := ApplyRewards(r.s, a).value;
    var lot := Lot(r.(s := s), s.troves[a]);
    LotValue(lot, price);
  }

  lemma LotValue(lot: nat, price: nat)
    requires price > 0
    ensures EqualValue(CollLot(lot, price), lot, 1, price) && EqualValue(0, 0, 0, price)
  {
    var x := lot * DECIMAL_PRECISION;
    assert x == x / price * price + x % price;
    Distribute(price, x / price, 1);
  }

  // ---------------------------------------------------------------------------
  // The walk
  // ---------------------------------------------------------------------------

  /** `ready` holds before every step, and then the step from `r` to `next` is `good`. */
  ghost predicate StepGood(
      ready: (Redemption, seq<Address>) -> bool, good: (Redemption, Redemption) -> bool,
      r: Redemption, order: seq<Address>, price: nat, hint: nat)
  {
    ready(r, order) && order != [] && RedeemFrom(r, order[0], price, hint).Some? ==>
      var next := RedeemFrom(r, order[0], price, hint).value;
      good(r, next) && (!next.cancelled ==> ready(next, order[1..]))
  }

  /** What every step does, and adds up along steps, the whole walk does. */
  lemma {:induction false} WalkInduction(
      ready: (Redemption, seq<Address>) -> bool, good: (Redemption, Redemption) -> bool,
      r: Redemption, order: seq<Address>, price: nat, hint: nat, limit: nat)
    requires ready(r, order) && !r.cancelled && RedeemAlong(r, order, price, hint, limit).Some?
    requires forall x, o :: StepGood(ready, good, x, o, price, hint)
    requires forall x :: good(x, x)
    requires forall x, y, z :: good(x, y) && good(y, z) ==> good(x, z)
    ensures good(r, RedeemAlong(r, order, price, hint, limit).value)
    decreases |order|
  {
    if order != [] && r.remaining != 0 && limit != 0 {
      assert StepGood(ready, good, r, order, price, hint);
      var next := RedeemFrom(r, order[0], price, hint).value;
      if !next.cancelled {
        WalkInduction(ready, good, next, order[1..], price, hint, limit - 1);
      }
    }
  }

  /**
   * The walk redeems from a prefix of the list. Every trove of the prefix but the last is
   * closed; the last one is left open only when the amount is used up. Whatever comes after is
   * untouched, except that a trove whose partial redemption is cancelled has its rewards applied.
   */
  ghost predicate WalkShape(r: Redemption, r': Redemption, order: seq<Address>, limit: nat) {
    var m := r'.steps - r.steps;
    && 0 <= m <= |order| && m <= limit
    && r'.redeemed + r'.remaining == r.redeemed + r.remaining
    && (forall i :: 0 <= i < m - 1 ==> order[i] !in r'.s.troves)
    && (m > 0 && order[m - 1] in r'.s.troves ==> r'.remaining == 0)
    && (r'.cancelled ==> m < |order| && r'.remaining > 0)
    && (!r'.cancelled ==> r'.remaining == 0 || m == |order| || m == limit)
    && (forall b :: b !in order[..m] && !(r'.cancelled && b == order[m]) ==> SameAt(r.s, r'.s, b))
  }

  lemma {:induction false} WalkHasShape(r: Redemption, order: seq<Address>, price: nat, hint: nat, limit: nat)
    requires Distinct(order) && !r.cancelled && RedeemAlong(r, order, price, hint, limit).Some?
    ensures WalkShape(r, RedeemAlong(r, order, price, hint, limit).value, order, limit)
    ensures RedeemAlong(r, order, price, hint, limit).value.s.l == r.s.l
    decreases |order|
  {
    if order != [] && r.remaining != 0 && limit != 0 {
      StepShape(r, order[0], price, hint);
      var next := RedeemFrom(r, order[0], price, hint).value;
      if next.cancelled {
        WalkDrops(r, next, order, limit);
      } else {
        WalkHasShape(next, order[1..], price, hint, limit - 1);
        WalkExtends(r, next, RedeemAlong(next, order[1..], price, hint, limit - 1).value, order, limit);
      }
    }
  }

  lemma WalkDrops(r: Redemption, next: Redemption, order: seq<Address>, limit: nat)
    requires order != [] && limit > 0 && r.remaining > 0 && next.cancelled
    requires next.steps == r.steps && next.redeemed == r.redeemed && next.remaining == r.remaining
    requires forall b :: b != order[0] ==> SameAt(r.s, next.s, b)
    ensures WalkShape(r, next, order, limit)
  {
  }

  lemma WalkExtends(r: Redemption, next: Redemption, r': Redemption, order: seq<Address>, limit: nat)
    requires order != [] && Distinct(order) && limit > 0 && r.remaining > 0
    requires WalkShape(next, r', order[1..], limit - 1) && next.steps == r.steps + 1
    requires next.redeemed + next.remaining == r.redeemed + r.remaining
    requires order[0] in next.s.troves ==> next.remaining == 0
    requires next.remaining == 0 ==> r' == next
    requires forall b :: b != order[0] ==> SameAt(r.s, next.s, b)
    ensures WalkShape(r, r', order, limit)
  {
    var m := r'.steps - r.steps;
    assert order[..m] == [order[0]] + order[1..][..m - 1];
    assert order[0] !in order[1..][..m - 1];
    assert r'.cancelled ==> order[1..][m - 1] == order[m];
    assert forall i :: 1 <= i < m ==> order[i] == order[1..][i - 1];
    assert SameAt(next.s, r'.s, order[0]);
    forall b | b !in order[..m] && !(r'.cancelled && b == order[m])
      ensures SameAt(r.s, r'.s, b)
    {
      assert b != order[0] && b !in order[1..][..m - 1];
      assert SameAt(r.s, next.s, b) && SameAt(next.s, r'.s, b);
    }
  }

  /** Over the whole walk: collateral of equal value, at most one unit short per trove. */
  lemma {:induction false} WalkValue(r: Redemption, order: seq<Address>, price: nat, hint: nat, limit: nat)
    requires !r.cancelled && RedeemAlong(r, order, price, hint, limit).Some?
    ensures PaidValue(r, RedeemAlong(r, order, price, hint, limit).value, price)
    decreases |order|
  {
    if order == [] || r.remaining == 0 || limit == 0 {
      NothingPaid(r, price);
    } else {
      StepValue(r, order[0], price, hint);
      var next := RedeemFrom(r, order[0], price, hint).value;
      if !next.cancelled {
        WalkValue(next, order[1..], price, hint, limit - 1);
        PaidValueAdds(r, next, RedeemAlong(r, order, price, hint, limit).value, price);
      }
    }
  }

  // ---------------------------------------------------------------------------
  // The partial redemption hint
  // ---------------------------------------------------------------------------

  /** A trove, with its rewards, that the amount left cannot redeem in full. */
  ghost predicate PartialAt(r: Redemption, a: Address) {
    && a in r.s.troves && ApplyRewards(r.s, a).Some?
    && var t := ApplyRewards(r.s, a).value.troves[a];
       t.debt >= GAS_COMPENSATION && r.remaining < t.debt - GAS_COMPENSATION
  }

  /** The ratio that the partial redemption would leave, and the net debt. */
  ghost function NetDebtLeft(r: Redemption, a: Address): int
    requires PartialAt(r, a)
  {
    ApplyRewards(r.s, a).value.troves[a].debt - r.remaining - GAS_COMPENSATION
  }

  ghost predicate HintMatches(r: Redemption, a: Address, price: nat, hint: nat)
    requires PartialAt(r, a) && price > 0
  {
    var t := ApplyRewards(r.s, a).value.troves[a];
    t.coll >= CollLot(r.remaining, price)
      && NominalRatio(t.coll - CollLot(r.remaining, price), t.debt - r.remaining) == hint
  }

  /** The hint is read only where the amount ends within a trove. */
  lemma StepReadsHintIff(r: Redemption, a: Address, price: nat, hint: nat, other: nat)
    requires !r.cancelled && price > 0
    ensures !PartialAt(r, a) ==> RedeemFrom(r, a, price, hint) == RedeemFrom(r, a, price, other)
    ensures RedeemFrom(r, a, price, hint).Some? && PartialAt(r, a) ==>
              (RedeemFrom(r, a, price, hint).value.cancelled <==>
                 !HintMatches(r, a, price, hint) || NetDebtLeft(r, a) < MIN_NET_DEBT)
    ensures RedeemFrom(r, a, price, hint).Some? && RedeemFrom(r, a, price, hint).value.cancelled ==> PartialAt(r, a)
  {
  }

  /** From `w` the trove `a` was cancelled: its rewards are applied, nothing is redeemed from it. */
  ghost predicate Dropped(w: Redemption, r': Redemption, a: Address, price: nat, hint: nat) {
    && PartialAt(w, a) && price > 0
    && r' == w.(s := ApplyRewards(w.s, a).value, cancelled := true)
    && (!HintMatches(w, a, price, hint) || NetDebtLeft(w, a) < MIN_NET_DEBT)
  }

  lemma StepDropped(r: Redemption, a: Address, price: nat, hint: nat)
    requires !r.cancelled && RedeemFrom(r, a, price, hint).Some? && RedeemFrom(r, a, price, hint).value.cancelled
    ensures Dropped(r, RedeemFrom(r, a, price, hint).value, a, price, hint)
  {
    StepShape(r, a, price, hint);
    StepReadsHintIff(r, a, price, hint, hint);
  }

  lemma FullStepIgnoresHint(r: Redemption, a: Address, price: nat, hint: nat, other: nat)
    requires !r.cancelled && RedeemFrom(r, a, price, hint).Some?
    requires !RedeemFrom(r, a, price, hint).value.cancelled && RedeemFrom(r, a, price, hint).value.remaining > 0
    ensures RedeemFrom(r, a, price, other) == RedeemFrom(r, a, price, hint)
  {
    StepReadsHintIff(r, a, price, hint, other);
  }

  /** `r'` is the walk from `r` over the troves it closed, under the hint `other`, and then a drop. */
  ghost predicate DropsLast(
      r: Redemption, r': Redemption, order: seq<Address>, price: nat, hint: nat, other: nat, limit: nat)
  {
    var m := r'.steps - r.steps;
    && 0 <= m < |order|
    && var w := RedeemAlong(r, order[..m], price, other, limit);
       w.Some? && Dropped(w.value, r', order[m], price, hint)
  }

  lemma DropExtends(
      r: Redemption, next: Redemption, r': Redemption, order: seq<Address>, price: nat, hint: nat, other: nat,
      limit: nat)
    requires order != [] && r.remaining > 0 && !r.cancelled && limit > 0
    requires RedeemFrom(r, order[0], price, other) == Some(next) && next.steps == r.steps + 1
    requires DropsLast(next, r', order[1..], price, hint, other, limit - 1)
    ensures DropsLast(r, r', order, price, hint, other, limit)
  {
    var m := r'.steps - r.steps;
    assert order[..m][1..] == order[1..][..m - 1];
  }

  /**
   * A cancelled walk is the walk, under any other hint, over the troves it closed: a stale hint
   * or too small a rest drops the final partial step and nothing else.
   */
  lemma {:induction false} CancelledDropsLast(r: Redemption, order: seq<Address>, price: nat, hint: nat,
      other: nat, limit: nat)
    requires !r.cancelled && RedeemAlong(r, order, price, hint, limit).Some?
    requires RedeemAlong(r, order, price, hint, limit).value.cancelled
    ensures DropsLast(r, RedeemAlong(r, order, price, hint, limit).value, order, price, hint, other, limit)
    decreases |order|
  {
    StepShape(r, order[0], price, hint);
    var next := RedeemFrom(r, order[0], price, hint).value;
    if next.cancelled {
      StepDropped(r, order[0], price, hint);
    } else {
      FullStepIgnoresHint(r, order[0], price, hint, other);
      CancelledDropsLast(next, order[1..], price, hint, other, limit - 1);
      DropExtends(r, next, RedeemAlong(r, order, price, hint, limit).value, order, price, hint, other, limit);
    }
  }
}
