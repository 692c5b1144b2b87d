/**
 * Emptying the Stability Pool: when every depositor of a group can withdraw in full, one after
 * the other, in whatever order.
 */
module PoolWithdrawals {
  import opened Base
  import opened Arith
  import opened IntSums
  import opened RealSums
  import opened StabilityPool
  import opened PoolLedger
  import opened PoolSolvency

  ghost function Payouts(p: Pool, who: set<Address>): map<Address, int>
    requires WellFormed(p)
  {
    map a | a in who :: CompoundedDeposit(p, a)
  }

  ghost function GainPayouts(p: Pool, who: set<Address>): map<Address, int>
    requires WellFormed(p)
  {
    map a | a in who :: DepositorGain(p, a)
  }

  /** The depositors of the group that carry a tag. */
  ghost function Tagged(p: Pool, who: set<Address>, tag: Address): set<Address> {
    set a | a in who && a in p.deposits && p.deposits[a].tag == tag
  }

  /** Three sums of public getters, taken before the first withdrawal. */
  ghost predicate Affordable(p: Pool, who: set<Address>)
    requires WellFormed(p)
  {
    && Sum(Payouts(p, who)) <= p.total
    && Sum(GainPayouts(p, who)) <= p.coll
    && forall t :: Sum(Payouts(p, Tagged(p, who, t))) <= CompoundedStake(p, t)
  }

  /** Full withdrawals in the given order; `amount` is at least every payout. */
  ghost function WithdrawAll(p: Pool, order: seq<Address>, amount: nat): Option<Pool>
    requires WellFormed(p)
    decreases |order|
  {
    if order == [] then Some(p) else
      var first := Withdraw(p, order[0], amount, true);
      if first.None? then None else
        WithdrawKeepsWellFormed(p, order[0], amount, true);
        WithdrawAll(first.value, order[1..], amount)
  }

  ghost function Members(order: seq<Address>): set<Address> {
    set a | a in order
  }

  lemma WithdrawKeepsWellFormed(p: Pool, a: Address, amount: nat, clear: bool)
    requires WellFormed(p) && Withdraw(p, a, amount, clear).Some?
    ensures WellFormed(Withdraw(p, a, amount, clear).value)
  {
    var t := WithdrawSettles(p, a, amount, clear);
    SettleKeepsWellFormed(p, a, t);
  }

  /** A withdrawal pays the amount, or the whole deposit if that is less. */
  ghost function PaidOut(p: Pool, a: Address, amount: nat): nat
    requires WellFormed(p)
  {
    if amount <= CompoundedDeposit(p, a) then amount else CompoundedDeposit(p, a)
  }

  /**
   * A withdrawal of any amount is refused exactly without a deposit, when some trove is below the
   * minimum ratio and the amount is not zero, or when tokens, collateral or the tag's stake do
   * not cover it.
   */
  lemma WithdrawRefusedIff(p: Pool, a: Address, amount: nat, clear: bool)
    requires WellFormed(p)
    ensures Withdraw(p, a, amount, clear).None? <==>
              || (amount > 0 && !clear) || a !in p.deposits
              || PaidOut(p, a, amount) > p.total || DepositorGain(p, a) > p.coll
              || PaidOut(p, a, amount) > CompoundedStake(p, p.deposits[a].tag)
  {
    if a in p.deposits {
      CompoundedAtMostInitial(p.now, p.deposits[a].initial, p.deposits[a].at);
    }
  }

  /** What a unit of deposit is worth after cancelling part of the total, in units of 1e-18, rounded down. */
  ghost function Surviving(p: Pool, debt: nat): int
    requires p.total > 0
  {
    DECIMAL_PRECISION - 1 - (debt * DECIMAL_PRECISION - p.lossError) / p.total
  }

  /** Below `1e9`, the product would not survive even the shift to the next scale. */
  lemma NextProductZeroIff(now: Product, factor: nat)
    ensures NextProduct(now, factor).P == 0 <==> factor > 0 && now.P * factor < SCALE_FACTOR
  {
    var x := now.P * factor;
    if factor > 0 {
      if x < SCALE_FACTOR {
        QuotientBelow(x, DECIMAL_PRECISION, SCALE_FACTOR);
        assert x * SCALE_FACTOR < DECIMAL_PRECISION;
        QuotientBelow(x * SCALE_FACTOR, DECIMAL_PRECISION, 1);
      } else {
        assert x * SCALE_FACTOR >= DECIMAL_PRECISION;
        QuotientAtLeast(x * SCALE_FACTOR, DECIMAL_PRECISION, 1);
      }
    }
  }

  /**
   * An offset is refused exactly when it exceeds the deposits, when the loss carried along
   * exceeds it, or when the product would become zero.
   */
  lemma OffsetRefusedIff(p: Pool, debt: nat, coll: nat)
    ensures Offset(p, debt, coll).None? <==>
              p.total > 0 && debt > 0
              && (debt > p.total
                  || (debt < p.total && debt * DECIMAL_PRECISION < p.lossError)
                  || (debt < p.total && Surviving(p, debt) > 0 && p.now.P * Surviving(p, debt) < SCALE_FACTOR))
  {
    if 0 < debt <= p.total && !LossUnderflows(p, debt) {
      NextProductZeroIff(p.now, DECIMAL_PRECISION - LossPerUnit(p, debt));
    }
  }

  /** What it leaves: everything else as it was, the position under fresh snapshots. */
  lemma WithdrawEffect(p: Pool, a: Address, amount: nat, clear: bool)
    requires WellFormed(p) && Withdraw(p, a, amount, clear).Some?
    ensures
      var q, paid, tag := Withdraw(p, a, amount, clear).value, PaidOut(p, a, amount), p.deposits[a].tag;
      && WellFormed(q) && q.now == p.now && q.sums == p.sums && q.frontEnds == p.frontEnds
      && q.collError == p.collError && q.lossError == p.lossError
      && q.total == p.total - paid && q.coll == p.coll - DepositorGain(p, a)
      && CompoundedDeposit(q, a) == CompoundedDeposit(p, a) - paid && DepositorGain(q, a) == 0
      && CompoundedStake(q, tag) == CompoundedStake(p, tag) - paid
      && (a in q.deposits ==> q.deposits[a].tag == tag)
      && (forall b :: b != a ==> (b in q.deposits <==> b in p.deposits))
      && (forall b :: b != a && b in p.deposits ==> q.deposits[b] == p.deposits[b])
      && (forall t :: t != tag ==> (t in q.stakes <==> t in p.stakes))
      && (forall t :: t != tag && t in p.stakes ==> q.stakes[t] == p.stakes[t])
  {
    WithdrawKeepsWellFormed(p, a, amount, clear);
    CompoundedUnmoved(p.now, CompoundedDeposit(p, a) - PaidOut(p, a, amount));
    CompoundedUnmoved(p.now, CompoundedStake(p, p.deposits[a].tag) - PaidOut(p, a, amount));
    var q := Withdraw(p, a, amount, clear).value;
    if a in q.deposits {
      NoGainYet(q.now, q.sums, q.deposits[a]);
    }
  }

  lemma NoGainYet(now: Product, sums: Sums, d: Deposit)
    requires now.P > 0 && d.at == now && d.S == SumAt(sums, now.epoch, now.scale)
    requires forall e, s :: (e, s) in sums ==> e < now.epoch || (e == now.epoch && s <= now.scale)
    ensures CollGain(sums, d) == 0
  {
    assert SumAt(sums, now.epoch, now.scale + 1) == 0;
  }

  /**
   * A provision is refused exactly for an amount of zero, from a front end, for an unknown tag,
   * or when the collateral does not cover the gain it pays out.
   */
  lemma ProvideRefusedIff(p: Pool, a: Address, amount: nat, tag: Address)
    requires WellFormed(p)
    ensures Provide(p, a, amount, tag).None? <==>
              || amount == 0 || a in p.frontEnds || (tag != ZERO_ADDRESS && tag !in p.frontEnds)
              || DepositorGain(p, a) > p.coll
  {
    if a in p.deposits {
      CompoundedAtMostInitial(p.now, p.deposits[a].initial, p.deposits[a].at);
    }
  }

  /** What it leaves: the amount on top, under the tag of an existing deposit or else the given one. */
  lemma ProvideEffect(p: Pool, a: Address, amount: nat, tag: Address)
    requires WellFormed(p) && Provide(p, a, amount, tag).Some?
    ensures
      var q, kept := Provide(p, a, amount, tag).value, if a in p.deposits then p.deposits[a].tag else tag;
      && WellFormed(q) && q.now == p.now && q.sums == p.sums && q.frontEnds == p.frontEnds
      && q.collError == p.collError && q.lossError == p.lossError
      && q.total == p.total + amount && q.coll == p.coll - DepositorGain(p, a)
      && a in q.deposits && q.deposits[a].tag == kept
      && CompoundedDeposit(q, a) == CompoundedDeposit(p, a) + amount && DepositorGain(q, a) == 0
      && CompoundedStake(q, kept) == CompoundedStake(p, kept) + amount
      && (forall b :: b != a ==> (b in q.deposits <==> b in p.deposits))
      && (forall b :: b != a && b in p.deposits ==> q.deposits[b] == p.deposits[b])
      && (forall t :: t != kept ==> (t in q.stakes <==> t in p.stakes))
      && (forall t :: t != kept && t in p.stakes ==> q.stakes[t] == p.stakes[t])
  {
    var kept := if a in p.deposits then p.deposits[a].tag else tag;
    var t := ProvideSettles(p, a, amount, tag);
    SettleKeepsWellFormed(p, a, t);
    CompoundedUnmoved(p.now, CompoundedDeposit(p, a) + amount);
    CompoundedUnmoved(p.now, CompoundedStake(p, kept) + amount);
    var q := Provide(p, a, amount, tag).value;
    NoGainYet(q.now, q.sums, q.deposits[a]);
  }

  /** Moving a gain needs a deposit, a trove and a gain that the pool covers; the deposit stays. */
  lemma GainToTroveIff(p: Pool, a: Address, hasTrove: bool)
    requires WellFormed(p)
    ensures GainToTrove(p, a, hasTrove).Some? <==>
              a in p.deposits && hasTrove && 0 < DepositorGain(p, a) <= p.coll
    ensures GainToTrove(p, a, hasTrove).Some? ==> GainToTrove(p, a, hasTrove) == Withdraw(p, a, 0, false)
  {
    WithdrawRefusedIff(p, a, 0, true);
    WithdrawRefusedIff(p, a, 0, false);
  }

  /** Registration needs neither a deposit nor an earlier registration, and changes nothing else. */
  lemma RegisterIff(p: Pool, a: Address)
    ensures Register(p, a).Some? <==> a !in p.frontEnds && a !in p.deposits
    ensures Register(p, a).Some? ==> Register(p, a).value == p.(frontEnds := p.frontEnds + {a})
  {
  }

  /** A full withdrawal succeeds exactly when the pool, its collateral and the tag's stake cover it. */
  lemma FullWithdrawalIff(p: Pool, a: Address, amount: nat)
    requires WellFormed(p) && a in p.deposits && CompoundedDeposit(p, a) <= amount
    ensures Withdraw(p, a, amount, true).Some? <==>
              && CompoundedDeposit(p, a) <= p.total
              && DepositorGain(p, a) <= p.coll
              && CompoundedDeposit(p, a) <= CompoundedStake(p, p.deposits[a].tag)
  {
    CompoundedAtMostInitial(p.now, p.deposits[a].initial, p.deposits[a].at);
  }

  /** What a full withdrawal leaves to the others. */
  lemma FullWithdrawalEffect(p: Pool, a: Address, amount: nat)
    requires WellFormed(p) && a in p.deposits && CompoundedDeposit(p, a) <= amount
    requires Withdraw(p, a, amount, true).Some?
    ensures
      var q := Withdraw(p, a, amount, true).value;
      && WellFormed(q)
      && q.deposits == p.deposits - {a}
      && q.now == p.now && q.sums == p.sums
      && q.total == p.total - CompoundedDeposit(p, a)
      && q.coll == p.coll - DepositorGain(p, a)
      && forall t :: CompoundedStake(q, t) == CompoundedStake(p, t)
           - (if t == p.deposits[a].tag then CompoundedDeposit(p, a) else 0)
  {
    WithdrawKeepsWellFormed(p, a, amount, true);
    var tag := p.deposits[a].tag;
    var left := CompoundedStake(p, tag) - CompoundedDeposit(p, a);
    CompoundedUnmoved(p.now, left);
  }

  lemma CompoundedUnmoved(now: Product, stake: nat)
    requires now.P > 0
    ensures Compounded(now, stake, now) == stake
  {
    UniqueQuotient(stake * now.P, now.P, stake, 0);
    MulDivBelow(stake, 1, 1_000_000_000);
  }

  lemma PayoutsAfter(p: Pool, q: Pool, who: set<Address>, a: Address)
    requires WellFormed(p) && WellFormed(q) && a in who && a in p.deposits
    requires q.deposits == p.deposits - {a} && q.now == p.now && q.sums == p.sums
    ensures Sum(Payouts(p, who)) == CompoundedDeposit(p, a) + Sum(Payouts(q, who - {a}))
    ensures Sum(GainPayouts(p, who)) == DepositorGain(p, a) + Sum(GainPayouts(q, who - {a}))
  {
    SumRemove(Payouts(p, who), a);
    SumRemove(GainPayouts(p, who), a);
    assert Payouts(q, who - {a}) == Payouts(p, who) - {a};
    assert GainPayouts(q, who - {a}) == GainPayouts(p, who) - {a};
  }

  lemma TaggedPayoutsAfter(p: Pool, q: Pool, who: set<Address>, a: Address, t: Address)
    requires WellFormed(p) && WellFormed(q) && a in who && a in p.deposits
    requires q.deposits == p.deposits - {a} && q.now == p.now && q.sums == p.sums
    ensures Sum(Payouts(p, Tagged(p, who, t)))
         == (if t == p.deposits[a].tag then CompoundedDeposit(p, a) else 0)
            + Sum(Payouts(q, Tagged(q, who - {a}, t)))
  {
    var tagged := Tagged(p, who, t);
    assert Tagged(q, who - {a}, t) == tagged - {a};
    if t == p.deposits[a].tag {
      PayoutsAfter(p, q, tagged, a);
    } else {
      assert tagged - {a} == tagged;
      assert Payouts(q, tagged) == Payouts(p, tagged);
    }
  }

  /** The three conditions, one withdrawal later. */
  lemma AffordableAfter(p: Pool, q: Pool, who: set<Address>, a: Address)
    requires WellFormed(p) && WellFormed(q) && a in who && a in p.deposits
    requires q.deposits == p.deposits - {a} && q.now == p.now && q.sums == p.sums
    requires q.total == p.total - CompoundedDeposit(p, a) && q.coll == p.coll - DepositorGain(p, a)
    requires forall t :: CompoundedStake(q, t) == CompoundedStake(p, t)
                           - (if t == p.deposits[a].tag then CompoundedDeposit(p, a) else 0)
    ensures Affordable(p, who) <==> Affordable(q, who - {a})
  {
    PayoutsAfter(p, q, who, a);
    forall t ensures
      Sum(Payouts(p, Tagged(p, who, t))) <= CompoundedStake(p, t) <==>
      Sum(Payouts(q, Tagged(q, who - {a}, t))) <= CompoundedStake(q, t)
    {
      TaggedPayoutsAfter(p, q, who, a, t);
    }
  }

  lemma AffordableCoversFirst(p: Pool, who: set<Address>, a: Address)
    requires WellFormed(p) && a in who && a in p.deposits && Affordable(p, who)
    ensures CompoundedDeposit(p, a) <= p.total && DepositorGain(p, a) <= p.coll
    ensures CompoundedDeposit(p, a) <= CompoundedStake(p, p.deposits[a].tag)
  {
    AmongPayouts(p, who, a);
    AmongPayouts(p, Tagged(p, who, p.deposits[a].tag), a);
  }

  lemma AmongPayouts(p: Pool, who: set<Address>, a: Address)
    requires WellFormed(p) && a in who
    ensures CompoundedDeposit(p, a) <= Sum(Payouts(p, who))
    ensures DepositorGain(p, a) <= Sum(GainPayouts(p, who))
  {
    SumNonNegative(Payouts(p, who));
    SumNonNegative(GainPayouts(p, who));
    assert Payouts(p, who)[a] == CompoundedDeposit(p, a);
    assert GainPayouts(p, who)[a] == DepositorGain(p, a);
  }

  lemma NothingAffordable(p: Pool)
    requires WellFormed(p)
    ensures Affordable(p, {})
  {
    assert forall t :: Tagged(p, {}, t) == {};
    assert Payouts(p, {}).Keys == {} && GainPayouts(p, {}).Keys == {};
  }

  ghost predicate CanAsk(p: Pool, order: seq<Address>, amount: nat)
    requires WellFormed(p)
  {
    forall a :: a in order ==> a in p.deposits && CompoundedDeposit(p, a) <= amount
  }

  /** The first withdrawal of the group: it fails only if the group is not affordable. */
  lemma FirstWithdrawal(p: Pool, order: seq<Address>, amount: nat)
    requires WellFormed(p) && Distinct(order) && order != [] && CanAsk(p, order, amount)
    ensures
      var first := Withdraw(p, order[0], amount, true);
      if first.None? then !Affordable(p, Members(order))
      else
        && WellFormed(first.value) && CanAsk(first.value, order[1..], amount)
        && first.value.deposits == p.deposits - {order[0]}
        && (Affordable(p, Members(order)) <==> Affordable(first.value, Members(order[1..])))
  {
    var a, who := order[0], Members(order);
    FullWithdrawalIff(p, a, amount);
    if Withdraw(p, a, amount, true).Some? {
      FullWithdrawalEffect(p, a, amount);
      assert Members(order[1..]) == who - {a};
      AffordableAfter(p, Withdraw(p, a, amount, true).value, who, a);
    } else if Affordable(p, who) {
      AffordableCoversFirst(p, who, a);
    }
  }

  lemma {:induction false} AffordableIff(p: Pool, order: seq<Address>, amount: nat)
    requires WellFormed(p) && Distinct(order) && CanAsk(p, order, amount)
    ensures WithdrawAll(p, order, amount).Some? <==> Affordable(p, Members(order))
    decreases |order|
  {
    if order == [] {
      assert Members(order) == {};
      NothingAffordable(p);
    } else {
      FirstWithdrawal(p, order, amount);
      if Withdraw(p, order[0], amount, true).Some? {
        AffordableIff(Withdraw(p, order[0], amount, true).value, order[1..], amount);
      }
    }
  }

  lemma RemovedInTurn(m: map<Address, Deposit>, order: seq<Address>)
    requires order != []
    ensures m - {order[0]} - Members(order[1..]) == m - Members(order)
  {
    assert Members(order) == {order[0]} + Members(order[1..]);
  }

  lemma {:induction false} NoneLeft(p: Pool, order: seq<Address>, amount: nat)
    requires WellFormed(p) && Distinct(order) && CanAsk(p, order, amount)
    requires WithdrawAll(p, order, amount).Some?
    ensures WithdrawAll(p, order, amount).value.deposits == p.deposits - Members(order)
    decreases |order|
  {
    if order == [] {
      assert p.deposits - Members(order) == p.deposits;
    } else {
      FirstWithdrawal(p, order, amount);
      NoneLeft(Withdraw(p, order[0], amount, true).value, order[1..], amount);
      RemovedInTurn(p.deposits, order);
    }
  }

  /**
   * A group of depositors can withdraw in full one after the other exactly when the group is
   * affordable before the first withdrawal. The right-hand side does not mention the order, so
   * the order never matters; afterwards every one of their deposits is gone.
   */
  lemma WithdrawAllIff(p: Pool, order: seq<Address>, amount: nat)
    requires WellFormed(p) && Distinct(order) && CanAsk(p, order, amount)
    ensures WithdrawAll(p, order, amount).Some? <==> Affordable(p, Members(order))
    ensures WithdrawAll(p, order, amount).Some? ==>
              WithdrawAll(p, order, amount).value.deposits == p.deposits - Members(order)
  {
    AffordableIff(p, order, amount);
    if WithdrawAll(p, order, amount).Some? {
      NoneLeft(p, order, amount);
    }
  }

  // ---------------------------------------------------------------------------
  // How far a reachable pool can be from affordable
  // ---------------------------------------------------------------------------

  /** The whole-unit payouts of any group are together at most what the ledger owes. */
  lemma PayoutsBelowOwed(p: Pool, n: Ledger, who: set<Address>)
    requires WellFormed(p) && Tracks(p, n) && who <= n.Keys
    ensures Sum(Payouts(p, who)) as real <= Owed(n)
  {
    forall a | a in n
      ensures CompoundedDeposit(p, a) as real <= n[a].value && n[a].value >= 0.0
    {
      PaidBelowLedger(p, n, a);
    }
    SumBelowRealSum(Payouts(p, who), Values(n));
  }

  lemma GainPayoutsBelowOwed(p: Pool, n: Ledger, who: set<Address>)
    requires WellFormed(p) && Tracks(p, n) && who <= n.Keys
    ensures Sum(GainPayouts(p, who)) as real <= OwedColl(n)
  {
    forall a | a in n
      ensures DepositorGain(p, a) as real <= n[a].gain && n[a].gain >= 0.0
    {
      PaidBelowLedger(p, n, a);
    }
    SumBelowRealSum(GainPayouts(p, who), Gains(n));
  }

  lemma EmptyPoolTracks()
    ensures WellFormed(EMPTY_POOL) && Tracks(EMPTY_POOL, map[])
    ensures Slack(EMPTY_POOL, map[]) == 0.0 && CollSlack(EMPTY_POOL, map[]) == 0.0
  {
    assert Values(map[]) == map[] && Gains(map[]) == map[];
  }

  /**
   * After every run from deployment the full payouts of all depositors exceed the pool by at
   * most a 1e-18th of the largest pool that an offset met. In particular they fit as long as
   * no offset met a pool of a whole token (1e18 units) or more.
   */
  lemma PayoutsNearTotal(calls: seq<Call>)
    ensures WellFormed(EMPTY_POOL)
    ensures
      var p := Run(EMPTY_POOL, calls);
      var due := Sum(Payouts(p, p.deposits.Keys));
      && DECIMAL_PRECISION * due <= DECIMAL_PRECISION * p.total + Peak(EMPTY_POOL, calls)
      && (Peak(EMPTY_POOL, calls) < DECIMAL_PRECISION ==> due <= p.total)
  {
    EmptyPoolTracks();
    var p, n, peak := Run(EMPTY_POOL, calls), LedgerRun(EMPTY_POOL, map[], calls), Peak(EMPTY_POOL, calls);
    RunTracks(EMPTY_POOL, map[], calls);
    RunSlack(EMPTY_POOL, map[], calls, peak);
    PayoutsBelowOwed(p, n, p.deposits.Keys);
    WholeUnits(Sum(Payouts(p, p.deposits.Keys)), p.total, Owed(n), p.lossError, peak);
  }

  lemma WholeUnits(due: int, total: nat, owed: real, error: nat, peak: nat)
    requires due as real <= owed && Beyond(total, owed, error) >= -(peak as real)
    ensures DECIMAL_PRECISION * due <= DECIMAL_PRECISION * total + peak
    ensures peak < DECIMAL_PRECISION ==> due <= total
  {
    AtLeast(UNIT, owed, due as real);
    assert (DECIMAL_PRECISION * due) as real <= (DECIMAL_PRECISION * total + peak) as real;
  }

  /**
   * On every run from deployment whose offsets all meet a pool worth its total, the collateral
   * held covers the gains of all depositors.
   */
  lemma GainsCovered(calls: seq<Call>)
    ensures WellFormed(EMPTY_POOL)
    ensures BackedAtOffsets(EMPTY_POOL, map[], calls) ==>
              var p := Run(EMPTY_POOL, calls);
              Sum(GainPayouts(p, p.deposits.Keys)) <= p.coll
  {
    EmptyPoolTracks();
    if BackedAtOffsets(EMPTY_POOL, map[], calls) {
      var p, n := Run(EMPTY_POOL, calls), LedgerRun(EMPTY_POOL, map[], calls);
      RunTracks(EMPTY_POOL, map[], calls);
      BackedRunCoversGains(EMPTY_POOL, map[], calls);
      GainPayoutsBelowOwed(p, n, p.deposits.Keys);
    }
  }
}
