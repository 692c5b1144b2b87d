/** The off-chain computation of stakes: liquidate a trove, then open one, over running totals. */
module StakeSimulation {
  import opened Arith
  import opened IntSums

  /** `offchainTotalStakes` and `offchainTotalColl`. */
  datatype Totals = Totals(stakes: nat, coll: nat)

  /** A liquidated stake, and the collateral of the new entrant. */
  datatype Round = Round(liquidated: nat, entrant: nat)

  /** The new stake: the entrant's collateral at the going stake per collateral. */
  function StakeOf(t: Totals, r: Round): nat
    requires r.liquidated <= t.stakes && t.coll > 0
  {
    r.entrant * (t.stakes - r.liquidated) / t.coll
  }

  function Next(t: Totals, r: Round): Totals
    requires r.liquidated <= t.stakes && t.coll > 0
  {
    Totals(t.stakes - r.liquidated + StakeOf(t, r), t.coll + r.entrant)
  }

  /** Each round liquidates a stake that is there. */
  ghost predicate Admissible(t: Totals, rounds: seq<Round>)
    decreases |rounds|
  {
    rounds != [] ==>
      rounds[0].liquidated <= t.stakes && t.coll > 0 && Admissible(Next(t, rounds[0]), rounds[1..])
  }

  ghost function After(t: Totals, rounds: seq<Round>): Totals
    requires Admissible(t, rounds)
    decreases |rounds|
  {
    if rounds == [] then t else After(Next(t, rounds[0]), rounds[1..])
  }

  // ---------------------------------------------------------------------------
  // Stake per collateral
  // ---------------------------------------------------------------------------

  /** Stake per collateral of `t'` is at most that of `t`. */
  ghost predicate NotRaised(t: Totals, t': Totals) {
    RatioAtLeast(t.stakes, t.coll, t'.stakes, t'.coll)
  }

  lemma EntrantShare(stakes: nat, coll: nat, entrant: nat)
    requires coll > 0
    ensures entrant * stakes / coll * coll <= entrant * stakes < (entrant * stakes / coll + 1) * coll
  {
    var x := entrant * stakes;
    assert x == x / coll * coll + x % coll;
  }

  /**
   * A round never raises stake per collateral, and the entrant loses less than one unit of stake
   * against the exact share.
   */
  lemma RoundNotRaised(t: Totals, r: Round)
    requires r.liquidated <= t.stakes && t.coll > 0
    ensures NotRaised(t, Next(t, r))
    ensures
      var left, t' := t.stakes - r.liquidated, Next(t, r);
      t'.stakes * t.coll <= left * t'.coll < (t'.stakes + 1) * t.coll
  {
    var left, stake := t.stakes - r.liquidated, StakeOf(t, r);
    EntrantShare(left, t.coll, r.entrant);
    Distribute(t.coll, left, stake);
    Distribute(t.coll, left + stake, 1);
    Distribute(left, t.coll, r.entrant);
    MulMonotone(left, t.stakes, t.coll + r.entrant);
  }

  lemma NotRaisedTransitive(t: Totals, t1: Totals, t2: Totals)
    requires NotRaised(t, t1) && NotRaised(t1, t2) && t.coll > 0 && t1.coll > 0 && t2.coll > 0
    ensures NotRaised(t, t2)
  {
    if t.stakes * t2.coll < t2.stakes * t.coll {
      var x, y := t.stakes * t2.coll, t2.stakes * t.coll;
      MulMonotone(x + 1, y, t1.coll);
      MulMonotone(t1.stakes * t.coll, t.stakes * t1.coll, t2.coll);
      MulMonotone(t2.stakes * t1.coll, t1.stakes * t2.coll, t.coll);
      Rotate(t, t1, t2);
    }
  }

  lemma Rotate(t: Totals, t1: Totals, t2: Totals)
    ensures t1.stakes * t.coll * t2.coll == t1.stakes * t2.coll * t.coll
    ensures t.stakes * t1.coll * t2.coll == t.stakes * t2.coll * t1.coll
    ensures t2.stakes * t1.coll * t.coll == t2.stakes * t.coll * t1.coll
  {
  }

  /** Over every run stake per collateral never rises; in particular stakes stay below collateral. */
  lemma {:induction false} RunNotRaised(t: Totals, rounds: seq<Round>)
    requires Admissible(t, rounds) && t.coll > 0
    ensures After(t, rounds).coll >= t.coll && NotRaised(t, After(t, rounds))
    ensures t.stakes <= t.coll ==> After(t, rounds).stakes <= After(t, rounds).coll
    decreases |rounds|
  {
    if rounds != [] {
      var next := Next(t, rounds[0]);
      RoundNotRaised(t, rounds[0]);
      if t.stakes <= t.coll {
        MulDivBelow(rounds[0].entrant, t.stakes - rounds[0].liquidated, t.coll);
      }
      RunNotRaised(next, rounds[1..]);
      NotRaisedTransitive(t, next, After(t, rounds));
    }
  }

  // ---------------------------------------------------------------------------
  // The loop
  // ---------------------------------------------------------------------------

  /** The loop over all rounds; `stake` is the last one made. */
  method Simulate(start: Totals, rounds: seq<Round>) returns (end: Totals, stake: nat)
    requires Admissible(start, rounds) && start.coll > 0
    ensures end == After(start, rounds) && NotRaised(start, end)
  {
    var totalStakes: nat, totalColl: nat, i := start.stakes, start.coll, 0;
    stake := 0;
    while i < |rounds|
      invariant 0 <= i <= |rounds| && totalColl > 0
      invariant Admissible(Totals(totalStakes, totalColl), rounds[i..])
      invariant After(Totals(totalStakes, totalColl), rounds[i..]) == After(start, rounds)
    {
      var r := rounds[i];
      assert rounds[i..][0] == r && rounds[i..][1..] == rounds[i + 1..];
      totalStakes := totalStakes - r.liquidated;
      stake := r.entrant * totalStakes / totalColl;
      totalStakes := totalStakes + stake;
      totalColl := totalColl + r.entrant;
      i := i + 1;
    }
    end := Totals(totalStakes, totalColl);
    RunNotRaised(start, rounds);
  }
}
