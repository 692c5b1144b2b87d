/** Which troves a call may leave behind, take, or pay out. */
module TroveSafety {
  import opened Base
  import opened Liquidation
  import opened TroveManager
  import opened TroveAccounting
  import opened TroveRuns

  // ---------------------------------------------------------------------------
  // Borrower operations
  // ---------------------------------------------------------------------------

  /** The calls a borrower makes on a trove. */
  ghost predicate BorrowerCall(c: Call) {
    c.OpenTrove? || c.AdjustTrove? || c.CloseOwnTrove?
  }

  lemma OpenKeepsMode(s: System, a: Address, coll: nat, amount: nat, fee: nat, price: nat)
    requires Open(s, a, coll, amount, fee, price).Some? && !RecoveryMode(s, price)
    ensures !RecoveryMode(Open(s, a, coll, amount, fee, price).value, price)
  {
    var s' := Open(s, a, coll, amount, fee, price).value;
    assert SystemColl(s') == SystemColl(s) + coll
      && SystemDebt(s') == SystemDebt(s) + (amount + fee + GAS_COMPENSATION);
  }

  lemma AdjustKeepsMode(s: System, a: Address, x: Adjustment, price: nat)
    requires Consistent(s) && Adjust(s, a, x, price).Some? && !RecoveryMode(s, price)
    ensures !RecoveryMode(Adjust(s, a, x, price).value, price)
  {
    AppliedKeeps(s, a);
    AppliedKeepsMode(ApplyRewards(s, a).value, a, x, price);
  }

  lemma AppliedKeepsMode(s: System, a: Address, x: Adjustment, price: nat)
    requires a in s.troves && AdjustApplied(s, a, x, price).Some? && !RecoveryMode(s, price)
    ensures !RecoveryMode(AdjustApplied(s, a, x, price).value, price)
  {
    var s', net := AdjustApplied(s, a, x, price).value, NetChange(s, x, price);
    assert SystemColl(s') == SystemColl(s) + x.collIn - x.collOut;
    assert SystemDebt(s') == if x.increase then SystemDebt(s) + net else SystemDebt(s) - x.change;
  }

  lemma CloseKeepsMode(s: System, a: Address, funds: nat, price: nat)
    requires Consistent(s) && Close(s, a, funds, price).Some?
    ensures !RecoveryMode(Close(s, a, funds, price).value, price)
  {
    AppliedKeeps(s, a);
    var s1, s' := ApplyRewards(s, a).value, Close(s, a, funds, price).value;
    assert SystemColl(s') == SystemColl(s1) - s1.troves[a].coll;
    assert SystemDebt(s') == SystemDebt(s1) - s1.troves[a].debt;
  }

  /** No borrower can bring the system into Recovery Mode at the price of the call. */
  lemma NormalModeKept(s: System, c: Call)
    requires Consistent(s) && BorrowerCall(c) && Step(s, c).Some? && !RecoveryMode(s, c.price)
    ensures !RecoveryMode(Step(s, c).value, c.price)
  {
    match c
    case OpenTrove(a, coll, amount, fee, price) => OpenKeepsMode(s, a, coll, amount, fee, price);
    case AdjustTrove(a, x, price) => AdjustKeepsMode(s, a, x, price);
    case CloseOwnTrove(a, funds, price) => CloseKeepsMode(s, a, funds, price);
  }

  /** A trove just opened is at 110% or more, and at 150% or more in Recovery Mode. */
  lemma OpenedTroveSafe(s: System, a: Address, coll: nat, amount: nat, fee: nat, price: nat)
    requires Open(s, a, coll, amount, fee, price).Some?
    ensures
      var s' := Open(s, a, coll, amount, fee, price).value;
      a in s'.troves && CurrentRatio(s', a, price) >= if RecoveryMode(s, price) then CCR else MCR
  {
    var s' := Open(s, a, coll, amount, fee, price).value;
    NoClaim(s'.l, s'.troves[a]);
  }

  /**
   * A trove just adjusted in Normal Mode is at 110% or more. In Recovery Mode collateral never
   * leaves, and new debt needs a ratio of 150% that is no lower than before.
   */
  lemma AdjustedTroveSafe(s: System, a: Address, x: Adjustment, price: nat)
    requires Consistent(s) && Aligned(s.l, s.troves) && Adjust(s, a, x, price).Some?
    ensures
      var s' := Adjust(s, a, x, price).value;
      && a in s.troves && a in s'.troves
      && (!RecoveryMode(s, price) ==> CurrentRatio(s', a, price) >= MCR)
      && (RecoveryMode(s, price) ==> x.collOut == 0)
      && (RecoveryMode(s, price) && x.increase ==>
            CurrentRatio(s', a, price) >= CCR && CurrentRatio(s', a, price) >= CurrentRatio(s, a, price))
  {
    AppliedKeeps(s, a);
    AppliedAligned(s, a);
    var s1, s' := ApplyRewards(s, a).value, Adjust(s, a, x, price).value;
    AdjustedAmounts(s, s1, s', a, x, price);
    AdjustedRatios(s, s1, s', a, x, price);
  }

  /** The guards are on the recorded amounts, which are the entire ones before and after. */
  lemma AdjustedRatios(s: System, s1: System, s': System, a: Address, x: Adjustment, price: nat)
    requires a in s.troves && a in s1.troves && a in s'.troves
    requires SystemColl(s1) == SystemColl(s) && SystemDebt(s1) == SystemDebt(s)
    requires s1.troves[a].coll == EntireColl(s.l, s.troves[a]) && s1.troves[a].debt == EntireDebt(s.l, s.troves[a])
    requires ValidAdjustment(s1, x, price, s1.troves[a].coll, s1.troves[a].debt, s'.troves[a].coll, s'.troves[a].debt)
    requires PendingColl(s'.l, s'.troves[a]) == PendingDebt(s'.l, s'.troves[a]) == 0
    ensures !RecoveryMode(s, price) ==> CurrentRatio(s', a, price) >= MCR
    ensures RecoveryMode(s, price) ==> x.collOut == 0
    ensures RecoveryMode(s, price) && x.increase ==>
              CurrentRatio(s', a, price) >= CCR && CurrentRatio(s', a, price) >= CurrentRatio(s, a, price)
  {
  }

  lemma AdjustedAmounts(s: System, s1: System, s': System, a: Address, x: Adjustment, price: nat)
    requires a in s.troves && ApplyRewards(s, a) == Some(s1) && AdjustApplied(s1, a, x, price) == Some(s')
    requires SystemColl(s1) == SystemColl(s) && SystemDebt(s1) == SystemDebt(s)
    requires s.troves[a].snap == s.l || s.troves[a].snap.coll < s.l.coll
    ensures a in s'.troves && s'.l == s.l && s'.troves[a].snap == s.l
    ensures s1.troves[a].coll == EntireColl(s.l, s.troves[a]) && s1.troves[a].debt == EntireDebt(s.l, s.troves[a])
    ensures ValidAdjustment(s1, x, price, s1.troves[a].coll, s1.troves[a].debt, s'.troves[a].coll, s'.troves[a].debt)
    ensures PendingColl(s'.l, s'.troves[a]) == PendingDebt(s'.l, s'.troves[a]) == 0
  {
  }

  // ---------------------------------------------------------------------------
  // Liquidation
  // ---------------------------------------------------------------------------

  /** What a batch may have taken so far: troves of the list, below 110%, or below 150% if it began in Recovery Mode. */
  ghost predicate TookOnly(s: System, b: Batch, who: seq<Address>, price: nat) {
    && b.s.l == s.l
    && (!b.normal ==> RecoveryMode(s, price) && CollateralRatio(b.coll, b.debt, price) < CCR)
    && (forall a :: a in s.troves ==> TakenOrSame(s, b.s, who, a, price))
    && (forall a :: a in b.s.troves ==> a in s.troves)
  }

  ghost predicate TakenOrSame(s: System, s': System, who: seq<Address>, a: Address, price: nat)
    requires a in s.troves
  {
    if a in s'.troves then s'.troves[a] == s.troves[a]
    else a in who && CurrentRatio(s, a, price) < if RecoveryMode(s, price) then CCR else MCR
  }

  lemma StepTookOnly(s: System, b: Batch, who: seq<Address>, a: Address, price: nat)
    requires TookOnly(s, b, who, price) && a in who && BatchStep(b, a, price).Some?
    ensures TookOnly(s, BatchStep(b, a, price).value, who, price)
  {
    var b' := BatchStep(b, a, price).value;
    if a in b.s.troves {
      assert TakenOrSame(s, b.s, who, a, price);
      assert CurrentRatio(b.s, a, price) == CurrentRatio(s, a, price);
      forall c | c in s.troves ensures TakenOrSame(s, b'.s, who, c, price) {
        assert TakenOrSame(s, b.s, who, c, price);
      }
    }
  }

  lemma {:induction false} BatchTookOnly(s: System, b: Batch, rest: seq<Address>, who: seq<Address>, price: nat)
    requires TookOnly(s, b, who, price) && (forall a :: a in rest ==> a in who) && BatchAll(b, rest, price).Some?
    ensures TookOnly(s, BatchAll(b, rest, price).value, who, price)
    decreases |rest|
  {
    if rest != [] {
      StepTookOnly(s, b, who, rest[0], price);
      BatchTookOnly(s, BatchStep(b, rest[0], price).value, rest[1..], who, price);
    }
  }

  /**
   * A batch liquidation touches no trove outside its list, none at 110% or more in Normal Mode
   * and none at 150% or more ever; every trove it leaves is left as it was.
   */
  lemma LiquidatedBelow(s: System, who: seq<Address>, price: nat, a: Address)
    requires LiquidateBatch(s, who, price).Some? && a in s.troves
    ensures TakenOrSame(s, LiquidateBatch(s, who, price).value, who, a, price)
  {
    var start := BatchStart(s, price);
    assert TookOnly(s, start, who, price);
    BatchTookOnly(s, start, who, who, price);
    var b := BatchAll(start, who, price).value;
    assert TakenOrSame(s, b.s, who, a, price);
    assert LiquidateBatch(s, who, price).value.troves == b.s.troves;
  }

  // ---------------------------------------------------------------------------
  // Surplus collateral
  // ---------------------------------------------------------------------------

  ghost function SurplusOf(s: System, a: Address): nat {
    if a in s.surplus then s.surplus[a] else 0
  }

  /** A capped liquidation leaves the borrower, and nobody else, what exceeds 110% of the debt. */
  lemma CappedSurplus(s: System, a: Address, price: nat, b: Address)
    requires Consistent(s) && a in s.troves && LiquidateBatch(s, [a], price).Some?
    requires CurrentRatio(s, a, price) >= MCR
    ensures price > 0
    ensures
      var s', t := LiquidateBatch(s, [a], price).value, s.troves[a];
      SurplusOf(s', b) == SurplusOf(s, b) +
        if b == a then EntireColl(s.l, t) - EntireDebt(s.l, t) * MCR / price else 0
  {
    var t := s.troves[a];
    CapCovered(EntireDebt(s.l, t), EntireColl(s.l, t), price);
    SingleBatch(s, a, price);
    CappedStep(s, a, price);
  }

  lemma CappedStep(s: System, a: Address, price: nat)
    requires a in s.troves && BatchStep(BatchStart(s, price), a, price).Some? && price > 0
    requires CurrentRatio(s, a, price) >= MCR && BatchStep(BatchStart(s, price), a, price).value.totals.debt != 0
    requires EntireDebt(s.l, s.troves[a]) * MCR / price <= EntireColl(s.l, s.troves[a])
    ensures
      var t := s.troves[a];
      BatchStep(BatchStart(s, price), a, price).value.s.surplus
        == AddSurplus(s.surplus, a, EntireColl(s.l, t) - EntireDebt(s.l, t) * MCR / price)
  {
  }

  /** What a borrower is owed for a trove taken at 110% or more: what exceeds 110% of the debt. */
  ghost function CappedPart(s: System, s': System, a: Address, price: nat): int {
    if a in s.troves && a !in s'.troves && CurrentRatio(s, a, price) >= MCR && price > 0
    then EntireColl(s.l, s.troves[a]) - EntireDebt(s.l, s.troves[a]) * MCR / price
    else 0
  }

  /** Within a batch: troves are as they were or gone, and the surplus so far is that of those gone. */
  ghost predicate SurplusSoFar(s: System, b: Batch, price: nat) {
    && b.s.l == s.l && MinimumDebt(s.troves)
    && (forall a :: a in b.s.troves ==> a in s.troves && b.s.troves[a] == s.troves[a])
    && (forall a :: SurplusOf(b.s, a) == SurplusOf(s, a) + CappedPart(s, b.s, a, price))
  }

  /** A trove taken by a step adds its own part and nothing else. */
  lemma StepSurplus(s: System, b: Batch, a: Address, price: nat)
    requires a in b.s.troves && MinimumDebt(b.s.troves) && BatchStep(b, a, price).Some?
    ensures
      var s' := BatchStep(b, a, price).value.s;
      && s'.l == b.s.l && (s'.troves == b.s.troves || s'.troves == b.s.troves - {a})
      && (forall c :: SurplusOf(s', c) == SurplusOf(b.s, c) + if c == a then CappedPart(b.s, s', a, price) else 0)
  {
    var t := b.s.troves[a];
    var debt, coll := EntireDebt(b.s.l, t), EntireColl(b.s.l, t);
    if CurrentRatio(b.s, a, price) >= MCR {
      CapCovered(debt, coll, price);
    }
    OffsetSplitComplete(debt, coll, b.remaining);
  }

  lemma SurplusStep(s: System, b: Batch, a: Address, price: nat)
    requires SurplusSoFar(s, b, price) && BatchStep(b, a, price).Some?
    ensures SurplusSoFar(s, BatchStep(b, a, price).value, price)
  {
    if a in b.s.troves {
      StepSurplus(s, b, a, price);
      var s' := BatchStep(b, a, price).value.s;
      forall c ensures SurplusOf(s', c) == SurplusOf(s, c) + CappedPart(s, s', c, price) {
        assert SurplusOf(b.s, c) == SurplusOf(s, c) + CappedPart(s, b.s, c, price);
      }
    }
  }

  lemma {:induction false} SurplusAll(s: System, b: Batch, who: seq<Address>, price: nat)
    requires SurplusSoFar(s, b, price) && BatchAll(b, who, price).Some?
    ensures SurplusSoFar(s, BatchAll(b, who, price).value, price)
    decreases |who|
  {
    if who != [] {
      SurplusStep(s, b, who[0], price);
      SurplusAll(s, BatchStep(b, who[0], price).value, who[1..], price);
    }
  }

  lemma FinishSurplus(s: System, x: Split)
    requires Finish(s, x).Some?
    ensures Finish(s, x).value.surplus == s.surplus && Finish(s, x).value.troves == s.troves
  {
  }

  /** A batch of any length leaves each borrower of a capped trove exactly that part, and nobody else anything. */
  lemma BatchSurplus(s: System, who: seq<Address>, price: nat, a: Address)
    requires Consistent(s) && LiquidateBatch(s, who, price).Some?
    ensures
      var s' := LiquidateBatch(s, who, price).value;
      SurplusOf(s', a) == SurplusOf(s, a) + CappedPart(s, s', a, price)
  {
    var start := BatchStart(s, price);
    SurplusAll(s, start, who, price);
    var b := BatchAll(start, who, price).value;
    FinishSurplus(b.s, b.totals);
  }

  /** A redeemed trove that is closed leaves its borrower, and nobody else, what was not drawn. */
  lemma RedeemedSurplus(r: Redemption, a: Address, price: nat, hint: nat, b: Address)
    requires RedeemFrom(r, a, price, hint).Some? && !r.cancelled
    requires SnapshotsReached(r.s.l, r.s.troves)
    ensures
      var r' := RedeemFrom(r, a, price, hint).value;
      && a in r.s.troves
      && SurplusOf(r'.s, b) == SurplusOf(r.s, b) +
           if b == a && a !in r'.s.troves then EntireColl(r.s.l, r.s.troves[a]) - (r'.drawn - r.drawn) else 0
  {
    NoClaim(r.s.l, r.s.troves[a]);
  }
}
