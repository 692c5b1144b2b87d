/**
 * One depositor's share against the proportional rule: a loop that takes `debt / total` from
 * every deposit at each offset. The product rounds losses up and feeds the excess back, so the
 * two drift apart, by an amount that is tallied offset by offset.
 */
module FairShares {
  import opened Base
  import opened RealSums
  import opened StabilityPool
  import opened PoolLedger
  import opened PoolSolvency

  /** What is left of a unit that is offset in proportion. */
  ghost function FairFactor(total: nat, debt: nat): real
    requires 0 < debt <= total
  {
    1.0 - debt as real / total as real
  }

  /** How far the applied factor can be from it: the loss errors, and one unit of the product. */
  ghost function Drift(p: Pool, debt: nat): real
    requires 0 < debt <= p.total && !LossUnderflows(p, debt) && p.now.P > 0
  {
    if debt == p.total then 0.0
    else (p.lossError + LossErrorAfter(p, debt)) as real / (UNIT * p.total as real) + 1.0 / p.now.P as real
  }

  lemma LossNear(total: nat, debt: nat, loss: nat, e: nat, e': nat)
    requires 0 < debt < total && loss <= DECIMAL_PRECISION && loss * total == debt * DECIMAL_PRECISION - e + e'
    ensures
      var fair, given, off := FairFactor(total, debt), (DECIMAL_PRECISION - loss) as real / UNIT,
                              (e + e') as real / (UNIT * total as real);
      fair - off <= given <= fair + off
  {
    var t, l, d := total as real, loss as real, debt as real;
    assert (loss * total) as real == l * t;
    assert l * t == d * UNIT - e as real + e' as real;
    LossShare(t, l, d, UNIT, e as real, e' as real);
    assert (e + e') as real == e as real + e' as real;
  }

  lemma LossShare(t: real, l: real, d: real, u: real, e: real, e': real)
    requires t > 0.0 && u > 0.0 && l * t == d * u - e + e' && e >= 0.0 && e' >= 0.0
    ensures 1.0 - d / t - (e + e') / (u * t) <= (u - l) / u <= 1.0 - d / t + (e + e') / (u * t)
  {
    var k := u * t;
    var x, y, z := (u - l) / u, d / t, (e + e') / k;
    assert x * k == (u - l) * t by { assert x * u == u - l; }
    assert y * k == d * u by { assert y * t == d; }
    assert z * k == e + e';
    assert (1.0 - y - z) * k == k - y * k - z * k && (1.0 - y + z) * k == k - y * k + z * k;
    Unscaled(k, x, 1.0 - y - z);
    Unscaled(k, 1.0 - y + z, x);
  }

  /** The factor that an offset applies is the proportional one, up to that drift. */
  lemma FactorNearFair(p: Pool, debt: nat, next: Product)
    requires 0 < debt <= p.total && !LossUnderflows(p, debt) && p.now.P > 0
    requires next == NextProduct(p.now, DECIMAL_PRECISION - LossPerUnit(p, debt))
    ensures Drift(p, debt) >= 0.0 && 0.0 <= FairFactor(p.total, debt) <= 1.0
    ensures FairFactor(p.total, debt) - Drift(p, debt) <= AppliedFactor(p.now, next)
         <= FairFactor(p.total, debt) + Drift(p, debt)
  {
    var loss := LossPerUnit(p, debt);
    FairInUnit(p.total, debt);
    if debt < p.total {
      LossNear(p.total, debt, loss, p.lossError, LossErrorAfter(p, debt));
      FactorBound(p.now, DECIMAL_PRECISION - loss);
      FactorAccurate(p.now, DECIMAL_PRECISION - loss);
      assert 1.0 / p.now.P as real > 0.0;
      DriftNonNegative((p.lossError + LossErrorAfter(p, debt)) as real, UNIT * p.total as real);
    }
  }

  lemma FairInUnit(total: nat, debt: nat)
    requires 0 < debt <= total
    ensures 0.0 <= FairFactor(total, debt) <= 1.0 && (debt == total ==> FairFactor(total, debt) == 0.0)
  {
    var q := debt as real / total as real;
    assert q * total as real == debt as real;
    Unscaled(total as real, 1.0, q);
    Unscaled(total as real, q, 0.0);
  }

  lemma DriftNonNegative(x: real, y: real)
    requires x >= 0.0 && y > 0.0
    ensures x / y >= 0.0
  {
  }

  // ---------------------------------------------------------------------------
  // Runs
  // ---------------------------------------------------------------------------

  type Shares = map<Address, real>

  /** The proportional loop. A depositor's own call sets the deposit that the contract records. */
  ghost function FairStep(p: Pool, m: Shares, c: Call): Shares
    requires WellFormed(p) && Step(p, c).Some?
  {
    match c
    case RegisterFrontEnd(_) => m
    case OffsetDebt(debt, _) =>
      if p.total == 0 || debt == 0 then m else map a | a in m :: Times(FairFactor(p.total, debt), m[a])
    case _ => if DepositAfter(p, c) == 0 then m - {c.who} else m[c.who := DepositAfter(p, c) as real]
  }

  ghost function FairRun(p: Pool, m: Shares, calls: seq<Call>): Shares
    requires WellFormed(p)
    decreases |calls|
  {
    if calls == [] then m
    else FairRun(After(p, calls[0]), if Step(p, calls[0]).None? then m else FairStep(p, m, calls[0]), calls[1..])
  }

  ghost function ShareOf(m: Shares, a: Address): real {
    if a in m then m[a] else 0.0
  }

  /** The drift of one depositor after a call, from a drift before it; an own call ends it. */
  ghost function DriftAfter(p: Pool, n: Ledger, c: Call, a: Address, drift: real): real
    requires WellFormed(p)
  {
    if Step(p, c).None? || c.RegisterFrontEnd? then drift
    else if c.OffsetDebt? then
      if p.total == 0 || c.debt == 0 then drift else drift + Times(Drift(p, c.debt), ValueOf(n, a))
    else if c.who == a then 0.0
    else drift
  }

  ghost function RunDrift(p: Pool, n: Ledger, calls: seq<Call>, a: Address, drift: real): real
    requires WellFormed(p)
    decreases |calls|
  {
    if calls == [] then drift
    else RunDrift(After(p, calls[0]), LedgerAfter(p, n, calls[0]), calls[1..], a, DriftAfter(p, n, calls[0], a, drift))
  }

  ghost predicate Near(x: real, y: real, by0: real) {
    -by0 <= x - y <= by0
  }

  /** Two factors that are near, of two amounts that are near. */
  lemma NearProducts(f: real, g: real, x: real, y: real, off: real, drift: real)
    requires Near(f, g, off) && 0.0 <= g <= 1.0 && x >= 0.0 && Near(x, y, drift) && off >= 0.0
    ensures Near(Times(f, x), Times(g, y), drift + Times(off, x))
  {
    var d, e := f - g, x - y;
    assert f * x - g * y == d * x + g * e;
    AtLeast(x, off, d);
    AtLeast(x, d, -off);
    assert x * off == off * x && x * d == d * x && x * -off == -(off * x);
    Shrunk(g, e, drift);
  }

  lemma OffsetNear(p: Pool, n: Ledger, m: Shares, c: Call, a: Address, drift: real)
    requires WellFormed(p) && Tracks(p, n) && c.OffsetDebt? && Step(p, c).Some? && n.Keys == m.Keys
    requires Near(ValueOf(n, a), ShareOf(m, a), drift) && p.total != 0 && c.debt != 0
    ensures Near(ValueOf(LedgerStep(p, n, c), a), ShareOf(FairStep(p, m, c), a), DriftAfter(p, n, c, a, drift))
  {
    var next := Step(p, c).value.now;
    FactorNearFair(p, c.debt, next);
    if a in n {
      ValueNonNegative(p.now, p.deposits[a].initial, p.deposits[a].at);
      assert EntryTracks(p.now, p.sums, p.deposits[a], n[a]);
      NearProducts(AppliedFactor(p.now, next), FairFactor(p.total, c.debt), n[a].value, m[a],
                   Drift(p, c.debt), drift);
    } else {
      assert Times(Drift(p, c.debt), 0.0) == 0.0;
    }
  }

  lemma SameDepositors(p: Pool, n: Ledger, m: Shares, c: Call)
    requires WellFormed(p) && Step(p, c).Some? && n.Keys == m.Keys
    ensures LedgerStep(p, n, c).Keys == FairStep(p, m, c).Keys
  {
  }

  /** The caller's entries are the recorded deposit, the others are as they were. */
  lemma CallNear(p: Pool, n: Ledger, m: Shares, c: Call, a: Address, drift: real)
    requires WellFormed(p) && Step(p, c).Some? && !c.OffsetDebt?
    requires Near(ValueOf(n, a), ShareOf(m, a), drift)
    ensures Near(ValueOf(LedgerStep(p, n, c), a), ShareOf(FairStep(p, m, c), a), DriftAfter(p, n, c, a, drift))
  {
    if !c.RegisterFrontEnd? {
      SetNear(n, m, c.who, DepositAfter(p, c), a, drift);
    }
  }

  lemma SetNear(n: Ledger, m: Shares, who: Address, value: nat, a: Address, drift: real)
    requires Near(ValueOf(n, a), ShareOf(m, a), drift)
    ensures Near(ValueOf(SetEntry(n, who, value), a),
                 ShareOf(if value == 0 then m - {who} else m[who := value as real], a), if who == a then 0.0 else drift)
  {
  }

  lemma StepNear(p: Pool, n: Ledger, m: Shares, c: Call, a: Address, drift: real)
    requires WellFormed(p) && Tracks(p, n) && Step(p, c).Some? && n.Keys == m.Keys
    requires Near(ValueOf(n, a), ShareOf(m, a), drift)
    ensures Near(ValueOf(LedgerStep(p, n, c), a), ShareOf(FairStep(p, m, c), a), DriftAfter(p, n, c, a, drift))
  {
    if !c.OffsetDebt? {
      CallNear(p, n, m, c, a, drift);
    } else if p.total != 0 && c.debt != 0 {
      OffsetNear(p, n, m, c, a, drift);
    }
  }

  /**
   * Over every run each deposit is worth what the proportional loop makes of it, up to the drift
   * of the offsets since the depositor's last call.
   */
  lemma {:induction false} RunNearFair(p: Pool, n: Ledger, m: Shares, calls: seq<Call>, a: Address, drift: real)
    requires WellFormed(p) && Tracks(p, n) && n.Keys == m.Keys && Near(ValueOf(n, a), ShareOf(m, a), drift)
    ensures Near(ValueOf(LedgerRun(p, n, calls), a), ShareOf(FairRun(p, m, calls), a), RunDrift(p, n, calls, a, drift))
    decreases |calls|
  {
    if calls != [] {
      var c := calls[0];
      if Step(p, c).Some? {
        StepTracks(p, n, c);
        StepNear(p, n, m, c, a, drift);
        SameDepositors(p, n, m, c);
        RunNearFair(After(p, c), LedgerAfter(p, n, c), FairStep(p, m, c), calls[1..], a, DriftAfter(p, n, c, a, drift));
      } else {
        RunNearFair(p, n, m, calls[1..], a, drift);
      }
    }
  }
}
