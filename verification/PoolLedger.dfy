/**
 * The Stability Pool against the loop it replaces. A ledger holds every depositor's value and
 * gain and is rewritten entry by entry at each offset; the pool itself only moves `P` and `S`.
 * Values are exact reals, so rounding shows up where the contract rounds and nowhere else.
 */
module PoolLedger {
  import opened Base
  import opened RealSums
  import opened StabilityPool

  datatype Entry = Entry(value: real, gain: real)

  type Ledger = map<Address, Entry>

  ghost function ScalePower(n: nat): (r: real)
    ensures r >= 1.0
  {
    if n == 0 then 1.0 else 1_000_000_000.0 * ScalePower(n - 1)
  }

  /** The product with the scale shifts undone. */
  ghost function Level(x: Product): real {
    x.P as real / ScalePower(x.scale)
  }

  lemma LevelPositive(x: Product)
    requires x.P > 0
    ensures Level(x) > 0.0
  {
  }

  /** The exact worth of a recorded position. */
  ghost function Value(now: Product, initial: nat, at: Product): real
    requires at.P > 0
  {
    LevelPositive(at);
    if at.epoch < now.epoch then 0.0 else initial as real * (Level(now) / Level(at))
  }

  /** The factor an offset applies to every deposit. */
  ghost function AppliedFactor(now: Product, next: Product): real
    requires now.P > 0
  {
    LevelPositive(now);
    if now.epoch < next.epoch then 0.0 else Level(next) / Level(now)
  }

  /** The naive loop over all depositors. */
  ghost function SettleAll(n: Ledger, factor: real, collPerUnit: real): Ledger {
    map a | a in n :: Entry(Times(factor, n[a].value), n[a].gain + Times(collPerUnit, n[a].value))
  }

  ghost function SetEntry(n: Ledger, a: Address, value: nat): Ledger {
    if value == 0 then n - {a} else n[a := Entry(value as real, 0.0)]
  }

  /** A per-unit reward as a plain number. */
  ghost function Rate(perUnit: nat): real {
    perUnit as real / 1_000_000_000_000_000_000.0
  }

  /** A depositor's recorded deposit after a call of theirs. */
  ghost function DepositAfter(p: Pool, c: Call): nat
    requires WellFormed(p) && !c.OffsetDebt? && !c.RegisterFrontEnd?
  {
    var compounded := CompoundedDeposit(p, c.who);
    if c.ProvideToSP? then compounded + c.amount
    else if c.WithdrawFromSP? then compounded - Min(c.amount, compounded)
    else compounded
  }

  /** What the naive loop does for a successful call. */
  ghost function LedgerStep(p: Pool, n: Ledger, c: Call): Ledger
    requires WellFormed(p) && Step(p, c).Some?
  {
    match c
    case RegisterFrontEnd(_) => n
    case OffsetDebt(debt, coll) =>
      if p.total == 0 || debt == 0 then n
      else SettleAll(n, AppliedFactor(p.now, Step(p, c).value.now),
                     Rate(CollPerUnit(p, coll)))
    case _ => SetEntry(n, c.who, DepositAfter(p, c))
  }

  /** `initial * x / P / 1e18`, without floors. */
  ghost function Share(initial: nat, x: real, P: nat): real
    requires P > 0
  {
    initial as real * x / (P as real * 1_000_000_000_000_000_000.0)
  }

  /** The part of `S` that a deposit takes part in. */
  ghost function SumSince(sums: Sums, d: Deposit): real {
    SumAt(sums, d.at.epoch, d.at.scale) as real - d.S as real
      + SumAt(sums, d.at.epoch, d.at.scale + 1) as real / 1_000_000_000.0
  }

  /** The gain formula of the contract without its floors. */
  ghost function ExactGain(sums: Sums, d: Deposit): real
    requires d.at.P > 0
  {
    Share(d.initial, SumSince(sums, d), d.at.P)
  }

  /** No gain accrued to the deposit's epoch beyond the scale after the deposit's own. */
  ghost predicate WithinOneShift(sums: Sums, at: Product) {
    forall s :: at.scale + 2 <= s ==> SumAt(sums, at.epoch, s) == 0
  }

  ghost predicate EntryTracks(now: Product, sums: Sums, d: Deposit, e: Entry)
    requires d.at.P > 0
  {
    && e.value == Value(now, d.initial, d.at)
    && ExactGain(sums, d) <= e.gain
    && (WithinOneShift(sums, d.at) ==> e.gain == ExactGain(sums, d))
  }

  /**
   * The snapshots determine the ledger: values exactly, and gains exactly as long as they span
   * at most one scale shift. Later gains are in the ledger only.
   */
  ghost predicate Tracks(p: Pool, n: Ledger)
    requires WellFormed(p)
  {
    && n.Keys == p.deposits.Keys
    && forall a :: a in n ==> EntryTracks(p.now, p.sums, p.deposits[a], n[a])
  }

  lemma FreshEntry(now: Product, sums: Sums, value: nat, tag: Address)
    requires now.P > 0
    requires forall e, s :: (e, s) in sums ==> e < now.epoch || (e == now.epoch && s <= now.scale)
    ensures EntryTracks(now, sums, Deposit(value, tag, SumAt(sums, now.epoch, now.scale), now),
          Entry(value as real, 0.0))
  {
    LevelPositive(now);
  }

  lemma SettleTracks(p: Pool, n: Ledger, a: Address, t: Settlement)
    requires WellFormed(p) && Tracks(p, n)
    ensures WellFormed(Settle(p, a, t))
    ensures Tracks(Settle(p, a, t), SetEntry(n, a, t.deposit))
  {
    SettleKeepsWellFormed(p, a, t);
    FreshEntry(p.now, p.sums, t.deposit, t.tag);
  }

  // ---------------------------------------------------------------------------
  // An offset, seen by one depositor
  // ---------------------------------------------------------------------------

  lemma CancelScale(x: real, y: real, w: real)
    requires y > 0.0 && w > 0.0
    ensures y / w > 0.0
    ensures (x / w) / (y / w) == x / y
    ensures (x / (1_000_000_000.0 * w)) / (y / w) == x / (1_000_000_000.0 * y)
  {
    Quotient(x / w, y / w, x / y);
    Quotient(x / (1_000_000_000.0 * w), y / w, x / (1_000_000_000.0 * y));
  }

  lemma Quotient(a: real, b: real, c: real)
    requires b > 0.0 && a == c * b
    ensures a / b == c
  {
  }

  lemma RelativeLevel(now: Product, at: Product)
    requires at.P > 0
    ensures Level(at) > 0.0
    ensures now.scale == at.scale ==> Level(now) / Level(at) == now.P as real / at.P as real
    ensures now.scale == at.scale + 1 ==>
              Level(now) / Level(at) == now.P as real / (1_000_000_000.0 * at.P as real)
  {
    CancelScale(now.P as real, at.P as real, ScalePower(at.scale));
  }

  lemma ChainedRatio(x: real, a: real, b: real, c: real)
    requires a > 0.0 && b > 0.0
    ensures (c / b) * (x * (b / a)) == x * (c / a)
  {
    assert (c / b) * b == c;
    assert x * (b / a) == x * b / a;
    assert (c / b) * (x * b / a) == ((c / b) * b) * x / a;
  }

  lemma OffsetValue(now: Product, next: Product, initial: nat, at: Product)
    requires now.P > 0 && at.P > 0 && at.epoch <= now.epoch <= next.epoch
    ensures Times(AppliedFactor(now, next), Value(now, initial, at)) == Value(next, initial, at)
  {
    LevelPositive(now);
    LevelPositive(at);
    if at.epoch == now.epoch == next.epoch {
      ChainedRatio(initial as real, Level(at), Level(now), Level(next));
    }
  }

  function AddToSum(now: Product, sums: Sums, perUnit: nat): Sums {
    sums[(now.epoch, now.scale) := SumAt(sums, now.epoch, now.scale) + perUnit * now.P]
  }

  ghost function Earned(now: Product, d: Deposit, perUnit: nat): real
    requires d.at.P > 0
  {
    Times(Rate(perUnit), Value(now, d.initial, d.at))
  }

  /** A sum growing by `perUnit * P` adds the rate on the current value. */
  lemma ShareOfSum(initial: nat, x: real, x': real, perUnit: nat, p: real, q: nat, value: real)
    requires q > 0
    requires x' == x + perUnit as real * p
    requires value == initial as real * (p / q as real)
    ensures Share(initial, x', q) == Share(initial, x, q) + Times(Rate(perUnit), value)
  {
    ShareSplits(initial as real, x, perUnit as real, p, q as real, 1_000_000_000_000_000_000.0);
  }

  lemma ShareSplits(i: real, x: real, g: real, p: real, q: real, u: real)
    requires q > 0.0 && u > 0.0
    ensures q * u > 0.0
    ensures i * (x + g * p) / (q * u) == i * x / (q * u) + (g / u) * (i * (p / q))
  {
    assert i * (x + g * p) == i * x + i * (g * p);
    var y := (g / u) * (i * (p / q));
    assert (g / u) * u == g && (p / q) * q == p;
    assert y * (q * u) == ((g / u) * u) * (i * ((p / q) * q));
    Quotient(i * (g * p), q * u, y);
    Quotient(i * x + i * (g * p), q * u, i * x / (q * u) + y);
  }

  /** `P` in the units of the deposit's own scale. */
  ghost function Rescaled(now: Product, at: Product): real {
    if now.scale == at.scale then now.P as real else now.P as real / 1_000_000_000.0
  }

  lemma GainInReach(now: Product, sums: Sums, d: Deposit, perUnit: nat)
    requires now.P > 0 && d.at.P > 0 && d.at.epoch == now.epoch && d.at.scale <= now.scale <= d.at.scale + 1
    ensures ExactGain(AddToSum(now, sums, perUnit), d) == ExactGain(sums, d) + Earned(now, d, perUnit)
  {
    var p := Rescaled(now, d.at);
    SumSinceGrows(now, sums, d, perUnit);
    ValueInReach(now, d.initial, d.at);
    ShareOfSum(d.initial, SumSince(sums, d), SumSince(AddToSum(now, sums, perUnit), d), perUnit, p, d.at.P,
               Value(now, d.initial, d.at));
  }

  lemma SumSinceGrows(now: Product, sums: Sums, d: Deposit, perUnit: nat)
    requires d.at.epoch == now.epoch && d.at.scale <= now.scale <= d.at.scale + 1
    ensures SumSince(AddToSum(now, sums, perUnit), d)
         == SumSince(sums, d) + perUnit as real * Rescaled(now, d.at)
  {
    var s, g, p := SumAt(sums, now.epoch, now.scale), perUnit, now.P;
    assert (s + g * p) as real == s as real + g as real * p as real;
    if d.at.scale != now.scale {
      assert (s as real + g as real * p as real) / 1_000_000_000.0
          == s as real / 1_000_000_000.0 + g as real * (p as real / 1_000_000_000.0);
    }
  }

  lemma ValueInReach(now: Product, initial: nat, at: Product)
    requires now.P > 0 && at.P > 0 && at.epoch == now.epoch && at.scale <= now.scale <= at.scale + 1
    ensures Value(now, initial, at) == initial as real * (Rescaled(now, at) / at.P as real)
  {
    RelativeLevel(now, at);
    Quotient(now.P as real / 1_000_000_000.0, at.P as real, now.P as real / (1_000_000_000.0 * at.P as real));
  }

  lemma ValueNonNegative(now: Product, initial: nat, at: Product)
    requires at.P > 0
    ensures Value(now, initial, at) >= 0.0
  {
    LevelPositive(at);
    assert Level(now) >= 0.0;
  }

  /** `S` gains exactly what the depositor's current value earns at the going rate. */
  lemma OffsetGain(now: Product, sums: Sums, d: Deposit, perUnit: nat)
    requires now.P > 0 && Reached(now, d.at)
    ensures Earned(now, d, perUnit) >= 0.0
    ensures
      var sums' := AddToSum(now, sums, perUnit);
      && (WithinOneShift(sums', d.at) ==> WithinOneShift(sums, d.at))
      && ExactGain(sums', d) <= ExactGain(sums, d) + Earned(now, d, perUnit)
      && (WithinOneShift(sums', d.at) ==>
            ExactGain(sums', d) == ExactGain(sums, d) + Earned(now, d, perUnit))
  {
    var sums' := AddToSum(now, sums, perUnit);
    assert forall e, s :: SumAt(sums, e, s) <= SumAt(sums', e, s);
    ValueNonNegative(now, d.initial, d.at);
    if d.at.epoch < now.epoch {
      assert Value(now, d.initial, d.at) == 0.0;
    } else if now.scale <= d.at.scale + 1 {
      GainInReach(now, sums, d, perUnit);
    } else if WithinOneShift(sums', d.at) {
      assert SumAt(sums', now.epoch, now.scale) == 0;
      assert perUnit == 0;
    }
  }

  /** Two scale shifts or more behind, within the same epoch. */
  predicate BeyondReach(now: Product, at: Product) {
    at.epoch == now.epoch && at.scale + 2 <= now.scale
  }

  /** Position by position: what the sum credits, and to whom it credits nothing. */
  lemma GainExact(now: Product, sums: Sums, d: Deposit, perUnit: nat)
    requires now.P > 0 && Reached(now, d.at)
    ensures ExactGain(AddToSum(now, sums, perUnit), d) ==
              ExactGain(sums, d) + if BeyondReach(now, d.at) then 0.0 else Earned(now, d, perUnit)
  {
    if d.at.epoch < now.epoch {
      assert Value(now, d.initial, d.at) == 0.0;
    } else if !BeyondReach(now, d.at) {
      GainInReach(now, sums, d, perUnit);
    }
  }

  lemma OffsetEntry(now: Product, next: Product, sums: Sums, d: Deposit, e: Entry, perUnit: nat)
    requires now.P > 0 && Reached(now, d.at) && now.epoch <= next.epoch
    requires EntryTracks(now, sums, d, e)
    ensures EntryTracks(next, AddToSum(now, sums, perUnit), d,
              Entry(Times(AppliedFactor(now, next), e.value),
                    e.gain + Times(Rate(perUnit), e.value)))
  {
    OffsetValue(now, next, d.initial, d.at);
    OffsetGain(now, sums, d, perUnit);
  }

  // ---------------------------------------------------------------------------
  // Runs
  // ---------------------------------------------------------------------------

  /** One call: the ledger follows the pool. */
  lemma StepTracks(p: Pool, n: Ledger, c: Call)
    requires WellFormed(p) && Tracks(p, n) && Step(p, c).Some?
    ensures WellFormed(Step(p, c).value)
    ensures Tracks(Step(p, c).value, LedgerStep(p, n, c))
  {
    StepKeepsWellFormed(p, c);
    if c.OffsetDebt? {
      OffsetTracks(p, n, c);
    } else if !c.RegisterFrontEnd? {
      var t := StepSettles(p, n, c);
      SettleTracks(p, n, c.who, t);
    }
  }

  lemma StepSettles(p: Pool, n: Ledger, c: Call) returns (t: Settlement)
    requires WellFormed(p) && Step(p, c).Some? && !c.OffsetDebt? && !c.RegisterFrontEnd?
    ensures Step(p, c).value == Settle(p, c.who, t)
    ensures LedgerStep(p, n, c) == SetEntry(n, c.who, t.deposit)
    ensures t.deposit as int - CompoundedDeposit(p, c.who) as int == t.total as int - p.total as int
    ensures t.coll == p.coll - DepositorGain(p, c.who)
  {
    match c
    case ProvideToSP(a, amount, tag) =>
      t := ProvideSettles(p, a, amount, tag);
    case WithdrawFromSP(a, amount, clear) =>
      t := WithdrawSettles(p, a, amount, clear);
    case WithdrawCollGainToTrove(a, _) =>
      t := WithdrawSettles(p, a, 0, true);
  }

  lemma OffsetTracks(p: Pool, n: Ledger, c: Call)
    requires WellFormed(p) && Tracks(p, n) && c.OffsetDebt? && Step(p, c).Some?
    requires WellFormed(Step(p, c).value)
    ensures Tracks(Step(p, c).value, LedgerStep(p, n, c))
  {
    if p.total != 0 && c.debt != 0 {
      var q := Step(p, c).value;
      var perUnit := CollPerUnit(p, c.coll);
      assert q.sums == AddToSum(p.now, p.sums, perUnit);
      forall a | a in n
        ensures EntryTracks(q.now, q.sums, q.deposits[a], LedgerStep(p, n, c)[a])
      {
        OffsetEntry(p.now, q.now, p.sums, p.deposits[a], n[a], perUnit);
      }
    }
  }
}
