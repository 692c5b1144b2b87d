/**
 * The base rate of the fees: it decays with time at every fee event and rises with redemptions.
 * Times are in seconds and do not run backwards.
 */
module BaseRate {
  import opened Base
  import opened Arith
  import opened FeeDecay

  const SECONDS_IN_ONE_MINUTE: nat := 60
  const MINUTE_DECAY_FACTOR: nat := 999_037_758_833_783_000
  const BETA: nat := 2
  const FEE_FLOOR: nat := 5_000_000_000_000_000
  const MAX_BORROWING_FEE: nat := 50_000_000_000_000_000

  datatype Fees = Fees(baseRate: nat, lastOp: nat)

  /** A fee event: a debt issuance, or a redemption of collateral at a price from a supply. */
  datatype Event = Issuance(at: nat) | Redemption(at: nat, drawn: nat, price: nat, supply: nat)

  // ---------------------------------------------------------------------------
  // The events
  // ---------------------------------------------------------------------------

  function MinutesPassed(f: Fees, now: nat): nat
    requires f.lastOp <= now
  {
    (now - f.lastOp) / SECONDS_IN_ONE_MINUTE
  }

  /** `_calcDecayedBaseRate`. */
  function Decayed(f: Fees, now: nat): nat
    requires f.lastOp <= now
  {
    f.baseRate * DecPow(MINUTE_DECAY_FACTOR, MinutesPassed(f, now)) / DECIMAL_PRECISION
  }

  /** `_updateLastFeeOpTime`. */
  function LastOpAfter(f: Fees, now: nat): nat
    requires f.lastOp <= now
  {
    if now - f.lastOp >= SECONDS_IN_ONE_MINUTE then now else f.lastOp
  }

  /** What a redemption adds to the rate: half the fraction of the supply redeemed. */
  function Raise(e: Event): nat {
    match e
    case Issuance(_) => 0
    case Redemption(_, drawn, price, supply) => if supply == 0 then 0 else drawn * price / supply / BETA
  }

  /** `decayBaseRateFromBorrowing` and `_updateBaseRateFromRedemption`. */
  function Apply(f: Fees, e: Event): Option<Fees> {
    if e.at < f.lastOp then None
    else
      match e
      case Issuance(now) => Some(Fees(Decayed(f, now), LastOpAfter(f, now)))
      case Redemption(now, _, _, supply) =>
        var rate := Min(Decayed(f, now) + Raise(e), DECIMAL_PRECISION);
        if supply == 0 || rate == 0 then None else Some(Fees(rate, LastOpAfter(f, now)))
  }

  function After(f: Fees, e: Event): Fees {
    if Apply(f, e).None? then f else Apply(f, e).value
  }

  function Run(f: Fees, events: seq<Event>): Fees
    decreases |events|
  {
    if events == [] then f else Run(After(f, events[0]), events[1..])
  }

  // ---------------------------------------------------------------------------
  // The clock
  // ---------------------------------------------------------------------------

  /** Minutes of decay that an event applies. */
  ghost function MinutesOf(f: Fees, e: Event): nat {
    if Apply(f, e).None? then 0 else MinutesPassed(f, e.at)
  }

  ghost function TotalMinutes(f: Fees, events: seq<Event>): nat
    decreases |events|
  {
    if events == [] then 0 else MinutesOf(f, events[0]) + TotalMinutes(After(f, events[0]), events[1..])
  }

  /** Some occurrence of the event in the run is not refused. */
  ghost predicate Accepted(f: Fees, events: seq<Event>, e: Event)
    decreases |events|
  {
    events != [] &&
    ((events[0] == e && Apply(f, e).Some?) || Accepted(After(f, events[0]), events[1..], e))
  }

  lemma ClockStep(f: Fees, e: Event)
    requires Apply(f, e).Some?
    ensures
      var f', m := After(f, e), MinutesOf(f, e);
      && 0 <= e.at - f'.lastOp < SECONDS_IN_ONE_MINUTE
      && SECONDS_IN_ONE_MINUTE * m <= f'.lastOp - f.lastOp
      && f'.lastOp - f.lastOp <= 2 * SECONDS_IN_ONE_MINUTE * m
  {
  }

  /**
   * However densely events follow each other, the recorded time is less than a minute behind the
   * last accepted one, and at least half of the time it has advanced has been applied as decay.
   */
  lemma {:induction false} ClockNotStalled(f: Fees, events: seq<Event>)
    ensures
      var f', m := Run(f, events), TotalMinutes(f, events);
      && SECONDS_IN_ONE_MINUTE * m <= f'.lastOp - f.lastOp <= 2 * SECONDS_IN_ONE_MINUTE * m
      && (forall e :: Accepted(f, events, e) ==> e.at < f'.lastOp + SECONDS_IN_ONE_MINUTE)
    decreases |events|
  {
    if events != [] {
      var next := After(f, events[0]);
      if Apply(f, events[0]).Some? {
        ClockStep(f, events[0]);
      }
      ClockNotStalled(next, events[1..]);
    }
  }

  // ---------------------------------------------------------------------------
  // The rate
  // ---------------------------------------------------------------------------

  /** The exact decay per minute. */
  ghost function Rate(): (b: real)
    ensures Unit(b)
  {
    Value(MINUTE_DECAY_FACTOR)
  }

  /** Minutes as the exponentiation counts them: at most a thousand years at a time. */
  ghost function Counted(f: Fees, e: Event): nat {
    Min(MinutesOf(f, e), MAX_MINUTES)
  }

  ghost function TotalCounted(f: Fees, events: seq<Event>): nat
    decreases |events|
  {
    if events == [] then 0 else Counted(f, events[0]) + TotalCounted(After(f, events[0]), events[1..])
  }

  /** Half of the share of the supply that a redemption takes out at face value, exactly. */
  ghost function HalfShare(e: Event): real {
    match e
    case Issuance(_) => 0.0
    case Redemption(_, drawn, price, supply) =>
      if supply == 0 then 0.0 else drawn as real * price as real / (2.0 * supply as real) / DECIMAL_PRECISION as real
  }

  /** What is added is that half share, rounded down by less than a unit of the last place. */
  lemma RaiseNear(e: Event)
    ensures HalfShare(e) - 2.0 * ULP2 <= Value(Raise(e)) <= HalfShare(e)
  {
    if e.Redemption? && e.supply > 0 {
      HalfFloor(e.drawn * e.price, e.supply, Raise(e));
      assert (e.drawn * e.price) as real == e.drawn as real * e.price as real;
    }
  }

  lemma HalfFloor(x: nat, y: nat, q: nat)
    requires y > 0 && q == x / y / BETA
    ensures q as real <= x as real / (2.0 * y as real) < q as real + 1.0
  {
    NestedDivision(x, y, BETA);
    var d := y * BETA;
    assert q * d <= x < q * d + d;
    FloorBounds(x as real, d as real, q as real) by {
      assert (q * d) as real == q as real * d as real;
    }
    assert d as real == 2.0 * y as real;
  }

  lemma FloorBounds(x: real, k: real, q: real)
    requires k > 0.0 && q * k <= x < q * k + k
    ensures q <= x / k < q + 1.0
  {
    var z := x / k;
    var up, down := q + 1.0 - z, z - q;
    assert z * k == x;
    assert up * k == q * k + k - z * k && down * k == z * k - q * k;
    SignOfFactor(up, k);
    SignOfFactor(down, k);
  }

  lemma SignOfFactor(w: real, k: real)
    requires k > 0.0
    ensures w * k > 0.0 ==> w > 0.0
    ensures w * k >= 0.0 ==> w >= 0.0
  {
    if w < 0.0 {
      StrictlyScaled(w, 0.0, k);
    }
  }

  ghost function RaisedBy(f: Fees, e: Event): real {
    if Apply(f, e).Some? then HalfShare(e) else 0.0
  }

  ghost function TotalRaised(f: Fees, events: seq<Event>): real
    decreases |events|
  {
    if events == [] then 0.0
    else RaisedBy(f, events[0]) + TotalRaised(After(f, events[0]), events[1..])
  }

  /** `v` decayed over `m` minutes, up to the rounding of that many minutes and a rise of `up`. */
  ghost predicate Follows(v: real, v': real, m: nat, up: real) {
    Scaled(v, v', Power(Rate(), m), m, up)
  }

  ghost predicate Scaled(v: real, v': real, p: real, m: nat, up: real) {
    v * p - 3.0 * Errors(m) <= v' <= v * p + Errors(m) + up
  }

  lemma FloorProduct(rate: nat, d: nat)
    ensures Value(rate) * Value(d) - 2.0 * ULP2 <= Value(rate * d / DECIMAL_PRECISION) <= Value(rate) * Value(d)
  {
    var p, q := rate * d, rate * d / DECIMAL_PRECISION;
    assert q * DECIMAL_PRECISION <= p < q * DECIMAL_PRECISION + DECIMAL_PRECISION;
    ProductValue(rate, d);
  }

  /** One decay by any factor: rounded down from a product with a rounded power. */
  lemma DecayFollows(rate: nat, factor: nat, m: nat)
    requires rate <= DECIMAL_PRECISION && factor <= DECIMAL_PRECISION
    ensures rate * DecPow(factor, m) / DECIMAL_PRECISION <= rate
    ensures
      var n, d := Min(m, MAX_MINUTES), DecPow(factor, m);
      Scaled(Value(rate), Value(rate * d / DECIMAL_PRECISION), Power(Value(factor), n), n, 0.0)
  {
    DecPowAccurate(factor, m);
    MulDivBelow(rate, DecPow(factor, m), DECIMAL_PRECISION);
    if m == 0 {
      UniqueQuotient(rate * DECIMAL_PRECISION, DECIMAL_PRECISION, rate, 0);
    } else {
      ProductFollows(rate, DecPow(factor, m), Power(Value(factor), Min(m, MAX_MINUTES)), Min(m, MAX_MINUTES));
    }
  }

  lemma ProductFollows(rate: nat, d: nat, p: real, n: nat)
    requires rate <= DECIMAL_PRECISION && n > 0 && Within(Value(d), p, Errors(n))
    ensures Scaled(Value(rate), Value(rate * d / DECIMAL_PRECISION), p, n, 0.0)
  {
    FloorProduct(rate, d);
    DecMulUnit(rate, 0);
    ScaledError(Value(rate), Value(d), p, Errors(n));
    AtLeastOne(n);
  }

  lemma AtLeastOne(n: nat)
    requires n > 0
    ensures Errors(n) >= ULP2
  {
  }

  lemma DecayedFollows(f: Fees, now: nat)
    requires f.baseRate <= DECIMAL_PRECISION && f.lastOp <= now
    ensures Follows(Value(f.baseRate), Value(Decayed(f, now)), Min(MinutesPassed(f, now), MAX_MINUTES), 0.0)
    ensures Decayed(f, now) <= f.baseRate
  {
    DecayFollows(f.baseRate, MINUTE_DECAY_FACTOR, MinutesPassed(f, now));
  }

  lemma RaisedValue(rate: nat, up: nat)
    requires rate <= DECIMAL_PRECISION
    ensures Value(rate) <= Value(Min(rate + up, DECIMAL_PRECISION)) <= Value(rate) + Value(up)
  {
  }

  lemma StepFollows(f: Fees, e: Event)
    requires f.baseRate <= DECIMAL_PRECISION
    ensures After(f, e).baseRate <= DECIMAL_PRECISION
    ensures Follows(Value(f.baseRate), Value(After(f, e).baseRate), Counted(f, e), RaisedBy(f, e))
  {
    if Apply(f, e).Some? {
      DecayedFollows(f, e.at);
      RaisedValue(Decayed(f, e.at), Raise(e));
      RaiseNear(e);
      assert Counted(f, e) == Min(MinutesPassed(f, e.at), MAX_MINUTES);
      assert After(f, e).baseRate == Min(Decayed(f, e.at) + Raise(e), DECIMAL_PRECISION);
      FollowsRaised(Value(f.baseRate), Value(Decayed(f, e.at)), Value(After(f, e).baseRate), Counted(f, e),
                    RaisedBy(f, e));
    }
  }

  lemma FollowsRaised(v: real, v1: real, v2: real, m: nat, up: real)
    requires Follows(v, v1, m, 0.0) && v1 <= v2 <= v1 + up
    ensures Follows(v, v2, m, up)
  {
  }

  lemma FollowsTransitive(v: real, v1: real, v2: real, m: nat, n: nat, up: real, up1: real)
    requires Follows(v, v1, m, up) && Follows(v1, v2, n, up1) && up >= 0.0
    ensures Follows(v, v2, m + n, up + up1)
  {
    PowerAdd(Rate(), m, n);
    PowerUnit(Rate(), n);
    ScaledTransitive(v, v1, v2, Power(Rate(), m), Power(Rate(), n), m, n, up, up1);
  }

  lemma ScaledTransitive(v: real, v1: real, v2: real, p: real, q: real, m: nat, n: nat, up: real, up1: real)
    requires Scaled(v, v1, p, m, up) && Scaled(v1, v2, q, n, up1) && up >= 0.0 && Unit(q)
    ensures Scaled(v, v2, p * q, m + n, up + up1)
  {
    ErrorsAdd(m, n);
    ScaledBounds(q, v1, v * p, 3.0 * Errors(m), Errors(m) + up);
    assert q * (v * p) == v * (p * q);
  }

  lemma ScaledBounds(q: real, x: real, y: real, below: real, above: real)
    requires Unit(q) && y - below <= x <= y + above && below >= 0.0 && above >= 0.0
    ensures q * y - below <= q * x <= q * y + above
  {
    var d := x - y;
    ShrinksBetween(q, d, below, above, q * d);
    Difference(q, x, y);
  }

  lemma ShrinksBetween(q: real, d: real, below: real, above: real, p: real)
    requires Unit(q) && -below <= d <= above && below >= 0.0 && above >= 0.0 && p == q * d
    ensures -below <= p <= above
  {
    Shrinks(q, d, p);
  }

  /**
   * Over every run the rate follows exact exponential decay for the minutes applied: above it by
   * no more than half a unit per minute and what the redemptions added, below it by no more than
   * one and a half units per minute.
   */
  lemma {:induction false} RateFollowsDecay(f: Fees, events: seq<Event>)
    requires f.baseRate <= DECIMAL_PRECISION
    ensures Run(f, events).baseRate <= DECIMAL_PRECISION
    ensures TotalRaised(f, events) >= 0.0
    ensures Follows(Value(f.baseRate), Value(Run(f, events).baseRate), TotalCounted(f, events), TotalRaised(f, events))
    decreases |events|
  {
    if events != [] {
      var e, next := events[0], After(f, events[0]);
      StepFollows(f, e);
      RateFollowsDecay(next, events[1..]);
      FollowsTransitive(Value(f.baseRate), Value(next.baseRate), Value(Run(f, events).baseRate),
                        Counted(f, e), TotalCounted(next, events[1..]),
                        RaisedBy(f, e), TotalRaised(next, events[1..]));
    }
  }

  // ---------------------------------------------------------------------------
  // The exact rate
  // ---------------------------------------------------------------------------

  ghost function AtMostOne(x: real): real {
    if x > 1.0 then 1.0 else x
  }

  /** A redemption raises the decayed rate by half its share of the supply, up to 100%. */
  lemma RedemptionRaises(f: Fees, e: Event)
    requires f.baseRate <= DECIMAL_PRECISION && e.Redemption? && Apply(f, e).Some?
    ensures Within(Value(After(f, e).baseRate), AtMostOne(Value(Decayed(f, e.at)) + HalfShare(e)), 2.0 * ULP2)
    ensures Value(After(f, e).baseRate) <= AtMostOne(Value(Decayed(f, e.at)) + HalfShare(e))
  {
    RaiseNear(e);
  }

  /** An event is refused exactly from the past, or as a redemption that leaves no rate at all. */
  lemma EventRefusedIff(f: Fees, e: Event)
    ensures Apply(f, e).None? <==>
              || e.at < f.lastOp
              || (e.Redemption? && (e.supply == 0 || (Decayed(f, e.at) == 0 && e.drawn * e.price < 2 * e.supply)))
  {
    if e.Redemption? && e.supply > 0 {
      var x, y := e.drawn * e.price, e.supply;
      if x < 2 * y {
        QuotientBelow(x, y, 2);
      } else {
        QuotientAtLeast(x, y, 2);
      }
    }
  }

  /** The rate without roundings: exact decay for the minutes counted, exact shares, the cap. */
  ghost function IdealNext(f: Fees, v: real, e: Event): real {
    if Apply(f, e).None? then v else IdealRate(v, Power(Rate(), Counted(f, e)), HalfShare(e))
  }

  ghost function IdealRate(v: real, p: real, share: real): real {
    AtMostOne(v * p + share)
  }

  ghost function IdealRun(f: Fees, v: real, events: seq<Event>): real
    decreases |events|
  {
    if events == [] then v else IdealRun(After(f, events[0]), IdealNext(f, v, events[0]), events[1..])
  }

  /** Decay brings two rates no further apart, and so does the cap. */
  lemma NearNext(rate: real, v: real, d: real, up: real, p: real, share: real, e: real, n: nat)
    requires Unit(p) && Within(rate, v, e) && Scaled(rate, d, p, n, 0.0)
    requires share - 2.0 * ULP2 <= up <= share
    ensures Within(AtMostOne(d + up), IdealRate(v, p, share), e + (3.0 * Errors(n) + 2.0 * ULP2))
  {
    ScaledError(p, rate, v, e);
  }

  lemma StepNearIdeal(f: Fees, v: real, e: Event, err: real)
    requires f.baseRate <= DECIMAL_PRECISION && Within(Value(f.baseRate), v, err)
    ensures Within(Value(After(f, e).baseRate), IdealNext(f, v, e), err + (3.0 * Errors(Counted(f, e)) + 2.0 * ULP2))
  {
    if Apply(f, e).Some? {
      var n := Counted(f, e);
      PowerUnit(Rate(), n);
      DecayedFollows(f, e.at);
      RaiseNear(e);
      RateAfter(f, e);
      NearNext(Value(f.baseRate), v, Value(Decayed(f, e.at)), Value(Raise(e)), Power(Rate(), n), HalfShare(e), err, n);
    }
  }

  lemma RateAfter(f: Fees, e: Event)
    requires f.baseRate <= DECIMAL_PRECISION && Apply(f, e).Some?
    ensures Value(After(f, e).baseRate) == AtMostOne(Value(Decayed(f, e.at)) + Value(Raise(e)))
  {
    DecayedFollows(f, e.at);
    CappedValue(Decayed(f, e.at) + Raise(e), Decayed(f, e.at), Raise(e));
  }

  lemma CappedValue(x: nat, y: nat, z: nat)
    requires x == y + z
    ensures Value(Min(x, DECIMAL_PRECISION)) == AtMostOne(Value(y) + Value(z))
  {
  }

  /**
   * Over every run the rate stays with the one that has no roundings, above and below: within a
   * unit and a half per minute applied and one unit per event.
   */
  lemma {:induction false} RunNearIdeal(f: Fees, v: real, events: seq<Event>, err: real)
    requires f.baseRate <= DECIMAL_PRECISION && Within(Value(f.baseRate), v, err)
    ensures Within(Value(Run(f, events).baseRate), IdealRun(f, v, events),
                   err + (3.0 * Errors(TotalCounted(f, events)) + 2.0 * ULP2 * |events| as real))
    decreases |events|
  {
    if events != [] {
      var e, next := events[0], After(f, events[0]);
      StepNearIdeal(f, v, e, err);
      StepFollows(f, e);
      RunNearIdeal(next, IdealNext(f, v, e), events[1..], err + (3.0 * Errors(Counted(f, e)) + 2.0 * ULP2));
      ErrorsAdd(Counted(f, e), TotalCounted(next, events[1..]));
    }
  }

  // ---------------------------------------------------------------------------
  // Fees
  // ---------------------------------------------------------------------------

  /** `_calcBorrowingRate`. */
  function BorrowingRate(baseRate: nat): (r: nat)
    ensures FEE_FLOOR <= r <= MAX_BORROWING_FEE
    ensures r < MAX_BORROWING_FEE ==> r == FEE_FLOOR + baseRate
  {
    Min(FEE_FLOOR + baseRate, MAX_BORROWING_FEE)
  }

  /** `_calcRedemptionRate`. */
  function RedemptionRate(baseRate: nat): (r: nat)
    ensures FEE_FLOOR <= r <= DECIMAL_PRECISION
    ensures r < DECIMAL_PRECISION ==> r == FEE_FLOOR + baseRate
    ensures r == DECIMAL_PRECISION ==> baseRate >= DECIMAL_PRECISION - FEE_FLOOR
  {
    Min(FEE_FLOOR + baseRate, DECIMAL_PRECISION)
  }

  /** `_calcRedemptionFee`. */
  function RedemptionFee(rate: nat, drawn: nat): Option<nat> {
    var fee := rate * drawn / DECIMAL_PRECISION;
    if fee < drawn then Some(fee) else None
  }

  /** A redemption's fee is refused exactly when the rate has reached its cap. */
  lemma FeeRefusedIff(baseRate: nat, drawn: nat)
    requires drawn > 0
    ensures RedemptionFee(RedemptionRate(baseRate), drawn).None? <==> baseRate >= DECIMAL_PRECISION - FEE_FLOOR
  {
    AllTakenIff(RedemptionRate(baseRate), drawn);
  }

  /** Below that cap the fee is the floor and the base rate on the collateral, rounded down. */
  lemma FeeExact(baseRate: nat, drawn: nat)
    requires drawn > 0 && baseRate < DECIMAL_PRECISION - FEE_FLOOR
    ensures
      var fee := RedemptionFee(RedemptionRate(baseRate), drawn);
      && fee.Some? && fee.value < drawn
      && fee.value * DECIMAL_PRECISION <= (FEE_FLOOR + baseRate) * drawn
           < fee.value * DECIMAL_PRECISION + DECIMAL_PRECISION
  {
    FeeRefusedIff(baseRate, drawn);
  }

  lemma AllTakenIff(rate: nat, drawn: nat)
    requires drawn > 0 && rate <= DECIMAL_PRECISION
    ensures rate * drawn / DECIMAL_PRECISION >= drawn <==> rate == DECIMAL_PRECISION
  {
    if rate < DECIMAL_PRECISION {
      MulMonotone(rate + 1, DECIMAL_PRECISION, drawn);
      QuotientBelow(rate * drawn, DECIMAL_PRECISION, drawn);
    } else {
      UniqueQuotient(rate * drawn, DECIMAL_PRECISION, drawn, 0);
    }
  }

  // ---------------------------------------------------------------------------
  // The contract's variables
  // ---------------------------------------------------------------------------

  /** `baseRate` and `lastFeeOperationTime` of the TroveManager. */
  class FeeState {
    var baseRate: nat
    var lastFeeOperationTime: nat

    function Model(): Fees
      reads this
    {
      Fees(baseRate, lastFeeOperationTime)
    }

    constructor (now: nat)
      ensures Model() == Fees(0, now)
    {
      baseRate, lastFeeOperationTime := 0, now;
    }

    method CalcDecayedBaseRate(now: nat) returns (rate: nat)
      requires lastFeeOperationTime <= now
      ensures rate == Decayed(Model(), now)
    {
      var factor := DecPowLoop(MINUTE_DECAY_FACTOR, (now - lastFeeOperationTime) / SECONDS_IN_ONE_MINUTE);
      rate := baseRate * factor / DECIMAL_PRECISION;
    }

    method UpdateLastFeeOpTime(now: nat)
      requires lastFeeOperationTime <= now
      modifies this
      ensures Model() == Fees(old(baseRate), LastOpAfter(old(Model()), now))
    {
      if now - lastFeeOperationTime >= SECONDS_IN_ONE_MINUTE {
        lastFeeOperationTime := now;
      }
    }

    /** Keeps the rate within 100%, whose violation the source asserts away. */
    method DecayBaseRateFromBorrowing(now: nat) returns (ok: bool)
      requires baseRate <= DECIMAL_PRECISION
      modifies this
      ensures ok == Apply(old(Model()), Issuance(now)).Some?
      ensures Model() == After(old(Model()), Issuance(now))
      ensures baseRate <= old(baseRate)
    {
      if now < lastFeeOperationTime {
        return false;
      }
      DecayedFollows(Model(), now);
      baseRate := CalcDecayedBaseRate(now);
      UpdateLastFeeOpTime(now);
      return true;
    }

    method UpdateBaseRateFromRedemption(now: nat, drawn: nat, price: nat, supply: nat) returns (ok: bool)
      requires baseRate <= DECIMAL_PRECISION
      modifies this
      ensures ok == Apply(old(Model()), Redemption(now, drawn, price, supply)).Some?
      ensures Model() == After(old(Model()), Redemption(now, drawn, price, supply))
      ensures baseRate <= DECIMAL_PRECISION && (ok ==> baseRate > 0)
    {
      if now < lastFeeOperationTime || supply == 0 {
        return false;
      }
      var decayed := CalcDecayedBaseRate(now);
      var fraction := drawn * price / supply;
      var newRate := Min(decayed + fraction / BETA, DECIMAL_PRECISION);
      if newRate == 0 {
        return false;
      }
      baseRate := newRate;
      UpdateLastFeeOpTime(now);
      return true;
    }
  }
}
