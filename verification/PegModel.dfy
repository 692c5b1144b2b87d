/**
 * The second peg model: redemptions, base fee, market price and trove issuance, step by step.
 * The momentum of the collateral price is an input.
 */
module PegModel {
  import opened Base
  import opened Arith

  const D: real := 0.5
  const T: real := 1.0
  const F: real := 0.3
  const MAX_REDEMPTION_FRACTION: real := 1.0
  const DEMAND: real := 100.0
  const CEILING: real := 1.1

  /** The latest values of the time series. */
  datatype State = State(baseFee: real, price: real, issuance: real, supply: real, redeemed: real)

  const START: State := State(0.0, 1.0, 100.0, 100.0, 0.0)

  function AtLeastZero(x: real): real {
    if x < 0.0 then 0.0 else x
  }

  /** Between zero and the most that can be redeemed. */
  function Capped(redeemed: real, most: real): real {
    if most == 0.0 || redeemed < 0.0 then 0.0 else if redeemed < most then redeemed else most
  }

  /** `get_new_redeemed_amount`. */
  function NewRedeemed(s: State): real {
    Capped(BelowPeg(s), s.supply * MAX_REDEMPTION_FRACTION)
  }

  /** What brings price and fee up to one. */
  function BelowPeg(s: State): real {
    (1.0 - s.price - s.baseFee) * s.supply
  }

  /** `get_new_base_fee`. */
  function NewBaseFee(s: State, redeemed: real): real {
    if s.supply == 0.0 then 0.0 else (s.baseFee + redeemed / (2.0 * s.supply)) * D
  }

  /** `get_new_token_price`, before it is floored. */
  function RawPrice(s: State, redeemed: real, momentum: real): real
    requires s.issuance != 0.0
  {
    ((DEMAND - redeemed) / s.issuance - F * momentum) / T
  }

  /** `get_new_trove_issuance`. */
  function NewIssuance(s: State, price: real, momentum: real): real {
    AtLeastZero(s.issuance * (T * price + F * momentum))
  }

  /** `get_excess_issuance`. */
  function Excess(price: real, supply: real): real {
    if price > CEILING then supply * (price - CEILING) / CEILING else 0.0
  }

  /** One round of the loop; an issuance of zero divides by zero. */
  function Step(s: State, momentum: real): Option<State> {
    if s.issuance == 0.0 then None else
      var redeemed := NewRedeemed(s);
      var fee := NewBaseFee(s, redeemed);
      var price := AtLeastZero(RawPrice(s, redeemed, momentum));
      var issued := NewIssuance(s, price, momentum);
      var total := issued + Excess(price, AtLeastZero(issued - redeemed));
      Some(State(fee, if price > CEILING then CEILING else price, total, AtLeastZero(total), redeemed))
  }

  // ---------------------------------------------------------------------------
  // What every round keeps
  // ---------------------------------------------------------------------------

  ghost predicate Bounded(s: State) {
    && 0.0 <= s.baseFee <= 1.0 / 3.0 && 0.0 <= s.price <= CEILING
    && s.issuance >= 0.0 && s.supply >= 0.0 && s.redeemed >= 0.0
  }

  /** At most the share of the supply that price and fee leave below one. */
  lemma RedeemedBounds(s: State)
    requires Bounded(s)
    ensures 0.0 <= NewRedeemed(s) <= s.supply
    ensures NewRedeemed(s) <= AtLeastZero((1.0 - s.baseFee) * s.supply)
  {
    RawBound(s.price, s.baseFee, s.supply);
    CappedBounds(BelowPeg(s), s.supply * MAX_REDEMPTION_FRACTION, (1.0 - s.baseFee) * s.supply);
  }

  lemma RawBound(price: real, fee: real, supply: real)
    requires price >= 0.0 && supply >= 0.0
    ensures (1.0 - price - fee) * supply <= (1.0 - fee) * supply
  {
    assert price * supply >= 0.0;
    assert (1.0 - price - fee) * supply == (1.0 - fee) * supply - price * supply;
  }

  lemma CappedBounds(redeemed: real, most: real, bound: real)
    requires most >= 0.0 && redeemed <= bound
    ensures 0.0 <= Capped(redeemed, most) <= most && Capped(redeemed, most) <= AtLeastZero(bound)
  {
  }

  lemma FeeBounds(s: State)
    requires Bounded(s)
    ensures 0.0 <= NewBaseFee(s, NewRedeemed(s)) <= 1.0 / 3.0
  {
    RedeemedBounds(s);
    if s.supply > 0.0 {
      HalfShare(NewRedeemed(s), s.supply, 1.0 - s.baseFee);
    }
  }

  lemma HalfShare(redeemed: real, supply: real, share: real)
    requires supply > 0.0 && 0.0 <= redeemed <= share * supply && share >= 0.0
    ensures 0.0 <= redeemed / (2.0 * supply) <= share / 2.0
  {
    var x, two, half := redeemed / (2.0 * supply), 2.0 * supply, share / 2.0;
    assert x * two == redeemed;
    assert half * two == share * supply;
    if x > half {
      StrictlyScaled(half, x, two);
    } else if x < 0.0 {
      StrictlyScaled(x, 0.0, two);
    }
  }

  lemma ExcessNonNegative(price: real, supply: real)
    requires supply >= 0.0
    ensures Excess(price, supply) >= 0.0
  {
    if price > CEILING {
      assert supply * (price - CEILING) >= 0.0;
    }
  }

  lemma StepBounded(s: State, momentum: real)
    requires Bounded(s) && Step(s, momentum).Some?
    ensures Bounded(Step(s, momentum).value)
    ensures Step(s, momentum).value.redeemed <= s.supply
  {
    RedeemedBounds(s);
    FeeBounds(s);
    var redeemed := NewRedeemed(s);
    var price := AtLeastZero(RawPrice(s, redeemed, momentum));
    ExcessNonNegative(price, AtLeastZero(NewIssuance(s, price, momentum) - redeemed));
  }

  /** The market clears: unless the price is floored, issuance is the demand less the redemptions. */
  lemma MarketClears(s: State, redeemed: real, momentum: real)
    requires s.issuance > 0.0 && RawPrice(s, redeemed, momentum) >= 0.0
    ensures NewIssuance(s, RawPrice(s, redeemed, momentum), momentum) == AtLeastZero(DEMAND - redeemed)
  {
    var x := (DEMAND - redeemed) / s.issuance;
    assert s.issuance * x == DEMAND - redeemed;
    assert T * RawPrice(s, redeemed, momentum) + F * momentum == x;
  }

  /** Redeeming goes on until price, fee and the share of the supply redeemed add up to one. */
  lemma RedeemedToPeg(s: State)
    requires Bounded(s) && s.supply > 0.0
    ensures
      s.price + s.baseFee + NewRedeemed(s) / s.supply
      == if s.price + s.baseFee < 1.0 then 1.0 else s.price + s.baseFee
  {
    RedeemedBounds(s);
    var share := 1.0 - s.price - s.baseFee;
    assert share * s.supply / s.supply == share;
    SignOfProduct(share, s.supply);
    SignOfProduct(1.0 - share, s.supply);
    assert (1.0 - share) * s.supply == s.supply - share * s.supply;
  }

  lemma SignOfProduct(x: real, y: real)
    requires y > 0.0
    ensures x >= 0.0 <==> x * y >= 0.0
    ensures x == 0.0 <==> x * y == 0.0
  {
    if x < 0.0 {
      StrictlyScaled(x, 0.0, y);
    } else if x > 0.0 {
      StrictlyScaled(0.0, x, y);
    }
  }

  /** The next fee is a quarter of what price and fee leave below one, on top of half the fee. */
  lemma FeeFollowsPeg(s: State)
    requires Bounded(s) && s.supply > 0.0
    ensures
      NewBaseFee(s, NewRedeemed(s))
      == s.baseFee / 2.0 + if s.price + s.baseFee < 1.0 then (1.0 - s.price - s.baseFee) / 4.0 else 0.0
  {
    RedeemedToPeg(s);
    var x := NewRedeemed(s);
    HalfOf(x, s.supply);
  }

  lemma HalfOf(x: real, y: real)
    requires y > 0.0
    ensures x / (2.0 * y) == x / y / 2.0
  {
    var q := x / y;
    assert q * y == x;
    assert q / 2.0 * (2.0 * y) == x;
  }

  /** Above the ceiling, what is issued in excess makes up for the fall of the price to the ceiling. */
  lemma ExcessMeetsCeiling(price: real, supply: real)
    requires supply >= 0.0
    ensures (supply + Excess(price, supply)) * CEILING == supply * if price > CEILING then price else CEILING
  {
    if price > CEILING {
      assert Excess(price, supply) * CEILING == supply * (price - CEILING);
    }
  }

  /** One round: the market clears, and above the ceiling the excess is issued and the price held. */
  lemma StepClears(s: State, momentum: real)
    requires Bounded(s) && s.issuance > 0.0 && RawPrice(s, NewRedeemed(s), momentum) >= 0.0
    ensures
      var s', price := Step(s, momentum).value, RawPrice(s, NewRedeemed(s), momentum);
      var issued := AtLeastZero(DEMAND - s'.redeemed);
      var market := AtLeastZero(issued - s'.redeemed);
      && s'.redeemed == NewRedeemed(s) && s'.baseFee == NewBaseFee(s, s'.redeemed) && s'.supply == s'.issuance
      && (price <= CEILING ==> s'.price == price && s'.issuance == issued)
      && (price > CEILING ==> s'.price == CEILING && (market + s'.issuance - issued) * CEILING == market * price)
  {
    var redeemed := NewRedeemed(s);
    var price := RawPrice(s, redeemed, momentum);
    MarketClears(s, redeemed, momentum);
    var market := AtLeastZero(AtLeastZero(DEMAND - redeemed) - redeemed);
    ExcessMeetsCeiling(price, market);
    ExcessNonNegative(price, market);
  }

  /** The states up to the first division by zero. */
  ghost predicate IsRun(series: seq<State>, momenta: seq<real>) {
    && 0 < |series| <= |momenta| + 1 && series[0] == START
    && forall i :: 0 < i < |series| ==> Step(series[i - 1], momenta[i - 1]) == Some(series[i])
  }

  /** The simulation: every state of the series is within bounds, for any momenta. */
  method Simulate(momenta: seq<real>) returns (series: seq<State>)
    ensures IsRun(series, momenta)
    ensures |series| < |momenta| + 1 ==> series[|series| - 1].issuance == 0.0
    ensures forall i :: 0 <= i < |series| ==> Bounded(series[i])
    ensures forall i :: 0 < i < |series| ==> series[i].redeemed <= series[i - 1].supply
  {
    series := [START];
    while |series| <= |momenta|
      invariant IsRun(series, momenta)
      invariant forall i :: 0 <= i < |series| ==> Bounded(series[i])
      invariant forall i :: 0 < i < |series| ==> series[i].redeemed <= series[i - 1].supply
      decreases |momenta| + 1 - |series|
    {
      var last := series[|series| - 1];
      var next := Step(last, momenta[|series| - 1]);
      if next.None? {
        return;
      }
      StepBounded(last, momenta[|series| - 1]);
      series := series + [next.value];
    }
  }
}
