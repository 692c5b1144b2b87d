/**
 * One round of the macroeconomic model: a new price, liquidations, closures, adjustments and
 * openings, and then the price stabilizer. All random draws are inputs.
 */
module MacroModel {
  import opened Base
  import opened Arith
  import opened RedemptionSimulator

  const RATE_ISSUANCE: real := 0.01

  /** What every row keeps between rounds: positive amounts, and a target of at least 110%. */
  ghost predicate Kept(r: Row) {
    r.ether > 0.0 && r.supply > 0.0 && r.initial >= 1.1 && r.inattention > 0.0
  }

  ghost predicate AllKept(rows: seq<Row>) {
    forall i :: 0 <= i < |rows| ==> Kept(rows[i])
  }

  /** The recorded ratio is the one at the price. */
  ghost predicate Current(r: Row, price: real) {
    r.cr * r.supply == price * r.ether
  }

  ghost predicate AllCurrent(rows: seq<Row>, price: real) {
    forall i :: 0 <= i < |rows| ==> Current(rows[i], price)
  }

  /** Rows as the price stabilizer may assume them. */
  ghost predicate Ready(rows: seq<Row>, price: real) {
    AllKept(rows) && Collateralised(rows, price)
  }

  // ---------------------------------------------------------------------------
  // Liquidations and closures
  // ---------------------------------------------------------------------------

  /** The current ratio is recorded. */
  function Marked(r: Row, price: real): Row
    requires r.supply != 0.0
  {
    r.(cr := Ratio(r, price))
  }

  /** `liquidate_troves`: rows below 110% go. */
  method LiquidateTroves(rows: seq<Row>, price: real) returns (left: seq<Row>)
    requires AllKept(rows) && price > 0.0
    ensures Ready(left, price) && AllCurrent(left, price)
    ensures left == Above(rows, price)
  {
    left := [];
    for i := 0 to |rows|
      invariant left == Above(rows[..i], price) && Ready(left, price) && AllCurrent(left, price)
    {
      assert rows[..i + 1][..i] == rows[..i] && Kept(rows[i]);
      var r := Marked(rows[i], price);
      if r.cr >= 1.1 {
        MarkedSolid(rows[i], price);
        left := left + [r];
      }
    }
    assert rows[..|rows|] == rows;
  }

  /** The marked rows at 110% or more. */
  ghost function Above(rows: seq<Row>, price: real): seq<Row> {
    if rows == [] then [] else
      var r := rows[|rows| - 1];
      Above(rows[..|rows| - 1], price) +
        if r.supply != 0.0 && Marked(r, price).cr >= 1.1 then [Marked(r, price)] else []
  }

  lemma MarkedSolid(r: Row, price: real)
    requires Kept(r) && Marked(r, price).cr >= 1.1
    ensures Solid(Marked(r, price), price) && Current(Marked(r, price), price)
  {
    var q := Ratio(r, price);
    assert q * r.supply == price * r.ether;
    if q > 1.1 {
      StrictlyScaled(1.1, q, r.supply);
    }
  }

  /** `close_troves`: a sample of the rows goes. */
  function Without(rows: seq<Row>, drops: set<nat>): (left: seq<Row>)
    ensures forall r :: r in left ==> r in rows
  {
    if rows == [] then [] else
      var last := |rows| - 1;
      Without(rows[..last], drops) + if last in drops then [] else [rows[last]]
  }

  /** The positions not in the sample, in order. */
  ghost function Staying(n: nat, drops: set<nat>): (ks: seq<nat>)
    ensures forall k: nat :: k in ks <==> k < n && k !in drops
    ensures forall j :: 0 <= j < |ks| ==> ks[j] < n
    ensures forall i, j :: 0 <= i < j < |ks| ==> ks[i] < ks[j]
  {
    if n == 0 then [] else
      var before := Staying(n - 1, drops);
      if n - 1 in drops then before else
        var ks := before + [n - 1];
        assert forall k: nat :: k in ks <==> k in before || k == n - 1;
        ks
  }

  /** The rows at all other positions stay, in their order. */
  lemma {:induction false} WithoutIs(rows: seq<Row>, drops: set<nat>)
    ensures PickedBy(Without(rows, drops), rows, Staying(|rows|, drops))
  {
    if rows != [] {
      var last := |rows| - 1;
      WithoutIs(rows[..last], drops);
      OneMore(Without(rows[..last], drops), rows, Staying(last, drops));
    }
  }

  /** The rows at the given positions. */
  ghost predicate PickedBy(left: seq<Row>, rows: seq<Row>, ks: seq<nat>) {
    |left| == |ks| && forall j :: 0 <= j < |ks| ==> ks[j] < |rows| && left[j] == rows[ks[j]]
  }

  lemma OneMore(left: seq<Row>, rows: seq<Row>, ks: seq<nat>)
    requires rows != [] && PickedBy(left, rows[..|rows| - 1], ks)
    ensures PickedBy(left, rows, ks) && PickedBy(left + [rows[|rows| - 1]], rows, ks + [|rows| - 1])
  {
  }

  lemma WithoutReady(rows: seq<Row>, drops: set<nat>, price: real)
    requires Ready(rows, price) && AllCurrent(rows, price)
    ensures Ready(Without(rows, drops), price) && AllCurrent(Without(rows, drops), price)
  {
    var left := Without(rows, drops);
    forall i | 0 <= i < |left| ensures Kept(left[i]) && Solid(left[i], price) && Current(left[i], price) {
      assert left[i] in rows;
    }
  }

  // ---------------------------------------------------------------------------
  // Adjustments
  // ---------------------------------------------------------------------------

  /** How far the recorded ratio is from the target, in units of the owner's inattention. */
  function Deviation(r: Row): real
    requires r.initial * r.inattention != 0.0
  {
    (r.cr - r.initial) / (r.initial * r.inattention)
  }

  /** An owner who notices goes back to the target, by debt or by collateral. */
  function Adjusted(r: Row, price: real, byDebt: bool): Row
    requires r.initial * r.inattention != 0.0 && r.initial != 0.0 && price != 0.0
  {
    if -1.0 <= Deviation(r) <= 2.0 then r
    else if byDebt then r.(supply := price * r.ether / r.initial)
    else r.(ether := r.initial * r.supply / price)
  }

  lemma ProductPositive(x: real, y: real)
    requires x > 0.0 && y > 0.0
    ensures x * y > 0.0
  {
  }

  lemma QuotientPositive(x: real, y: real)
    requires x > 0.0 && y > 0.0
    ensures x / y > 0.0 && x / y * y == x
  {
  }

  /** Wherever the adjustment comes from, the row is at its target or where it was. */
  lemma AdjustedReady(r: Row, price: real, byDebt: bool)
    requires Kept(r) && Solid(r, price) && price > 0.0
    ensures r.initial * r.inattention > 0.0
    ensures Kept(Adjusted(r, price, byDebt)) && Solid(Adjusted(r, price, byDebt), price)
  {
    ProductPositive(r.initial, r.inattention);
    if byDebt {
      var value := price * r.ether;
      ProductPositive(price, r.ether);
      QuotientPositive(value, r.initial);
      AtTarget(value, r.initial, value / r.initial);
    } else {
      var value := r.initial * r.supply;
      ProductPositive(r.initial, r.supply);
      QuotientPositive(value, price);
      AtTarget(value, r.initial, r.supply);
    }
  }

  /**
   * The owner acts outside one unit below and two units above the target, and then meets it
   * exactly, changing the debt or the collateral but not both.
   */
  lemma AdjustedExact(r: Row, price: real, byDebt: bool)
    requires Kept(r) && price > 0.0
    ensures r.initial * r.inattention > 0.0
    ensures
      var r', unit := Adjusted(r, price, byDebt), r.initial * r.inattention;
      && r' == r.(ether := r'.ether, supply := r'.supply)
      && (-unit <= r.cr - r.initial <= 2.0 * unit ==> r' == r)
      && (r.cr - r.initial < -unit || 2.0 * unit < r.cr - r.initial ==>
            && price * r'.ether == r.initial * r'.supply
            && if byDebt then r'.ether == r.ether else r'.supply == r.supply)
  {
    ProductPositive(r.initial, r.inattention);
    var unit := r.initial * r.inattention;
    assert Deviation(r) * unit == r.cr - r.initial;
    QuotientWithin(Deviation(r), r.cr - r.initial, unit);
    Divided(price * r.ether, r.initial);
    Divided(r.initial * r.supply, price);
  }

  lemma Divided(x: real, y: real)
    requires y != 0.0
    ensures y * (x / y) == x
  {
  }

  lemma QuotientWithin(q: real, x: real, y: real)
    requires y > 0.0 && q * y == x
    ensures -1.0 <= q <= 2.0 <==> -y <= x <= 2.0 * y
  {
    if q < -1.0 {
      StrictlyScaled(q, -1.0, y);
    } else if q > 2.0 {
      StrictlyScaled(2.0, q, y);
    } else {
      assert (q + 1.0) * y >= 0.0 && (2.0 - q) * y >= 0.0;
    }
  }

  lemma AtTarget(value: real, initial: real, supply: real)
    requires value == supply * initial && initial >= 1.1 && supply > 0.0
    ensures value >= 1.1 * supply
  {
    if initial > 1.1 {
      StrictlyScaled(1.1, initial, supply);
    }
  }

  /** The debt that rows add, where they add any. */
  ghost function DebtAdded(rows: seq<Row>, after: seq<Row>, n: nat): real
    requires n <= |rows| && n <= |after|
  {
    if n == 0 then 0.0 else DebtAdded(rows, after, n - 1) + Grown(rows[n - 1], after[n - 1])
  }

  ghost function Grown(r: Row, r': Row): real {
    if r'.supply > r.supply then r'.supply - r.supply else 0.0
  }

  lemma {:induction false} SameDebtAdded(rows: seq<Row>, after: seq<Row>, after': seq<Row>, n: nat)
    requires n <= |rows| && n <= |after| && n <= |after'| && forall i :: 0 <= i < n ==> after'[i] == after[i]
    ensures DebtAdded(rows, after', n) == DebtAdded(rows, after, n)
  {
    if n > 0 {
      SameDebtAdded(rows, after, after', n - 1);
    }
  }

  /** A row above its target by more than twice the inattention takes on debt, and no other row does. */
  lemma WhoBorrows(r: Row, price: real, byDebt: bool)
    requires Kept(r) && price > 0.0 && Current(r, price)
    ensures r.initial * r.inattention > 0.0
    ensures Grown(r, Adjusted(r, price, byDebt)) ==
              if byDebt && Deviation(r) > 2.0 then Adjusted(r, price, byDebt).supply - r.supply else 0.0
  {
    ProductPositive(r.initial, r.inattention);
    var unit := r.initial * r.inattention;
    assert Deviation(r) * unit == r.cr - r.initial;
    var r' := Adjusted(r, price, byDebt);
    if byDebt {
      var value := price * r.ether;
      assert r' == if -1.0 <= Deviation(r) <= 2.0 then r else r.(supply := value / r.initial);
      SideOfTarget(Deviation(r), r.cr, r.initial, unit, r.supply, value);
    } else {
      assert r'.supply == r.supply;
    }
  }

  /** On which side of the target the recorded ratio is, the debt of the target is. */
  lemma SideOfTarget(q: real, cr: real, initial: real, unit: real, supply: real, value: real)
    requires unit > 0.0 && initial > 0.0 && supply > 0.0 && cr * supply == value && q * unit == cr - initial
    ensures q > 0.0 ==> value / initial > supply
    ensures q < 0.0 ==> value / initial < supply
  {
    if q > 0.0 {
      ProductPositive(q, unit);
      StrictlyScaled(initial, cr, supply);
      QuotientAgainst(value, initial, supply);
    } else if q < 0.0 {
      ProductPositive(-q, unit);
      StrictlyScaled(cr, initial, supply);
      QuotientAgainst(value, initial, supply);
    }
  }

  lemma QuotientAgainst(x: real, y: real, z: real)
    requires y > 0.0
    ensures x > z * y ==> x / y > z
    ensures x < z * y ==> x / y < z
  {
    var q := x / y;
    assert q * y == x;
    if q < z {
      StrictlyScaled(q, z, y);
    } else if q > z {
      StrictlyScaled(z, q, y);
    }
  }

  /** `adjust_troves`, row by row; `byDebt` are the draws. Issuance is charged on the debt added. */
  method AdjustTroves(rows: seq<Row>, price: real, byDebt: seq<bool>) returns (after: seq<Row>, issued: real)
    requires Ready(rows, price) && AllCurrent(rows, price) && price > 0.0 && |byDebt| == |rows|
    ensures |after| == |rows| && Ready(after, price)
    ensures issued == RATE_ISSUANCE * DebtAdded(rows, after, |rows|)
    ensures forall i :: 0 <= i < |rows| ==>
              rows[i].initial * rows[i].inattention != 0.0 && rows[i].initial != 0.0
              && after[i] == Adjusted(rows[i], price, byDebt[i])
  {
    after, issued := rows, 0.0;
    for i := 0 to |rows|
      invariant |after| == |rows| && Ready(after, price)
      invariant issued == RATE_ISSUANCE * DebtAdded(rows, after, i)
      invariant forall j :: i <= j < |rows| ==> after[j] == rows[j]
      invariant forall j :: 0 <= j < i ==>
                  rows[j].initial * rows[j].inattention != 0.0 && rows[j].initial != 0.0
                  && after[j] == Adjusted(rows[j], price, byDebt[j])
    {
      var r := after[i];
      assert Kept(r) && Solid(r, price);
      AdjustedReady(r, price, byDebt[i]);
      var r' := Adjusted(r, price, byDebt[i]);
      if byDebt[i] && Deviation(r) > 2.0 {
        issued := issued + RATE_ISSUANCE * (r'.supply - r.supply);
      }
      WhoBorrows(r, price, byDebt[i]);
      SameDebtAdded(rows, after, after[i := r'], i);
      after := after[i := r'];
    }
  }

  // ---------------------------------------------------------------------------
  // Openings
  // ---------------------------------------------------------------------------

  /** The draws of a new row; the ratio is 1.1 plus a non-negative draw. */
  datatype Entrant = Entrant(ether: real, excess: real, inattention: real)

  ghost predicate Drawn(e: Entrant) {
    e.ether > 0.0 && e.excess >= 0.0 && e.inattention > 0.0
  }

  function NewRow(e: Entrant, price: real): Row
    requires 1.1 + e.excess != 0.0
  {
    var cr := 1.1 + e.excess;
    Row(e.ether, price * e.ether / cr, cr, e.inattention, cr)
  }

  lemma NewRowReady(e: Entrant, price: real)
    requires Drawn(e) && price > 0.0
    ensures Kept(NewRow(e, price)) && Solid(NewRow(e, price), price)
  {
    var value, cr := price * e.ether, 1.1 + e.excess;
    ProductPositive(price, e.ether);
    QuotientPositive(value, cr);
    AtTarget(value, cr, value / cr);
  }

  /** The collateral drawn, and debt at a ratio above 110% by the excess drawn, which is also the target. */
  lemma NewRowExact(e: Entrant, price: real)
    requires Drawn(e) && price > 0.0
    ensures
      var r := NewRow(e, price);
      && r.ether == e.ether && r.inattention == e.inattention && r.initial == r.cr == 1.1 + e.excess
      && Current(r, price)
  {
    var value, cr := price * e.ether, 1.1 + e.excess;
    assert value / cr * cr == value;
  }

  ghost function NewDebt(rows: seq<Row>, from: nat): real
    requires from <= |rows|
    decreases |rows|
  {
    if |rows| == from then 0.0 else NewDebt(rows[..|rows| - 1], from) + rows[|rows| - 1].supply
  }

  /** `open_troves`; issuance is charged on all of the new debt. */
  method OpenTroves(rows: seq<Row>, price: real, entrants: seq<Entrant>) returns (after: seq<Row>, issued: real)
    requires Ready(rows, price) && price > 0.0 && forall i :: 0 <= i < |entrants| ==> Drawn(entrants[i])
    ensures Ready(after, price)
    ensures |after| == |rows| + |entrants| && after[..|rows|] == rows
    ensures issued == RATE_ISSUANCE * NewDebt(after, |rows|)
    ensures forall i :: 0 <= i < |entrants| ==>
              1.1 + entrants[i].excess != 0.0 && after[|rows| + i] == NewRow(entrants[i], price)
  {
    after, issued := rows, 0.0;
    for i := 0 to |entrants|
      invariant Ready(after, price) && |after| == |rows| + i && after[..|rows|] == rows
      invariant issued == RATE_ISSUANCE * NewDebt(after, |rows|)
      invariant forall j :: 0 <= j < i ==>
                  1.1 + entrants[j].excess != 0.0 && after[|rows| + j] == NewRow(entrants[j], price)
    {
      assert Drawn(entrants[i]);
      NewRowReady(entrants[i], price);
      var r := NewRow(entrants[i], price);
      issued := issued + RATE_ISSUANCE * r.supply;
      assert (after + [r])[..|after|] == after;
      after := after + [r];
    }
  }

  // ---------------------------------------------------------------------------
  // The round
  // ---------------------------------------------------------------------------

  /** What the stabilizer does: a new trove at the ceiling, redemptions at the floor, or nothing. */
  datatype Action = Ceiling(extra: real) | Floor(pool: real) | Idle

  datatype Draws = Draws(price: real, drops: set<nat>, byDebt: nat -> bool, entrants: seq<Entrant>, action: Action)

  ghost predicate Possible(d: Draws) {
    && d.price > 0.0 && (forall i :: 0 <= i < |d.entrants| ==> Drawn(d.entrants[i]))
    && (d.action.Ceiling? ==> d.action.extra > 0.0) && (d.action.Floor? ==> d.action.pool > 0.0)
  }

  /** The ceiling arbitrageurs' trove, at exactly 110%. */
  function CeilingRow(extra: real, price: real): Row
    requires price != 0.0
  {
    Row(extra * 1.1 / price, extra, 1.1, 0.1, 1.1)
  }

  lemma CeilingReady(extra: real, price: real)
    requires extra > 0.0 && price > 0.0
    ensures Kept(CeilingRow(extra, price)) && Solid(CeilingRow(extra, price), price)
    ensures AtCeiling(CeilingRow(extra, price), extra, price)
  {
    QuotientPositive(extra * 1.1, price);
  }

  ghost predicate AtCeiling(r: Row, extra: real, price: real) {
    r.supply == extra && price * r.ether == 1.1 * extra && r.cr == r.initial == 1.1 && r.inattention == 0.1
  }

  lemma OutcomeKept(table: seq<Row>, pool: real, price: real, after: seq<Row>, n: nat, residual: real)
    requires Ready(table, price) && Outcome(table, pool, price, after, n, residual)
    ensures Ready(after, price)
  {
    var r := after[0];
    assert Solid(r, price) && Kept(table[n]);
    if r.ether <= 0.0 {
      NotPositive(price, r.ether);
    }
    forall i | 0 <= i < |after| ensures Kept(after[i]) {
      if i > 0 {
        assert after[i] == table[n + i];
      }
    }
  }

  lemma NotPositive(x: real, y: real)
    requires x > 0.0 && y <= 0.0
    ensures x * y <= 0.0
  {
  }

  /**
   * One round from any table of positive rows whose targets are at least 110%. What enters the
   * stabilizer is at 110% or more, and what the round leaves is such a table again. The round
   * fails only if the redemption reaches the whole supply.
   */
  method Round(rows: seq<Row>, d: Draws) returns (entering: seq<Row>, after: Option<seq<Row>>)
    requires AllKept(rows) && Possible(d)
    ensures Ready(entering, d.price)
    ensures |entering| == |Without(Above(rows, d.price), d.drops)| + |d.entrants|
    ensures after.None? <==> d.action.Floor? && Supply(entering) <= d.action.pool
    ensures after.Some? ==> Ready(after.value, d.price)
    ensures after.Some? && d.action.Floor? ==> Supply(after.value) == Supply(entering) - d.action.pool
    ensures after.Some? && d.action.Floor? ==>
              exists table, n, residual :: multiset(table) == multiset(entering) && Ascending(table)
                && Outcome(table, d.action.pool, d.price, after.value, n, residual)
    ensures d.action.Ceiling? ==>
              after.Some? && |after.value| == |entering| + 1 && after.value[..|entering|] == entering
              && AtCeiling(after.value[|entering|], d.action.extra, d.price)
    ensures d.action.Idle? ==> after == Some(entering)
  {
    var left := LiquidateTroves(rows, d.price);
    WithoutReady(left, d.drops, d.price);
    var open := Without(left, d.drops);
    var adjusted, issued := AdjustTroves(open, d.price, seq(|open|, (i: nat) => d.byDebt(i)));
    var more;
    entering, more := OpenTroves(adjusted, d.price, d.entrants);
    match d.action
    case Ceiling(extra) =>
      CeilingReady(extra, d.price);
      after := Some(entering + [CeilingRow(extra, d.price)]);
    case Floor(pool) =>
      ghost var table;
      var n, residual;
      after, table, n, residual := RedemptRiskiest(entering, pool, d.price);
      if after.Some? {
        InTable(entering, table);
        assert forall i :: 0 <= i < |table| ==> table[i] in entering;
        OutcomeKept(table, pool, d.price, after.value, n, residual);
      }
    case Idle =>
      after := Some(entering);
  }

  /** The simulation: every table that enters the stabilizer, in every round, is at 110% or more. */
  method Simulate(initial: seq<Entrant>, price: real, draws: seq<Draws>) returns (entered: seq<seq<Row>>)
    requires price > 0.0 && (forall i :: 0 <= i < |initial| ==> Drawn(initial[i]))
    requires forall i :: 0 <= i < |draws| ==> Possible(draws[i])
    ensures |entered| <= |draws| && forall i :: 0 <= i < |entered| ==> Ready(entered[i], draws[i].price)
  {
    var rows, issued := OpenTroves([], price, initial);
    entered := [];
    for i := 0 to |draws|
      invariant |entered| == i && AllKept(rows)
      invariant forall j :: 0 <= j < i ==> Ready(entered[j], draws[j].price)
    {
      var entering, after := Round(rows, draws[i]);
      entered := entered + [entering];
      if after.None? {
        return;
      }
      rows := after.value;
    }
  }
}
