/** The redemption step of the macroeconomic model: the riskiest troves are shut down first. */
module RedemptionSimulator {
  import opened Base

  /** A row of the trove table; `cr` is the recorded ratio that the table is sorted by, `initial` the owner's target. */
  datatype Row = Row(ether: real, supply: real, initial: real, inattention: real, cr: real)

  ghost function Supply(rows: seq<Row>): real {
    if rows == [] then 0.0 else rows[0].supply + Supply(rows[1..])
  }

  ghost function Ether(rows: seq<Row>): real {
    if rows == [] then 0.0 else rows[0].ether + Ether(rows[1..])
  }

  /** At least 110% each. `MacroModel` shows that this is what the earlier steps of a round leave behind. */
  ghost predicate Collateralised(rows: seq<Row>, price: real) {
    forall i :: 0 <= i < |rows| ==> Solid(rows[i], price)
  }

  ghost predicate Solid(r: Row, price: real) {
    r.supply > 0.0 && price * r.ether >= 1.1 * r.supply
  }

  function Ratio(r: Row, price: real): real
    requires r.supply != 0.0
  {
    price * r.ether / r.supply
  }

  lemma {:induction false} SupplySplit(rows: seq<Row>, k: nat)
    requires k <= |rows|
    ensures Supply(rows) == Supply(rows[..k]) + Supply(rows[k..])
    ensures Ether(rows) == Ether(rows[..k]) + Ether(rows[k..])
    decreases k
  {
    if k > 0 {
      SupplySplit(rows[1..], k - 1);
      assert rows[1..][..k - 1] == rows[..k][1..];
      assert rows[1..][k - 1..] == rows[k..];
    } else {
      assert rows[..0] == [] && rows[0..] == rows;
    }
  }

  lemma SupplyOneMore(rows: seq<Row>, k: nat)
    requires k < |rows|
    ensures Supply(rows[..k + 1]) == Supply(rows[..k]) + rows[k].supply
  {
    SupplySplit(rows[..k + 1], k);
    assert rows[..k + 1][..k] == rows[..k];
    assert rows[..k + 1][k..] == [rows[k]];
    assert Supply([rows[k]]) == rows[k].supply + Supply([]);
  }

  lemma {:induction false} SupplyNonNegative(rows: seq<Row>, price: real)
    requires Collateralised(rows, price)
    ensures Supply(rows) >= 0.0
  {
    if rows != [] {
      SupplyNonNegative(rows[1..], price);
    }
  }

  /** The partially redeemed row. */
  function Partial(r: Row, residual: real, price: real): Row
    requires price > 0.0 && residual < r.supply
  {
    var ether, supply := r.ether - residual / price, r.supply - residual;
    r.(ether := ether, supply := supply, cr := price * ether / supply)
  }

  /** A residual taken at face value leaves a better ratio, and a strictly better one if there is any. */
  lemma PartialRaisesRatio(r: Row, residual: real, price: real)
    requires price > 0.0 && 0.0 <= residual < r.supply && Solid(r, price)
    ensures
      var r' := Partial(r, residual, price);
      && Solid(r', price) && r'.cr == Ratio(r', price)
      && Ratio(r, price) <= r'.cr && (residual > 0.0 ==> Ratio(r, price) < r'.cr)
  {
    var value := price * r.ether;
    assert price * (residual / price) == residual;
    assert price * (r.ether - residual / price) == value - residual;
    Better(value, r.supply, residual);
  }

  lemma Better(value: real, supply: real, residual: real)
    requires 0.0 <= residual < supply && value >= 1.1 * supply
    ensures value / supply <= (value - residual) / (supply - residual)
    ensures residual > 0.0 ==> value / supply < (value - residual) / (supply - residual)
  {
    var x, y := value / supply, (value - residual) / (supply - residual);
    assert x * supply == value && y * (supply - residual) == value - residual;
    assert x >= 1.1 by {
      if x < 1.1 {
        assert x * supply < 1.1 * supply;
      }
    }
    Excess(x, y, supply - residual, residual);
  }

  lemma Excess(x: real, y: real, rest: real, residual: real)
    requires rest > 0.0 && residual >= 0.0 && x >= 1.1
    requires y * rest == x * (rest + residual) - residual
    ensures x <= y && (residual > 0.0 ==> x < y)
  {
    assert (y - x) * rest == (x - 1.0) * residual;
    if residual > 0.0 {
      assert (x - 1.0) * residual > 0.0;
    }
  }

  /** The table after `n` rows are dropped and the next one is redeemed partially. */
  function Redeemed(rows: seq<Row>, n: nat, residual: real, price: real): seq<Row>
    requires n < |rows| && price > 0.0 && residual < rows[n].supply
  {
    [Partial(rows[n], residual, price)] + rows[n + 1..]
  }

  // ---------------------------------------------------------------------------
  // The order of the table
  // ---------------------------------------------------------------------------

  ghost predicate Ascending(rows: seq<Row>) {
    forall i, j :: 0 <= i < j < |rows| ==> rows[i].cr <= rows[j].cr
  }

  function Placed(r: Row, rows: seq<Row>): (t: seq<Row>)
    ensures multiset(t) == multiset([r] + rows)
  {
    if rows == [] || r.cr <= rows[0].cr then [r] + rows
    else
      assert [r] + rows == [r] + [rows[0]] + rows[1..];
      [rows[0]] + Placed(r, rows[1..])
  }

  /** `sort_values(by='CR_current')`. */
  function SortedByRatio(rows: seq<Row>): (t: seq<Row>)
    ensures multiset(t) == multiset(rows)
  {
    if rows == [] then [] else
      assert rows == [rows[0]] + rows[1..];
      Placed(rows[0], SortedByRatio(rows[1..]))
  }

  lemma InTable(rows: seq<Row>, t: seq<Row>)
    requires multiset(rows) == multiset(t)
    ensures |rows| == |t| && forall r :: r in rows <==> r in t
  {
    assert |multiset(rows)| == |rows| && |multiset(t)| == |t|;
    forall r ensures r in rows <==> r in t {
      assert r in rows <==> r in multiset(rows);
      assert r in t <==> r in multiset(t);
    }
  }

  ghost predicate AllAtLeast(rows: seq<Row>, low: real) {
    forall i :: 0 <= i < |rows| ==> low <= rows[i].cr
  }

  lemma {:induction false} PlacedAtLeast(r: Row, rows: seq<Row>, low: real)
    requires AllAtLeast(rows, low) && low <= r.cr
    ensures AllAtLeast(Placed(r, rows), low)
  {
    if rows != [] && r.cr > rows[0].cr {
      PlacedAtLeast(r, rows[1..], low);
    }
  }

  lemma {:induction false} PlacedAscending(r: Row, rows: seq<Row>)
    requires Ascending(rows)
    ensures Ascending(Placed(r, rows))
  {
    if rows != [] && r.cr > rows[0].cr {
      PlacedAscending(r, rows[1..]);
      PlacedAtLeast(r, rows[1..], rows[0].cr);
    }
  }

  lemma {:induction false} PlacedSupply(r: Row, rows: seq<Row>)
    ensures Supply(Placed(r, rows)) == r.supply + Supply(rows)
  {
    if rows == [] || r.cr <= rows[0].cr {
      assert ([r] + rows)[1..] == rows;
    } else {
      PlacedSupply(r, rows[1..]);
      assert ([rows[0]] + Placed(r, rows[1..]))[1..] == Placed(r, rows[1..]);
    }
  }

  lemma {:induction false} SortedAscending(rows: seq<Row>)
    ensures Ascending(SortedByRatio(rows)) && Supply(SortedByRatio(rows)) == Supply(rows)
  {
    if rows != [] {
      SortedAscending(rows[1..]);
      PlacedAscending(rows[0], SortedByRatio(rows[1..]));
      PlacedSupply(rows[0], SortedByRatio(rows[1..]));
    }
  }

  lemma SortedCollateralised(rows: seq<Row>, price: real)
    requires Collateralised(rows, price)
    ensures Collateralised(SortedByRatio(rows), price)
  {
    var t := SortedByRatio(rows);
    InTable(rows, t);
    forall i | 0 <= i < |t| ensures Solid(t[i], price) {
      assert t[i] in rows;
    }
  }

  // ---------------------------------------------------------------------------
  // The loop
  // ---------------------------------------------------------------------------

  /** A prefix is dropped, the supply falls by exactly the amount, and the next row is no worse. */
  ghost predicate Outcome(rows: seq<Row>, pool: real, price: real, after: seq<Row>, n: nat, residual: real) {
    && n < |rows| && price > 0.0 && 0.0 <= residual < rows[n].supply
    && residual == pool - Supply(rows[..n])
    && after == Redeemed(rows, n, residual, price)
    && Supply(after) == Supply(rows) - pool
    && Ether(after) == Ether(rows) - Ether(rows[..n]) - residual / price
    && Collateralised(after, price)
    && Ratio(rows[n], price) <= after[0].cr && (residual > 0.0 ==> Ratio(rows[n], price) < after[0].cr)
  }

  /**
   * The loop of the floor arbitrageurs. It runs off the end of the table exactly when the amount
   * reaches the whole supply.
   */
  method Redempt(rows: seq<Row>, pool: real, price: real) returns (after: Option<seq<Row>>, n: nat, residual: real)
    requires price > 0.0 && pool > 0.0 && Collateralised(rows, price)
    ensures after.None? <==> Supply(rows) <= pool
    ensures after.Some? ==> Outcome(rows, pool, price, after.value, n, residual)
  {
    n, residual := 0, 0.0;
    if rows == [] {
      return None, 0, 0.0;
    }
    SupplyOneMore(rows, 0);
    var working, redempted := rows[0].supply, rows[0].supply;
    while redempted <= pool
      invariant n < |rows| && working == rows[n].supply
      invariant redempted == Supply(rows[..n]) + working
      invariant Supply(rows[..n]) <= pool
      decreases |rows| - n
    {
      SupplyOneMore(rows, n);
      n := n + 1;
      if n == |rows| {
        assert rows[..n] == rows;
        return None, n, 0.0;
      }
      working := rows[n].supply;
      redempted := redempted + working;
    }
    redempted := redempted - working;
    residual := pool - redempted;
    after := Some(Redeemed(rows, n, residual, price));
    OutcomeHolds(rows, pool, price, n, residual);
  }

  lemma OutcomeHolds(rows: seq<Row>, pool: real, price: real, n: nat, residual: real)
    requires n < |rows| && price > 0.0 && Collateralised(rows, price)
    requires residual == pool - Supply(rows[..n]) && 0.0 <= residual < rows[n].supply
    ensures Outcome(rows, pool, price, Redeemed(rows, n, residual, price), n, residual)
    ensures Supply(rows) > pool
  {
    var r := Partial(rows[n], residual, price);
    assert Solid(rows[n], price);
    TotalsAfter(rows, n, r, price);
    PartialRaisesRatio(rows[n], residual, price);
    StillCollateralised(rows, n, r, price);
  }

  lemma TotalsOf(r: Row, rest: seq<Row>)
    ensures Supply([r] + rest) == r.supply + Supply(rest) && Ether([r] + rest) == r.ether + Ether(rest)
  {
    assert ([r] + rest)[1..] == rest;
  }

  lemma TotalsAfter(rows: seq<Row>, n: nat, r: Row, price: real)
    requires n < |rows| && Collateralised(rows, price)
    ensures
      var after := [r] + rows[n + 1..];
      && Supply(after) == Supply(rows) - Supply(rows[..n]) - rows[n].supply + r.supply
      && Ether(after) == Ether(rows) - Ether(rows[..n]) - rows[n].ether + r.ether
      && Supply(rows) - Supply(rows[..n]) >= rows[n].supply
  {
    SupplySplit(rows, n);
    var rest := rows[n + 1..];
    assert rows[n..] == [rows[n]] + rest;
    TotalsOf(rows[n], rest);
    TotalsOf(r, rest);
    SupplyNonNegative(rest, price);
  }

  lemma StillCollateralised(rows: seq<Row>, n: nat, r: Row, price: real)
    requires n < |rows| && Collateralised(rows, price) && Solid(r, price)
    ensures Collateralised([r] + rows[n + 1..], price)
  {
  }

  /**
   * The step of the floor arbitrageurs: the table is sorted, and every row dropped has a recorded
   * ratio no higher than any row kept, the partially redeemed one as it was included.
   */
  method RedemptRiskiest(rows: seq<Row>, pool: real, price: real)
    returns (after: Option<seq<Row>>, ghost table: seq<Row>, n: nat, residual: real)
    requires price > 0.0 && pool > 0.0 && Collateralised(rows, price)
    ensures multiset(table) == multiset(rows) && Ascending(table) && Supply(table) == Supply(rows)
    ensures after.None? <==> Supply(rows) <= pool
    ensures after.Some? ==> Outcome(table, pool, price, after.value, n, residual)
    ensures after.Some? ==> forall i, j :: 0 <= i < n <= j < |table| ==> table[i].cr <= table[j].cr
  {
    var sorted := SortedByRatio(rows);
    table := sorted;
    SortedAscending(rows);
    SortedCollateralised(rows, price);
    after, n, residual := Redempt(sorted, pool, price);
  }
}
