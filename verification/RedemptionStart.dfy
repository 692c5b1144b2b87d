/**
 * Where a redemption starts. The list is walked up from its end to the first trove at or above
 * the minimum ratio, unless the caller's hint passes a local test of its two neighbours.
 */
module RedemptionStart {
  import opened Base
  import opened Liquidation

  predicate Redeemable(ids: seq<Address>, icr: Ratios, k: nat)
    requires k < |ids|
  {
    icr(ids[k]) >= MCR
  }

  /** How many troves are left, counted from the head, after skipping those below the minimum. */
  function Scan(ids: seq<Address>, icr: Ratios): (n: nat)
    ensures n <= |ids|
    ensures forall k :: n <= k < |ids| ==> !Redeemable(ids, icr, k)
    ensures n > 0 ==> Redeemable(ids, icr, n - 1)
  {
    if ids == [] then 0
    else if icr(ids[|ids| - 1]) >= MCR then |ids|
    else
      var n := Scan(ids[..|ids| - 1], icr);
      assert forall k :: 0 <= k < |ids| - 1 ==> (Redeemable(ids, icr, k) <==> Redeemable(ids[..|ids| - 1], icr, k));
      n
  }

  /** The scan so far has skipped everything from position `n` on. */
  ghost predicate Skipped(ids: seq<Address>, icr: Ratios, n: nat) {
    n <= |ids| && forall k :: n <= k < |ids| ==> !Redeemable(ids, icr, k)
  }

  lemma SkipNone(ids: seq<Address>, icr: Ratios)
    ensures Skipped(ids, icr, |ids|)
  {
  }

  lemma SkipOne(ids: seq<Address>, icr: Ratios, n: nat)
    requires 0 < n && Skipped(ids, icr, n) && icr(ids[n - 1]) < MCR
    ensures Skipped(ids, icr, n - 1)
  {
  }

  lemma SkipEnds(ids: seq<Address>, icr: Ratios, n: nat)
    requires Skipped(ids, icr, n) && (n > 0 ==> icr(ids[n - 1]) >= MCR)
    ensures n == Scan(ids, icr)
  {
    var m := Scan(ids, icr);
    assert n > 0 ==> Redeemable(ids, icr, n - 1);
    assert m > 0 ==> Redeemable(ids, icr, m - 1);
  }

  /** `_isValidFirstRedemptionHint`, for the trove at position `k`. */
  predicate ValidHint(ids: seq<Address>, icr: Ratios, k: nat)
    requires k < |ids|
  {
    Redeemable(ids, icr, k) && (k + 1 < |ids| ==> !Redeemable(ids, icr, k + 1))
  }

  /** The troves to visit, lowest first, when the walk starts at position `n - 1`. */
  function VisitOrder(ids: seq<Address>, n: nat): (r: seq<Address>)
    requires n <= |ids|
    ensures |r| == n && forall i :: 0 <= i < n ==> r[i] == ids[n - 1 - i]
  {
    if n == 0 then [] else [ids[n - 1]] + VisitOrder(ids, n - 1)
  }

  /** No trove below the minimum stands between two at or above it. */
  ghost predicate Contiguous(ids: seq<Address>, icr: Ratios) {
    forall i, k, j :: 0 <= i < k < j < |ids| ==>
      Redeemable(ids, icr, i) && Redeemable(ids, icr, j) ==> Redeemable(ids, icr, k)
  }

  ghost predicate HintsAgree(ids: seq<Address>, icr: Ratios) {
    forall k :: 0 <= k < |ids| && ValidHint(ids, icr, k) ==> k + 1 == Scan(ids, icr)
  }

  /** From a redeemable trove down to one that is not, some trove passes the hint test. */
  lemma {:induction false} EdgeBetween(ids: seq<Address>, icr: Ratios, i: nat, k: nat) returns (e: nat)
    requires i < k < |ids| && Redeemable(ids, icr, i) && !Redeemable(ids, icr, k)
    ensures i <= e < k && ValidHint(ids, icr, e)
    decreases k - i
  {
    if Redeemable(ids, icr, i + 1) {
      e := EdgeBetween(ids, icr, i + 1, k);
    } else {
      e := i;
    }
  }

  /** Every accepted hint names the trove that the scan would find, exactly on a contiguous list. */
  lemma HintsAgreeIff(ids: seq<Address>, icr: Ratios)
    ensures HintsAgree(ids, icr) <==> Contiguous(ids, icr)
  {
    var n := Scan(ids, icr);
    if HintsAgree(ids, icr) {
      forall i, k, j | 0 <= i < k < j < |ids| && Redeemable(ids, icr, i) && Redeemable(ids, icr, j)
        ensures Redeemable(ids, icr, k)
      {
        if !Redeemable(ids, icr, k) {
          var e := EdgeBetween(ids, icr, i, k);
        }
      }
    }
    if Contiguous(ids, icr) {
      forall k | 0 <= k < |ids| && ValidHint(ids, icr, k) ensures k + 1 == n {
      }
    }
  }

  /** A list in descending order of current ratio. */
  ghost predicate Descending(ids: seq<Address>, icr: Ratios) {
    forall i, j :: 0 <= i < j < |ids| ==> icr(ids[i]) >= icr(ids[j])
  }

  /**
   * On a descending list every hint is immaterial, and the redemption visits exactly the
   * redeemable troves, in ascending order of ratio.
   */
  lemma VisitsAscending(ids: seq<Address>, icr: Ratios)
    requires Descending(ids, icr)
    ensures HintsAgree(ids, icr)
    ensures
      var order := VisitOrder(ids, Scan(ids, icr));
      && (forall i, j :: 0 <= i < j < |order| ==> icr(order[i]) <= icr(order[j]))
      && (forall a :: a in order <==> a in ids && icr(a) >= MCR)
  {
    HintsAgreeIff(ids, icr);
    var n := Scan(ids, icr);
    var order := VisitOrder(ids, n);
    forall a ensures a in order <==> a in ids && icr(a) >= MCR {
      if a in order {
        VisitedRedeemable(ids, icr, a);
      }
      if a in ids && icr(a) >= MCR {
        RedeemableVisited(ids, icr, a);
      }
    }
  }

  lemma VisitedRedeemable(ids: seq<Address>, icr: Ratios, a: Address)
    requires Descending(ids, icr) && a in VisitOrder(ids, Scan(ids, icr))
    ensures a in ids && icr(a) >= MCR
  {
    var n := Scan(ids, icr);
    var i :| 0 <= i < n && VisitOrder(ids, n)[i] == a;
    assert ids[n - 1 - i] == a && Redeemable(ids, icr, n - 1);
  }

  lemma RedeemableVisited(ids: seq<Address>, icr: Ratios, a: Address)
    requires a in ids && icr(a) >= MCR
    ensures a in VisitOrder(ids, Scan(ids, icr))
  {
    var k :| 0 <= k < |ids| && ids[k] == a;
    assert Redeemable(ids, icr, k);
    var n := Scan(ids, icr);
    assert VisitOrder(ids, n)[n - 1 - k] == a;
  }
}
