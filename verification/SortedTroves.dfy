/**
 * The sorted doubly linked list of troves, largest nominal collateral ratio (NICR) first.
 * Ratios are not stored on the nodes: every call takes the current ratio of each trove as a
 * function. Nothing is assumed about the order of the list unless a clause says so.
 */
module SortedTroves {
  import opened Base

  datatype Node = Node(next: Address, prev: Address)

  // ---------------------------------------------------------------------------
  // Positions in a plain sequence
  // ---------------------------------------------------------------------------

  /** The element before position `k`, or zero. */
  function Before(ids: seq<Address>, k: nat): Address
    requires k <= |ids|
  {
    if k == 0 then ZERO_ADDRESS else ids[k - 1]
  }

  /** The element at position `k`, or zero. */
  function At(ids: seq<Address>, k: nat): Address
    requires k <= |ids|
  {
    if k == |ids| then ZERO_ADDRESS else ids[k]
  }

  /** A node of ratio `x` fits between the neighbours of position `k`. */
  predicate Fits(ids: seq<Address>, nicr: Ratios, x: nat, k: nat) {
    && k <= |ids|
    && (0 < k ==> nicr(ids[k - 1]) >= x)
    && (k < |ids| ==> x >= nicr(ids[k]))
  }

  /** A pair of neighbours between which `x` fits. */
  ghost predicate FittingPair(ids: seq<Address>, nicr: Ratios, x: nat, upper: Address, lower: Address) {
    exists k: nat :: Fits(ids, nicr, x, k) && upper == Before(ids, k) && lower == At(ids, k)
  }

  /** Where insertion may put a node under two hints: at the pair they name, or else anywhere it fits. */
  ghost predicate HintedPosition(ids: seq<Address>, nicr: Ratios, x: nat, upper: Address, lower: Address, k: nat) {
    Fits(ids, nicr, x, k)
      && (FittingPair(ids, nicr, x, upper, lower) ==> upper == Before(ids, k) && lower == At(ids, k))
  }

  predicate Sorted(ids: seq<Address>, nicr: Ratios) {
    forall i, j :: 0 <= i < j < |ids| ==> nicr(ids[i]) >= nicr(ids[j])
  }

  function InsertAt(ids: seq<Address>, k: nat, id: Address): seq<Address>
    requires k <= |ids|
  {
    ids[..k] + [id] + ids[k..]
  }

  /** The node at position `i` points to its neighbours. */
  predicate Linked(nodes: map<Address, Node>, ids: seq<Address>, i: nat)
    requires i < |ids|
  {
    ids[i] in nodes && nodes[ids[i]] == Node(At(ids, i + 1), Before(ids, i))
  }

  /** A list with its links in order. */
  ghost predicate WellLinked(nodes: map<Address, Node>, ids: seq<Address>) {
    && Distinct(ids)
    && ZERO_ADDRESS !in ids
    && (forall a :: a in nodes <==> a in ids)
    && (forall i :: 0 <= i < |ids| ==> Linked(nodes, ids, i))
  }

  function SetNext(nodes: map<Address, Node>, id: Address, next: Address): map<Address, Node> {
    if id in nodes then nodes[id := nodes[id].(next := next)] else nodes
  }

  function SetPrev(nodes: map<Address, Node>, id: Address, prev: Address): map<Address, Node> {
    if id in nodes then nodes[id := nodes[id].(prev := prev)] else nodes
  }

  /** The links after inserting `id` at position `k`. */
  function Spliced(nodes: map<Address, Node>, ids: seq<Address>, k: nat, id: Address): map<Address, Node>
    requires k <= |ids|
  {
    SetPrev(SetNext(nodes[id := Node(At(ids, k), Before(ids, k))], Before(ids, k), id), At(ids, k), id)
  }

  lemma SplicedWellLinked(nodes: map<Address, Node>, ids: seq<Address>, k: nat, id: Address)
    requires WellLinked(nodes, ids) && k <= |ids| && id !in ids && id != ZERO_ADDRESS
    ensures WellLinked(Spliced(nodes, ids, k, id), InsertAt(ids, k, id))
  {
    var nodes', ids' := Spliced(nodes, ids, k, id), InsertAt(ids, k, id);
    forall i | 0 <= i < |ids'| ensures Linked(nodes', ids', i) {
      if i < k {
        assert Linked(nodes, ids, i);
      } else if i > k {
        assert Linked(nodes, ids, i - 1);
      }
    }
    forall a ensures a in nodes' <==> a in ids' {
      assert a in ids' <==> a in ids[..k] || a == id || a in ids[k..];
      assert a in ids <==> a in ids[..k] || a in ids[k..];
    }
  }

  function RemoveAt(ids: seq<Address>, k: nat): seq<Address>
    requires k < |ids|
  {
    ids[..k] + ids[k + 1..]
  }

  lemma InsertedMembers(ids: seq<Address>, k: nat, id: Address)
    requires k <= |ids|
    ensures forall a :: a in InsertAt(ids, k, id) <==> a in ids || a == id
  {
    assert forall a :: a in ids <==> a in ids[..k] || a in ids[k..];
  }

  lemma InsertedDistinct(ids: seq<Address>, k: nat, id: Address)
    requires k <= |ids| && Distinct(ids) && id !in ids
    ensures Distinct(InsertAt(ids, k, id))
  {
    var longer := InsertAt(ids, k, id);
    forall i, j | 0 <= i < j < |longer| ensures longer[i] != longer[j] {
      assert i < k ==> longer[i] == ids[i];
      assert i > k ==> longer[i] == ids[i - 1];
      assert j < k ==> longer[j] == ids[j];
      assert j > k ==> longer[j] == ids[j - 1];
    }
  }

  lemma RemovedMembers(ids: seq<Address>, k: nat)
    requires k < |ids| && Distinct(ids)
    ensures forall a :: a in RemoveAt(ids, k) <==> a in ids && a != ids[k]
  {
    assert forall a :: a in ids <==> a in ids[..k] || a == ids[k] || a in ids[k + 1..];
  }

  /** The links after removing the node at position `k`. */
  function Unspliced(nodes: map<Address, Node>, ids: seq<Address>, k: nat): map<Address, Node>
    requires k < |ids|
  {
    SetPrev(SetNext(nodes, Before(ids, k), At(ids, k + 1)), At(ids, k + 1), Before(ids, k)) - {ids[k]}
  }

  lemma UnsplicedWellLinked(nodes: map<Address, Node>, ids: seq<Address>, k: nat)
    requires WellLinked(nodes, ids) && k < |ids|
    ensures WellLinked(Unspliced(nodes, ids, k), RemoveAt(ids, k))
  {
    var nodes', ids' := Unspliced(nodes, ids, k), RemoveAt(ids, k);
    forall i | 0 <= i < |ids'| ensures Linked(nodes', ids', i) {
      if i < k {
        assert Linked(nodes, ids, i);
      } else {
        assert Linked(nodes, ids, i + 1);
      }
    }
    forall a ensures a in nodes' <==> a in ids' {
      assert a in ids' <==> a in ids[..k] || a in ids[k + 1..];
      assert a in ids <==> a in ids[..k] || a == ids[k] || a in ids[k + 1..];
    }
  }

  class SortedTroves {
    var head: Address
    var tail: Address
    const maxSize: nat
    var size: nat
    var nodes: map<Address, Node>

    /** The identifiers from head to tail. */
    ghost var ids: seq<Address>

    /** The links, the ends and the size all describe `ids`. */
    ghost predicate Valid()
      reads this
    {
      && WellLinked(nodes, ids)
      && size == |ids| <= maxSize
      && head == At(ids, 0)
      && tail == Before(ids, |ids|)
    }

    constructor (maxSize: nat)
      ensures Valid() && ids == [] && this.maxSize == maxSize
    {
      this.maxSize := maxSize;
      head, tail, size, nodes, ids := ZERO_ADDRESS, ZERO_ADDRESS, 0, map[], [];
    }

    /** A link of a node that does not exist reads as zero. */
    function Next(id: Address): Address
      reads this
    {
      if id in nodes then nodes[id].next else ZERO_ADDRESS
    }

    function Prev(id: Address): Address
      reads this
    {
      if id in nodes then nodes[id].prev else ZERO_ADDRESS
    }

    /** `_validInsertPosition`. */
    predicate ValidInsertPosition(nicr: Ratios, x: nat, prev: Address, next: Address)
      reads this
    {
      if prev == ZERO_ADDRESS && next == ZERO_ADDRESS then size == 0
      else if prev == ZERO_ADDRESS then head == next && x >= nicr(next)
      else if next == ZERO_ADDRESS then tail == prev && x <= nicr(prev)
      else Next(prev) == next && nicr(prev) >= x && x >= nicr(next)
    }

    ghost function IndexOf(id: Address): (i: nat)
      requires id in ids
      reads this
      ensures i < |ids| && ids[i] == id
    {
      var i :| 0 <= i < |ids| && ids[i] == id;
      i
    }

    lemma LinksOf(id: Address)
      requires Valid() && id in ids
      ensures Next(id) == At(ids, IndexOf(id) + 1) && Prev(id) == Before(ids, IndexOf(id))
      ensures id == head <==> IndexOf(id) == 0
      ensures id == tail <==> IndexOf(id) + 1 == |ids|
    {
      assert Linked(nodes, ids, IndexOf(id));
    }

    /** The pair test of the contract means: these are the neighbours of a fitting position. */
    lemma ValidPositionMeans(nicr: Ratios, x: nat, prev: Address, next: Address)
      requires Valid()
      ensures ValidInsertPosition(nicr, x, prev, next) <==> FittingPair(ids, nicr, x, prev, next)
    {
      if ValidInsertPosition(nicr, x, prev, next) {
        if prev == ZERO_ADDRESS {
          assert Fits(ids, nicr, x, 0);
        } else if next == ZERO_ADDRESS {
          assert Fits(ids, nicr, x, |ids|);
        } else {
          LinksOf(prev);
          assert Fits(ids, nicr, x, IndexOf(prev) + 1);
        }
      }
      if k: nat :| Fits(ids, nicr, x, k) && prev == Before(ids, k) && next == At(ids, k) {
        assert 0 < k ==> Linked(nodes, ids, k - 1) && ids[k - 1] in ids;
        assert k < |ids| ==> ids[k] in ids;
      }
    }

    /** A node of ratio at least `x` that is not followed by a fitting position. */
    lemma NotYetBelow(nicr: Ratios, x: nat, k: nat)
      requires Valid() && 0 < k <= |ids| && nicr(ids[k - 1]) >= x
      requires !ValidInsertPosition(nicr, x, ids[k - 1], At(ids, k))
      ensures k < |ids| && nicr(ids[k]) > x
      ensures Next(ids[k - 1]) == ids[k] && Next(ids[k]) == At(ids, k + 1)
    {
      assert Linked(nodes, ids, k - 1) && ids[k - 1] in ids;
      assert k < |ids| ==> Linked(nodes, ids, k) && ids[k] in ids;
    }

    /** A node of ratio at most `x` that is not preceded by a fitting position. */
    lemma NotYetAbove(nicr: Ratios, x: nat, k: nat)
      requires Valid() && k < |ids| && nicr(ids[k]) <= x
      requires !ValidInsertPosition(nicr, x, Before(ids, k), ids[k])
      ensures 0 < k && nicr(ids[k - 1]) < x
      ensures Prev(ids[k]) == ids[k - 1] && Prev(ids[k - 1]) == Before(ids, k - 1)
    {
      assert Linked(nodes, ids, k) && ids[k] in ids;
      assert 0 < k ==> Linked(nodes, ids, k - 1) && ids[k - 1] in ids;
    }

    /**
     * `_descendList`: from a node whose ratio is at least `x`, or from the head. The walk never
     * runs off the end: between a ratio of at least `x` and one below it there is a crossing.
     */
    method DescendList(nicr: Ratios, x: nat, start: Address) returns (prev: Address, next: Address, ghost k: nat)
      requires Valid()
      requires start == head || (start in ids && nicr(start) >= x)
      ensures ValidInsertPosition(nicr, x, prev, next)
      ensures Fits(ids, nicr, x, k) && prev == Before(ids, k) && next == At(ids, k)
    {
      if head == start && x >= nicr(start) {
        FittingIsValid(nicr, x, 0);
        return ZERO_ADDRESS, start, 0;
      }
      prev, next := start, Next(start);
      k := 0;
      if ids != [] {
        LinksOf(start);
        k := IndexOf(start) + 1;
      }
      while prev != ZERO_ADDRESS && !ValidInsertPosition(nicr, x, prev, next)
        invariant k <= |ids| && prev == Before(ids, k) && next == At(ids, k)
        invariant 0 < k ==> nicr(prev) >= x
        invariant k == 0 ==> ids == []
        decreases |ids| - k
      {
        NotYetBelow(nicr, x, k);
        prev := Next(prev);
        next := Next(prev);
        k := k + 1;
      }
      if prev != ZERO_ADDRESS {
        FitsHere(nicr, x, k);
      }
      FittingIsValid(nicr, x, k);
    }

    lemma FittingIsValid(nicr: Ratios, x: nat, k: nat)
      requires Valid() && Fits(ids, nicr, x, k)
      ensures ValidInsertPosition(nicr, x, Before(ids, k), At(ids, k))
    {
      ValidPositionMeans(nicr, x, Before(ids, k), At(ids, k));
    }

    lemma FitsHere(nicr: Ratios, x: nat, k: nat)
      requires Valid() && k <= |ids| && ids != []
      requires ValidInsertPosition(nicr, x, Before(ids, k), At(ids, k))
      ensures Fits(ids, nicr, x, k)
    {
      assert 0 < k ==> ids[k - 1] in ids;
      assert k < |ids| ==> ids[k] in ids;
    }

    /** `_ascendList`: from a node whose ratio is at most `x`. */
    method AscendList(nicr: Ratios, x: nat, start: Address) returns (prev: Address, next: Address, ghost k: nat)
      requires Valid() && start in ids && nicr(start) <= x
      ensures ValidInsertPosition(nicr, x, prev, next)
      ensures Fits(ids, nicr, x, k) && prev == Before(ids, k) && next == At(ids, k)
    {
      LinksOf(start);
      if tail == start && x <= nicr(start) {
        FittingIsValid(nicr, x, |ids|);
        return start, ZERO_ADDRESS, |ids|;
      }
      next, prev := start, Prev(start);
      k := IndexOf(start);
      while next != ZERO_ADDRESS && !ValidInsertPosition(nicr, x, prev, next)
        invariant k < |ids| && prev == Before(ids, k) && next == At(ids, k)
        invariant nicr(next) <= x
        decreases k
      {
        NotYetAbove(nicr, x, k);
        next := Prev(next);
        prev := Prev(next);
        k := k - 1;
      }
      FitsHere(nicr, x, k);
      FittingIsValid(nicr, x, k);
    }

    /**
     * `_findInsertPosition`: whatever the two hints are, the search ends at the neighbours of a
     * fitting position, even if the list has lost its order.
     */
    method FindInsertPosition(nicr: Ratios, x: nat, upperHint: Address, lowerHint: Address)
      returns (prev: Address, next: Address, ghost k: nat)
      requires Valid()
      ensures ValidInsertPosition(nicr, x, prev, next)
      ensures Fits(ids, nicr, x, k) && prev == Before(ids, k) && next == At(ids, k)
    {
      prev, next := upperHint, lowerHint;
      if prev != ZERO_ADDRESS && (prev !in nodes || x > nicr(prev)) {
        prev := ZERO_ADDRESS;
      }
      if next != ZERO_ADDRESS && (next !in nodes || x < nicr(next)) {
        next := ZERO_ADDRESS;
      }
      if prev == ZERO_ADDRESS && next == ZERO_ADDRESS {
        prev, next, k := DescendList(nicr, x, head);
      } else if prev == ZERO_ADDRESS {
        prev, next, k := AscendList(nicr, x, next);
      } else {
        prev, next, k := DescendList(nicr, x, prev);
      }
    }

    /** What `_insert` requires of its arguments; anything else reverts. */
    predicate Insertable(id: Address, x: nat)
      reads this
    {
      size != maxSize && id !in nodes && id != ZERO_ADDRESS && x > 0
    }

    /** The link updates of `_insert`, at the neighbours of position `k`. */
    method Link(id: Address, prev: Address, next: Address, ghost k: nat)
      requires Valid() && size < maxSize && id !in nodes && id != ZERO_ADDRESS
      requires k <= |ids| && prev == Before(ids, k) && next == At(ids, k)
      modifies this
      ensures Valid() && ids == InsertAt(old(ids), k, id)
    {
      assert prev != ZERO_ADDRESS ==> prev in ids;
      assert next != ZERO_ADDRESS ==> next in ids;
      SplicedWellLinked(nodes, ids, k, id);
      ghost var links := nodes[id := Node(next, prev)];
      nodes := nodes[id := Node(ZERO_ADDRESS, ZERO_ADDRESS)];
      if prev == ZERO_ADDRESS && next == ZERO_ADDRESS {
        assert nodes == links;
        head, tail := id, id;
      } else if prev == ZERO_ADDRESS {
        nodes := nodes[id := nodes[id].(next := head)];
        assert nodes == links;
        nodes := nodes[head := nodes[head].(prev := id)];
        head := id;
      } else if next == ZERO_ADDRESS {
        nodes := nodes[id := nodes[id].(prev := tail)];
        assert nodes == links;
        nodes := nodes[tail := nodes[tail].(next := id)];
        tail := id;
      } else {
        nodes := nodes[id := nodes[id].(next := next)];
        nodes := nodes[id := nodes[id].(prev := prev)];
        assert nodes == links;
        nodes := nodes[prev := nodes[prev].(next := id)];
        nodes := nodes[next := nodes[next].(prev := id)];
      }
      size := size + 1;
      ids := InsertAt(ids, k, id);
    }

    /**
     * `_insert`: the new node ends up at a fitting position, between the hints if they were the
     * neighbours of one.
     */
    method Insert(nicr: Ratios, id: Address, x: nat, upperHint: Address, lowerHint: Address)
      returns (ok: bool, ghost k: nat)
      requires Valid()
      modifies this
      ensures Valid()
      ensures ok == old(Insertable(id, x))
      ensures !ok ==> ids == old(ids)
      ensures ok ==> HintedPosition(old(ids), nicr, x, upperHint, lowerHint, k) && ids == InsertAt(old(ids), k, id)
    {
      ValidPositionMeans(nicr, x, upperHint, lowerHint);
      if !Insertable(id, x) {
        return false, 0;
      }
      var prev, next := upperHint, lowerHint;
      if ValidInsertPosition(nicr, x, prev, next) {
        ghost var i: nat :| Fits(ids, nicr, x, i) && prev == Before(ids, i) && next == At(ids, i);
        k := i;
      } else {
        prev, next, k := FindInsertPosition(nicr, x, prev, next);
      }
      Link(id, prev, next, k);
      ok := true;
    }

    /** `_remove`. */
    method Remove(id: Address) returns (ok: bool)
      requires Valid()
      modifies this
      ensures Valid()
      ensures ok == (id in old(ids))
      ensures !ok ==> ids == old(ids)
      ensures ok ==> ids == RemoveAt(old(ids), old(IndexOf(id)))
    {
      if id !in nodes {
        return false;
      }
      ghost var k := IndexOf(id);
      ghost var links := Unspliced(nodes, ids, k);
      UnsplicedWellLinked(nodes, ids, k);
      LinksOf(id);
      assert 0 < k ==> ids[k - 1] in ids;
      assert k + 1 < |ids| ==> ids[k + 1] in ids;
      var node := nodes[id];
      if size > 1 {
        if id == head {
          head := node.next;
          nodes := nodes[head := nodes[head].(prev := ZERO_ADDRESS)];
        } else if id == tail {
          tail := node.prev;
          nodes := nodes[tail := nodes[tail].(next := ZERO_ADDRESS)];
        } else {
          nodes := nodes[node.prev := nodes[node.prev].(next := node.next)];
          nodes := nodes[node.next := nodes[node.next].(prev := node.prev)];
        }
      } else {
        head, tail := ZERO_ADDRESS, ZERO_ADDRESS;
      }
      nodes := nodes - {id};
      assert nodes == links;
      size := size - 1;
      ids := RemoveAt(ids, k);
      ok := true;
    }

    /** `reInsert`: out of the old position and into one that fits the new ratio. */
    method ReInsert(nicr: Ratios, id: Address, x: nat, upperHint: Address, lowerHint: Address)
      returns (ok: bool, ghost k: nat)
      requires Valid()
      modifies this
      ensures Valid()
      ensures ok == (id in old(ids) && x > 0)
      ensures !ok ==> ids == old(ids)
      ensures ok ==>
                var rest := RemoveAt(old(ids), old(IndexOf(id)));
                Fits(rest, nicr, x, k) && ids == InsertAt(rest, k, id)
    {
      if id !in nodes || x == 0 {
        return false, 0;
      }
      ok := Remove(id);
      ok, k := Insert(nicr, id, x, upperHint, lowerHint);
    }
  }

  // ---------------------------------------------------------------------------
  // What a fitting position is worth
  // ---------------------------------------------------------------------------

  /** Plain insertion into a sorted list, after every node of a ratio at least as large. */
  function SortedInsert(ids: seq<Address>, nicr: Ratios, id: Address): seq<Address> {
    if ids == [] || nicr(id) > nicr(ids[0]) then [id] + ids
    else [ids[0]] + SortedInsert(ids[1..], nicr, id)
  }

  function RatiosOf(ids: seq<Address>, nicr: Ratios): seq<nat> {
    seq(|ids|, i requires 0 <= i < |ids| => nicr(ids[i]))
  }

  /** Insertion at a fitting position keeps a sorted list sorted, and conversely. */
  lemma InsertionSortedIff(ids: seq<Address>, nicr: Ratios, id: Address, k: nat)
    requires k <= |ids| && Sorted(ids, nicr)
    ensures Sorted(InsertAt(ids, k, id), nicr) <==> Fits(ids, nicr, nicr(id), k)
  {
    var longer := InsertAt(ids, k, id);
    if Fits(ids, nicr, nicr(id), k) {
      forall i, j | 0 <= i < j < |longer| ensures nicr(longer[i]) >= nicr(longer[j]) {
        var i', j' := if i < k then i else i - 1, if j < k then j else j - 1;
        if i != k && j != k {
          assert i' == j' || nicr(ids[i']) >= nicr(ids[j']);
        }
      }
    }
    if Sorted(longer, nicr) {
      assert longer[k] == id;
      assert 0 < k ==> longer[k - 1] == ids[k - 1];
      assert k < |ids| ==> longer[k + 1] == ids[k];
    }
  }

  /** Dropping a node keeps a list sorted. */
  lemma RemovalSorted(ids: seq<Address>, nicr: Ratios, k: nat)
    requires k < |ids| && Sorted(ids, nicr)
    ensures Sorted(RemoveAt(ids, k), nicr)
  {
    var shorter := RemoveAt(ids, k);
    forall i, j | 0 <= i < j < |shorter| ensures nicr(shorter[i]) >= nicr(shorter[j]) {
      var i', j' := if i < k then i else i + 1, if j < k then j else j + 1;
      assert nicr(ids[i']) >= nicr(ids[j']);
    }
  }

  /** Between two fitting positions of a sorted list all ratios are equal. */
  lemma TieBetween(ids: seq<Address>, nicr: Ratios, x: nat, k: nat, l: nat)
    requires Sorted(ids, nicr) && Fits(ids, nicr, x, k) && Fits(ids, nicr, x, l) && k <= l
    ensures forall i :: k <= i < l ==> nicr(ids[i]) == x
  {
    forall i | k <= i < l ensures nicr(ids[i]) == x {
      assert k == i || nicr(ids[k]) >= nicr(ids[i]);
      assert i == l - 1 || nicr(ids[i]) >= nicr(ids[l - 1]);
    }
  }

  lemma SameRatios(ids: seq<Address>, nicr: Ratios, id: Address, k: nat, l: nat)
    requires Sorted(ids, nicr) && Fits(ids, nicr, nicr(id), k) && Fits(ids, nicr, nicr(id), l) && k <= l
    ensures RatiosOf(InsertAt(ids, k, id), nicr) == RatiosOf(InsertAt(ids, l, id), nicr)
  {
    TieBetween(ids, nicr, nicr(id), k, l);
    var a, b := InsertAt(ids, k, id), InsertAt(ids, l, id);
    forall i | 0 <= i < |a| ensures nicr(a[i]) == nicr(b[i]) {
      if k < i <= l {
        assert a[i] == ids[i - 1];
      }
    }
  }

  lemma InsertAfterHead(ids: seq<Address>, k: nat, id: Address)
    requires ids != [] && k <= |ids| - 1
    ensures InsertAt(ids, k + 1, id) == [ids[0]] + InsertAt(ids[1..], k, id)
  {
    assert ids[..k + 1] == [ids[0]] + ids[1..][..k];
    assert ids[k + 1..] == ids[1..][k..];
  }

  lemma FitsAfterHead(ids: seq<Address>, nicr: Ratios, x: nat, k: nat)
    requires ids != [] && Fits(ids[1..], nicr, x, k) && nicr(ids[0]) >= x
    ensures Fits(ids, nicr, x, k + 1)
  {
  }

  lemma {:induction false} SortedInsertFits(ids: seq<Address>, nicr: Ratios, id: Address) returns (k: nat)
    requires Sorted(ids, nicr)
    ensures Fits(ids, nicr, nicr(id), k) && SortedInsert(ids, nicr, id) == InsertAt(ids, k, id)
    decreases |ids|
  {
    if ids == [] || nicr(id) > nicr(ids[0]) {
      k := 0;
    } else {
      k := SortedInsertFits(ids[1..], nicr, id);
      InsertAfterHead(ids, k, id);
      FitsAfterHead(ids, nicr, nicr(id), k);
      k := k + 1;
    }
  }

  /**
   * Every fitting position gives the same sequence of ratios as plain sorted insertion, hence
   * the same list up to the order of troves of equal ratio.
   */
  lemma SameRatiosAsSortedInsert(ids: seq<Address>, nicr: Ratios, id: Address, k: nat)
    requires Sorted(ids, nicr) && Fits(ids, nicr, nicr(id), k)
    ensures RatiosOf(InsertAt(ids, k, id), nicr) == RatiosOf(SortedInsert(ids, nicr, id), nicr)
  {
    var l := SortedInsertFits(ids, nicr, id);
    if k <= l {
      SameRatios(ids, nicr, id, k, l);
    } else {
      SameRatios(ids, nicr, id, l, k);
    }
  }

  /** Every position is named by one pair of hints, and that pair names no other. */
  lemma HintsNamePosition(ids: seq<Address>, nicr: Ratios, x: nat, k: nat, l: nat)
    requires Distinct(ids) && ZERO_ADDRESS !in ids && Fits(ids, nicr, x, k)
    ensures HintedPosition(ids, nicr, x, Before(ids, k), At(ids, k), l) <==> l == k
  {
    assert 0 < k ==> ids[k - 1] in ids;
    assert k < |ids| ==> ids[k] in ids;
    if l <= |ids| {
      assert 0 < l ==> ids[l - 1] in ids;
      assert l < |ids| ==> ids[l] in ids;
    }
  }

  /**
   * Hinted insertion is plain sorted insertion, for all hints, exactly when no trove in the list
   * has the new trove's ratio: hints that name another fitting position are taken.
   */
  lemma HintsImmaterialIff(ids: seq<Address>, nicr: Ratios, id: Address)
    requires Sorted(ids, nicr) && id !in ids && Distinct(ids) && ZERO_ADDRESS !in ids
    ensures (forall upper, lower, k: nat :: HintedPosition(ids, nicr, nicr(id), upper, lower, k) ==>
               InsertAt(ids, k, id) == SortedInsert(ids, nicr, id))
       <==> (forall a :: a in ids ==> nicr(a) != nicr(id))
  {
    PositionsImmaterialIff(ids, nicr, id);
    if exists k: nat :: Fits(ids, nicr, nicr(id), k) && InsertAt(ids, k, id) != SortedInsert(ids, nicr, id) {
      var k: nat :| Fits(ids, nicr, nicr(id), k) && InsertAt(ids, k, id) != SortedInsert(ids, nicr, id);
      HintsNamePosition(ids, nicr, nicr(id), k, k);
    }
  }

  lemma PositionsImmaterialIff(ids: seq<Address>, nicr: Ratios, id: Address)
    requires Sorted(ids, nicr) && id !in ids
    ensures (forall k: nat :: Fits(ids, nicr, nicr(id), k) ==> InsertAt(ids, k, id) == SortedInsert(ids, nicr, id))
       <==> (forall a :: a in ids ==> nicr(a) != nicr(id))
  {
    var l := SortedInsertFits(ids, nicr, id);
    if forall a :: a in ids ==> nicr(a) != nicr(id) {
      forall k: nat | Fits(ids, nicr, nicr(id), k) ensures k == l {
        if k < l {
          assert ids[k] in ids;
          TieBetween(ids, nicr, nicr(id), k, l);
        } else if l < k {
          assert ids[l] in ids;
          TieBetween(ids, nicr, nicr(id), l, k);
        }
      }
    } else {
      var a :| a in ids && nicr(a) == nicr(id);
      var i :| 0 <= i < |ids| && ids[i] == a;
      assert Fits(ids, nicr, nicr(id), i) && Fits(ids, nicr, nicr(id), i + 1);
      assert InsertAt(ids, i, id)[i] == id && InsertAt(ids, i + 1, id)[i] == a;
    }
  }
}
