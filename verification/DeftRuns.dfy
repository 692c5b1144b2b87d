/**
 * The DEFT of the Stability Pool over whole runs: what depositors and front ends are paid and
 * still due adds up to what was issued to a pool that was not empty, in both directions, up to
 * roundings that are tallied event by event.
 */
module DeftRuns {
  import opened Base
  import opened RealSums
  import opened StabilityPool
  import opened PoolLedger
  import opened PoolSolvency
  import opened DeftGains
  import PoolExcess

  // ---------------------------------------------------------------------------
  // Machines
  // ---------------------------------------------------------------------------

  /** A state with the naive ledger of its deposits, and what has been rounded away from them so far. */
  datatype Full = Full(state: State, ledger: Ledger, rounded: real)

  /** What an event does: the next state, and the amounts of DEFT and of rounding involved. */
  datatype Effect = Effect(
    after: Full, paid: nat, issued: nat, perUnit: nat,
    slip: real,       // between stakes and tagged deposits
    rounded: real,    // away from deposits, into the pool
    lost: real        // by floors and to positions beyond one scale shift
  )

  type Machine = (Full, Event) -> Effect

  type Measure = Effect -> real

  ghost function Run(m: Machine, f: Full, events: seq<Event>): Full
    decreases |events|
  {
    if events == [] then f else Run(m, m(f, events[0]).after, events[1..])
  }

  ghost function Sum(m: Machine, q: Measure, f: Full, events: seq<Event>): real
    decreases |events|
  {
    if events == [] then 0.0 else q(m(f, events[0])) + Sum(m, q, m(f, events[0]).after, events[1..])
  }

  /** No offset of the run meets a pool larger than `bound`. */
  ghost predicate PeakWithin(m: Machine, f: Full, events: seq<Event>, bound: nat)
    decreases |events|
  {
    events != [] ==>
      && (events[0].call.OffsetDebt? ==> f.state.pool.total <= bound)
      && PeakWithin(m, m(f, events[0]).after, events[1..], bound)
  }

  /** What is to be bounded along a run: `liability` grows by no more than `cost`, as long as `inv` holds. */
  datatype Claim = Claim(inv: (Full, real) -> bool, liability: Full -> real, slip: Measure, cost: Measure)

  /** One step of a machine under a claim. */
  ghost predicate StepFine(m: Machine, c: Claim, f: Full, e: Event, over: real) {
    var effect := m(f, e);
    && c.slip(effect) >= 0.0 && c.inv(effect.after, over + c.slip(effect))
    && c.liability(effect.after) <= c.liability(f) + c.cost(effect)
  }

  ghost predicate AllFine(m: Machine, c: Claim, bound: nat, room: real) {
    forall f: Full, e: Event, over: real {:trigger m(f, e), c.inv(f, over)} ::
      c.inv(f, over) && 0.0 <= over <= room && (e.call.OffsetDebt? ==> f.state.pool.total <= bound)
      ==> StepFine(m, c, f, e, over)
  }

  ghost predicate Covered(m: Machine, c: Claim, f: Full, events: seq<Event>) {
    c.liability(Run(m, f, events)) <= c.liability(f) + Sum(m, c.cost, f, events)
  }

  ghost predicate NonNegative(m: Machine, q: Measure) {
    forall f, e :: q(m(f, e)) >= 0.0
  }

  /** From any point of a run, the slips that are left are within the room that is left. */
  ghost predicate RoomLeft(m: Machine, slip: Measure, f: Full, events: seq<Event>, over: real, room: real) {
    forall k {:trigger events[..k]} :: 0 <= k <= |events| ==> over + Sum(m, slip, f, events[..k]) <= room
  }

  lemma RoomAfter(m: Machine, slip: Measure, f: Full, events: seq<Event>, over: real, room: real)
    requires events != [] && RoomLeft(m, slip, f, events, over, room)
    ensures over <= room
    ensures RoomLeft(m, slip, m(f, events[0]).after, events[1..], over + slip(m(f, events[0])), room)
  {
    var next, spent := m(f, events[0]).after, slip(m(f, events[0]));
    assert events[..0] == [];
    forall k | 0 <= k <= |events[1..]| ensures over + spent + Sum(m, slip, next, events[1..][..k]) <= room {
      assert events[..k + 1][0] == events[0] && events[..k + 1][1..] == events[1..][..k];
    }
  }

  lemma {:induction false} PrefixSum(m: Machine, q: Measure, f: Full, events: seq<Event>, k: nat)
    requires k <= |events| && NonNegative(m, q)
    ensures 0.0 <= Sum(m, q, f, events[..k]) <= Sum(m, q, f, events)
    decreases |events|
  {
    if events != [] {
      var next := m(f, events[0]).after;
      if k == 0 {
        PrefixSum(m, q, next, events[1..], 0);
        assert events[..0] == [] && events[1..][..0] == [];
      } else {
        PrefixSum(m, q, next, events[1..], k - 1);
        assert events[..k][0] == events[0] && events[..k][1..] == events[1..][..k - 1];
      }
    }
  }

  lemma PrefixRoom(m: Machine, slip: Measure, f: Full, events: seq<Event>)
    requires NonNegative(m, slip)
    ensures RoomLeft(m, slip, f, events, 0.0, Sum(m, slip, f, events))
  {
    forall k | 0 <= k <= |events| ensures 0.0 + Sum(m, slip, f, events[..k]) <= Sum(m, slip, f, events) {
      PrefixSum(m, slip, f, events, k);
    }
  }

  lemma {:induction false} RunFine(
      m: Machine, c: Claim, f: Full, events: seq<Event>, bound: nat, over: real, room: real)
    requires c.inv(f, over) && over >= 0.0 && AllFine(m, c, bound, room)
    requires PeakWithin(m, f, events, bound) && RoomLeft(m, c.slip, f, events, over, room)
    ensures Covered(m, c, f, events)
    decreases |events|
  {
    if events != [] {
      var e := events[0];
      RoomAfter(m, c.slip, f, events, over, room);
      assert StepFine(m, c, f, e, over);
      RunFine(m, c, m(f, e).after, events[1..], bound, over + c.slip(m(f, e)), room);
    }
  }

  /** A claim whose cost depends on how far roundings can have separated the weight and the pool. */
  type Family = real -> Claim

  ghost predicate SameButCost(c: Family) {
    forall x, y :: c(x).inv == c(y).inv && c(x).liability == c(y).liability && c(x).slip == c(y).slip
  }

  /** Fine whatever the room, when the excess is that room and `bound` units. */
  ghost predicate FineInAnyRoom(m: Machine, c: Family, bound: nat) {
    forall room: real {:trigger RoomFine(m, c, bound, room)} :: RoomFine(m, c, bound, room)
  }

  ghost predicate RoomFine(m: Machine, c: Family, bound: nat, room: real) {
    AllFine(m, c(room + bound as real / UNIT), bound, room)
  }

  /** The excess of a run: its slips, and `bound` units. */
  ghost function Excess(m: Machine, slip: Measure, f: Full, events: seq<Event>, bound: nat): real {
    Sum(m, slip, f, events) + bound as real / UNIT
  }

  ghost predicate CoveredWithin(m: Machine, c: Family, f: Full, events: seq<Event>, bound: nat) {
    Covered(m, c(Excess(m, c(0.0).slip, f, events, bound)), f, events)
  }

  lemma RunFineFrom(m: Machine, c: Family, f: Full, events: seq<Event>, bound: nat)
    requires SameButCost(c) && c(0.0).inv(f, 0.0) && NonNegative(m, c(0.0).slip)
    requires FineInAnyRoom(m, c, bound) && PeakWithin(m, f, events, bound)
    ensures CoveredWithin(m, c, f, events, bound)
  {
    var room := Sum(m, c(0.0).slip, f, events);
    PrefixRoom(m, c(0.0).slip, f, events);
    assert RoomFine(m, c, bound, room);
    var claim := c(room + bound as real / UNIT);
    assert claim.inv == c(0.0).inv && claim.slip == c(0.0).slip;
    RunFine(m, claim, f, events, bound, 0.0, room);
  }

  ghost predicate RunsCovered(m: Machine, c: Family, bound: nat) {
    forall f: Full, events: seq<Event> {:trigger PeakWithin(m, f, events, bound)} ::
      c(0.0).inv(f, 0.0) && PeakWithin(m, f, events, bound) ==> CoveredWithin(m, c, f, events, bound)
  }

  lemma FineRunsCovered(m: Machine, c: Family, bound: nat)
    requires SameButCost(c) && NonNegative(m, c(0.0).slip) && FineInAnyRoom(m, c, bound)
    ensures RunsCovered(m, c, bound)
  {
    forall f: Full, events: seq<Event> | c(0.0).inv(f, 0.0) && PeakWithin(m, f, events, bound)
      ensures CoveredWithin(m, c, f, events, bound)
    {
      RunFineFrom(m, c, f, events, bound);
    }
  }

  // ---------------------------------------------------------------------------
  // The pool's machine
  // ---------------------------------------------------------------------------

  ghost function LedgerNext(f: Full, e: Event): Ledger
    requires Sound(f.state)
  {
    if Apply(f.state, e).None? then f.ledger else LedgerAfter(f.state.pool, f.ledger, e.call)
  }

  ghost function Rounded(f: Full, e: Event): real
    requires Sound(f.state)
  {
    if Apply(f.state, e).None? then 0.0 else PoolExcess.RoundedAway(f.state.pool, f.ledger, e.call)
  }

  ghost function NextFull(f: Full, e: Event): Full
    requires Sound(f.state)
  {
    Full(Next(f.state, e), LedgerNext(f, e), f.rounded + Rounded(f, e))
  }

  ghost function EffectOf(f: Full, e: Event): Effect {
    if !Sound(f.state) || !Tracks(f.state.pool, f.ledger) then Effect(f, 0, 0, 0, 0.0, 0.0, 0.0)
    else Effect(NextFull(f, e), Paid(f.state, e), Issued(f.state, e),
                PerUnit(f.state, e), Slip(f.state, e), Rounded(f, e), Lost(f.state, e))
  }

  /** The machine of the pool, as a value; the trigger keeps its definition out of the runs. */
  ghost predicate OfPool(m: Machine) {
    forall f: Full, e: Event {:trigger EffectOf(f, e)} :: m(f, e) == EffectOf(f, e)
  }

  /** The state is sound, the ledger follows, and the overweight and the pool's deficit are within bounds. */
  ghost predicate Holds(f: Full, bound: nat, over: real) {
    && Sound(f.state) && OverweightWithin(f.state, over)
    && Tracks(f.state.pool, f.ledger) && f.state.pool.lossError <= bound
    && Slack(f.state.pool, f.ledger) >= -(bound as real)
  }

  /** And the pool's excess is within what was rounded away, a part of `over`. */
  ghost predicate HoldsToo(f: Full, bound: nat, over: real) {
    && Holds(f, bound, over - f.rounded) && 0.0 <= f.rounded <= over
    && Slack(f.state.pool, f.ledger) <= UNIT * f.rounded
  }

  lemma AfterPool(x: State, e: Event)
    requires Sound(x)
    ensures Apply(x, e).Some? ==> Step(x.pool, e.call) == Some(Next(x, e).pool)
    ensures Apply(x, e).None? ==> Next(x, e) == x
  {
  }

  /** The ledger of the deposits follows every event, and so does the bound on the deficit. */
  lemma LedgerFollows(f: Full, e: Event, bound: nat, over: real)
    requires Holds(f, bound, over) && (e.call.OffsetDebt? ==> f.state.pool.total <= bound)
    ensures
      var p, n := Next(f.state, e).pool, LedgerNext(f, e);
      Tracks(p, n) && p.lossError <= bound && Slack(p, n) >= -(bound as real)
  {
    AfterPool(f.state, e);
    if Apply(f.state, e).Some? {
      StepSlack(f.state.pool, f.ledger, e.call, bound);
    }
  }

  lemma HoldsOn(f: Full, e: Event, bound: nat, over: real)
    requires Holds(f, bound, over) && (e.call.OffsetDebt? ==> f.state.pool.total <= bound)
    ensures Slip(f.state, e) >= 0.0
    ensures Holds(NextFull(f, e), bound, over + Slip(f.state, e))
  {
    EventWithin(f.state, e, over);
    LedgerFollows(f, e, bound, over);
  }

  lemma ExcessFollows(f: Full, e: Event)
    requires Sound(f.state) && Tracks(f.state.pool, f.ledger)
    requires Slack(f.state.pool, f.ledger) <= UNIT * f.rounded && f.rounded >= 0.0
    ensures Rounded(f, e) >= 0.0
    ensures Next(f.state, e).pool.now.P > 0
    ensures
      var p, n := Next(f.state, e).pool, LedgerNext(f, e);
      Tracks(p, n) && Slack(p, n) <= UNIT * (f.rounded + Rounded(f, e))
  {
    AfterPool(f.state, e);
    if Apply(f.state, e).Some? {
      PoolExcess.StepExcess(f.state.pool, f.ledger, e.call, UNIT * f.rounded);
      PoolExcess.AddedExcess(0.0, f.rounded, Rounded(f, e));
    }
  }

  // ---------------------------------------------------------------------------
  // At most
  // ---------------------------------------------------------------------------

  /** What an event may add to the liability: what is issued and not paid, and the rate on the excess. */
  ghost function UpperCost(x: Effect, excess: real): real {
    UNIT * x.issued as real - UNIT * x.paid as real + OverIssue(x.perUnit, excess)
  }

  lemma OverIssueGrows(perUnit: nat, x: real, y: real)
    requires x <= y
    ensures OverIssue(perUnit, x) <= OverIssue(perUnit, y)
  {
    AtLeast(perUnit as real, y, x);
  }

  /** The equation of an event, solved for what is paid and due. */
  lemma Solved(before: real, after: real, paid: real, issued: real, lost: real, over: real, most: real)
    requires after + paid + lost == before + issued + over && over <= most && lost >= 0.0
    ensures after + paid <= before + issued + most
  {
  }

  lemma EventUpper(x: State, e: Event, gap: real, excess: real)
    requires Sound(x) && gap == Weight(x) - x.pool.total as real && gap <= excess
    ensures Liability(Next(x, e)) + UNIT * Paid(x, e) as real <=
              Liability(x) + UNIT * Issued(x, e) as real + OverIssue(PerUnit(x, e), excess)
  {
    EventLiability(x, e);
    LostNonNegative(x, e);
    OverIssueGrows(PerUnit(x, e), gap, excess);
    Solved(Liability(x), Liability(Next(x, e)), UNIT * Paid(x, e) as real, UNIT * Issued(x, e) as real, Lost(x, e),
           OverIssue(PerUnit(x, e), gap), OverIssue(PerUnit(x, e), excess));
  }

  lemma LiabilityUpper(x: State, n: Ledger, e: Event, bound: nat, over: real, excess: real)
    requires Sound(x) && Overweight(x) <= over && Tracks(x.pool, n) && Slack(x.pool, n) >= -(bound as real)
    requires over + bound as real / UNIT <= excess
    ensures Liability(Next(x, e)) + UNIT * Paid(x, e) as real <=
              Liability(x) + UNIT * Issued(x, e) as real + OverIssue(PerUnit(x, e), excess)
  {
    ExcessBound(x, n, bound, over);
    EventUpper(x, e, Weight(x) - x.pool.total as real, excess);
  }

  /** What one step of the claim needs, of the effect `x`. */
  ghost predicate UpperFacts(f: Full, x: Effect, bound: nat, over: real, excess: real) {
    && x.slip >= 0.0 && Holds(x.after, bound, over + x.slip)
    && Liability(x.after.state) <= Liability(f.state) + UpperCost(x, excess)
  }

  lemma EffectUpper(f: Full, e: Event, bound: nat, over: real, excess: real)
    requires Holds(f, bound, over) && over + bound as real / UNIT <= excess
    requires e.call.OffsetDebt? ==> f.state.pool.total <= bound
    ensures UpperFacts(f, EffectOf(f, e), bound, over, excess)
  {
    HoldsOn(f, e, bound, over);
    LiabilityUpper(f.state, f.ledger, e, bound, over, excess);
  }

  /** The parts of the claim, as values; the triggers keep their definitions out of the runs. */
  ghost predicate IsUpper(c: Claim, bound: nat, excess: real) {
    && (forall f: Full, over: real {:trigger Holds(f, bound, over)} :: c.inv(f, over) == Holds(f, bound, over))
    && (forall f: Full {:trigger Liability(f.state)} :: c.liability(f) == Liability(f.state))
    && (forall x: Effect {:trigger c.slip(x)} :: c.slip(x) == x.slip)
    && (forall x: Effect {:trigger c.cost(x)} :: c.cost(x) == UpperCost(x, excess))
  }

  lemma UpperParts(c: Claim, bound: nat, excess: real, f: Full, over: real, x: Effect)
    requires IsUpper(c, bound, excess)
    ensures c.inv(f, over) == Holds(f, bound, over) && c.liability(f) == Liability(f.state)
    ensures c.slip(x) == x.slip && c.cost(x) == UpperCost(x, excess)
  {
    var h, v := Holds(f, bound, over), Liability(f.state);
  }

  lemma UpperFine(m: Machine, c: Claim, f: Full, e: Event, x: Effect, bound: nat, over: real, excess: real)
    requires m(f, e) == x && IsUpper(c, bound, excess) && UpperFacts(f, x, bound, over, excess)
    ensures StepFine(m, c, f, e, over)
  {
    UpperParts(c, bound, excess, x.after, over + x.slip, x);
    UpperParts(c, bound, excess, f, over, x);
  }

  lemma UpperStep(m: Machine, c: Claim, f: Full, e: Event, bound: nat, over: real, room: real)
    requires OfPool(m) && IsUpper(c, bound, room + bound as real / UNIT) && c.inv(f, over) && 0.0 <= over <= room
    requires e.call.OffsetDebt? ==> f.state.pool.total <= bound
    ensures StepFine(m, c, f, e, over)
  {
    var excess, x := room + bound as real / UNIT, EffectOf(f, e);
    UpperParts(c, bound, excess, f, over, x);
    EffectUpper(f, e, bound, over, excess);
    UpperFine(m, c, f, e, x, bound, over, excess);
  }

  lemma UpperRoom(m: Machine, c: Family, bound: nat, room: real)
    requires OfPool(m) && IsUpper(c(room + bound as real / UNIT), bound, room + bound as real / UNIT)
    ensures RoomFine(m, c, bound, room)
  {
    var claim := c(room + bound as real / UNIT);
    forall f: Full, e: Event, over: real
      | claim.inv(f, over) && 0.0 <= over <= room && (e.call.OffsetDebt? ==> f.state.pool.total <= bound)
      ensures StepFine(m, claim, f, e, over)
    {
      UpperStep(m, claim, f, e, bound, over, room);
    }
  }

  // ---------------------------------------------------------------------------
  // At least
  // ---------------------------------------------------------------------------

  /** What an event may take from the liability: what is paid and not issued, what is lost, and the rate. */
  ghost function LowerCost(x: Effect, excess: real): real {
    UNIT * x.paid as real - UNIT * x.issued as real + x.lost + OverIssue(x.perUnit, excess)
  }

  lemma OverIssueReversed(perUnit: nat, x: real, y: real)
    requires -x <= y
    ensures -OverIssue(perUnit, x) <= OverIssue(perUnit, y)
  {
    AtLeast(perUnit as real, y, -x);
  }

  lemma Shortage(total: nat, owed: real, error: nat, bound: nat, rounded: real)
    requires Beyond(total, owed, error) <= UNIT * rounded && error <= bound
    ensures total as real - owed <= rounded + bound as real / UNIT
  {
    var d := total as real - owed;
    assert UNIT * (d - rounded) <= bound as real;
  }

  /** The pool's excess and the missing weight bound that shortage. */
  lemma ShortageBound(x: State, n: Ledger, bound: nat, over: real, rounded: real)
    requires WellFormed(x.pool) && Tracks(x.pool, n) && x.pool.lossError <= bound
    requires Slack(x.pool, n) <= UNIT * rounded && Overweight(x) >= -over
    ensures x.pool.total as real - Weight(x) <= over + rounded + bound as real / UNIT
  {
    WorthsOwed(x, n);
    Shortage(x.pool.total, Owed(n), x.pool.lossError, bound, rounded);
  }

  /** The equation of an event, solved for what is issued. */
  lemma Reversed(before: real, after: real, paid: real, issued: real, lost: real, over: real, most: real)
    requires after + paid + lost == before + issued + over && -over <= most
    ensures before + issued <= after + paid + lost + most
  {
  }

  lemma EventLower(x: State, e: Event, gap: real, excess: real)
    requires Sound(x) && gap == Weight(x) - x.pool.total as real && -gap <= excess
    ensures Liability(x) + UNIT * Issued(x, e) as real <=
              Liability(Next(x, e)) + UNIT * Paid(x, e) as real + Lost(x, e) + OverIssue(PerUnit(x, e), excess)
  {
    EventLiability(x, e);
    OverIssueReversed(PerUnit(x, e), gap, excess);
    Reversed(Liability(x), Liability(Next(x, e)), UNIT * Paid(x, e) as real, UNIT * Issued(x, e) as real, Lost(x, e),
             OverIssue(PerUnit(x, e), gap), OverIssue(PerUnit(x, e), excess));
  }

  lemma LiabilityLower(x: State, n: Ledger, e: Event, bound: nat, over: real, rounded: real, excess: real)
    requires Sound(x) && Overweight(x) >= -over && Tracks(x.pool, n) && x.pool.lossError <= bound
    requires Slack(x.pool, n) <= UNIT * rounded && over + rounded + bound as real / UNIT <= excess
    ensures Liability(x) + UNIT * Issued(x, e) as real <=
              Liability(Next(x, e)) + UNIT * Paid(x, e) as real + Lost(x, e) + OverIssue(PerUnit(x, e), excess)
  {
    ShortageBound(x, n, bound, over, rounded);
    EventLower(x, e, Weight(x) - x.pool.total as real, excess);
  }

  ghost predicate LowerFacts(f: Full, x: Effect, bound: nat, over: real, excess: real) {
    && x.slip + x.rounded >= 0.0 && HoldsToo(x.after, bound, over + (x.slip + x.rounded))
    && -Liability(x.after.state) <= -Liability(f.state) + LowerCost(x, excess)
  }

  lemma HoldsTooOn(f: Full, e: Event, bound: nat, over: real)
    requires HoldsToo(f, bound, over) && (e.call.OffsetDebt? ==> f.state.pool.total <= bound)
    ensures Slip(f.state, e) >= 0.0 && Rounded(f, e) >= 0.0
    ensures HoldsToo(NextFull(f, e), bound, over + (Slip(f.state, e) + Rounded(f, e)))
  {
    HoldsOn(f, e, bound, over - f.rounded);
    ExcessFollows(f, e);
    var over' := over + (Slip(f.state, e) + Rounded(f, e));
    assert over' - NextFull(f, e).rounded == over - f.rounded + Slip(f.state, e);
  }

  lemma EffectLower(f: Full, e: Event, bound: nat, over: real, excess: real)
    requires HoldsToo(f, bound, over) && over + bound as real / UNIT <= excess
    requires e.call.OffsetDebt? ==> f.state.pool.total <= bound
    ensures LowerFacts(f, EffectOf(f, e), bound, over, excess)
  {
    HoldsTooOn(f, e, bound, over);
    LiabilityLower(f.state, f.ledger, e, bound, over - f.rounded, f.rounded, excess);
  }

  ghost predicate IsLower(c: Claim, bound: nat, excess: real) {
    && (forall f: Full, over: real {:trigger HoldsToo(f, bound, over)} :: c.inv(f, over) == HoldsToo(f, bound, over))
    && (forall f: Full {:trigger Liability(f.state)} :: c.liability(f) == -Liability(f.state))
    && (forall x: Effect {:trigger c.slip(x)} :: c.slip(x) == x.slip + x.rounded)
    && (forall x: Effect {:trigger c.cost(x)} :: c.cost(x) == LowerCost(x, excess))
  }

  lemma LowerParts(c: Claim, bound: nat, excess: real, f: Full, over: real, x: Effect)
    requires IsLower(c, bound, excess)
    ensures c.inv(f, over) == HoldsToo(f, bound, over) && c.liability(f) == -Liability(f.state)
    ensures c.slip(x) == x.slip + x.rounded && c.cost(x) == LowerCost(x, excess)
  {
    var h, v := HoldsToo(f, bound, over), Liability(f.state);
  }

  lemma LowerFine(m: Machine, c: Claim, f: Full, e: Event, x: Effect, bound: nat, over: real, excess: real)
    requires m(f, e) == x && IsLower(c, bound, excess) && LowerFacts(f, x, bound, over, excess)
    ensures StepFine(m, c, f, e, over)
  {
    LowerParts(c, bound, excess, x.after, over + (x.slip + x.rounded), x);
    LowerParts(c, bound, excess, f, over, x);
  }

  lemma LowerStep(m: Machine, c: Claim, f: Full, e: Event, bound: nat, over: real, room: real)
    requires OfPool(m) && IsLower(c, bound, room + bound as real / UNIT) && c.inv(f, over) && 0.0 <= over <= room
    requires e.call.OffsetDebt? ==> f.state.pool.total <= bound
    ensures StepFine(m, c, f, e, over)
  {
    var excess, x := room + bound as real / UNIT, EffectOf(f, e);
    LowerParts(c, bound, excess, f, over, x);
    EffectLower(f, e, bound, over, excess);
    LowerFine(m, c, f, e, x, bound, over, excess);
  }

  lemma LowerRoom(m: Machine, c: Family, bound: nat, room: real)
    requires OfPool(m) && IsLower(c(room + bound as real / UNIT), bound, room + bound as real / UNIT)
    ensures RoomFine(m, c, bound, room)
  {
    var claim := c(room + bound as real / UNIT);
    forall f: Full, e: Event, over: real
      | claim.inv(f, over) && 0.0 <= over <= room && (e.call.OffsetDebt? ==> f.state.pool.total <= bound)
      ensures StepFine(m, claim, f, e, over)
    {
      LowerStep(m, claim, f, e, bound, over, room);
    }
  }

  // ---------------------------------------------------------------------------
  // Whole runs
  // ---------------------------------------------------------------------------

  ghost function PaidOf(): Measure {
    (x: Effect) => x.paid as real
  }

  ghost function IssuedOf(): Measure {
    (x: Effect) => x.issued as real
  }

  ghost function PerUnitOf(): Measure {
    (x: Effect) => x.perUnit as real
  }

  ghost function SlipOf(): Measure {
    (x: Effect) => x.slip
  }

  ghost function RoundedOf(): Measure {
    (x: Effect) => x.rounded
  }

  ghost function LostOf(): Measure {
    (x: Effect) => x.lost
  }

  ghost function SlipAndRounded(): Measure {
    (x: Effect) => x.slip + x.rounded
  }

  ghost function Upper(bound: nat): Family {
    (excess: real) => Claim((f: Full, over: real) => Holds(f, bound, over), (f: Full) => Liability(f.state), SlipOf(),
                            (x: Effect) => UpperCost(x, excess))
  }

  ghost function Lower(bound: nat): Family {
    (excess: real) => Claim((f: Full, over: real) => HoldsToo(f, bound, over), (f: Full) => -Liability(f.state),
                            SlipAndRounded(), (x: Effect) => LowerCost(x, excess))
  }

  /** Before the first event. */
  ghost predicate DeployedState(f: Full) {
    var x := f.state;
    && Untouched(x.pool) && |f.ledger| == 0 && f.rounded == 0.0
    && |x.deft.G| == |x.deft.depositG| == |x.deft.stakeG| == |x.deft.rates| == 0 && x.deft.error == 0
  }

  lemma DeployedHolds(f: Full, bound: nat)
    requires DeployedState(f)
    ensures Holds(f, bound, 0.0) && HoldsToo(f, bound, 0.0) && Liability(f.state) == 0.0
  {
    var x := f.state;
    assert |x.pool.deposits.Keys| == |x.pool.stakes.Keys| == |x.pool.sums.Keys| == |f.ledger.Keys| == 0;
    assert |x.deft.G.Keys| == |x.deft.depositG.Keys| == |x.deft.stakeG.Keys| == |x.deft.rates.Keys| == 0;
    assert forall k :: k !in x.pool.sums.Keys && k !in x.deft.G.Keys;
    assert DueDeposits(x) == DueStakes(x) == WeightDeposits(x) == WeightStakes(x) == Worths(x.pool) == map[];
    assert Values(f.ledger) == map[];
  }

  lemma EffectsNonNegative(f: Full, e: Event)
    ensures EffectOf(f, e).slip >= 0.0 && EffectOf(f, e).rounded >= 0.0
  {
    if Sound(f.state) && Tracks(f.state.pool, f.ledger) {
      var slack := Slack(f.state.pool, f.ledger);
      PoolExcess.StepExcess(f.state.pool, f.ledger, e.call, if slack > 0.0 then slack else 0.0);
      if Slip(f.state, e) != 0.0 {
        SlipBounds(f.state.pool, e.call);
      }
    }
  }

  lemma SlipsNonNegative(m: Machine)
    requires OfPool(m)
    ensures NonNegative(m, SlipOf()) && NonNegative(m, SlipAndRounded())
  {
    forall f: Full, e: Event ensures m(f, e).slip >= 0.0 && m(f, e).rounded >= 0.0 {
      EffectsNonNegative(f, e);
      assert m(f, e) == EffectOf(f, e);
    }
  }

  lemma UpperIs(bound: nat, excess: real)
    ensures IsUpper(Upper(bound)(excess), bound, excess)
  {
    var c := Upper(bound)(excess);
    assert c.slip == SlipOf();
    forall x: Effect ensures c.slip(x) == x.slip && c.cost(x) == UpperCost(x, excess) {
    }
    forall f: Full, over: real ensures c.inv(f, over) == Holds(f, bound, over) {
    }
    forall f: Full ensures c.liability(f) == Liability(f.state) {
    }
  }

  lemma LowerIs(bound: nat, excess: real)
    ensures IsLower(Lower(bound)(excess), bound, excess)
  {
    var c := Lower(bound)(excess);
    assert c.slip == SlipAndRounded();
    forall x: Effect ensures c.slip(x) == x.slip + x.rounded && c.cost(x) == LowerCost(x, excess) {
    }
    forall f: Full, over: real ensures c.inv(f, over) == HoldsToo(f, bound, over) {
    }
    forall f: Full ensures c.liability(f) == -Liability(f.state) {
    }
  }

  lemma UpperRunsCovered(m: Machine, bound: nat)
    requires OfPool(m)
    ensures RunsCovered(m, Upper(bound), bound)
  {
    forall room: real ensures RoomFine(m, Upper(bound), bound, room) {
      UpperIs(bound, room + bound as real / UNIT);
      UpperRoom(m, Upper(bound), bound, room);
    }
    SlipsNonNegative(m);
    FineRunsCovered(m, Upper(bound), bound);
  }

  lemma LowerRunsCovered(m: Machine, bound: nat)
    requires OfPool(m)
    ensures RunsCovered(m, Lower(bound), bound)
  {
    forall room: real ensures RoomFine(m, Lower(bound), bound, room) {
      LowerIs(bound, room + bound as real / UNIT);
      LowerRoom(m, Lower(bound), bound, room);
    }
    SlipsNonNegative(m);
    FineRunsCovered(m, Lower(bound), bound);
  }

  // ---------------------------------------------------------------------------
  // Adding up
  // ---------------------------------------------------------------------------

  lemma CostParts(x: Effect, excess: real)
    ensures UpperCost(x, excess) == UNIT * x.issued as real - UNIT * x.paid as real + Times(excess, x.perUnit as real)
    ensures LowerCost(x, excess) ==
              UNIT * x.paid as real - UNIT * x.issued as real + x.lost + Times(excess, x.perUnit as real)
  {
  }

  lemma {:induction false} SumUpper(m: Machine, q: Measure, excess: real, f: Full, events: seq<Event>)
    requires forall x: Effect {:trigger q(x)} :: q(x) == UpperCost(x, excess)
    ensures Sum(m, q, f, events) ==
              UNIT * Sum(m, IssuedOf(), f, events) - UNIT * Sum(m, PaidOf(), f, events)
              + Times(excess, Sum(m, PerUnitOf(), f, events))
    decreases |events|
  {
    if events == [] {
      assert Times(excess, 0.0) == 0.0;
    } else {
      var x, rest := m(f, events[0]), events[1..];
      SumUpper(m, q, excess, x.after, rest);
      CostParts(x, excess);
      TimesAdd(excess, x.perUnit as real, Sum(m, PerUnitOf(), x.after, rest), Sum(m, PerUnitOf(), f, events));
    }
  }

  lemma {:induction false} SumLower(m: Machine, q: Measure, excess: real, f: Full, events: seq<Event>)
    requires forall x: Effect {:trigger q(x)} :: q(x) == LowerCost(x, excess)
    ensures Sum(m, q, f, events) ==
              UNIT * Sum(m, PaidOf(), f, events) - UNIT * Sum(m, IssuedOf(), f, events)
              + Sum(m, LostOf(), f, events) + Times(excess, Sum(m, PerUnitOf(), f, events))
    decreases |events|
  {
    if events == [] {
      assert Times(excess, 0.0) == 0.0;
    } else {
      var x, rest := m(f, events[0]), events[1..];
      SumLower(m, q, excess, x.after, rest);
      CostParts(x, excess);
      TimesAdd(excess, x.perUnit as real, Sum(m, PerUnitOf(), x.after, rest), Sum(m, PerUnitOf(), f, events));
    }
  }

  lemma {:induction false} SumSlips(m: Machine, f: Full, events: seq<Event>)
    ensures Sum(m, SlipAndRounded(), f, events) == Sum(m, SlipOf(), f, events) + Sum(m, RoundedOf(), f, events)
    decreases |events|
  {
    if events != [] {
      SumSlips(m, m(f, events[0]).after, events[1..]);
    }
  }

  /** How far roundings can have separated the weight and the pool: above, the pool's deficit and the slips. */
  ghost function ExcessWeight(m: Machine, f: Full, events: seq<Event>, bound: nat): real {
    Sum(m, SlipOf(), f, events) + bound as real / UNIT
  }

  /** Below, what was rounded away from deposits as well. */
  ghost function MissingWeight(m: Machine, f: Full, events: seq<Event>, bound: nat): real {
    Sum(m, SlipOf(), f, events) + Sum(m, RoundedOf(), f, events) + bound as real / UNIT
  }

  /** What is paid and still due, in units of 1e-18, counting what was due at the start. */
  ghost function Credited(m: Machine, f: Full, events: seq<Event>): real {
    UNIT * Sum(m, PaidOf(), f, events) + Liability(Run(m, f, events).state) - Liability(f.state)
  }

  ghost predicate AtMostIssued(m: Machine, f: Full, events: seq<Event>, bound: nat) {
    Credited(m, f, events) <=
      UNIT * Sum(m, IssuedOf(), f, events) + Times(ExcessWeight(m, f, events, bound), Sum(m, PerUnitOf(), f, events))
  }

  ghost predicate AtLeastIssued(m: Machine, f: Full, events: seq<Event>, bound: nat) {
    UNIT * Sum(m, IssuedOf(), f, events) <=
      Credited(m, f, events) + Sum(m, LostOf(), f, events)
      + Times(MissingWeight(m, f, events, bound), Sum(m, PerUnitOf(), f, events))
  }

  lemma UpperAddsUp(m: Machine, f: Full, events: seq<Event>, bound: nat)
    requires CoveredWithin(m, Upper(bound), f, events, bound)
    ensures AtMostIssued(m, f, events, bound)
  {
    var excess := ExcessWeight(m, f, events, bound);
    assert Excess(m, Upper(bound)(0.0).slip, f, events, bound) == excess;
    SumUpper(m, Upper(bound)(excess).cost, excess, f, events);
  }

  /**
   * Over every run, what depositors and front ends are paid and still due is at most what was
   * issued to a pool that was not empty, up to the DEFT per unit staked times two roundings: the
   * pool's deficit, for any bound on its size at offsets, and the slips between stakes and tagged
   * deposits.
   */
  lemma RunAtMost(m: Machine, f: Full, events: seq<Event>, bound: nat)
    requires OfPool(m) && Holds(f, bound, 0.0) && PeakWithin(m, f, events, bound)
    ensures AtMostIssued(m, f, events, bound)
  {
    UpperRunsCovered(m, bound);
    assert Upper(bound)(0.0).inv(f, 0.0);
    UpperAddsUp(m, f, events, bound);
  }

  lemma LowerAddsUp(m: Machine, f: Full, events: seq<Event>, bound: nat)
    requires CoveredWithin(m, Lower(bound), f, events, bound)
    ensures AtLeastIssued(m, f, events, bound)
  {
    SumSlips(m, f, events);
    var excess := MissingWeight(m, f, events, bound);
    assert Excess(m, Lower(bound)(0.0).slip, f, events, bound) == excess;
    SumLower(m, Lower(bound)(excess).cost, excess, f, events);
  }

  /** And at least that, less what floors and positions beyond one scale shift lose, and the same roundings. */
  lemma RunAtLeast(m: Machine, f: Full, events: seq<Event>, bound: nat)
    requires OfPool(m) && HoldsToo(f, bound, 0.0) && PeakWithin(m, f, events, bound)
    ensures AtLeastIssued(m, f, events, bound)
  {
    LowerRunsCovered(m, bound);
    assert Lower(bound)(0.0).inv(f, 0.0);
    LowerAddsUp(m, f, events, bound);
  }

  /** From deployment on, gains add up to the DEFT issued in both senses. */
  lemma DeployedAddsUp(m: Machine, f: Full, events: seq<Event>, bound: nat)
    requires OfPool(m) && DeployedState(f) && PeakWithin(m, f, events, bound)
    ensures Liability(f.state) == 0.0
    ensures AtMostIssued(m, f, events, bound) && AtLeastIssued(m, f, events, bound)
  {
    DeployedHolds(f, bound);
    RunAtMost(m, f, events, bound);
    RunAtLeast(m, f, events, bound);
  }
}
