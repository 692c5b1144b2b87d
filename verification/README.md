# Verified model of the USDD borrowing protocol

A Dafny model of a Liquity-style stablecoin: troves with pull-based redistribution rewards, the
Stability Pool with its product and sum bookkeeping, the sorted list of troves with hints,
liquidation in both modes, redemption, and the fee schedule. The contracts' integer arithmetic is
modelled as it is: floors, fed-back remainders, scale shifts, epochs and reverts. Where a design
claim of the documentation fails in that arithmetic, the model keeps the code, shows a run on which
the claim fails and proves exactly when it holds.

`dafny verify dfyconfig.toml` checks the whole project.

## Layout

| files | content |
|---|---|
| `Base`, `Arith`, `Sums` | shared types, arithmetic, sums over maps |
| `StabilityPool`, `PoolLedger`, `PoolSolvency`, `PoolExcess`, `FairShares`, `PoolWithdrawals` | the pool, the naive loop it replaces, how far rounding can separate them in either direction and for each depositor, withdrawal of everything |
| `FrontEndStakes`, `DeftGains`, `DeftRuns` | a front end's virtual stake against its tagged deposits, and the DEFT credited to both against the DEFT issued, event by event and over runs |
| `StabilityPoolContract` | the pool's variables and calls, updated in place |
| `SortedTroves` | the doubly linked list, for arbitrary hints and for lists in any order |
| `RedistributionOrder` | why redistributions keep the list sorted |
| `Liquidation`, `TroveManager`, `TroveAccounting`, `TroveRuns`, `TroveSafety`, `LiquidationSafety`, `DebtCoverage` | the trove system as a state machine, what every run keeps, what a call may do to whom, when a liquidation is refused, and when the DefaultPool falls short |
| `Scenarios`, `ShortfallPools`, `ShortfallRuns`, `TroveExamples` | runs of public calls from deployment on which a design claim fails |
| `TroveEffects` | opening, adjusting, closing, claiming and withdrawing in plain amounts: exactly when each is refused and what it changes |
| `BatchOutcome` | which troves a batch liquidation takes, turn by turn, from amounts before the call, and when it is refused |
| `RedemptionStart`, `RedemptionWalk`, `RedemptionSafety`, `RedemptionOutcome` | where a redemption starts, what it takes and from whom, and when the call as a whole is refused |
| `TroveManagerContract`, `BorrowerOperations` | the calls on troves, pools and the list, updated in place |
| `TotalRatio` | which calls can lower the total collateral ratio |
| `FeeDecay`, `BaseRate` | fixed-point exponentiation and the decaying base rate |
| `StakeSimulation`, `StakeRuns` | the off-chain stake simulation, and how it compares with the contract over runs |
| `RedemptionSimulator`, `MacroModel`, `PegModel`, `BNConverter` | the other off-chain computations |

The contracts' state is a value (`Pool`, `System`) and a call is a function from state to
`Option` of state, `None` being a revert. Methods on classes run the source's own loops and update
fields in place, in the source's order, and are proved equal to those functions. Prices, fees,
times and the callers' token balances are arguments.

## Findings

- Stability Pool withdrawals. The loss error is fed back in full although the pool has shrunk, so
  the compounded deposits can exceed `totalUSDDDeposits` (`ShortfallRuns.LossFeedbackShortfall`),
  credited collateral can exceed the pool's collateral (`ShortfallRuns.CollateralShortfall`), and a
  front end stake, rounded separately, can fall one unit short of its deposits
  (`ShortfallRuns.FrontEndStakeShortfall`). All three are runs from deployment of openings,
  provisions and liquidations, the third with a claim in between. Withdrawal of everything succeeds
  if and only if three sums of public getters are covered beforehand
  (`PoolWithdrawals.WithdrawAllIff`), and the first of them can be missed by at most the largest
  pool over 1e18.
- DEFT gains. The gains of depositors and front ends add up to the DEFT issued to a non-empty pool
  only up to roundings, because front end stakes are rounded separately and positions beyond one
  scale shift are passed by. Each event obeys an exact equation (`DeftGains.EventLiability`), and
  every run is bounded in both directions (`DeftRuns.DeployedAddsUp`).
- Pending debt. `hasPendingRewards` looks at the collateral snapshot only. When a redistribution is
  too small in collateral to move `L_COLL`, its debt is overlooked
  (`TroveRuns.OverlookedIff` says exactly when), and a later change of stake can make the pending
  debt exceed the DefaultPool (`TroveExamples.OverlookedDebtRefused` is such a run from
  deployment). Some adjustment does so exactly when some trove's debt snapshot lags while its
  collateral snapshot does not (`DebtCoverage.UncoveredIff`), and until the next liquidation every
  run is safe exactly when there is no such trove (`DebtCoverage.CoveredUntilLiquidationIff`). The
  adjustment that proves this is a top-up of the order of `defaultDebt * 1e18 *
  totalCollateralSnapshot` units, over unbounded integers: it says that no guard of the code stands
  in the way, not that so much collateral exists. The run in `TroveExamples` needs a top-up of
  10000 tokens. That every redistribution moves `L_COLL` is enough for whole runs and not necessary.
- Corrected stakes. The off-chain simulation keeps the collateral of a liquidated trove in its total,
  while the contract's snapshot loses what leaves with it. The two formulas agree at every
  iteration if and only if nothing leaves (`StakeRuns.AgreesIff`); otherwise the simulated stakes
  are a lower bound (`StakeRuns.SimulationBelow`).
- Hints are not immaterial when a trove of equal ratio is in the list
  (`SortedTroves.HintsImmaterialIff`), and a first redemption hint agrees with the scan if and only
  if the redeemable troves are contiguous (`RedemptionStart.HintsAgreeIff`).
- The total collateral ratio is lowered by a pure redistribution whenever the liquidated trove has
  collateral to pay compensation from (`TotalRatio.RedistributionLowersIff`).
- `makeDecimal` prints the whole number twice for zero digits (`BNConverter.RoundTripIff`).

The documentation speaks of a 50 LUSD liquidation reserve; the code has 200 USDD, and the model
follows the code.

## Model

| member | source | states |
|---|---|---|
| `StabilityPool.StepKeepsWellFormed` | packages/contracts/contracts/StabilityPool.sol:359-511 | every deposit and stake snapshot stays behind the product in epoch, scale and value, and no sum lies ahead of it, whatever call succeeds |
| `StabilityPool.CompoundedAtMostInitial` | packages/contracts/contracts/StabilityPool.sol:876-920 | compounding never exceeds the recorded deposit, across a scale shift too, so the loss in the event log never underflows |
| `PoolLedger.OffsetValue` | packages/contracts/contracts/StabilityPool.sol:635-686 | updating `P`, `scale` and `epoch` once scales the exact worth of every position by the same factor, also when the pool is emptied |
| `PoolLedger.OffsetGain` | packages/contracts/contracts/StabilityPool.sol:729-754 | the update of `S` credits exactly the going rate on the current worth while the gain spans at most one scale shift, and never more |
| `PoolLedger.StepTracks` | README.md:926-930 | one call of the pool is one round of the loop over all depositors, with the factor of the product and the rate of the sum |
| `PoolSolvency.RunTracks` | README.md:975-998 | after every run, including pool-emptying ones, snapshots determine for each depositor the entry of the naive loop with the product's own factors |
| `FairShares.FactorNearFair` | packages/contracts/contracts/StabilityPool.sol:592-686 | the factor of an offset is the proportional `1 - debt/total`, up to the loss errors before and after and one unit of the product |
| `FairShares.RunNearFair` | README.md:926-998 | after every run each deposit is worth what a loop that takes `debt/total` from everyone makes of it, up to that drift over the offsets since the depositor's last call |
| `PoolSolvency.OffsetSlack` | packages/contracts/contracts/StabilityPool.sol:592-632 | the pool's excess over its deposits stays above minus any bound on its size, although the loss error is fed back in full |
| `PoolSolvency.OffsetCollSlack` | packages/contracts/contracts/StabilityPool.sol:592-632 | the exact equation of an offset's collateral: held, credited and carried remainder |
| `PoolSolvency.CompoundedIsFloor` | packages/contracts/contracts/StabilityPool.sol:876-920 | the compounded amount is the exact worth rounded down, unless dropped by two scale shifts or the billionth rule |
| `PoolSolvency.FactorBound` | packages/contracts/contracts/StabilityPool.sol:635-686 | the product update, across a scale shift or an emptying, never leaves a deposit more than its share |
| `PoolSolvency.FactorAccurate` | packages/contracts/contracts/StabilityPool.sol:635-686 | nor less, beyond one unit in the last place of the product |
| `PoolSolvency.GainIsBelow` | packages/contracts/contracts/StabilityPool.sol:729-754 | the gain paid out never exceeds the exact gain |
| `PoolSolvency.GainIsNear` | packages/contracts/contracts/StabilityPool.sol:729-754 | and falls short of it by less than one unit and the share of one unit of `S` |
| `PoolSolvency.SettleSlack` | packages/contracts/contracts/StabilityPool.sol:359-459 | every provision, withdrawal and claim rounds in the pool's favour, in tokens and in collateral |
| `PoolSolvency.RunSlack` | packages/contracts/fuzzTests/PoolManager_AllDepositorsCanWithdrawTest.js:196-236 | over every run the deposits are worth at most the peak pool size over 1e18 more than the pool holds |
| `PoolExcess.OffsetExcess` | packages/contracts/contracts/StabilityPool.sol:592-686 | one offset adds to the pool's excess over its deposits at most one unit of the product on all of them |
| `PoolExcess.SettleExcess` | packages/contracts/contracts/StabilityPool.sol:359-459 | a provision, withdrawal or claim leaves in the pool exactly the fraction it rounds away |
| `PoolExcess.DeployedExcess` | packages/contracts/fuzzTests/PoolManager_AllDepositorsCanWithdrawTest.js:196-236 | after every run from deployment the pool holds at most the last loss error and what the run has rounded away more than the deposits are worth |
| `PoolExcess.DeployedExcessClosed` | packages/contracts/fuzzTests/PoolManager_AllDepositorsCanWithdrawTest.js:196-236 | in closed form when no caller's deposit is dropped: at most the loss error and, per call, one unit or one unit of the product on the peak pool |
| `PoolExcess.RunCollExcess` | packages/contracts/contracts/StabilityPool.sol:571-632 | over every run the pool holds at most as much more collateral than all gains are worth as claims have left in it, and the rewards per unit times the pool's excess |
| `PoolExcess.DeployedCollExcess` | packages/contracts/contracts/StabilityPool.sol:571-632 | the same from deployment on |
| `PoolSolvency.RunCollSlack` | packages/contracts/contracts/StabilityPool.sol:571-632 | over every run the credited collateral exceeds the held collateral by a bound on rewards per unit and peak size |
| `PoolSolvency.BackedRunCoversGains` | packages/contracts/contracts/StabilityPool.sol:571-632 | if the pool covers its deposits at each offset of a run, its collateral covers all gains at the end |
| `PoolWithdrawals.FullWithdrawalIff` | packages/contracts/contracts/StabilityPool.sol:421-459 | a full withdrawal succeeds exactly when tokens, collateral and the tag's stake cover it |
| `PoolWithdrawals.WithdrawRefusedIff` | packages/contracts/contracts/StabilityPool.sol:421-459 | a withdrawal of any amount is refused exactly without a deposit, while troves are below the minimum and the amount is not zero, or when tokens, collateral or the tag's stake do not cover it |
| `PoolWithdrawals.WithdrawEffect` | packages/contracts/contracts/StabilityPool.sol:421-459 | it lowers total, compounded deposit and stake by the smaller of request and deposit, pays the whole gain, and touches no other position |
| `PoolWithdrawals.ProvideRefusedIff` | packages/contracts/contracts/StabilityPool.sol:359-401 | a provision is refused exactly when the amount is zero, the caller or the tag must not make it, or the pool lacks the gain |
| `PoolWithdrawals.ProvideEffect` | packages/contracts/contracts/StabilityPool.sol:359-401 | it adds the amount to the compounded deposit, the stake of the tag kept and the total, and pays the whole gain |
| `PoolWithdrawals.GainToTroveIff` | packages/contracts/contracts/StabilityPool.sol:468-511 | moving a gain to a trove is refused exactly without deposit, trove or gain, or when the pool lacks it, and leaves the deposit at its compounded value |
| `PoolWithdrawals.RegisterIff` | packages/contracts/contracts/StabilityPool.sol:956-965 | a registration is refused exactly for registered accounts and depositors, and adds that account alone |
| `PoolWithdrawals.OffsetRefusedIff` | packages/contracts/contracts/StabilityPool.sol:571-686 | an offset is refused exactly when it exceeds the deposits, when the loss carried along exceeds it, or when the product would become zero |
| `PoolWithdrawals.WithdrawAllIff` | packages/contracts/fuzzTests/PoolManager_AllDepositorsCanWithdrawTest.js:196-236 | a group can withdraw everything one after the other, in any order, if and only if three sums are covered before the first withdrawal; then no deposit is left |
| `PoolWithdrawals.PayoutsNearTotal` | packages/contracts/fuzzTests/PoolManager_AllDepositorsCanWithdrawTest.js:196-236 | after every run from deployment the payouts of any group exceed the recorded total by at most the peak size over 1e18 |
| `PoolWithdrawals.GainsCovered` | packages/contracts/fuzzTests/PoolManager_AllDepositorsCanWithdrawTest.js:196-236 | on backed runs the collateral gains of any group are covered |
| `ShortfallRuns.LossFeedbackShortfall` | packages/contracts/contracts/StabilityPool.sol:592-632 | a run from deployment, with two liquidations between 100% and 110%, after which the only depositor cannot withdraw in full |
| `ShortfallRuns.CollateralShortfall` | packages/contracts/contracts/StabilityPool.sol:592-632 | one liquidation more, after which no provision, withdrawal or claim of that depositor succeeds |
| `ShortfallRuns.FrontEndStakeShortfall` | packages/contracts/contracts/StabilityPool.sol:421-459 | a run from deployment after which two deposits under one tag cannot both be withdrawn, in either order, although the pool covers them |
| `FrontEndStakes.OffsetGap` | README.md:1037-1068 | an offset scales a front end's stake and its tagged deposits alike |
| `FrontEndStakes.CallGap` | packages/contracts/contracts/StabilityPool.sol:359-511 | a depositor's call moves stake and deposits by the same amount up to what rounding takes from each; other tags are untouched |
| `FrontEndStakes.RunGap` | README.md:1037-1068 | after every run a stake with its own snapshot is worth its tagged deposits, up to the rounding of the calls under that tag |
| `FrontEndStakes.DeployedRunGap` | README.md:1037-1068 | from deployment on there is no other gap than that |
| `FrontEndStakes.SlippageBelowUnit` | packages/contracts/contracts/StabilityPool.sol:876-920 | that rounding is less than one unit per call unless a position is dropped |
| `DeftGains.ApplySound` | packages/contracts/contracts/StabilityPool.sol:974-1044 | every snapshot of `G` stays behind the sum, and only registered front ends are tags, whatever event succeeds |
| `DeftGains.IssueDue` | packages/contracts/contracts/StabilityPool.sol:520-562 | an issuance makes due exactly its rate on the weight of deposits and stakes within one scale shift, each by its share |
| `DeftGains.SettleDue` | packages/contracts/contracts/StabilityPool.sol:762-842 | what a depositor and a front end are paid, and what the floors take, is exactly what was due to them |
| `DeftGains.FloorsBounds` | packages/contracts/contracts/StabilityPool.sol:762-842 | the floors never pay too much, and take at most two units and one unit of `G` from each of the two |
| `DeftGains.SettleOverweight` | packages/contracts/contracts/StabilityPool.sol:1001-1044 | a call moves the weight beyond the deposits' worth by the front end's share of the two rounding losses, and by nothing else |
| `DeftGains.EventLiability` | packages/contracts/contracts/StabilityPool.sol:515-562 | one event, as an equation: paid, due, carried along and lost is what was due and what is issued, up to the rate on the difference between weight and pool |
| `DeftGains.LostSmall` | packages/contracts/contracts/StabilityPool.sol:811-842 | while every position is within one scale shift, only the floors of payments lose anything |
| `DeftRuns.RunAtMost` | README.md:1037-1068 | over every run, what depositors and front ends are paid and still due is at most what was issued to a pool that was not empty, up to the DEFT per unit times the pool's deficit and the slips between stakes and deposits |
| `DeftRuns.RunAtLeast` | README.md:1037-1068 | and at least that, less what floors and positions beyond one shift lose, and the DEFT per unit times the slips, the pool's peak and what was rounded away from deposits |
| `DeftRuns.DeployedAddsUp` | README.md:1037-1068 | from deployment on, where nothing is due, both: the gains add up to the DEFT issued |
| `StabilityPoolContract.PoolState.ComputeLossPerUnitStaked` | packages/contracts/contracts/StabilityPool.sol:592-632 | loss per unit rounded up, its excess kept; fails exactly on underflow |
| `StabilityPoolContract.PoolState.ComputeCollPerUnitStaked` | packages/contracts/contracts/StabilityPool.sol:592-632 | collateral per unit rounded down, its remainder kept |
| `StabilityPoolContract.PoolState.UpdateRewardSumAndProduct` | packages/contracts/contracts/StabilityPool.sol:635-686 | the sum moves with the old product; then epoch, scale or product, refused at zero |
| `StabilityPoolContract.PoolState.OffsetDebt` | packages/contracts/contracts/StabilityPool.sol:571-588 | the in-place offset is the specified one and keeps the pool well formed |
| `StabilityPoolContract.PoolState.ProvideToSP` | packages/contracts/contracts/StabilityPool.sol:359-401 | the in-place provision is the specified one and pays the whole gain |
| `StabilityPoolContract.PoolState.WithdrawFromSP` | packages/contracts/contracts/StabilityPool.sol:421-459 | the in-place withdrawal is the specified one and pays the smaller of request and compounded deposit |
| `StabilityPoolContract.PoolState.WithdrawCollGainToTrove` | packages/contracts/contracts/StabilityPool.sol:468-511 | the gain leaves, the compounded deposit stays |
| `StabilityPoolContract.PoolState.RegisterFrontEnd` | packages/contracts/contracts/StabilityPool.sol:956-965 | registers exactly accounts without deposit and registration; the kickback rate and its check are in `DeftGains` |
| `StabilityPoolContract.PoolState.AttemptWithdrawAllDeposits` | packages/contracts/fuzzTests/PoolManager_AllDepositorsCanWithdrawTest.js:196-236 | the loop over all depositors succeeds exactly on affordable groups and leaves nobody anything |
| `SortedTroves.SortedTroves.ValidPositionMeans` | packages/contracts/contracts/SortedTroves.sol:325-347 | the local test of a pair accepts exactly the neighbours of a fitting position |
| `SortedTroves.SortedTroves.DescendList` | packages/contracts/contracts/SortedTroves.sol:355-375 | ends at a fitting position from any node, even on an unsorted list |
| `SortedTroves.SortedTroves.AscendList` | packages/contracts/contracts/SortedTroves.sol:383-403 | ends at a fitting position from any node, even on an unsorted list |
| `SortedTroves.SortedTroves.FindInsertPosition` | packages/contracts/contracts/SortedTroves.sol:419-455 | for any two hints, exact, stale, absent or zero, the search ends at the neighbours of a fitting position |
| `SortedTroves.SortedTroves.Link` | packages/contracts/contracts/SortedTroves.sol:120-171 | the link updates splice the node in and keep all links mutually inverse |
| `SortedTroves.SortedTroves.Insert` | packages/contracts/contracts/SortedTroves.sol:120-171 | inserts at a fitting position, between the hints if they name one; refuses a full list, a known or zero id and a zero ratio |
| `SortedTroves.SortedTroves.Remove` | packages/contracts/contracts/SortedTroves.sol:182-217 | removes exactly the node, at any position |
| `SortedTroves.SortedTroves.ReInsert` | packages/contracts/contracts/SortedTroves.sol:226-244 | the node moves to a position that fits its new ratio among the others |
| `SortedTroves.InsertionSortedIff` | README.md:789-808 | inserting into a sorted list keeps it sorted exactly at fitting positions |
| `SortedTroves.RemovalSorted` | packages/contracts/contracts/SortedTroves.sol:182-217 | removal keeps the list sorted |
| `SortedTroves.SameRatiosAsSortedInsert` | README.md:789-808 | every fitting position gives the ratios of plain sorted insertion |
| `SortedTroves.HintsNamePosition` | README.md:789-808 | every fitting position is named by one pair of hints, which names no other |
| `SortedTroves.HintsImmaterialIff` | README.md:789-808 | the list is that of plain sorted insertion for all pairs of hints exactly when no trove has the same ratio |
| `RedistributionOrder.PairOrderIff` | README.md:1163-1169 | the order of two troves survives every redistribution exactly when their stake ratio lies between debt ratio and collateral ratio |
| `RedistributionOrder.RedistributionConserves` | packages/contracts/contracts/TroveManager.sol:1580-1626 | a redistribution gives the survivors together exactly what it takes, each in proportion to its stake, and the snapshots are the stakes and the entire collateral after it |
| `RedistributionOrder.StepSound` | README.md:1171-1185 | opening, adjusting, closing, applying rewards and redistributing keep stakes proportional to entire collateral and the list sorted |
| `RedistributionOrder.SurvivorsHaveStake` | packages/contracts/contracts/TroveManager.sol:1563-1578 | a surviving trove is all a redistribution needs |
| `RedistributionOrder.ListStaysSorted` | README.md:433-441 | after every run the list is sorted by current ratios although redistributions move no node |
| `Liquidation.OffsetSplitComplete` | packages/contracts/contracts/TroveManager.sol:546-581 | Normal Mode table: every unit of collateral and debt goes to exactly one place, pure offset, mixed or pure redistribution by pool size; the compensation is half a percent of the collateral |
| `Liquidation.OffsetKeepsRatio` | README.md:912-918 | depositors get the trove's collateral per debt, rounded down by less than a unit |
| `Liquidation.CapCovered` | packages/contracts/contracts/TroveManager.sol:586-603 | at 110% or more the cap never exceeds the trove's collateral |
| `Liquidation.RecoveryTable` | README.md:159-168 | Recovery Mode table: one row for every ratio, system ratio and pool; no row reverts, each split is complete, the surplus is collateral minus 110% of the debt, and the compensation half a percent of what is seized |
| `TroveAccounting.ApplyRewardsBooks` | packages/contracts/contracts/TroveManager.sol:1418-1452 | applying rewards keeps every total and leaves less than a unit of dust on either side |
| `TroveAccounting.TakeOutBooks` | packages/contracts/contracts/TroveManager.sol:363-414 | taking a trove out leaves exactly its entire collateral, debt and reserve to be booked |
| `TroveAccounting.RedistributeBooks` | packages/contracts/contracts/TroveManager.sol:1580-1626 | a redistribution with carried remainders loses nothing: claims plus remainder equal what the DefaultPool got |
| `TroveAccounting.PendingCollCovered` | packages/contracts/contracts/DefaultPool.sol:81-88 | no pending collateral exceeds the DefaultPool |
| `TroveAccounting.PendingDebtCovered` | packages/contracts/contracts/DefaultPool.sol:103-107 | without overlooked debt no pending debt exceeds the DefaultPool |
| `TroveRuns.OpenKeeps` | packages/contracts/contracts/BorrowerOperations.sol:194-283 | opening keeps all books; exactly the deposited collateral comes in |
| `TroveRuns.AdjustKeeps` | packages/contracts/contracts/BorrowerOperations.sol:383-499 | an adjustment keeps all books up to dust and, precisely, the debt that was overlooked |
| `TroveRuns.AdjustKeepsDebt` | packages/contracts/contracts/BorrowerOperations.sol:383-499 | when nothing was overlooked, the DefaultPool's debt still covers all claims |
| `TroveRuns.CloseKeeps` | packages/contracts/contracts/BorrowerOperations.sol:509-540 | closing keeps all books and pays out exactly the entire collateral |
| `TroveRuns.ClaimKeeps` | packages/contracts/contracts/CollSurplusPool.sol:118-135 | a claim keeps all books and pays out exactly the surplus |
| `TroveRuns.LiquidationKeeps` | packages/contracts/contracts/TroveManager.sol:833-907 | a batch keeps all books; the gas compensation is all that leaves the pools |
| `TroveRuns.RedeemKeeps` | packages/contracts/contracts/TroveManager.sol:1258-1377 | a redemption keeps all books; exactly the collateral drawn leaves, and exactly the amount redeemed and one reserve per closed trove is burnt |
| `TroveRuns.PoolCallKeeps` | packages/contracts/contracts/StabilityPool.sol:359-459 | a depositor's call keeps all books and pays out exactly the gain |
| `TroveRuns.MoveGainKeeps` | packages/contracts/contracts/BorrowerOperations.sol:295-303 | moving a gain to a trove conserves the collateral held by the pools |
| `TroveRuns.StepKeeps` | README.md:443-531 | every successful call keeps all books and accounts for every unit of collateral |
| `TroveRuns.BooksBalance` | README.md:502-531 | after every run: supply is the system debt, the GasPool holds one reserve per trove, ActivePool and stakes are the sums over troves, the pools hold exactly what came in and did not leave, and the DefaultPool covers all pending collateral with bounded dust |
| `TroveRuns.DebtBalances` | packages/contracts/contracts/TroveManager.sol:1580-1626 | if every redistribution moves `L_COLL`, the DefaultPool's debt is the claims and the carried remainder, with at most one unit of dust per reward application |
| `TroveRuns.RewardsNeverRefused` | packages/contracts/errorAccumulationTest/errorAccumulationTest.js:129-163 | if every redistribution moves `L_COLL`, any trove's rewards can be applied at any time and in any order |
| `TroveRuns.OverlookedIff` | packages/contracts/contracts/TroveManager.sol:1498-1509 | one redistribution from a state without overlooked debt leaves debt that `hasPendingRewards` overlooks exactly when its collateral is below the stakes, its debt is not, and some trove had nothing pending |
| `DebtCoverage.TopUpUncovers` | packages/contracts/contracts/TroveManager.sol:1498-1509 | a trove with overlooked debt can be topped up so that its pending debt exceeds the DefaultPool and it cannot be taken out |
| `DebtCoverage.UncoveredIff` | packages/contracts/contracts/TroveManager.sol:1498-1509 | some adjustment makes a pending debt exceed the DefaultPool if and only if some trove's debt snapshot lags while its collateral snapshot does not |
| `DebtCoverage.CoveredUntilLiquidationIff` | packages/contracts/contracts/TroveManager.sol:1418-1452 | the DefaultPool covers all pending debt after every run without liquidations if and only if there is no such trove at the start |
| `TroveSafety.NormalModeKept` | packages/contracts/contracts/BorrowerOperations.sol:743-780 | no opening, adjustment or closure brings the system into Recovery Mode at its price |
| `TroveSafety.OpenedTroveSafe` | packages/contracts/contracts/BorrowerOperations.sol:194-283 | a trove just opened is at 110% or more, at 150% or more in Recovery Mode |
| `TroveSafety.AdjustedTroveSafe` | packages/contracts/contracts/BorrowerOperations.sol:743-780 | an adjusted trove, rewards included, is at 110% or more; in Recovery Mode no collateral leaves, and new debt needs 150% and no lower ratio than before |
| `TroveEffects.OpenRefusedIff` | packages/contracts/contracts/BorrowerOperations.sol:194-283 | an opening is refused exactly for an open trove, too little debt, a zero nominal ratio, no stake to give, below 150% in Recovery Mode, and otherwise below 110% or with the system ending below 150% |
| `TroveEffects.OpenEffect` | packages/contracts/contracts/BorrowerOperations.sol:194-283 | the new trove's debt is the amount, the fee unless the system is below 150%, and the reserve; exactly that much is minted and booked |
| `TroveEffects.AdjustEffect` | packages/contracts/contracts/BorrowerOperations.sol:383-499 | the debt found with rewards falls by a repayment and rises by new debt and, unless the system is below 150%, its fee; the supply moves by the same, and collateral by what comes in and goes out |
| `TroveEffects.AdjustEntire` | packages/contracts/contracts/BorrowerOperations.sol:383-499 | the same of the entire amounts before and after, in a system that overlooks no debt |
| `TroveEffects.AdjustRefusedIff` | packages/contracts/contracts/BorrowerOperations.sol:383-499 | an adjustment is refused exactly for an ill-posed change, too little collateral, debt or balance, or new ratios that the mode forbids |
| `TroveEffects.CloseRefusedIff` | packages/contracts/contracts/BorrowerOperations.sol:509-540 | a closure is refused exactly in Recovery Mode, for the only trove, when the caller's balance does not cover the debt without the reserve, or with the system ending below 150% |
| `TroveEffects.CloseEffect` | packages/contracts/contracts/BorrowerOperations.sol:509-540 | the debt found is burnt, one reserve of it from the GasPool, and the entire collateral leaves |
| `TroveEffects.ClaimIff` | packages/contracts/contracts/CollSurplusPool.sol:118-135 | a claim succeeds exactly when there is a surplus, and takes that surplus alone |
| `TroveEffects.WithdrawRefusedIff` | packages/contracts/contracts/StabilityPool.sol:424-424 | no withdrawal but a claim succeeds while the last trove of the list, rewards included, is below 110%; the other refusals are the pool's own |
| `TroveEffects.LastSpeaksForAll` | packages/contracts/contracts/StabilityPool.sol:1061-1066 | on a list in ratio order the last trove is at 110% or more exactly when all are |
| `TroveEffects.MoveGainIff` | packages/contracts/contracts/StabilityPool.sol:468-511 | moving a gain to a trove is refused exactly when the pool refuses it or the trove may not be topped up |
| `TroveEffects.MoveGainEffect` | packages/contracts/contracts/BorrowerOperations.sol:295-303 | the whole gain joins the trove's collateral, its debt stays, and the deposit stays at its compounded value |
| `BatchOutcome.BatchTakesIff` | packages/contracts/contracts/TroveManager.sol:910-1021 | a trove is gone after a batch exactly when it was due at one of its turns: below 110%, or, not yet back in Normal Mode and with another trove left, below the ratio of the system after the earlier offsets with no more debt than the pool has left; all others are as before |
| `BatchOutcome.NormalBatchTakesIff` | packages/contracts/contracts/TroveManager.sol:992-1021 | begun in Normal Mode, a batch of any length takes exactly the listed troves that stood below 110% |
| `BatchOutcome.NormalBatchEffect` | packages/contracts/contracts/TroveManager.sol:833-907 | and the pool's total, the supply and the system debt fall by the smaller of the pool and the sum of those troves' entire debts; the compensation is half a percent of each one's collateral and its reserve |
| `BatchOutcome.RecoveryBatchTakes` | packages/contracts/contracts/TroveManager.sol:910-985 | in either mode every listed trove below 110% is gone, unless it is the only trove left |
| `BatchOutcome.BackInNormalModeIff` | packages/contracts/contracts/TroveManager.sol:956-963 | a batch counts as in Normal Mode from the first turn on after which the system without the offsets stands at 150% or more |
| `BatchOutcome.BatchEffect` | packages/contracts/contracts/TroveManager.sol:833-907 | pools, supply, surplus, GasPool and system snapshots after a batch are moved by the totals of those turns and by nothing else |
| `BatchOutcome.BatchRefusedIff` | packages/contracts/contracts/TroveManager.sol:833-1021 | a batch is refused exactly when its list is empty, no turn is due, a turn comes to the only trove left in Normal Mode, the pool cannot take the offset, or there is debt to share and no stake left |
| `TroveSafety.LiquidatedBelow` | packages/contracts/contracts/TroveManager.sol:833-1021 | a batch takes only listed troves, below 110% in Normal Mode and below 150% ever, and leaves the others as they were |
| `LiquidationSafety.StepRefusedIff` | packages/contracts/contracts/TroveManager.sol:363-541 | one trove of a batch is refused exactly when it is the only one and the batch has come to Normal Mode |
| `LiquidationSafety.LiquidationRefusedIff` | packages/contracts/contracts/TroveManager.sol:833-1021 | a batch reverts exactly when it is empty, meets the only trove in Normal Mode, liquidates nothing, is refused by the Stability Pool, or has debt to redistribute and no stake left |
| `LiquidationSafety.AbsorbedByPool` | packages/contracts/contracts/TroveManager.sol:833-907 | a trove between 100% and 110%, rewards included, that the pool can absorb is offset with its whole debt and its collateral less the compensation, and refused exactly when the pool refuses that offset |
| `TroveSafety.CappedSurplus` | packages/contracts/contracts/TroveManager.sol:417-541 | a capped liquidation leaves exactly its borrower the collateral beyond 110% of the debt |
| `TroveSafety.BatchSurplus` | packages/contracts/contracts/TroveManager.sol:833-1021 | a batch of any length leaves the borrower of each capped trove exactly that collateral, and nobody else anything |
| `TroveSafety.RedeemedSurplus` | packages/contracts/contracts/TroveManager.sol:1161-1175 | a trove closed by redemption leaves exactly its borrower the collateral not drawn |
| `TroveExamples.OverlookedDebtRefused` | packages/contracts/contracts/TroveManager.sol:1498-1509 | a run after which a trove's pending debt exceeds the DefaultPool and it cannot be taken out |
| `RedemptionStart.HintsAgreeIff` | packages/contracts/contracts/TroveManager.sol:1177-1192 | every accepted first hint names the trove the scan would find if and only if the redeemable troves are contiguous |
| `RedemptionStart.VisitsAscending` | README.md:176-184 | on a list in ratio order the troves visited are exactly the redeemable ones, in ascending order, for every hint |
| `RedemptionWalk.StepShape` | packages/contracts/contracts/TroveManager.sol:1089-1152 | one step touches one trove, and leaves it open only if the amount is used up or the step is cancelled |
| `RedemptionWalk.WalkHasShape` | README.md:184-202 | a redemption closes all troves of a prefix but at most the last, touches nothing else, and stops only when the amount, the list or the limit is exhausted, or at a cancelled step |
| `RedemptionWalk.WalkValue` | README.md:176-180 | the collateral drawn is worth the debt cancelled, short by at most one unit per trove |
| `RedemptionWalk.StepReadsHintIff` | packages/contracts/contracts/TroveManager.sol:1117-1129 | the ratio hint is read only where the amount ends within a trove, and cancels exactly on a mismatch or too small a rest |
| `RedemptionWalk.CancelledDropsLast` | README.md:822-848 | a cancelled redemption is, under any other hint, the redemption of the closed troves plus nothing |
| `RedemptionSafety.LotWithinShare` | packages/contracts/contracts/TroveManager.sol:1098-1109 | at 100% or more a lot never takes more collateral than its share |
| `RedemptionSafety.StepRefusedIff` | packages/contracts/contracts/TroveManager.sol:1089-1175 | in a consistent system a step on a covered trove reverts exactly when it would close the only trove or cannot re-insert the rest |
| `RedemptionSafety.RedemptionFair` | README.md:176-202 | from troves at 100% or more without overlooked debt: prefix shape, equal value, and no open trove worse collateralised than before |
| `RedemptionSafety.ListRedemptionFair` | README.md:176-202 | on a list in ratio order, from the scan or any accepted hint, the troves visited are all at 110% or more, so the same holds |
| `RedemptionOutcome.NoRedemptionBelow` | packages/contracts/contracts/TroveManager.sol:1283-1283 | in any state and from any start, no redemption succeeds while the system is below 110% |
| `RedemptionOutcome.RedemptionRefusedIff` | packages/contracts/contracts/TroveManager.sol:1258-1377 | on covered troves a redemption is refused exactly when the system is below 110%, the amount is zero or beyond the caller's balance, it closes every trove there is, the rest of the last trove cannot be written back, or the collateral drawn does not exceed the fee, each read off the troves' entire amounts before the call |
| `RedemptionOutcome.RedemptionEffect` | packages/contracts/contracts/TroveManager.sol:1258-1377 | a successful one closes exactly the troves the amount redeems in full within the limit, takes the rest from the next one if the hint names its ratio and enough debt stays, and leaves the others; supply, GasPool and collateral fall by exactly those amounts |
| `RedemptionOutcome.ListRedemption` | packages/contracts/contracts/TroveManager.sol:1292-1344 | on a list in ratio order those troves are the ones at 110% or more, wherever the call is told to start |
| `TroveManagerContract.TroveManagerState.IsValidFirstRedemptionHint` | packages/contracts/contracts/TroveManager.sol:1177-1192 | accepts exactly the redeemable troves whose lower neighbour is not |
| `TroveManagerContract.TroveManagerState.FirstToRedeem` | packages/contracts/contracts/TroveManager.sol:1292-1310 | the hint, or the first redeemable trove from the end of the list |
| `TroveManagerContract.TroveManagerState.NoneUnderCollateralized` | packages/contracts/contracts/StabilityPool.sol:1061-1066 | the test of the last trove, which on a list in ratio order tells whether every trove is at 110% or more |
| `TroveManagerContract.TroveManagerState.WithdrawFromSP` | packages/contracts/contracts/StabilityPool.sol:421-459 | the withdrawal over the list is the specified one; a withdrawal of nothing does not look at the list |
| `TroveManagerContract.TroveManagerState.RedeemLoop` | packages/contracts/contracts/TroveManager.sol:1312-1344 | the walk over the list that it changes is the walk over the list as it was at the start |
| `TroveManagerContract.TroveManagerState.ApplyPendingRewards` | packages/contracts/contracts/TroveManager.sol:1418-1452 | the trove's amounts and snapshots, then both pools, end as specified |
| `TroveManagerContract.TroveManagerState.UpdateStakeAndTotalStakes` | packages/contracts/contracts/TroveManager.sol:1551-1578 | stake and total end as specified; refused exactly by the assertion or an underflow |
| `TroveManagerContract.TroveManagerState.RedeemFromTrove` | packages/contracts/contracts/TroveManager.sol:1089-1175 | one trove of the walk ends as specified; a closed one leaves the list, a partial one is re-inserted before it is written |
| `TroveManagerContract.TroveManagerState.RedistributeDebtAndColl` | packages/contracts/contracts/TroveManager.sol:1580-1626 | the running totals, the remainders by multiplying back, and both pools end as specified |
| `TroveManagerContract.TroveManagerState.RedeemCollateral` | packages/contracts/contracts/TroveManager.sol:1258-1377 | the loop of those updates is the specified redemption, and the list again holds exactly the active troves |
| `TroveManagerContract.TroveManagerState.LiquidateNormalMode` | packages/contracts/contracts/TroveManager.sol:363-414 | rewards moved, stake and list entry removed, totals tallied as specified |
| `TroveManagerContract.TroveManagerState.LiquidateRecoveryMode` | packages/contracts/contracts/TroveManager.sol:417-541 | the same in the branches of Recovery Mode, with the surplus and the tracked amounts |
| `TroveManagerContract.TroveManagerState.BatchLiquidateTroves` | packages/contracts/contracts/TroveManager.sol:833-1021 | the loop of those updates and the moves at the end are the specified batch, and the list again holds exactly the active troves |
| `BorrowerOperations.BorrowerOps.OpenTrove` | packages/contracts/contracts/BorrowerOperations.sol:194-283 | the in-place opening is the specified one, refused also by the list; a list in order of current nominal ratios stays so |
| `BorrowerOperations.BorrowerOps.AdjustTrove` | packages/contracts/contracts/BorrowerOperations.sol:383-499 | the in-place adjustment is the specified one; the trove is put where its recorded ratio fits, and a list in order stays so unless the trove overlooks debt |
| `BorrowerOperations.BorrowerOps.CloseTrove` | packages/contracts/contracts/BorrowerOperations.sol:509-540 | the in-place closure is the specified one and takes exactly this trove off the list, which stays in order |
| `TotalRatio.LiquidationNotLoweredIff` | README.md:159-168 | a liquidation lowers the total ratio exactly when what leaves is richer than the system was |
| `TotalRatio.AbsorbedNotLowered` | README.md:164-166 | a batch of troves poorer than the system, absorbed without redistribution, does not lower it |
| `TotalRatio.SingleNotLowered` | README.md:155-166 | nor does a single full offset in Normal Mode, at any ratio below the total one, or a full or capped offset above 100% in Recovery Mode, by conditions readable beforehand |
| `TotalRatio.RedistributionLowersIff` | README.md:163-163 | a whole redistribution lowers it exactly when the compensation is non-zero |
| `TotalRatio.OpenNotLowered` | README.md:208-214 | opening in Recovery Mode does not lower it |
| `TotalRatio.AdjustNotLowered` | README.md:208-214 | adding collateral or repaying does not lower it |
| `TotalRatio.RunNotLowered` | README.md:208-214 | no sequence of such calls does, at whatever prices |
| `FeeDecay.DecPowAccurate` | packages/contracts/contracts/Dependencies/LiquityMath.sol:63-90 | exponentiation by squaring with rounding is within half a unit per minute of the exact power, and at most 1 |
| `FeeDecay.DecPowLoop` | packages/contracts/contracts/Dependencies/LiquityMath.sol:63-90 | the loop computes that function, with that accuracy |
| `BaseRate.ClockNotStalled` | README.md:1136-1138 | over every run the recorded time lags any accepted event by less than a minute, and at least half of what it advanced was applied as decay |
| `BaseRate.RateFollowsDecay` | packages/contracts/contracts/TroveManager.sol:1746-1769 | over every run the rate follows exact exponential decay for the minutes applied, within rounding and half of the exact shares that redemptions took out of the supply, and stays within 100% |
| `BaseRate.RaiseNear` | packages/contracts/contracts/TroveManager.sol:1753-1757 | what a redemption adds is half of its exact share of the supply at face value, rounded down by less than a unit of the last place |
| `BaseRate.RedemptionRaises` | packages/contracts/contracts/TroveManager.sol:1746-1769 | the rate after a redemption is the decayed rate plus that half share, capped at 100%, to within a unit below and never above |
| `BaseRate.EventRefusedIff` | packages/contracts/contracts/TroveManager.sol:1746-1769 | an event is refused exactly from the past, or as a redemption without supply or one that leaves the rate at zero |
| `BaseRate.RunNearIdeal` | packages/contracts/contracts/TroveManager.sol:1746-1769 | over every run the rate stays, above and below, with the one that decays and rises without rounding, within a unit and a half per minute and one unit per event |
| `BaseRate.BorrowingRate` | packages/contracts/contracts/TroveManager.sol:1818-1820 | between 0.5% and 5%, and exact below the cap |
| `BaseRate.FeeRefusedIff` | packages/contracts/contracts/TroveManager.sol:1779-1806 | the fee eats up the collateral exactly when the base rate has reached 99.5% |
| `BaseRate.FeeExact` | packages/contracts/contracts/TroveManager.sol:1779-1806 | below that the fee is half a percent and the base rate on the collateral drawn, rounded down |
| `BaseRate.FeeState.CalcDecayedBaseRate` | packages/contracts/contracts/TroveManager.sol:1863-1872 | the decayed rate, through the exponentiation loop |
| `BaseRate.FeeState.UpdateLastFeeOpTime` | packages/contracts/contracts/TroveManager.sol:1854-1861 | the time moves only after a whole minute |
| `BaseRate.FeeState.DecayBaseRateFromBorrowing` | packages/contracts/contracts/TroveManager.sol:1839-1849 | the in-place event is the specified one and never raises the rate |
| `BaseRate.FeeState.UpdateBaseRateFromRedemption` | packages/contracts/contracts/TroveManager.sol:1746-1769 | the in-place event is the specified one; the rate ends positive and within 100% |
| `StakeSimulation.RoundNotRaised` | packages/contracts/errorAccumulationTest/errorAccumulationTest.js:968-995 | a liquidate-then-open round never raises stake per collateral and loses less than one unit of stake |
| `StakeSimulation.RunNotRaised` | packages/contracts/errorAccumulationTest/errorAccumulationTest.js:968-995 | nor does any number of rounds, and stakes stay within collateral |
| `StakeSimulation.Simulate` | packages/contracts/errorAccumulationTest/errorAccumulationTest.js:968-995 | the loop over running totals |
| `StakeRuns.TurnOnChain` | README.md:1175-1183 | a liquidation and an opening on chain: the snapshots are the stakes without the liquidated one and the collateral less what leaves |
| `StakeRuns.SimulationBelow` | packages/contracts/errorAccumulationTest/errorAccumulationTest.js:968-995 | over every sequence of liquidations and openings the simulated stakes never exceed the contract's, and the simulated collateral exceeds the contract's by exactly what has left |
| `StakeRuns.AgreesIff` | packages/contracts/errorAccumulationTest/errorAccumulationTest.js:968-995 | the running-total formula gives every entrant the contract's stake at every iteration if and only if no liquidation takes collateral out |
| `StakeRuns.EqualTotals` | packages/contracts/errorAccumulationTest/errorAccumulationTest.js:968-995 | and then the simulation ends with the contract's totals |
| `StakeRuns.LeftIs` | README.md:151-168 | what leaves with a liquidation is the compensation, the pool's part and the surplus of a split that is read off the state before the call |
| `StakeRuns.RedistributionLeaves` | README.md:163-163 | a pure redistribution takes out the compensation, which is nothing exactly below 200 units of collateral |
| `RedemptionSimulator.PartialRaisesRatio` | packages/contracts/macroModel/macro_model.py:330-337 | a positive residual at face value strictly raises the ratio of the partial trove |
| `RedemptionSimulator.Redempt` | packages/contracts/macroModel/macro_model.py:318-337 | the loop fails exactly when the amount reaches the whole supply; otherwise it drops a prefix, lowers the supply by exactly the amount and leaves every trove at 110% or more |
| `RedemptionSimulator.RedemptRiskiest` | packages/contracts/macroModel/macro_model.py:313-337 | the table is sorted by recorded ratio first, so no dropped trove has a higher recorded ratio than a kept one |
| `MacroModel.LiquidateTroves` | packages/contracts/macroModel/macro_model.py:125-136 | exactly the rows at 110% or more stay, with that ratio recorded |
| `MacroModel.WithoutIs` | packages/contracts/macroModel/macro_model.py:169-173 | closing a sample leaves the rows at all other positions, in their order |
| `MacroModel.AdjustedExact` | packages/contracts/macroModel/macro_model.py:184-200 | an owner acts outside one unit of inattention below and two above the target, and then meets it exactly, by debt or by collateral |
| `MacroModel.AdjustTroves` | packages/contracts/macroModel/macro_model.py:180-203 | every row is at its target or where it was, at 110% or more, and issuance is charged exactly on the debt added |
| `MacroModel.OpenTroves` | packages/contracts/macroModel/macro_model.py:207-242 | every new row is at 110% or more, and issuance is charged on all of its debt |
| `MacroModel.NewRowExact` | packages/contracts/macroModel/macro_model.py:224-240 | a new row has the collateral drawn and debt at exactly its target ratio |
| `MacroModel.Round` | packages/contracts/macroModel/macro_model.py:261-341 | from positive rows with targets of 110% or more, every row that enters the stabilizer is at 110% or more, and the round leaves such rows again: at the ceiling the same rows and one at exactly 110%, at the floor those of a redemption from the riskiest, otherwise the same rows |
| `MacroModel.Simulate` | packages/contracts/macroModel/macro_model.py:261-341 | so it is in every round of every simulation from the initial openings on |
| `PegModel.StepBounded` | packages/contracts/model/model_v2.py:175-229 | base fee within a third, price within the ceiling, redemptions within the supply |
| `PegModel.RedeemedToPeg` | packages/contracts/model/model_v2.py:53-66 | redemptions bring price, fee and the share of the supply redeemed to exactly one, if price and fee are below it |
| `PegModel.FeeFollowsPeg` | packages/contracts/model/model_v2.py:67-75 | the next fee is half the fee and a quarter of that gap |
| `PegModel.MarketClears` | packages/contracts/model/model_v2.py:81-108 | unless the price is floored, issuance is demand less redemptions |
| `PegModel.StepClears` | packages/contracts/model/model_v2.py:175-229 | one round: below the ceiling price and issuance are the market's; above it the excess issued makes up for holding the price at the ceiling |
| `PegModel.Simulate` | packages/contracts/model/model_v2.py:175-229 | every state of every simulation is within these bounds, until an issuance of zero |
| `BNConverter.MakeBNValue` | packages/contracts/utils/BNConverter.js:17-31 | parsing a plain decimal gives its value times ten to the precision, and refuses exactly too many decimals |
| `BNConverter.MakeBNWhole` | packages/contracts/utils/BNConverter.js:17-31 | without a point it is the whole number times ten to the precision |
| `BNConverter.MakeBNRefusedIff` | packages/contracts/utils/BNConverter.js:17-31 | refused exactly for strings that are not digits with at most one point, and for too many decimals |
| `BNConverter.RoundTripIff` | packages/contracts/utils/BNConverter.js:49-65 | printing and parsing back returns the number if and only if there is at least one digit |

## Left out

- RedistributionOrder.ListStaysSorted: stated over exact reals; how far rounding of integer stakes and nominal ratios can move neighbours is not bounded. The list search ends at a fitting position on lists in any order.
- SortedTroves.HintsImmaterialIff: nominal ratios are taken as a function for one call; that they are current is the caller's affair.
- PoolWithdrawals.WithdrawAllIff: the unconditional claim is false; the condition is on the state before the first withdrawal.
- PoolSolvency.BackedRunCoversGains: one way, under a condition on exact worths at each offset; PoolWithdrawals.WithdrawAllIff has the condition on getters.
- RedemptionSafety.ListRedemptionFair: for lists in order of current ratios in a system without overlooked debt; how both come about is the subject of RedistributionOrder and DebtCoverage.
- RedemptionOutcome.RedemptionRefusedIff: for troves ahead at 100% or more in a system without overlooked debt, which RedemptionOutcome.ListRedemption gives on a list in ratio order; RedemptionOutcome.NoRedemptionBelow holds in any state.
- BatchOutcome.BatchRefusedIff: for systems in which the DefaultPool covers all pending debt; who is taken by a successful batch (BatchOutcome.BatchTakesIff) is stated without that.
- TroveRuns.RewardsNeverRefused: needs every redistribution to move `L_COLL`, for the reason shown by TroveExamples.OverlookedDebtRefused; the exact condition, state by state, is DebtCoverage.UncoveredIff.
- TroveManagerContract.TroveManagerState.RedeemCollateral: the storage of all contracts is one record field, so aliasing between contracts is not captured; a failing call promises nothing about the variables, because the chain rolls it back.
- BorrowerOperations.BorrowerOps.AdjustTrove: the order of the list is by integer nominal ratios at one moment; across redistributions it is treated over exact reals, in RedistributionOrder.
- `liquidateTroves` and its walk along the list: the same single-liquidation step in another order, with the surplus also taken out of the tracked collateral (the batch leaves it in).
- Several collateral tokens sharing one debt token: the model has one collateral and one TroveManager.
- DeftRuns.RunAtLeast: what positions beyond one scale shift miss is tallied exactly, not bounded. The issuance schedule, staking and lockup are not modelled: the amount issued is an argument.
- 256-bit overflow reverts: integers are unbounded; `uint128` scales and epochs likewise.
- Token balances and allowances of callers, the gateway's calls on behalf of others, access control: callers' balances are arguments.
- Fees as amounts: calls take the fee as an argument; `BaseRate` covers how it is computed.
- The price feed, the maximum fee percentage and the bootstrap period: the price is an argument, the other two would only add refusals.
- MacroModel.Round: random draws and the stabilizer's amounts are arguments, positive where the distributions and the price thresholds make them so; the price and stability pool series are not modelled, nor are decimal strings with signs or exponents (BNConverter).
