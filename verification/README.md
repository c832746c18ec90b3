# StellarKraal verification model

A Dafny model of the livestock-lending system, with proofs about whole runs of it. `dafny verify
dfyconfig.toml` checks everything. Four parts:

- **The lending contract.** `LendingModel` gives contract storage as a value, one transaction
  function per entry point (commit a new state, or fail and leave the state alone, as the host rolls
  back a failed invocation), and runs of such transactions mixed with token movements the contract
  has no part in. `StellarKraalContract` is the contract as it is written: a class with the storage as
  fields and one method per entry point, loops and in-place sort included, each proved to realise its
  transaction function exactly. `LendingInvariants`, `LendingConservation`, `LendingSafety`,
  `LendingDecay`, `LendingInterest`, `LendingPrices`, `LendingLinks`, `LendingUpgrade`,
  `LendingPause`, `LendingAccounts`, `LendingCharges`, `LendingDefault`, `LendingValuation`,
  `LendingAdmission` and `LendingRefusals` prove what the transactions and their runs mean.
- **Price aggregation.** `OrderStatistics` defines the median without sorting, by counting.
  `PriceSorts` holds the exchange sort and the bubble sort on arrays; `CarbonOracleContract` the carbon
  price oracle; `PriceAggregation` the off-chain pipeline over real numbers. All three medians are
  proved equal to the one definition.
- **The loan index and bulk retirement.** `LoanIndex` is the event indexer under repeated delivery;
  `Retirement` the batch endpoint with its sub-transactions.
- **The volume rule.** `VolumeSpike` relates the lazily advanced windows to the histogram of the whole
  event stream.

`Outcomes`, `Registries` and `Division` are shared vocabulary.

On-chain integers are unbounded here; every checked, saturating or trapping operation is written out
against the largest i128, u64 or u32. All operands are non-negative where the code divides, so its
truncating division is a floor. `Error.Trap` stands for a host trap: refused authorisation of the
contract's own address, a failed transfer, an unchecked overflow, a division by zero. Time is a
parameter of each event; only the results about a price window and about interest over several events
assume increasing times. The treasury may be the contract itself, which nothing in the code rules out;
its fees then stay in the pool.

## What the code does not do

Points where a promise fails, or the code and its comments disagree. The model follows the code.

- The price ceiling documented at `contracts/stellarkraal/src/lib.rs:68-70` is enforced for batches of
  prices but not by `submit_price` (`SubmitPriceAccepts`), so a window's sum can saturate
  (`UncheckedPricesSaturate`). Exactly when the stored price is no longer the mean is
  `TwapIsMeanIff`, and exactly when it falls below every submission `TwapInRangeIff`.
- The "time-weighted" price is the arithmetic mean of the window's submissions (`TwapIsMean`).
- `health_factor` divides by zero on a loan that was liquidated with interest unpaid
  (`HealthOfClosedLoan`, `ClosingLeavesHealth`, reached in `UnpaidInterestReachable`). `liquidate` itself
  never does.
- `liquidate` lowers the principal without accruing interest first, so the interest waiting on that
  principal is never charged (`LiquidationForgivesInterest`); this is all that is lost at a steady fee
  (`InterestExact`), and nothing is exactly when liquidations come in the second of the last accrual
  (`LostIff`).
- A changed interest fee applies to all the time since the last repayment (`FeeChangeErasesInterest`,
  `ChargesRound`).
- Unpaid interest never affects whether a loan can be liquidated, as long as the debt fits i128
  (`UnpaidInterestIrrelevant`).
- `set_ltv` and `set_liquidation_threshold` are not compared with each other, and collateral may back
  several loans; the lifetime margin is therefore stated over the current threshold and per loan.
- A collateral's `loan_id` is never reset to 0; it keeps naming the latest loan (`LinkIsLatestLoan`).
- `update_appraisal` does not test the per-animal cap of `register_livestock` (`ReappraiseSucceedsIff`).
- `MAX_PAUSE_DURATION` is 518 400 seconds, six days, not about thirty. A pause set at time 0 for
  duration 0 has no expiry (`PauseExpires`, `EndlessPauseReachable`). The interest fee starts at 1000
  bps although the setter's maximum is 500.
- If a source may report a negative price, the off-chain manipulation bound cannot be measured from the
  majority's lower end once `maxDeviationPct` exceeds 100 (`ManipulationBound`,
  `LowerSideFailsAbove100`); otherwise it can (`NonNegativeManipulationBound`).
- `rejectOutliers` can empty a batch of even size, and the caller then throws
  (`RejectionEmptiesIff`, `TwoDistantSourcesVanish`).
- Repeated delivery is not always invisible: exactly when some delivered repayment or liquidation of an
  indexed loan is not a replay, redelivering it changes the index (`RedeliveryInvisibleIff`,
  `ExactlyOnceIff`). That takes a status event that overtakes the creation of its own loan
  (`NoOvertakingIsQuiet`, `OvertakingVisibleIff`); no order between other events is needed. A loan's
  second event in one ledger is dropped (`SameLedgerSecondEventDropped`).
- The configuration accepts a zero-width volume window, with which the roll-forward loop never ends, and
  a chunk size of 0, with which the chunking loop does not (`LoopEndsIffWidthPositive`,
  `ChunkingEndsIff`).

## Model

| member | source | states |
|---|---|---|
| `LendingConservation.PoolConserved` | contracts/stellarkraal/src/lib.rs:596-635 | over every run, contract tokens plus all outstanding principal = the starting value + interest (and self-paid fees) retained + outside deposits - emergency withdrawals, each total being non-negative |
| `LendingConservation.PoolNeverShrinks` | contracts/stellarkraal/src/lib.rs:1096-1119 | a run without an emergency withdrawal never lowers tokens plus outstanding principal, whatever admins, borrowers and liquidators do |
| `LendingConservation.StepConserves` | contracts/stellarkraal/src/lib.rs:707-713 | one event changes the pool by exactly its own retained part, deposit and withdrawal; borrowing (with a treasury of its own) and liquidating change it by nothing |
| `LendingConservation.RetainedShare` | contracts/stellarkraal/src/lib.rs:702-713 | at least nine tenths of the interest a repayment collects stays in the pool |
| `LendingConservation.BorrowLedger` | contracts/stellarkraal/src/lib.rs:600-635 | every balance after a loan: the pool pays exactly the amount, the treasury gets the floored fee (less than the amount), the borrower the rest, nobody else moves |
| `LendingConservation.RepayDebt` | contracts/stellarkraal/src/lib.rs:670-719 | a repayment lowers principal + interest due by exactly min(amount, debt), lowers principal only once no interest is left, touches no other loan, and closes the loan iff it covers the debt |
| `LendingConservation.RepayLedger` | contracts/stellarkraal/src/lib.rs:691-713 | every balance after a repayment: borrower pays min(amount, debt), treasury gets its floored share of the interest paid, the pool the rest |
| `LendingConservation.LiquidateLedger` | contracts/stellarkraal/src/lib.rs:765-781 | every balance and the loan record after a liquidation: the whole amount reaches the pool and comes off the principal, never past zero |
| `LendingSafety.LifetimeMargin` | contracts/stellarkraal/src/lib.rs:586-594 | a loan granted at LTV L on value V cannot be liquidated, after any run, by anyone, while current value x current threshold >= V x L |
| `LendingSafety.SafeWhileValueHolds` | contracts/stellarkraal/src/lib.rs:760-763 | so it cannot be liquidated while no listed collateral's effective value fell and the threshold is at least the origination LTV; with an empty run this is a loan just granted |
| `LendingSafety.LoanTerms` | contracts/stellarkraal/src/lib.rs:570-611 | the terms a loan is granted on (10000 x amount <= value x LTV) and that the health factor sees exactly the origination value right after |
| `LendingSafety.LiquidateSucceedsIff` | contracts/stellarkraal/src/lib.rs:733-771 | a liquidation succeeds iff unpaused, whitelisted (or the list is empty), loan open, arithmetic fits, value x threshold < 10000 x principal, amount within the close factor and affordable |
| `LendingSafety.UnpaidInterestIrrelevant` | contracts/stellarkraal/src/lib.rs:1523-1553 | changing only the interest recorded on an open loan, while the debt fits, changes neither its health factor nor the success of any liquidation |
| `LendingSafety.HealthExact` | contracts/stellarkraal/src/lib.rs:1523-1553 | for an open loan the health factor is defined iff the products fit i128, and is below 10000 iff value x threshold < 10000 x principal (no rounding gap) |
| `LendingSafety.HealthOfClosedLoan` | contracts/stellarkraal/src/lib.rs:885-893 | for a closed loan it is defined (as the maximum) iff no interest was left; a liquidated loan with unpaid interest divides by zero |
| `LendingSafety.ClosingLeavesHealth` | contracts/stellarkraal/src/lib.rs:773-781 | the liquidation that closes a loan leaves its health factor trapping iff interest was recorded, and at the maximum otherwise |
| `LendingDefault.UnpaidInterestReachable` | contracts/stellarkraal/src/lib.rs:1523-1553 | a run of a fresh contract (register, borrow, repay one unit a year later, move two settings, liquidate in full) reaches a loan whose health factor traps |
| `LendingSafety.RepaymentImprovesHealth` | contracts/stellarkraal/src/lib.rs:685-700 | repaying a loan that stays open never lowers its health factor nor makes it undefined |
| `LendingSafety.LiquidationImprovesHealth` | contracts/stellarkraal/src/lib.rs:773-781 | liquidating a loan that stays open never lowers its health factor nor makes it undefined |
| `LendingSafety.PriceImprovesHealth` | contracts/stellarkraal/src/lib.rs:1479-1518 | a higher effective oracle price never lowers the health factor of an open loan |
| `LendingSafety.HealthMonotone` | contracts/stellarkraal/src/lib.rs:1547-1553 | less principal or more collateral value never lowers the health factor, through both divisions |
| `LendingSafety.EffectiveValueBounds` | contracts/stellarkraal/src/lib.rs:1502-1518 | the effective value of a recorded collateral lies in [1, appraised value] |
| `LendingSafety.FallbackNeverTaken` | contracts/stellarkraal/src/lib.rs:1529-1545 | the current value of a recorded loan's collateral is positive, so the fallback to the origination value is dead |
| `LendingDecay.LiquidationDecay` | contracts/stellarkraal/src/lib.rs:765-781 | after k successful liquidations at close factors <= c and no successful repayment, outstanding x 10000^k >= initial x (10000 - c)^k, whatever other events happen in between |
| `LendingDecay.PartialLiquidationsNeverClose` | contracts/stellarkraal/src/lib.rs:765-781 | no number of liquidations below the full close factor ever closes an open loan |
| `LendingDecay.LiquidatedOnlyInFull` | contracts/stellarkraal/src/lib.rs:773-781 | an open loan becomes Liquidated iff one liquidation repays its whole principal, and then the close factor is exactly 10000 |
| `LendingDecay.ElsewhereUntouched` | contracts/stellarkraal/src/lib.rs:649-804 | an event that neither repays nor liquidates a loan leaves its record alone |
| `LendingInvariants.RunKeeps` | contracts/stellarkraal/src/lib.rs:493-804 | every reachable state is consistent: ids are 1..counter, Active iff principal > 0, Repaid implies no interest, 0 <= outstanding <= principal, principal within 90% of value, every listed collateral exists and belongs to the borrower, links point to listing loans, oracle list duplicate-free with at most 5 entries, whitelist counter exact, rates in range |
| `LendingInvariants.StepKeeps` | contracts/stellarkraal/src/lib.rs:300-1433 | every entry point, successful or not, keeps that invariant |
| `LendingInvariants.InitializeEstablishes` | contracts/stellarkraal/src/lib.rs:303-354 | a successful deployment is consistent, stores each argument in its place and every default as written out |
| `LendingInvariants.BorrowKeeps` | contracts/stellarkraal/src/lib.rs:553-643 | a new loan and the redirected links of its collaterals keep it |
| `LendingInvariants.RepayKeeps` | contracts/stellarkraal/src/lib.rs:649-729 | repayment with accrual keeps it: status and debt agree in every branch |
| `LendingInvariants.LiquidateKeeps` | contracts/stellarkraal/src/lib.rs:733-804 | liquidation keeps it: the close factor never lets the principal go negative |
| `LendingInvariants.ReconfigureKeeps` | contracts/stellarkraal/src/lib.rs:364-463 | every administrative setter keeps the configuration's ranges, the oracle list's distinctness and the whitelist counter |
| `LendingInvariants.RunEvolves` | contracts/stellarkraal/src/lib.rs:601-611 | along every run a loan's terms are fixed, its principal never grows, and a closed loan's record never changes again |
| `LendingInvariants.OnlyAdminReconfigures` | contracts/stellarkraal/src/lib.rs:467-489 | configuration changes only at the hand of the present admin, or when the proposed account takes over, which changes only the role |
| `LendingInvariants.OracleListSteps` | contracts/stellarkraal/src/lib.rs:1168-1220 | how the oracle list changes: appended, one taken out, or a new single oracle as long as neither has succeeded |
| `LendingInvariants.StepEffects` | contracts/stellarkraal/src/lib.rs:478-489 | what an accepted role, a reappraisal and an executed upgrade leave behind |
| `LendingInvariants.StepFrame` | contracts/stellarkraal/src/lib.rs:300-1433 | which parts of storage each kind of call may touch |
| `LendingInterest.AccrualClips` | contracts/stellarkraal/src/lib.rs:670-683 | the two saturating products equal clipping the exact product once, and never exceed the exact interest |
| `LendingInterest.PiecewiseInterest` | contracts/stellarkraal/src/lib.rs:670-683 | accruing at k increasing times never charges more than one accrual over the whole span and at most k - 1 units less, all other fields being equal |
| `LendingInterest.SpanSplits` | contracts/stellarkraal/src/lib.rs:670-683 | splitting a span loses at most one unit and never gains |
| `LendingAccounts.PrincipalAccounted` | contracts/stellarkraal/src/lib.rs:600-781 | from the grant of a loan on, along every run, principal outstanding + repaid + liquidated is the amount lent, and interest due + paid is the interest charged |
| `LendingAccounts.DebtAccounted` | contracts/stellarkraal/src/lib.rs:685-781 | the same identities along every run from any state |
| `LendingAccounts.EntryBalances` | contracts/stellarkraal/src/lib.rs:685-781 | what one event books on a loan is exactly the change of its two balances |
| `LendingCharges.InterestExact` | contracts/stellarkraal/src/lib.rs:670-683 | at a steady fee f with fitting products, along every run: f x exposure less the interest not charged yet and less that on the principal-seconds liquidations took off the loan, minus what was charged, is non-negative and below one unit per repayment |
| `LendingCharges.ExposureSplits` | contracts/stellarkraal/src/lib.rs:670-781 | for any fees, principal outstanding over time is exactly what repayments charged for, plus what liquidations took off before any charge, plus what waits for the next charge |
| `LendingCharges.LostIff` | contracts/stellarkraal/src/lib.rs:773-781 | nothing is lost iff every liquidation of the loan comes in the second of its last accrual |
| `LendingCharges.ChargesRound` | contracts/stellarkraal/src/lib.rs:670-683 | for any fees, charges never exceed the interest due at the fee in force at each repayment on all principal-seconds since the last one, and fall short by less than a unit per repayment while the products fit |
| `LendingCharges.InterestBounded` | contracts/stellarkraal/src/lib.rs:670-683 | whatever the fees, interest charged along a run never exceeds ten percent a year on the principal outstanding second by second |
| `LendingDefault.LiquidationForgivesInterest` | contracts/stellarkraal/src/lib.rs:773-781 | a run of a fresh contract in which 60000 are due after a year, half the principal is liquidated, and the next repayment finds 30000 |
| `LendingDefault.FeeChangeErasesInterest` | contracts/stellarkraal/src/lib.rs:670-683 | a run in which 60000 are due after a year, the fee is set to 0, and the next repayment finds nothing due |
| `LendingPrices.TwapIsMean` | contracts/stellarkraal/src/lib.rs:1276-1294 | after any run over both price entry points the stored price is the floored mean of the window's submissions and lies within their bounds, if they are below 10^18 (or their sum fits) and at most 2^32 - 1 |
| `LendingPrices.TwapIsMeanIff` | contracts/stellarkraal/src/lib.rs:1276-1294 | for any prices, the stored price is the floored mean iff the sum of the n submissions is below n * (i128 maximum / n + 1) |
| `LendingPrices.TwapInRangeIff` | contracts/stellarkraal/src/lib.rs:1324-1342 | for any prices, the stored price lies between the least submission a and an upper bound iff n * a fits i128 |
| `LendingPrices.TwapFollowsWindow` | contracts/stellarkraal/src/lib.rs:1324-1342 | over every run, whatever the prices, last price, time, sum and count are those of the window, which is read off the accepted submissions and their times alone; sum clipped at i128, count at u32 |
| `LendingPrices.OracleReportSound` | contracts/stellarkraal/src/lib.rs:1223-1309 | a batch is accepted iff one price in (0, 10^18) per listed oracle, quorum met, list not empty; the answer is the median of the batch with the number of prices more than half of it away, stays in range, and no minority moves it out of a majority's range |
| `LendingPrices.SubmitPriceAccepts` | contracts/stellarkraal/src/lib.rs:1313-1322 | the single-price entry point accepts every positive price of the configured oracle: the documented ceiling is not enforced |
| `LendingPrices.UncheckedPricesSaturate` | contracts/stellarkraal/src/lib.rs:1313-1336 | hence from any state without a price two accepted submissions of the largest price in one window are averaged to half of what both said |
| `LendingPrices.FreshContract` | contracts/stellarkraal/src/lib.rs:303-354 | a fresh contract is such a state |
| `LendingPrices.EffectivePriceIsMean` | contracts/stellarkraal/src/lib.rs:1479-1499 | after any run the price used by valuations is the mean of the window's submissions, and there is none iff nothing was submitted yet |
| `LendingPrices.HerdValueBounded` | contracts/stellarkraal/src/lib.rs:1502-1518 | while the window's prices are at most b, no herd counts for more than 1.2 b per head, whatever its appraisal |
| `LendingPrices.RecordKeepsAverages` | contracts/stellarkraal/src/lib.rs:1276-1294 | recording one price turns the clipped averages of a window into those of the window with that price, or of the next window |
| `LendingValuation.RegistersUpToMean` | contracts/stellarkraal/src/lib.rs:493-549 | after any run with prices in range, livestock is registered iff the other conditions hold and the value is at most count * floor(1.2 * mean of the window) |
| `LendingValuation.ReappraisesUpToMean` | contracts/stellarkraal/src/lib.rs:897-955 | likewise for a reappraisal |
| `LendingValuation.HerdCountsAtMean` | contracts/stellarkraal/src/lib.rs:1502-1518 | after any run with prices in range, a herd counts at exactly min(appraisal, count * floor(1.2 * mean of the window)) |
| `LendingValuation.UnpricedValuations` | contracts/stellarkraal/src/lib.rs:514-526 | before the first price nothing but the other conditions limits a valuation |
| `LendingValuation.EffectiveValueIs` | contracts/stellarkraal/src/lib.rs:1502-1518 | the value of a herd with the numbers written out, clipping included |
| `LendingValuation.RegistersUpTo` | contracts/stellarkraal/src/lib.rs:514-526 | the limit of a registration with the numbers written out, clipping included |
| `LendingValuation.ReappraisesUpTo` | contracts/stellarkraal/src/lib.rs:919-933 | the limit of a reappraisal with the numbers written out, clipping included |
| `LendingValuation.EffectivePriceWithin` | contracts/stellarkraal/src/lib.rs:1479-1499 | with bounds set, the effective price is the recorded one moved into them |
| `LendingRefusals.RegisterRefusals` | contracts/stellarkraal/src/lib.rs:493-526 | which refusal each failing registration answers, code by code |
| `LendingRefusals.ReappraiseRefusals` | contracts/stellarkraal/src/lib.rs:897-933 | which refusal each failing reappraisal answers |
| `LendingRefusals.BorrowRefusals` | contracts/stellarkraal/src/lib.rs:553-568 | which refusal a borrowing request that is not in order answers |
| `LendingRefusals.BorrowStops` | contracts/stellarkraal/src/lib.rs:570-584 | the appraisal loop answers for the first collateral that is missing or not owned |
| `LendingRefusals.BorrowOverflows` | contracts/stellarkraal/src/lib.rs:580-602 | with owned collateral: what each overflow and too large an amount answer, in order |
| `LendingRefusals.BorrowTests` | contracts/stellarkraal/src/lib.rs:586-635 | with fitting arithmetic: InsufficientCollateral iff the LTV share is exceeded, a trap iff the pool is short |
| `LendingRefusals.RepayRefusals` | contracts/stellarkraal/src/lib.rs:649-668 | which refusal each failing repayment answers |
| `LendingRefusals.RepayTests` | contracts/stellarkraal/src/lib.rs:681-709 | the borrower's own open loan: InvalidAmount iff an overflow, a trap iff the balance is short |
| `LendingRefusals.LiquidateRefusals` | contracts/stellarkraal/src/lib.rs:733-763 | which refusal each failing liquidation answers up to the health factor |
| `LendingRefusals.LiquidateTests` | contracts/stellarkraal/src/lib.rs:760-775 | then HealthFactorSafe, ExceedsCloseFactor and the trap on a short balance, each iff its condition holds |
| `LendingRefusals.HealthErrors` | contracts/stellarkraal/src/lib.rs:1523-1553 | why the health factor of an open loan is undefined: only the last, unchecked product traps |
| `LendingRefusals.PriceRefusals` | contracts/stellarkraal/src/lib.rs:1223-1322 | which refusal each failing price submission answers |
| `LendingRefusals.AdminRefusals` | contracts/stellarkraal/src/lib.rs:364-463 | which refusal each failing administrative call answers, operation by operation |
| `LendingRefusals.OtherRefusals` | contracts/stellarkraal/src/lib.rs:1385-1396 | which refusal a failing role acceptance, withdrawal and upgrade execution answer |
| `LendingLinks.CountedIff` | contracts/stellarkraal/src/lib.rs:1011-1032 | a collateral is counted iff it is the owner's and the latest loan that lists it was not liquidated |
| `LendingLinks.LinkIsLatestLoan` | contracts/stellarkraal/src/lib.rs:614-624 | a collateral's link is 0 iff no loan lists it, and otherwise the largest id of a loan that lists it, whose borrower owns it |
| `LendingLinks.CountedGrows` | contracts/stellarkraal/src/lib.rs:1014-1029 | one iteration of the counting loop adds exactly the next id's contribution to the counted set |
| `LendingUpgrade.UpgradeWaitsOutTimelock` | contracts/stellarkraal/src/lib.rs:1385-1412 | code is replaced only by a hash the admin of the time proposed at least 24 hours before and that stayed pending throughout |
| `LendingUpgrade.PendingWasProposed` | contracts/stellarkraal/src/lib.rs:1363-1379 | a pending proposal traces back to one admin call, uncancelled and unreplaced since |
| `LendingPause.PauseExpires` | contracts/stellarkraal/src/lib.rs:364-413 | a set pause traces to one admin call, neither lifted nor renewed since; it lasts exactly for the duration configured at that call (at most 518400 s), and is endless iff the call was at time 0 for duration 0 |
| `LendingPause.EndlessIff` | contracts/stellarkraal/src/lib.rs:1451-1462 | a set pause flag never expires iff no expiry is stored |
| `LendingPause.EndlessPauseReachable` | contracts/stellarkraal/src/lib.rs:364-413 | setting the duration to 0 and pausing at time 0 reaches the endless pause from any unpaused state |
| `LendingPause.WithdrawalNeedsRecentPause` | contracts/stellarkraal/src/lib.rs:1096-1119 | so an emergency withdrawal succeeds only for the admin, and only within 518400 seconds of such a pause unless it was declared at time 0 for duration 0 |
| `LendingPause.PauseWasDeclared` | contracts/stellarkraal/src/lib.rs:364-380 | a set pause flag traces back to the latest admin pause, whose expiry is the stored one |
| `LendingPause.StepPause` | contracts/stellarkraal/src/lib.rs:364-413 | an event starts a pause iff it is an admin pause that goes through; any other leaves it or lifts it; the duration stays capped |
| `LendingAdmission.BorrowSucceedsIff` | contracts/stellarkraal/src/lib.rs:553-635 | a loan is granted iff unpaused, all collateral owned, amount within the LTV share of the summed effective values, arithmetic fits, pool covers the outlay; the record stores that sum |
| `LendingAdmission.BorrowWrites` | contracts/stellarkraal/src/lib.rs:600-624 | a granted loan writes one new record under a fresh id, redirects exactly the listed links, and touches no other record, price or setting |
| `LendingAdmission.AppraiseIff` | contracts/stellarkraal/src/lib.rs:570-584 | the origination loop yields the total iff every listed collateral is owned and the total fits |
| `LendingAdmission.RepaySucceedsIff` | contracts/stellarkraal/src/lib.rs:649-713 | a repayment is accepted iff amount positive, caller the borrower of an open loan, arithmetic fits, min(amount, debt) affordable; the pause plays no part |
| `LendingAdmission.RegisterSucceedsIff` | contracts/stellarkraal/src/lib.rs:493-549 | livestock is registered iff it would count at its full appraised value (and within the type's cap); the whole new state is stated |
| `LendingAdmission.ReappraiseSucceedsIff` | contracts/stellarkraal/src/lib.rs:897-955 | a reappraisal is accepted iff it would count in full; no cap is tested; the log keeps the last three values |
| `StellarKraalContract.Deploy` | contracts/stellarkraal/src/lib.rs:303-354 | deployment answers each refusal of `initialize`, or a consistent contract that stores each argument in its place and every default as written out |
| `StellarKraalContract.StellarKraal.RegisterLivestock` | contracts/stellarkraal/src/lib.rs:493-549 | the step-by-step code commits exactly the registration transaction or leaves storage untouched |
| `StellarKraalContract.StellarKraal.RequestLoan` | contracts/stellarkraal/src/lib.rs:553-643 | likewise for borrowing: checks, appraisal loop, writes, and rollback of a failed disbursement |
| `StellarKraalContract.StellarKraal.AppraiseAll` | contracts/stellarkraal/src/lib.rs:570-584 | the appraisal loop meets its recursive specification, including which error comes first |
| `StellarKraalContract.StellarKraal.LinkAll` | contracts/stellarkraal/src/lib.rs:614-624 | the linking loop redirects exactly the listed collaterals, repeated ids included |
| `StellarKraalContract.StellarKraal.RepayLoan` | contracts/stellarkraal/src/lib.rs:649-729 | likewise for repayment, accrual included |
| `StellarKraalContract.StellarKraal.Liquidate` | contracts/stellarkraal/src/lib.rs:733-804 | likewise for liquidation |
| `StellarKraalContract.StellarKraal.ValueOf` | contracts/stellarkraal/src/lib.rs:1529-1542 | the health factor's summing loop meets its recursive specification |
| `StellarKraalContract.StellarKraal.ComputeHealthFactor` | contracts/stellarkraal/src/lib.rs:1523-1553 | the health factor with every overflow and division outcome |
| `StellarKraalContract.StellarKraal.UpdateAppraisal` | contracts/stellarkraal/src/lib.rs:897-955 | likewise for reappraisal, with the loop that rebuilds the history |
| `StellarKraalContract.StellarKraal.GetCollateralCount` | contracts/stellarkraal/src/lib.rs:1011-1032 | the counting loop answers the cardinality of the owner's collaterals whose last loan is not Liquidated, or traps beyond u32 |
| `StellarKraalContract.StellarKraal.SubmitPrice` | contracts/stellarkraal/src/lib.rs:1313-1348 | likewise for a single price |
| `StellarKraalContract.StellarKraal.SubmitOraclePrices` | contracts/stellarkraal/src/lib.rs:1223-1309 | likewise for a batch of prices, with the fixed array and its sort |
| `StellarKraalContract.SortedMiddle` | contracts/stellarkraal/src/lib.rs:1249-1274 | fixed array, exchange sort and middle read give the median of the batch |
| `StellarKraalContract.CountFlagged` | contracts/stellarkraal/src/lib.rs:1296-1302 | the flag loop counts exactly the prices more than half the median away |
| `StellarKraalContract.StellarKraal.Pause` | contracts/stellarkraal/src/lib.rs:364-380 | allowed iff the caller is the admin, the contract is not effectively paused and the expiry fits; sets flag and expiry only |
| `StellarKraalContract.StellarKraal.Unpause` | contracts/stellarkraal/src/lib.rs:384-397 | allowed iff the caller is the admin and the contract is effectively paused; clears flag and expiry only |
| `StellarKraalContract.StellarKraal.SetPauseDuration` | contracts/stellarkraal/src/lib.rs:404-413 | allowed iff the caller is the admin and the duration at most 518400 s; sets it only |
| `StellarKraalContract.StellarKraal.UpdateOracle` | contracts/stellarkraal/src/lib.rs:417-427 | sets the oracle, and the quorum unless the argument is 0 |
| `StellarKraalContract.StellarKraal.SetAnimalCap` | contracts/stellarkraal/src/lib.rs:431-449 | allowed iff the caller is the admin and the cap positive; sets that type's cap only |
| `StellarKraalContract.StellarKraal.SetLiquidationThreshold` | contracts/stellarkraal/src/lib.rs:453-463 | allowed iff the caller is the admin and the value in 1..10000; not compared with the LTV |
| `StellarKraalContract.StellarKraal.ProposeNewAdmin` | contracts/stellarkraal/src/lib.rs:467-474 | records the proposed account only |
| `StellarKraalContract.StellarKraal.AcceptAdminRole` | contracts/stellarkraal/src/lib.rs:478-489 | only the proposed account takes the role, and the proposal is used up |
| `StellarKraalContract.StellarKraal.SetLtv` | contracts/stellarkraal/src/lib.rs:1123-1141 | allowed iff the caller is the admin and the value in 1000..9000; not compared with the threshold |
| `StellarKraalContract.StellarKraal.SetCloseFactor` | contracts/stellarkraal/src/lib.rs:808-817 | allowed iff the caller is the admin and the value in 1..10000 |
| `StellarKraalContract.StellarKraal.UpdateFeeConfig` | contracts/stellarkraal/src/lib.rs:1054-1080 | allowed iff unpaused, caller the admin and both rates at most 500; each rate goes to its own setting |
| `StellarKraalContract.StellarKraal.AddLiquidator` | contracts/stellarkraal/src/lib.rs:828-847 | the whitelist becomes old + {account} and the counter its cardinality |
| `StellarKraalContract.StellarKraal.RemoveLiquidator` | contracts/stellarkraal/src/lib.rs:851-870 | the whitelist becomes old - {account} and the counter its cardinality |
| `StellarKraalContract.StellarKraal.AddOracle` | contracts/stellarkraal/src/lib.rs:1168-1184 | allowed iff unpaused, caller the admin, oracle new and fewer than 5 listed; appends it |
| `StellarKraalContract.StellarKraal.RemoveOracle` | contracts/stellarkraal/src/lib.rs:1187-1207 | allowed iff the caller is the admin and the oracle is listed; afterwards exactly the other oracles are |
| `StellarKraalContract.StellarKraal.EmergencyWithdraw` | contracts/stellarkraal/src/lib.rs:1096-1119 | allowed iff the caller is the admin and the contract paused; the whole balance moves to the recipient and no other balance changes |
| `StellarKraalContract.StellarKraal.ProposeUpgrade` | contracts/stellarkraal/src/lib.rs:1363-1379 | allowed iff the caller is the admin; records hash and time, replacing an earlier proposal |
| `StellarKraalContract.StellarKraal.ExecuteUpgrade` | contracts/stellarkraal/src/lib.rs:1385-1412 | allowed iff a proposal is pending and its timelock elapsed; answers its hash and uses it up |
| `StellarKraalContract.StellarKraal.CancelUpgrade` | contracts/stellarkraal/src/lib.rs:1416-1433 | allowed iff the caller is the admin and a proposal is pending; clears it |
| `OrderStatistics.SortedHoldsKth` | contracts/stellarkraal/src/lib.rs:1254-1262 | position k of any sorted arrangement holds the element of rank k of the unsorted list |
| `OrderStatistics.MedianUnique` | src/services/oracle-aggregation.ts:43-52 | the sort-free median is unique, so every implementation agrees |
| `OrderStatistics.MedianOfIff` | src/services/oracle-aggregation.ts:43-52 | sort-and-read-the-middle computes the median and nothing else does |
| `OrderStatistics.AveragesAre` | contracts/stellarkraal/src/lib.rs:1269-1274 | the on-chain average is the halved sum rounded down, the off-chain one is exact |
| `OrderStatistics.MedianRobust` | src/services/oracle-aggregation.ts:43-52 | a strict majority in [a, b] puts the median in [a, b] |
| `OrderStatistics.MedianPermutation` | src/services/oracle-aggregation.ts:43-52 | the median depends only on the multiset |
| `PriceSorts.ExchangeSort` | contracts/stellarkraal/src/lib.rs:1254-1262 | the in-place exchange sort leaves a sorted permutation of the first n cells |
| `PriceSorts.BubbleSort` | contracts/carbon_oracle/src/lib.rs:107-114 | the in-place bubble sort leaves a sorted permutation of the first n cells |
| `CarbonOracleContract.StorageMatchesHistory` | contracts/carbon_oracle/src/lib.rs:31-74 | after any sequence of calls, who is registered and which price is stored is what each oracle's own call history says |
| `CarbonOracleContract.FreshByHistory` | contracts/carbon_oracle/src/lib.rs:84-90 | an oracle is fresh at ledger q iff its last price since registration was submitted at some l with l <= q <= l + max age |
| `CarbonOracleContract.RunConsistent` | contracts/carbon_oracle/src/lib.rs:31-74 | over every run the registry has no duplicates and prices exist only for registered oracles |
| `CarbonOracleContract.RemovalForgetsPrice` | contracts/carbon_oracle/src/lib.rs:46-61 | a removed oracle has no price until it submits again, however often it is re-added |
| `CarbonOracleContract.OnePricePerFreshOracle` | contracts/carbon_oracle/src/lib.rs:82-90 | the median is taken over exactly one price per fresh registered oracle |
| `CarbonOracleContract.AnsweredPriceRobust` | contracts/carbon_oracle/src/lib.rs:77-124 | while a strict majority of fresh prices lies in [a, b], the answer does |
| `CarbonOracleContract.MiddleSumDecided` | contracts/carbon_oracle/src/lib.rs:119-123 | the trap on an overflowing middle sum is decided by the middle pair, in any arrangement |
| `CarbonOracleContract.CarbonOracle.constructor` | contracts/carbon_oracle/src/lib.rs:21-28 | a fresh registry is empty and consistent |
| `CarbonOracleContract.CarbonOracle.AddOracle` | contracts/carbon_oracle/src/lib.rs:31-43 | registration is admin-only and idempotent |
| `CarbonOracleContract.CarbonOracle.RemoveOracle` | contracts/carbon_oracle/src/lib.rs:46-61 | removal takes out the oracle and its price, also for an oracle that is not registered |
| `CarbonOracleContract.CarbonOracle.SubmitPrice` | contracts/carbon_oracle/src/lib.rs:64-74 | only a registered oracle replaces its own price |
| `CarbonOracleContract.CarbonOracle.CollectFresh` | contracts/carbon_oracle/src/lib.rs:82-90 | the freshness loop collects exactly the fresh registered prices, boundary included |
| `CarbonOracleContract.CarbonOracle.GetMedianPrice` | contracts/carbon_oracle/src/lib.rs:77-124 | the answer is the median of exactly the fresh prices; each failure occurs iff its condition holds (none, more than 20, middle sum beyond u64) |
| `CarbonOracleContract.SortAndPick` | contracts/carbon_oracle/src/lib.rs:97-123 | fixed array of 20 cells, bubble sort and middle read give the median or the overflow trap |
| `PriceAggregation.ManipulationBound` | src/services/oracle-aggregation.ts:114-160 | if a strict majority of fresh prices lies in [a, b], a > 0, a published price is within the fraction d/100 of the fresh median and leaves [a, b] by at most that fraction (lower side: from a if d <= 100, otherwise from b) |
| `PriceAggregation.NonNegativeManipulationBound` | src/services/oracle-aggregation.ts:114-160 | if no price is negative, the published price is at least a(1 - d/100) at every threshold d |
| `PriceAggregation.LowerSideFailsAbove100` | src/services/oracle-aggregation.ts:59-69 | with a negative price allowed, for every d above 100 some batch publishes a negative price below a(1 - d/100), so the case split is needed |
| `PriceAggregation.PublishedIff` | src/services/oracle-aggregation.ts:114-160 | a price is published iff enough (and at least one) of the fresh prices agree with the fresh median, and it is the median of those |
| `PriceAggregation.ComputeAggregate` | src/services/oracle-aggregation.ts:114-160 | the two filtering loops and the early returns compute the specified result, failure included |
| `PriceAggregation.Split` | src/services/oracle-aggregation.ts:122-143 | one pass splits a list into rejected sources and kept samples, in order |
| `PriceAggregation.ReorderingIrrelevant` | src/services/oracle-aggregation.ts:114-160 | reordering samples changes neither the price nor, up to order, the three source lists |
| `PriceAggregation.FreshByAge` | src/services/oracle-aggregation.ts:84-94 | the samples used are exactly those with currentLedger <= ledger + maxAgeLedgers, in order |
| `PriceAggregation.OldSamplesIrrelevant` | src/services/oracle-aggregation.ts:122-128 | batches that agree on the samples young enough give the same price, used sources and outliers |
| `PriceAggregation.OldSamplesDropped` | src/services/oracle-aggregation.ts:122-128 | in particular samples that are too old may be dropped |
| `PriceAggregation.StaleSourcesAreOld` | src/services/oracle-aggregation.ts:122-128 | the stale list names exactly the samples that are too old, in order |
| `PriceAggregation.ListsAroundMedian` | src/services/oracle-aggregation.ts:134-159 | which sources the outlier and used lists name, price or null |
| `PriceAggregation.NothingFresh` | src/services/oracle-aggregation.ts:130-132 | without fresh samples: null, nothing used, nothing rejected as an outlier |
| `PriceAggregation.ThrowsIff` | src/services/oracle-aggregation.ts:145-155 | the pipeline throws iff no fresh sample survives and minSources <= 0 |
| `PriceAggregation.SourcesPartitioned` | src/services/oracle-aggregation.ts:154-159 | when a price is published every source lands in exactly one of used, stale and outlier, with multiplicity |
| `PriceAggregation.LooseningKeepsPublishing` | src/services/oracle-aggregation.ts:96-107 | raising the deviation threshold never turns a published price into null or a failure |
| `PriceAggregation.MedianIsMedian` | src/services/oracle-aggregation.ts:43-52 | the library-sort median is the sort-free median |
| `PriceAggregation.SurvivesIff` | src/services/oracle-aggregation.ts:59-82 | a value survives rejection iff it equals a zero median or lies within d percent of a non-zero one; survivors keep their multiplicity |
| `PriceAggregation.RejectionEmptiesIff` | src/services/oracle-aggregation.ts:78-82 | outlier rejection empties a batch iff its lower middle value is an outlier |
| `PriceAggregation.OddBatchSurvives` | src/services/oracle-aggregation.ts:71-82 | an odd batch never vanishes under a non-negative threshold |
| `PriceAggregation.TwoDistantSourcesVanish` | src/services/appraisal.service.ts:210-222 | two sources far enough apart reject each other, and the caller's median throws |
| `LoanIndex.RedeliveryInvisibleIff` | src/services/soroban.service.ts:473-605 | for any deliveries and retirements in any order: redelivering any of the events, in any order and number, changes nothing iff every delivered repayment or liquidation of an indexed loan is a replay there |
| `LoanIndex.ExactlyOnceIff` | src/services/soroban.service.ts:418-605 | for any history without repetitions: repeating its deliveries anywhere later is, at every moment, the same as delivering each once iff that condition holds at every moment |
| `LoanIndex.AtLeastOnceIsExactlyOnce` | src/services/soroban.service.ts:418-605 | at-least-once delivery, with interleaved retirements, leaves exactly the index of delivering each event once, if no status event overtakes the creation of its own loan |
| `LoanIndex.NoOvertakingIsQuiet` | src/services/soroban.service.ts:487-571 | in such a history redelivery is invisible |
| `LoanIndex.LedgerOrderSuffices` | src/services/soroban.service.ts:418-441 | deliveries in ledger order overtake no creation |
| `LoanIndex.LoansFirstSuffices` | src/services/soroban.service.ts:560-571 | nor do deliveries, in any ledger order, whose status events first find their loan indexed |
| `LoanIndex.SettledIffFixed` | src/services/soroban.service.ts:473-605 | the condition under which handling an event changes nothing, both ways |
| `LoanIndex.OvertakingVisibleIff` | src/services/soroban.service.ts:560-571 | a status event that comes before the creation of its loan is lost, and its redelivery invisible iff it is no younger than the creation |
| `LoanIndex.DeliveredCreationIsSettled` | src/services/soroban.service.ts:487-505 | a delivered creation has no further effect, in any order |
| `LoanIndex.DeliveredAreSettled` | src/services/soroban.service.ts:473-605 | if no creation is overtaken, every delivered event stays without further effect for the rest of the history |
| `LoanIndex.RowFromCreation` | src/services/soroban.service.ts:525-544 | after any history a row has the borrower, livestock, principal, rate and days of the creation event that inserted it |
| `LoanIndex.CreationInserts` | src/services/soroban.service.ts:525-537 | an inserted row holds exactly the event's data, active, stamped with its ledger; livestock is untouched |
| `LoanIndex.TermsKept` | src/services/soroban.service.ts:539-543 | no later event or retirement changes a row apart from status and ledger |
| `LoanIndex.NeverReactivated` | src/services/soroban.service.ts:498-505 | a loan whose status is not ACTIVE never becomes ACTIVE again, whatever arrives |
| `LoanIndex.LivestockOnlyFreed` | src/services/soroban.service.ts:579-594 | livestock changes only when a liquidation that is not a replay frees the collateral of an indexed loan |
| `LoanIndex.RetiringSets` | src/controllers/retirements.controller.ts:114-122 | a committed retirement sets exactly the listed rows to REPAID |
| `LoanIndex.TerminalAbsorbs` | src/services/soroban.service.ts:498-505 | whatever arrives in whatever order, REPAID, LIQUIDATED and DEFAULTED loans never reopen, rows never vanish, ledgers never go back |
| `LoanIndex.AppliedEventRaisesLedger` | src/services/soroban.service.ts:525-544 | an event that changes anything stamps its loan with its own strictly newer ledger and touches no other loan |
| `LoanIndex.NewerStatusWins` | src/services/soroban.service.ts:573-599 | a status event that is not a replay decides the loan's status, keeps its other columns, and frees the collateral on liquidation |
| `LoanIndex.OvertakingRepaymentReapplies` | src/services/soroban.service.ts:560-571 | a concrete history in which a repayment overtakes its creation, is lost, and reappears on redelivery |
| `LoanIndex.SameLedgerSecondEventDropped` | src/services/soroban.service.ts:560-571 | a second event of a loan in the same ledger is dropped, whatever it is |
| `LoanIndex.EventIndexer.constructor` | src/services/soroban.service.ts:384-384 | an indexer starts on an empty index |
| `LoanIndex.EventIndexer.HandleLoanCreated` | src/services/soroban.service.ts:473-550 | the handler's guards and upsert have exactly the specified effect |
| `LoanIndex.EventIndexer.HandleLoanStatusChange` | src/services/soroban.service.ts:552-605 | the handler's guard, collateral release and update have exactly the specified effect |
| `LoanIndex.EventIndexer.ProcessEvent` | src/services/soroban.service.ts:445-471 | dispatch by event name; unknown names change nothing |
| `LoanIndex.EventIndexer.PollEvents` | src/services/soroban.service.ts:418-441 | one poll applies the fetched events in order, and the cursor never goes back and ends just past the newest event |
| `Retirement.ChunkArray` | src/services/soroban.service.ts:310-316 | the chunks are the consecutive full stretches of the list, covering it to the end |
| `Retirement.RetireLoansOnChain` | src/services/soroban.service.ts:231-265 | one result per chunk in order with its own ids: SUCCESS before the first failing one, FAILED there, SKIPPED after |
| `Retirement.ChunkingSize` | src/services/soroban.service.ts:310-316 | the number of chunks is the rounded-up quotient |
| `Retirement.ChunkingEndsIff` | src/config/env.ts:44-52 | on a non-empty list the chunking loop ends iff the size is positive; the configuration also accepts 0 |
| `Retirement.RetirementController.BulkRetireLoans` | src/controllers/retirements.controller.ts:42-154 | each rejection is answered iff it is the first that applies and changes no row; an accepted batch reports every requested loan once in request order and marks exactly the retired ones |
| `Retirement.RetirementController.Validate` | src/controllers/retirements.controller.ts:75-94 | the validation loop lists every objection, in request order |
| `Retirement.RetirementController.Settle` | src/controllers/retirements.controller.ts:112-135 | the bookkeeping loop reports every loan and commits exactly the confirmed chunks |
| `Retirement.RetirementController.Submit` | src/controllers/retirements.controller.ts:104-150 | submission, bookkeeping, summary and response code of a validated batch |
| `Retirement.AcceptedIff` | src/controllers/retirements.controller.ts:75-102 | validation passes iff every requested loan exists, is the caller's, and is ACTIVE |
| `Retirement.ObjectionsIff` | src/controllers/retirements.controller.ts:81-94 | an id is reported with a reason iff it was requested and exactly that reason applies |
| `Retirement.ObjectionsInOrder` | src/controllers/retirements.controller.ts:81-102 | the reported ids are the offending ids of the request, in request order, one report for each |
| `Retirement.BlankIff` | src/controllers/retirements.controller.ts:56-59 | an id is refused as blank iff trimming leaves nothing of it |
| `Retirement.SubmissionCarriesIds` | src/services/soroban.service.ts:240-255 | the result of the chunk a loan falls into carries both its ids at its place |
| `Retirement.ResponseIs` | src/controllers/retirements.controller.ts:137-150 | counts follow from the first failing sub-transaction and add up; the code is 200 iff nothing failed or was skipped, else 207 |
| `Retirement.ReportShape` | src/controllers/retirements.controller.ts:112-135 | statuses read retired, then failed within one chunk, then skipped |
| `Retirement.ReportCounts` | src/controllers/retirements.controller.ts:137-141 | the retired and failed counts follow from the first failing chunk |
| `Retirement.OutcomesAddUp` | src/controllers/retirements.controller.ts:137-141 | the three counts add up to the batch size |
| `Retirement.OnlyRetiredChange` | src/controllers/retirements.controller.ts:114-122 | exactly the loans reported as retired become REPAID; every other row is untouched |
| `Retirement.AllRetiredIff` | src/controllers/retirements.controller.ts:149-150 | the response code says success iff no sub-transaction failed |
| `Retirement.SetSizeDetectsDuplicates` | src/controllers/retirements.controller.ts:70-73 | comparing the set's size with the list's detects exactly the duplicates |
| `VolumeSpike.VolumeSpikeRule.Evaluate` | src/monitoring/rules/volumeSpike.rule.ts:32-75 | after every event the contract's state is the histogram of its whole event history, other contracts are untouched, an unparseable time changes nothing, and an alert is raised iff the spike condition holds |
| `VolumeSpike.VolumeSpikeRule.Advance` | src/monitoring/rules/volumeSpike.rule.ts:36-51 | rolling forward and counting one event extends the histogram by it |
| `VolumeSpike.VolumeSpikeRule.Check` | src/monitoring/rules/volumeSpike.rule.ts:53-72 | the alert condition equals its division-free form, empty and zero baselines included |
| `VolumeSpike.VolumeSpikeRule.constructor` | src/monitoring/rules/volumeSpike.rule.ts:26-28 | a new rule has seen nothing, whatever the configured width |
| `VolumeSpike.RollForward` | src/monitoring/rules/volumeSpike.rule.ts:44-49 | the roll-forward loop terminates and lands in the event's window with the exact counts of the windows it closed |
| `VolumeSpike.OrderedHistogram` | src/monitoring/rules/volumeSpike.rule.ts:33-51 | for events in time order the open window is the one holding the last event and every count is the number of events in that time interval |
| `VolumeSpike.AlertIff` | src/monitoring/rules/volumeSpike.rule.ts:53-56 | for events in time order, an alert is due iff the events of the open window are alarming against those of the last kept windows, all counted by their times |
| `VolumeSpike.ClosedByTimes` | src/monitoring/rules/volumeSpike.rule.ts:33-51 | the whole state of a contract in terms of event times alone |
| `VolumeSpike.CountsAddUp` | src/monitoring/rules/volumeSpike.rule.ts:44-51 | every event is counted in exactly one window, out-of-order ones included |
| `VolumeSpike.CountsAdvance` | src/monitoring/rules/volumeSpike.rule.ts:45-46 | push and shift keep exactly the last windows' counts, empty windows included |
| `VolumeSpike.LoopEndsIffWidthPositive` | src/monitoring/config.ts:105-109 | entered with a zero width, which the configuration accepts, the loop never ends; with a positive one it does |
| `VolumeSpike.MeanComparison` | src/monitoring/rules/common.ts:44-47 | comparing with a multiple of the mean equals the cross-multiplied comparison |

## Left out

Lending contract:

- Authorisation beyond refusing the contract's own address; the reentrancy flag; events; storage lifetimes and archival.
- The states before `initialize` and its second call: `Deploy` creates the contract and initialises it in one step.
- The code a WASM replacement installs: `ExecuteUpgrade` answers the hash, and runs continue under the present code.
- Views that only read one record or setting (`get_loan`, `get_loans`, `get_state`, `get_twap_data` and the like).
- `collateral_seized` in `liquidate`, which is computed and discarded, and the unused utilisation and rate functions over totals that are never updated.
- Negative i128 values other than as arguments (which the entry points refuse) and overflow of a token recipient's balance: the token is a plain balance map.
- `StellarKraalContract.Deploy`: a quorum of 0 passes as in the code; an empty price batch then traps.
- `LendingPrices.TwapIsMeanIff`: at most 2^32 - 1 submissions in one window, as in `TwapInRangeIff`; beyond that the count is clipped (`TwapFollowsWindow`).
- `LendingPrices.TwapIsMean`: prices given to `submit_price` are taken to be i128 values, which the argument type guarantees.

Price aggregation:

- Floating-point rounding, NaN and infinities: prices are reals. `validateQuality` appears as the negation of `IsOutlier`.
- The carbon oracle before `init`, and its authorisation checks.
- The rest of the appraisal service: adapters, price tables, caching.

Loan index and retirement:

- Wall-clock columns, logging, and malformed event payloads (the handlers swallow them and change nothing).
- Handlers interleaving with each other: each is one atomic step; users and livestock ids are fixed tables.
- Events beyond the page limit of 100 in one poll, which the advancing cursor can skip; no completeness of the index is claimed.
- Building, signing and confirming transactions: whether a chunk is confirmed is a parameter.
- `Retirement.RetirementController.BulkRetireLoans`: the request is one atomic step, and a chunk size of at least 1 is assumed. A body whose `loanIds` is no array of strings is not represented.

Volume rule:

- `VolumeSpike.VolumeSpikeRule.Evaluate`: a window of positive width is assumed for events with a time; what a zero width does is stated separately.
- Message texts, deduplication keys, and the other monitoring rules.

Not modelled at all: `contracts/carbon_credit`, `oracle-bridge`, authentication and middleware, the frontend, and the load and chaos harnesses.
