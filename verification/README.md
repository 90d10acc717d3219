# Asymmetric Insight Engine: verified model

A Dafny model of the deterministic decision pipeline: exposure and portfolio fit, dominance and owner policy,
replacement and execution, learning, the two append-only stores, the canonical builders with their replay
verification, and the derivation of source manifests and shadow facts. `dafny verify dfyconfig.toml` verifies the whole project.

## How the model is built

- **Files.** `Sums`, `Sequences`, `Sorting`, `Quantise` and `Text` hold the arithmetic and collection facts.
  `LookThrough`, `ExposureTables`, `ExposureAccumulators`, `Categories`, `ExposureBook`, `ExposureEngine`,
  `ExposureState`, `Hhi` and `BookInvariants` are the exposure engine. `PortfolioFit`, `FitRefinement` and
  `FitAcceptance` are the incremental effect. `Dominance`, `PolicyDecision`, `OwnerLimits`, `Replacement`, `Tranches`,
  `Execution`, `CapitalChain` and `AllocationChain` carry an approved amount to its orders. `Scenarios` and `Learning`
  look back on it. `Temporal`, `EvidenceLedger`, `PointInTime` and `ProductStore` are the stores. `Canonical`,
  `StateReplay`, `ExposureReplay`, `DecisionReplay` and `AlternativeViews` are replay verification.
  `CanonicalDecimal`, `SecExtraction`, `SecManifest` and `EvidenceTrace` stand alone. The `...Laws` modules say what
  the results hold field by field, without the functions that compute them.
- **Loops and state.** The accumulators, the ledger and the store are classes whose methods change fields; loops of the
  source are loops here, each proved against a function or relation about which the laws are then proved.
- **Decimals** are exact reals outside `CanonicalDecimal`, so the 28-digit rounding of the decimal context is not modelled there.
  Quantisation to 10^-12 is explicit, ties to even (section 4.3.1 of IEEE 754-2019).
- **Hashes, canonical JSON and name-based ids** are arbitrary functions. Injectivity appears only as an explicit premise.
- **Identifiers and instants.** Ids, dates and opaque texts are strings or numbers; instants are whole microseconds. Strings
  compare by code point, as in Python.
- **Validated inputs.** A `Valid...` premise states what the record's own model validator has already enforced when the
  modelled code receives it.

## What turned out different from what the code suggests

- The HHI upper bound treats the whole residual as one new company. Before rounding it bounds every split only if nothing is
  unresolved or no resolved company has value (`Hhi.UpperBoundSoundIff`, `Hhi.OverlapGain`). The recorded, rounded bound does
  exactly when the overlap with the largest company disappears in the rounding (`Hhi.WorstSplit`, `Hhi.RecordedBoundSoundIff`).
- A currency cannot be built when all of it is priced at zero, and neither when it holds an instrument without look-through and
  nothing in it is unresolved: the zero value still carries a reason, which the unresolved-exposure validator rejects
  (`BookInvariants.BuildFailsIff`, `BookInvariants.ZeroPricedFundFails`).
- Underwriting accepts figures within 10^-9, Learning orders returns exactly. Accepted scenarios are guaranteed to open an
  anchor only from a gap of 2t(1+p) in value per share (`Scenarios.ThresholdIff`, `Scenarios.AcceptedSetWithoutAnchor`).
- `canonical_decimal` raises from 10^28 - 1/2 upwards and rounds values of more than 28 significant digits
  (`CanonicalDecimal.FailsIff`, `CanonicalDecimal.KeepsValueIff`).
- Ingesting an observed-at-ingestion source again at a later clock value is a version conflict, not a no-op
  (`PointInTime.ReingestIff`), and historical reconstruction at a past instant can still grow (`PointInTime.BackfillIff`,
  `PointInTime.LateReportIsBackfilled`).
- The owner's weight gates see only changed weights. A purchase can be allocated while a company stays at twice its limit
  (`OwnerLimits.BrokenLimitIsAllocated`); the limit holds afterwards exactly when the unchanged weights met it before
  (`OwnerLimits.AllocationMeetsLimitIff`).
- A cheaper switch can be held where a costlier one is carried out (`Replacement.FreeSwitchIsHeld`,
  `Replacement.CheaperSwitchIff`).

## Model

| member | source | states |
|---|---|---|
| Quantise.HalfEvenIsNearestEven | src/asymmetric_engine/application/portfolio_exposure.py:664-666 | Rounding is to the nearest integer, ties to the even one: the rounded value is characterised in both directions, not by its formula. |
| Quantise.QuantizeOnce | src/asymmetric_engine/application/portfolio_exposure.py:664-666 | One quantisation moves a value by at most half of 10^-12, is idempotent, and fixes 0 and 1. |
| Quantise.QuantizeMonotone | src/asymmetric_engine/application/portfolio_exposure.py:664-666 | Quantisation keeps order, so lower <= upper survives it. |
| Quantise.WeightInUnit | src/asymmetric_engine/application/portfolio_exposure.py:658-662 | The recorded weight of any part of a positive gross is in [0, 1]. |
| Quantise.WeightsSumToOne | src/asymmetric_engine/application/portfolio_exposure.py:460-467 | The n recorded weights of a complete breakdown sum to 1 within n/2 * 10^-12. |
| BookInvariants.BookWeightsSumToOne | src/asymmetric_engine/application/portfolio_exposure.py:460-467 | In every built book the n recorded instrument weights sum to 1 within n/2 * 10^-12. |
| ExposureAccumulators.Accumulators.AddInstrumentValue | src/asymmetric_engine/application/portfolio_exposure.py:391-442 | One holding added in place: afterwards all four accumulators equal the reference sums over the longer list of holdings. |
| ExposureTables.HoldingSplits | src/asymmetric_engine/application/portfolio_exposure.py:402-442 | Each holding is split without loss: what its companies receive plus what stays unresolved is its amount. |
| ExposureTables.Conservation | src/asymmetric_engine/application/portfolio_exposure.py:391-442 | In every currency the instrument values, and the company values plus the unresolved value, both total the held value. |
| HoldingLaws.CompanyEntriesAreExact | src/asymmetric_engine/application/portfolio_exposure.py:406-427 | For any holdings, a company's direct value is the sum of its listed equities, its indirect value the sum over the funds of amount times the company's weight, and the two id sets name exactly those equities and those funds. |
| HoldingLaws.RowsAreExact | src/asymmetric_engine/application/portfolio_exposure.py:460-494 | Every row of a book is read off the holdings: instrument values and ids, company entries with total and profile fields, the unresolved value with its texts, and each weight as the rounded share of the gross value. |
| HoldingLaws.TopIsExact | src/asymmetric_engine/application/portfolio_exposure.py:508-511 | The top list on the rows: distinct companies of the book, larger total first, equal totals by id, as many as asked for, nobody left out who outranks a listed one. |
| HoldingLaws.BoundsAreExact | src/asymmetric_engine/application/portfolio_exposure.py:512-533 | The recorded bounds are the rounded sum of squared company shares, without and with the squared unresolved share. |
| CategoryLaws.ViewsAreExact | src/asymmetric_engine/application/portfolio_exposure.py:560-656 | Every sector, geography and driver row on the profiles' fields: its members, its value as the sum of their totals plus the unresolved value in the unknown row, its rounded weight and its unknown flag. |
| ExposureBook.CategoryExposures | src/asymmetric_engine/application/portfolio_exposure.py:560-606 | The category loop equals the tally of company totals by tag, with a positive rest added to the unknown bucket, members included. |
| ExposureBook.DriverExposures | src/asymmetric_engine/application/portfolio_exposure.py:608-656 | The driver loop equals the overlapping tally: every driver of a company receives its full value, and a company without one goes to unknown. |
| Categories.CategoryTotal | src/asymmetric_engine/application/portfolio_exposure.py:560-606 | Sector and geography views total the company values plus the unresolved value, whatever the profiles say. |
| ExposureEngine.TopCompanies | src/asymmetric_engine/application/portfolio_exposure.py:508-511 | The head of the ranking is the true top list: larger totals first, ties by id, nobody left out who ranks before a listed company. |
| ExposureEngine.BuildCurrencyBook | src/asymmetric_engine/application/portfolio_exposure.py:444-534 | Succeeds exactly on buildable tables and then returns the book those tables determine; otherwise it says whether the value or the reasons stopped it. |
| ExposureEngine.BuildSnapshot | src/asymmetric_engine/application/portfolio_exposure.py:340-389 | A view succeeds exactly when every held currency is buildable, and holds exactly one book for each held currency. |
| ExposureState.ValidateInputs | src/asymmetric_engine/application/portfolio_exposure.py:253-338 | Accepts exactly when the boundaries are equal, a proposed instrument is known, investable and in its native currency, snapshots are those of the analysed equity ETFs, profiles those of the companies they resolve to, and no label has two texts; otherwise it names the first check that fails. |
| ExposureState.ProposalRefusedIff | src/asymmetric_engine/application/portfolio_exposure.py:271-279 | A proposed amount is refused exactly for an unknown instrument, an opaque one, a fund that is not eligible, or a currency that is not the instrument's own. |
| ExposureState.AnalysedIs | src/asymmetric_engine/application/portfolio_exposure.py:340-389 | The hypothetical view adds exactly one holding: the named instrument with the proposed amount. |
| ExposureState.CheckLabels | src/asymmetric_engine/application/portfolio_exposure.py:319-338 | Remembering the first text of each label is enough: it accepts exactly when no two entries of one kind and id differ in text. |
| ExposureState.CoverageSuffices | src/asymmetric_engine/application/portfolio_exposure.py:253-317 | Exact coverage for positions plus hypothetical also covers the positions alone, so no look-up inside the engine can fail in either view. |
| ExposureState.Execute | src/asymmetric_engine/application/portfolio_exposure.py:94-109 | The build succeeds exactly when the inputs fit and every currency of the positions can be built; the views are then those of the positions and of the positions plus the hypothetical amount. |
| ExposureState.AdmittedHypotheticalBuilds | src/asymmetric_engine/application/portfolio_exposure.py:376-389 | An admitted hypothetical amount never makes a build fail: whenever the current view can be built, so can the view with the amount, a currency not held before included. |
| ExposureState.ViewsAreAccepted | src/asymmetric_engine/domain/portfolio/exposure.py:538-592 | Every book of both views passes the book validator and has the held value of its currency as gross. |
| ExposureState.EveryRowIsExact | src/asymmetric_engine/application/portfolio_exposure.py:94-109 | Every row, top list and bound of every book in both views is the one the positions, or the positions with the hypothetical amount, call for. |
| BookInvariants.BuiltBooksAreAccepted | src/asymmetric_engine/domain/portfolio/exposure.py:538-592 | No book built from buildable tables is rejected: all totals reconcile to gross, all weights and both HHI bounds are in range, the top list is short enough and names only companies of the book. |
| BookInvariants.BuildFailsIff | src/asymmetric_engine/application/portfolio_exposure.py:479-484 | A build fails if and only if a currency has no value at all, or it holds an instrument without look-through while nothing in it is unresolved. |
| BookInvariants.ZeroPricedFundFails | src/asymmetric_engine/domain/portfolio/exposure.py:490-497 | A concrete state whose build raises: a valued equity next to an instrument without look-through that is priced at zero. |
| BookInvariants.HypotheticalDelta | src/asymmetric_engine/application/portfolio_exposure.py:376-389 | The hypothetical amount adds exactly its own look-through to its currency, instrument by instrument, company entry by company entry, rest and reasons, and leaves every other currency as it was. |
| Hhi.BoundsInUnit | src/asymmetric_engine/application/portfolio_exposure.py:512-533 | 0 <= lower <= upper <= 1, before and after quantisation. |
| Hhi.LowerBoundHolds | src/asymmetric_engine/application/portfolio_exposure.py:512-533 | However the unresolved value is split among companies, new or held, the true HHI is at least the lower bound. |
| Hhi.UpperBoundHolds | src/asymmetric_engine/application/portfolio_exposure.py:512-533 | For every split among companies not in the book, the true HHI is at most the upper bound. |
| Hhi.UpperBoundSoundIff | src/asymmetric_engine/application/portfolio_exposure.py:512-533 | Before rounding, the upper bound covers every split, held companies included, if and only if nothing is unresolved or no resolved company has value. |
| Hhi.OverlapGain | src/asymmetric_engine/application/portfolio_exposure.py:512-533 | Before rounding, attributing the rest to any one held company of value exceeds the upper bound. |
| Hhi.WorstSplit | src/asymmetric_engine/application/portfolio_exposure.py:512-533 | Of all splits of the rest, giving all of it to the largest company concentrates the most. |
| Hhi.RecordedBoundSoundIff | src/asymmetric_engine/application/portfolio_exposure.py:512-533 | The recorded, rounded upper bound covers the rounded HHI of every split if and only if the overlap, twice the product of the unresolved share and the largest share, disappears in the rounding. |
| Hhi.RecordedBoundExceeded | src/asymmetric_engine/application/portfolio_exposure.py:512-533 | Whenever that overlap is above 10^-12 for some company, attributing the rest to it exceeds the recorded bound. |
| PortfolioFit.BookComponents | src/asymmetric_engine/application/marginal_decision.py:887-947 | The two component maps hold exactly the rows of the book, dimension by dimension, and nothing else. |
| PortfolioFit.LookupIs | src/asymmetric_engine/application/marginal_decision.py:887-947 | Each component reads value and weight from its own row of the book; without a book everything is zero. |
| PortfolioFit.BuildVerifiedFit | src/asymmetric_engine/application/marginal_decision.py:706-770 | Fails exactly when the after view does not hold the capital unit more; otherwise the effect is the difference of the two books. |
| PortfolioFit.BuildCandidateFit | src/asymmetric_engine/application/marginal_decision.py:609-704 | The incremental loops give every component its old value plus the amount if the candidate affects it, and the HHI and weight changes that follow. |
| FitRefinement.IncrementalRefinesRebuild | src/asymmetric_engine/application/marginal_decision.py:609-704 | The fast form refines the slow one: for every book, amount and candidate, with a known or an all-missing profile, the incremental effect is the difference between the current book and the book rebuilt with the candidate as a listed equity. |
| FitRefinement.RebuildSucceeds | src/asymmetric_engine/application/marginal_decision.py:609-704 | That rebuild never fails when the current view exists or the currency is not held yet. |
| FitRefinement.GrossDeltaNeverFails | src/asymmetric_engine/application/marginal_decision.py:718-724 | For held and core instruments the gross-delta error cannot occur. |
| FitAcceptance.IncrementalIsAccepted | src/asymmetric_engine/domain/portfolio/decision.py:288-333 | The incremental effect passes the validators of a fit for every book and candidate: every weight of every delta and all HHI bounds are in [0, 1], the bounds are ordered, and only changed weights are listed. |
| FitAcceptance.DiffIsAccepted | src/asymmetric_engine/domain/portfolio/decision.py:288-333 | The difference of two accepted books passes the same validators. |
| Dominance.RestrictedDominanceWinner | src/asymmetric_engine/application/portfolio_policy.py:333-354 | Win counting over the eligible alternatives returns the one that beats all others, and none exactly when no eligible alternative does; with all alternatives eligible it is the unrestricted winner. |
| Dominance.DominantIsUnique | src/asymmetric_engine/application/marginal_decision.py:1016-1035 | When each unordered pair is compared at most once, at most one alternative of any finite set beats all others. |
| Dominance.BeatsIff | src/asymmetric_engine/application/portfolio_policy.py:338-346 | One alternative beats another exactly when some comparison of the two was concluded for it, whichever side it was written on. |
| Dominance.DominantSurvivesFilter | src/asymmetric_engine/application/portfolio_policy.py:333-354 | A winner stays the winner in every eligible subset that contains it. |
| Dominance.DominanceIsUnoriented | src/asymmetric_engine/application/marginal_decision.py:1016-1035 | Dominance depends neither on the order of the comparisons nor on the side each is written from. |
| PolicyDecision.FitObservation | src/asymmetric_engine/application/portfolio_policy.py:319-331 | The loop returns the largest after-weight among the changed weights of the dimension, and nothing exactly when none changed. |
| PolicyDecision.BlockReasons | src/asymmetric_engine/application/portfolio_policy.py:278-317 | Exactly the reasons that hold are recorded: unit above the maximum, no new capital for the held position, a constraint that cannot be evaluated because nothing of its dimension changed, a constraint some changed weight or the HHI bound exceeds. |
| PolicyDecision.AdmitsIff | src/asymmetric_engine/application/portfolio_policy.py:278-317 | The policy admits an alternative if and only if no reason holds against it. |
| PolicyDecision.WeightLimitGates | src/asymmetric_engine/application/portfolio_policy.py:319-331 | A company limit is exceeded exactly by a changed company weight above it and a driver limit by a changed driver weight above it; neither can be evaluated exactly when nothing of its own dimension changed. |
| PolicyDecision.ConcentrationLimitGates | src/asymmetric_engine/application/portfolio_policy.py:319-322 | A concentration limit is exceeded exactly when the upper bound after the purchase is above it, and can always be evaluated. |
| PolicyDecision.ApplyPolicy | src/asymmetric_engine/application/portfolio_policy.py:165-201 | The eligible set is cash and exactly the admitted alternatives, and the decision is the one their competition warrants. |
| PolicyDecision.AllocationBeatsEveryRival | src/asymmetric_engine/application/portfolio_policy.py:190-201 | Every allocation is eligible, is not cash, beats cash and every unblocked rival, and no rival beats it back. |
| PolicyDecision.UnblockedAllocationStands | src/asymmetric_engine/application/portfolio_policy.py:190-201 | The policy never overturns a marginal allocation that it does not block. |
| PolicyDecision.AllocationRespectsPolicy | src/asymmetric_engine/application/portfolio_policy.py:278-317 | An allocation satisfies the unit limit, the position policy and every ratio limit on the weights its Fit reports as changed. |
| OwnerLimits.AllocationMeetsLimitIff | src/asymmetric_engine/application/portfolio_policy.py:295-331 | After an allocation every weight of a limited dimension is within the maximum if and only if every weight the Fit does not report as changed was within it before. |
| OwnerLimits.AllocationKeepsLimit | src/asymmetric_engine/application/portfolio_policy.py:295-331 | A book within a weight limit stays within it through any allocation. |
| OwnerLimits.BrokenLimitIsAdmitted | src/asymmetric_engine/application/portfolio_policy.py:295-331 | A concrete purchase the policy admits although one company ends at 60 percent against a limit of 30: its weight did not change. |
| OwnerLimits.BrokenLimitIsAllocated | src/asymmetric_engine/application/portfolio_policy.py:165-201 | The same purchase through the whole policy: with the fund winning its comparisons and whatever fits the other alternatives have, the run allocates it and warrants no other decision. |
| Replacement.FrictionAmounts | src/asymmetric_engine/application/portfolio_policy.py:704-724 | Nothing is computed while a cost is unknown; otherwise it succeeds exactly when every known cost is in the sale's currency and the costs stay below the gross, with net and friction adding up to it. |
| Replacement.FrictionOfThree | src/asymmetric_engine/application/portfolio_policy.py:711-716 | Each of the three cost kinds counts exactly once, whatever order the costs come in. |
| Replacement.EveryKnownCostCounts | src/asymmetric_engine/application/portfolio_policy.py:711-716 | A known cost of any kind raises the friction by exactly its amount, one that does not apply by nothing. |
| Replacement.NetIsGrossLessCosts | src/asymmetric_engine/application/portfolio_policy.py:704-724 | When all three estimates are known, the decision's net amount is the gross less the three amounts, whatever their kinds. |
| Replacement.PolicyBlocks | src/asymmetric_engine/application/portfolio_policy.py:746-795 | Blocks exactly when the net amount exceeds the unit, the held target may take no new capital, or an observed ratio exceeds its limit; errs exactly on a foreign unit currency. |
| Replacement.Decide | src/asymmetric_engine/application/portfolio_policy.py:413-466 | Succeeds exactly on admitted proposals and otherwise names the first check that fails; the decision carries friction, net amount, free cash and the deciding rung, and says REPLACE if and only if all gates pass: complete costs, known liquidity, no policy block, free cash below the net amount, the target wins before and after friction. |
| Replacement.BasisIs | src/asymmetric_engine/application/portfolio_policy.py:446-466 | Which basis a decision gives, gate by gate: an unknown cost, then a policy block, then free cash that covers the net amount, then unknown liquidity. |
| Replacement.ReplaceConserves | src/asymmetric_engine/application/portfolio_policy.py:704-736 | REPLACE implies net + friction = gross <= source value, net > 0, one currency, and free cash < net. |
| Replacement.CashCountsOnce | src/asymmetric_engine/application/portfolio_policy.py:726-736 | Each balance counts once and in full, except the emergency reserve and other currencies, which do not count at all. |
| Replacement.TargetWinsIffBeats | src/asymmetric_engine/application/portfolio_policy.py:738-744 | The pre-friction verdict is the dominance relation on the one comparison, from either side. |
| Replacement.CashNeverTriggersSale | src/asymmetric_engine/application/portfolio_policy.py:452-454 | More free cash never turns HOLD into REPLACE. |
| Replacement.CheaperSwitchIff | src/asymmetric_engine/application/portfolio_policy.py:754-758 | Costs are not monotone: a switch that replaces at a higher cost also replaces at a lower one if and only if the larger net amount fits the owner's maximum unit. |
| Replacement.FreeSwitchIsHeld | src/asymmetric_engine/application/portfolio_policy.py:446-466 | A concrete pair of admitted proposals with a maximum unit of 95: selling 100 at a cost of 10 is carried out, selling 100 free of cost is blocked by the policy. |
| Execution.CheckGuards | src/asymmetric_engine/application/execution.py:427-472 | Reports no error exactly when boundaries, mode, limit currency, observation times, conflicts and conditions are all in order, and otherwise the first failing check, observation by observation. |
| ExecutionLaws.TimeErrorIs | src/asymmetric_engine/application/execution.py:427-472 | An observation later than the plan's instant is a future one; otherwise it is outside the boundary exactly when it was not available or, under live replay, not recorded by then. |
| ExecutionLaws.LateErrorsAre | src/asymmetric_engine/application/execution.py:280-289 | After the instants, disclosed conflicts are reported before conditions that nobody fixed in advance. |
| Execution.WaitReasons | src/asymmetric_engine/application/execution.py:311-371 | The collected reasons are exactly those some missing or unknown condition, missing quote, stale, wide, unknown or constrained quote gives. |
| Execution.SpreadExceedsIff | src/asymmetric_engine/domain/execution/models.py:218-222 | The spread gate without a division: the spread exceeds a limit exactly when 20000 (ask - bid) exceeds limit (bid + ask). |
| ExecutionLaws.QuoteGatesAreExact | src/asymmetric_engine/application/execution.py:342-371 | Unless a condition is triggered, a plan gives QUOTE_STALE exactly when some quote is older than the limit, SPREAD_TOO_WIDE exactly when some spread is above it, and the two liquidity reasons exactly for a quote marked so; instants, prices and marks are compared directly. |
| ExecutionLaws.ConditionGatesAreExact | src/asymmetric_engine/application/execution.py:311-341 | It gives INVALIDATION_MISSING exactly for an unassessed condition, INVALIDATION_UNKNOWN exactly for an unknown one, QUOTE_MISSING exactly for a traded instrument without a quote. |
| ExecutionLaws.MissingDataIs | src/asymmetric_engine/application/execution.py:311-371 | A text is recorded exactly by a waiting plan, for an unassessed condition, an unquoted instrument, or an unknown status or liquidity that names it. |
| ExecutionLaws.NameOrderIs | src/asymmetric_engine/application/execution.py:373-378 | Reasons follow the alphabetical order of their wire names. |
| ExecutionLaws.OrdersAre | src/asymmetric_engine/application/execution.py:500-535 | An executable allocation has one leg that buys its target; an executable replacement first sells the source at the sale amount, then buys the target at the target amount. |
| Execution.Execute | src/asymmetric_engine/application/execution.py:268-425 | Past the guards there is always a plan; it passes plan validation, its wait reasons and the missing data a waiting plan records are exact, its staged legs split the approved amounts, and each action is tied to the observations: INVALIDATED exactly when a condition is triggered, WAIT exactly when none is and some reason holds, STAGED exactly when neither and the order limit is exceeded. |
| Execution.CollectMissing | src/asymmetric_engine/application/execution.py:311-371 | The two collecting loops give one text for each unassessed condition and each unquoted instrument, and whatever assessments of unknown status and quotes of unknown liquidity say is missing. |
| Execution.LooserPolicyKeepsExecutable | src/asymmetric_engine/application/execution.py:352-371 | Looser quote-age and spread limits never turn an executable plan into WAIT, nor change which executable action it is. |
| Execution.ApprovedAmountsAreKept | src/asymmetric_engine/domain/execution/models.py:393-425 | In every valid executable plan each leg carries, and its tranches sum to, exactly the approved amount. |
| Tranches.SplitIntoTranches | src/asymmetric_engine/application/execution.py:507-528 | The loop terminates with exactly ceil(amount/limit) contiguously indexed tranches in one currency, each in (0, limit], all but the last equal to the limit, summing to the amount. |
| Tranches.CeilingIsUnique | src/asymmetric_engine/application/execution.py:511-528 | No other number of tranches is possible. |
| Tranches.SumNext | src/asymmetric_engine/application/execution.py:511-528 | The orders of a leg sum their amounts, one by one. |
| CapitalChain.SwitchIsConserved | src/asymmetric_engine/application/execution.py:194-242 | In every executable plan for a REPLACE decision the sales minus the purchases are exactly the switching friction, the sales stay within the source's value, and the purchases exceed the free cash. |
| CapitalChain.InstructionsAre | src/asymmetric_engine/application/execution.py:233-242 | Source, target, sale amount, target amount, conditions and boundary of an instruction are each taken from their own field of the decision. |
| CapitalChain.TradedNext | src/asymmetric_engine/application/execution.py:500-535 | Each leg counts on its own side, with the sum of its own orders. |
| CapitalChain.PlanAllocation | src/asymmetric_engine/application/execution.py:116-163 | Policy decision and execution composed: a plan is made exactly for an ALLOCATE decision, and an executable one buys exactly the evaluated unit, within the owner's maximum, and sells nothing. |
| AllocationChain.Allocate | src/asymmetric_engine/application/marginal_decision.py:149-187 | Fits, policy and execution composed: fits exist exactly when both after views hold the unit more, the decision is the policy's on those fits, and an executable plan buys exactly what the winner's fit adds to the gross value. |
| AllocationChain.OrdersReachTheBook | src/asymmetric_engine/application/marginal_decision.py:609-770 | From exposure to orders: whichever alternative wins, the rebuilt book that holds it is worth exactly the orders more, its HHI bound is within the owner's limit, and each weight limit holds in it if and only if the weights the purchase leaves alone were within it. |
| CapitalChain.PlanReplacement | src/asymmetric_engine/application/execution.py:194-242 | Decision and execution composed: only REPLACE is planned, and the plan sells exactly the approved gross amount and conserves it up to friction. |
| Learning.MaxDrawdown | src/asymmetric_engine/application/learning.py:564-576 | The running-peak loop equals the minimum of p_j/p_i - 1 over all pairs i <= j of the path that starts at the decision price. |
| Learning.DrawdownRange | src/asymmetric_engine/application/learning.py:564-576 | The drawdown is in (-1, 0], and 0 if and only if the path never falls. |
| Learning.DrawdownCoversLoss | src/asymmetric_engine/application/learning.py:564-576 | The drawdown is at least as deep as the final loss. |
| Learning.DrawdownOnlyDeepens | src/asymmetric_engine/application/learning.py:564-576 | More observations never make the drawdown shallower. |
| Learning.Evaluate | src/asymmetric_engine/application/learning.py:370-447 | Succeeds exactly when the prices are those of the case's own legs, all of them, in its currency, and all legs end on one date; otherwise names the first failing check. Returns, excess returns and drawdown follow from each leg's own observations. |
| Learning.Conclude | src/asymmetric_engine/application/learning.py:370-455 | The whole evaluation: it concludes exactly when the legs are comparable and no thesis condition is invented, with metrics, thesis judgement, horizon flag and band consistent; before the horizon no band is claimed. |
| Learning.HigherPriceNeverWorse | src/asymmetric_engine/application/learning.py:603-621 | On one matured case with an accepted anchor, a higher last price of the target never concludes with a worse band, whatever happened on the way. |
| Learning.ScoreLeg | src/asymmetric_engine/application/learning.py:558-576 | Return and drawdown of one leg from its own observations in time order; missing exactly when the leg has none; always within the metric's bounds, the drawdown at least as deep as the return. |
| Learning.LatestIsLast | src/asymmetric_engine/application/learning.py:384-396 | The last observation of a path is an observation of that instrument with no later one, and is missing exactly when there is none. |
| Learning.ReturnIsFromNewest | src/asymmetric_engine/application/learning.py:418-443 | A return is that of the newest price of the leg's instrument against its reference, and of no other price. |
| Learning.EvaluationIsUnordered | src/asymmetric_engine/application/learning.py:384-450 | Neither the verdict on the legs nor any metric depends on the order in which the prices are supplied. |
| Learning.OnPath | src/asymmetric_engine/application/learning.py:384-397 | A path holds exactly the instrument's own observations, and no observation before an earlier one. |
| Learning.PathIsUnordered | src/asymmetric_engine/application/learning.py:384-397 | Shuffling the supplied observations changes no price path. |
| Learning.JudgeThesis | src/asymmetric_engine/application/learning.py:578-601 | Errs exactly on an invented condition; INVALIDATED exactly when one is triggered; INTACT exactly when every condition, and only those, is observed as not triggered. Missing data names every unassessed condition, and what the undetermined observations lack unless something is triggered. |
| Learning.MissingIs | src/asymmetric_engine/application/learning.py:578-601 | A text is asked for exactly for an unassessed condition or, unless something is triggered, by an undetermined observation that names it. |
| Learning.BandsFollowReturns | src/asymmetric_engine/application/learning.py:603-621 | On every accepted anchor a better return never realises a worse band, and the outer bands begin exactly at the bear and bull returns. |
| Learning.BandsAre | src/asymmetric_engine/application/learning.py:603-621 | Where each band begins and ends: bear and base belong to the band above them, bull to the one below. |
| Scenarios.WideGapOrders | src/asymmetric_engine/domain/opportunity/models.py:530-552 | Two accepted scenarios whose values per share differ by at least 2t(1+p) have ordered returns, strictly so above it. |
| Scenarios.ThresholdIff | src/asymmetric_engine/domain/opportunity/models.py:530-552 | A positive gap in value per share orders the returns of every pair of accepted scenarios at that price if and only if it is at least 2t(1+p). |
| Scenarios.AcceptedIff | src/asymmetric_engine/domain/opportunity/models.py:530-552 | A scenario is accepted exactly when its equity, value per share and return are each within 10^-9 of the bridge from enterprise value. |
| Scenarios.WideSetAnchors | src/asymmetric_engine/application/learning.py:313-339 | Every accepted bear/base/bull set with gaps above the threshold opens a Learning anchor. |
| Scenarios.AnchorIff | src/asymmetric_engine/application/learning.py:313-339 | An anchor opens exactly on returns in order, ties included, and carries price and returns unchanged. |
| Scenarios.AcceptedSetWithoutAnchor | src/asymmetric_engine/domain/opportunity/models.py:1038-1041 | At every price some accepted, strictly ordered set is refused by the exactly ordered anchor. |
| EvidenceLedger.Ledger.Append | src/asymmetric_engine/infrastructure/persistence/sqlite_evidence_ledger.py:129-199 | Answers as the two keys of the table determine, and the only change of any outcome is one more row at the end. |
| EvidenceLedger.AnswerIsUnique | src/asymmetric_engine/infrastructure/persistence/sqlite_evidence_ledger.py:129-199 | The table determines the answer: inserted, the stored first version, or the one error. |
| EvidenceLedger.RepeatIsPresentIff | src/asymmetric_engine/infrastructure/persistence/sqlite_evidence_ledger.py:139-161 | A stored version sent again is present exactly when every field but the ingestion time and every byte is the stored one, and a conflict otherwise. |
| EvidenceLedger.WriteKeepsRows | src/asymmetric_engine/infrastructure/persistence/sqlite_evidence_ledger.py:129-199 | One append keeps both keys unique and every stored row; a rejected one changes nothing. |
| EvidenceLedger.RunKeepsRows | src/asymmetric_engine/infrastructure/persistence/sqlite_evidence_ledger.py:129-199 | Over every run of ingestions both keys stay unique and no stored row is changed, moved or lost. |
| EvidenceLedger.Ledger.IngestReference | src/asymmetric_engine/application/evidence_ingestion.py:104-141 | A reference that trims to nothing is refused and changes nothing; any other is fetched trimmed and ingested. |
| EvidenceLedger.Ledger.Ingest | src/asymmetric_engine/application/evidence_ingestion.py:111-141 | A draft becomes a document stamped by the clock, is refused before its own availability, and is appended otherwise. |
| EvidenceLedger.DocumentIs | src/asymmetric_engine/application/evidence_ingestion.py:111-140 | An ingested document carries the draft's own fields, its fingerprint and size, the clock value, and the asserted availability or else the clock value. |
| EvidenceLedger.Ledger.Get | src/asymmetric_engine/infrastructure/persistence/sqlite_evidence_ledger.py:215-237 | Returns the row with the id, its bytes matching its hash, and nothing exactly when no row has it. |
| EvidenceLedger.Ledger.ListBySubject | src/asymmetric_engine/infrastructure/persistence/sqlite_evidence_ledger.py:201-213 | All and only the versions of the subject, in index order. |
| PointInTime.SubjectListIsExact | src/asymmetric_engine/infrastructure/persistence/sqlite_evidence_ledger.py:201-213 | All and only the versions of the subject, by availability, ingestion time, provider, record and version. |
| PointInTime.ListAt | src/asymmetric_engine/application/evidence_ingestion.py:150-177 | Errs exactly on a blank subject; otherwise returns the listing at the boundary. |
| PointInTime.ListingIsExact | src/asymmetric_engine/application/evidence_ingestion.py:150-177 | A listing holds exactly the stored versions of the subject available (and, under live replay, ingested) by the instant, in key order. |
| PointInTime.ListingIsInOrder | src/asymmetric_engine/application/evidence_ingestion.py:160-177 | A listing is ordered by availability, then ingestion time, then provider, record and version, each compared on the field. |
| Temporal.ExclusionIs | src/asymmetric_engine/domain/temporal/models.py:33-55 | Why a record is outside a boundary: not yet available, or under live replay available but ingested later; inside exactly when neither. |
| PointInTime.ListingsNest | src/asymmetric_engine/domain/temporal/models.py:33-55 | A narrower listing is the wider one with later knowledge struck out, order included: live is inside historical, and both grow with the instant. |
| PointInTime.LiveListingIsFixed | src/asymmetric_engine/application/evidence_ingestion.py:150-177 | No look-ahead: after the clock has passed T, no run of ingestions changes the live listing at T or its order. |
| PointInTime.BackfillIff | src/asymmetric_engine/application/evidence_ingestion.py:110-116 | A run of ingestions after T changes the historical listing at T if and only if some document it adds for the subject was, by its provider's assertion, available by T. |
| PointInTime.LateReportIsBackfilled | src/asymmetric_engine/application/evidence_ingestion.py:110-116 | A concrete run: a report asserted available at 3 and ingested at 9 joins the historical listing at 5. |
| PointInTime.RetryReturnsFirst | src/asymmetric_engine/infrastructure/persistence/sqlite_evidence_ledger.py:139-161 | After any run, the same version appended again answers with the first document and its first timestamp, and changes nothing. |
| PointInTime.ReingestIff | src/asymmetric_engine/application/evidence_ingestion.py:110-116 | Ingesting the same draft again is a no-op if and only if its availability is asserted or the clock has not moved; otherwise it is a version conflict. |
| PointInTime.IngestFailsOnlyOn | src/asymmetric_engine/application/evidence_ingestion.py:104-141 | With injective ids an ingestion fails only on its timestamp, exactly when the asserted availability is in the future, or on a version conflict. |
| ProductStore.Store.Append | src/asymmetric_engine/infrastructure/persistence/sqlite_product_store.py:132-199 | Answers as the two keys determine; the branch that would find the same id behind a duplicate payload is dead. |
| ProductStore.AnswerIsUnique | src/asymmetric_engine/infrastructure/persistence/sqlite_product_store.py:132-199 | Both keys together determine the answer. |
| ProductStore.RepeatIsPresentIff | src/asymmetric_engine/infrastructure/persistence/sqlite_product_store.py:140-157 | A stored id sent again is present exactly when kind, schema, digest and text are the stored ones, and a conflict otherwise. |
| ProductStore.RunKeepsRows | src/asymmetric_engine/application/product_persistence.py:251-270 | Over every run of stores both keys stay unique, rows stay as first stored, and every row stays content-addressed. |
| ProductStore.DuplicatePayloadIsUnreachable | src/asymmetric_engine/infrastructure/persistence/sqlite_product_store.py:158-176 | When all writes come from storing records, the duplicate-payload branch is never taken, without assuming any injectivity. |
| ProductStore.StoreSucceeds | src/asymmetric_engine/application/product_persistence.py:251-270 | With injective digest and ids, storing an admitted record never fails. |
| ProductStore.RetryReturnsFirst | src/asymmetric_engine/infrastructure/persistence/sqlite_product_store.py:140-155 | After any run, storing a record again answers with its first envelope and first storage time. |
| ProductStore.StoreRecord | src/asymmetric_engine/application/product_persistence.py:251-270 | A type that is not admitted is refused and changes nothing; any other record is appended in its content-addressed envelope. |
| ProductStore.EnvelopeIs | src/asymmetric_engine/application/product_persistence.py:251-270 | An envelope holds the record's canonical text, its digest, the kind's schema, an id over all three, and the clock value. |
| ProductStore.LoadRecord | src/asymmetric_engine/application/product_persistence.py:279-294 | A missing id, another kind or a failed verification is the matching error; otherwise the verified record of that id. |
| ProductStore.Store.ListByKind | src/asymmetric_engine/infrastructure/persistence/sqlite_product_store.py:213-226 | Returns exactly the stored envelopes of the kind, by storage time and id. |
| ProductStore.ByKindIsExact | src/asymmetric_engine/infrastructure/persistence/sqlite_product_store.py:213-226 | The list of a kind holds all and only its stored envelopes, each as often as stored, by storage time and id. |
| ProductStore.VerifyAcceptsExactlyStored | src/asymmetric_engine/application/product_persistence.py:204-236 | Envelope verification accepts exactly the envelopes that storing some admitted record would build. |
| ProductStore.TamperingIsFound | src/asymmetric_engine/application/product_persistence.py:204-225 | One changed field of a stored envelope is found and named: another id, schema, digest or text; another storage time is not a change. |
| ProductStore.ForeignTextIsFound | src/asymmetric_engine/application/product_persistence.py:227-236 | A correctly addressed text is refused exactly when it does not parse or is not the canonical form of what it parses to. |
| ProductStore.StoreThenLoad | src/asymmetric_engine/application/product_persistence.py:279-294 | Store, any run, load: the same record in its first envelope. |
| ProductStore.ListGrowsAtEnd | src/asymmetric_engine/infrastructure/persistence/sqlite_product_store.py:213-226 | While the clock moves forward a new record appears only at the end of its kind's list. |
| Canonical.ListIdempotent | src/asymmetric_engine/application/portfolio_exposure.py:158-216 | Canonicalise-then-sort is idempotent on lists with distinct keys. |
| Canonical.SameListIff | src/asymmetric_engine/application/portfolio_exposure.py:158-216 | Two lists have the same canonical form if and only if one is a rearrangement of the other, up to the inner form of its items. |
| Canonical.VerifyAcceptsExactlyBuilt | src/asymmetric_engine/application/portfolio_exposure.py:124-155 | For an idempotent canonical form, rebuild-and-compare returns on exactly the records some valid input executes to. |
| Canonical.SameRecordIff | src/asymmetric_engine/application/portfolio_exposure.py:67-122 | Two inputs give the same record if and only if their canonical forms agree, whatever the hash does. |
| Canonical.RecordIs | src/asymmetric_engine/application/portfolio_exposure.py:67-122 | A record holds the canonical input, its fingerprint, the id of that fingerprint, and what is derived from the canonical input. |
| StateReplay.DraftCanonical | src/asymmetric_engine/application/portfolio_state.py:78-100 | Draft canonicalisation is idempotent, and equal exactly on drafts with the same content up to order. |
| ReplayLaws.DraftIs | src/asymmetric_engine/application/portfolio_state.py:78-100 | A canonical draft field by field: six lists by id, four lists of texts in order, nothing else changed. |
| StateReplay.Replay | src/asymmetric_engine/application/portfolio_state.py:24-76 | For every hash: equal states exactly for drafts with the same content, and `verify` returns on exactly the states built. |
| ExposureReplay.InputIdempotent | src/asymmetric_engine/application/portfolio_exposure.py:158-250 | Canonicalisation of evidence, statements, snapshots and profiles, nested lists included, is idempotent and keeps validity. |
| ExposureReplay.SameEvidenceIff | src/asymmetric_engine/application/portfolio_exposure.py:160-176 | Two evidence items canonicalise alike if and only if they agree up to the order of missing fields and conflicts. |
| ExposureReplay.SameClaimIff | src/asymmetric_engine/application/portfolio_exposure.py:178-186 | Two claims canonicalise alike if and only if they agree up to the order of evidence ids. |
| ExposureReplay.SameSnapshotIff | src/asymmetric_engine/application/portfolio_exposure.py:187-203 | Two ETF snapshots canonicalise alike if and only if they agree up to the order of constituents. |
| ExposureReplay.SameProfileIff | src/asymmetric_engine/application/portfolio_exposure.py:218-250 | Two company profiles canonicalise alike if and only if they agree up to the order of drivers, of missing dimensions and of the ids behind each tag. |
| ReplayLaws.ExposureInputIs | src/asymmetric_engine/application/portfolio_exposure.py:158-250 | A canonical exposure input field by field: four lists by id, each item with its inner lists in order and the rest as supplied. |
| ExposureReplay.Replay | src/asymmetric_engine/application/portfolio_exposure.py:67-155 | Inputs give the same exposure exactly when they are rearrangements of each other at every depth, and `verify` returns on exactly the exposures built. |
| DecisionReplay.OrientationIsForgotten | src/asymmetric_engine/application/marginal_decision.py:309-353 | A comparison and its reversal, preferences and conclusion flipped, have one canonical form. |
| DecisionReplay.ComparisonFixed | src/asymmetric_engine/application/marginal_decision.py:309-353 | A canonical comparison names the smaller id first and is a fixed point. |
| ReplayLaws.ComparisonIs | src/asymmetric_engine/application/marginal_decision.py:309-353 | A canonical comparison field by field: when the ids change places, conclusion and preferences change sides with them, components are listed by dimension, and the rest stays. |
| DecisionReplay.SameComparisonIff | src/asymmetric_engine/application/marginal_decision.py:309-353 | Two comparisons canonicalise alike if and only if, turned to the same side, they agree up to the order of components and missing data. |
| DecisionReplay.WinnerIsUnoriented | src/asymmetric_engine/application/marginal_decision.py:277-307 | The canonical comparisons warrant exactly the decisions the supplied ones do. |
| ReplayLaws.VerdictsAre | src/asymmetric_engine/application/marginal_decision.py:1016-1035 | Who beats whom, in the words of the comparisons. |
| ReplayLaws.DecisionInputIs | src/asymmetric_engine/application/marginal_decision.py:277-307 | A canonical decision input field by field: funding ids and texts in order, assessments by alternative, comparisons by their pair. |
| DecisionReplay.ReversingIsRearranging | src/asymmetric_engine/application/marginal_decision.py:277-307 | Writing any of the comparisons from the other side counts as the same input. |
| DecisionReplay.Replay | src/asymmetric_engine/application/marginal_decision.py:277-307 | Inputs give the same decision exactly when they are rearrangements or reversals of each other, and `verify` returns on exactly the decisions built. |
| AlternativeViews.IndexViews | src/asymmetric_engine/application/marginal_decision.py:517-540 | The loop succeeds exactly when every view is an alternative of the unit on the current view, no instrument has two, and exactly the expected instruments have one; the number-of-views check adds nothing. |
| AlternativeViews.CandidateProfile | src/asymmetric_engine/application/marginal_decision.py:595-607 | Errs exactly when two views describe the candidate's company differently; otherwise gives its one profile or none. |
| AlternativeViews.ReadingIsUnordered | src/asymmetric_engine/application/marginal_decision.py:517-607 | Whether the supplied exposure views are accepted, and everything the decision reads from them, does not depend on their order. |
| AlternativeViews.DecisionIsUnordered | src/asymmetric_engine/application/marginal_decision.py:100-246 | Rearranging the supplied views, and rearranging or reversing the input, gives the same decision record. |
| CanonicalDecimal.FailsIff | src/asymmetric_engine/domain/financial.py:20-30 | Canonicalisation raises if and only if the absolute value is at least 10^28 - 1/2. |
| DecimalLaws.FailsFrom | src/asymmetric_engine/domain/financial.py:20-30 | As a statement about numbers: it raises exactly from 10^28 - 1/2 upwards and from -(10^28 - 1/2) downwards. |
| CanonicalDecimal.KeepsValueIff | src/asymmetric_engine/domain/financial.py:20-30 | It keeps the value if and only if the digits beyond 28 are all zeros. |
| CanonicalDecimal.CanonicalForm | src/asymmetric_engine/domain/financial.py:20-30 | The result is plain zero, a fraction without trailing zero, or an integer of at most 28 digits with exponent zero. |
| CanonicalDecimal.CanonicalIdempotent | src/asymmetric_engine/domain/financial.py:20-30 | A canonical form is left alone. |
| CanonicalDecimal.SameFormIffSameValue | src/asymmetric_engine/domain/financial.py:20-30 | Two amounts of at most 28 significant digits get the identical sign, digits and exponent if and only if they are numerically equal. |
| DecimalLaws.SameValueIs | src/asymmetric_engine/domain/financial.py:20-30 | Two decimals are equal exactly when they stand for the same number. |
| DecimalLaws.CanonicalIsNearest | src/asymmetric_engine/domain/financial.py:20-30 | A canonical form is worth the number rounded to its first 28 digits, ties to even, and exactly the number when it has no more. |
| SecExtraction.NormalizeIdempotent | src/asymmetric_engine/application/sec_xbrl_extraction.py:339-396 | A normalised fact is acceptable and normalises to itself. |
| SecLaws.AcceptedIff | src/asymmetric_engine/application/sec_xbrl_extraction.py:317-383 | A fact is accepted exactly when it has none of nine defects, each stated on the emitted fields. |
| SecLaws.NormalFieldsAre | src/asymmetric_engine/application/sec_xbrl_extraction.py:339-396 | A normalised fact field by field: texts without the spaces at their ends, units and dimensions likewise and in order, the rest as emitted. |
| SecExtraction.NormalKeepsContent | src/asymmetric_engine/application/sec_xbrl_extraction.py:354-396 | Normalising loses no dimension, unit or value. |
| SecExtraction.NormalizeIsUnordered | src/asymmetric_engine/application/sec_xbrl_extraction.py:339-396 | Neither acceptance nor the normal form depends on the order of dimensions or units. |
| SecExtraction.Validate | src/asymmetric_engine/application/sec_xbrl_extraction.py:223-291 | The loop accepts exactly the intact sets: one lineage, filled and shadow-only, every address recomputed, no id twice. |
| SecExtraction.ValidatorAcceptsExactlyAssembled | src/asymmetric_engine/application/sec_xbrl_extraction.py:223-291 | The validator accepts exactly the sets assembled from their own facts with a filled lineage and no id collision. |
| SecExtraction.Extract | src/asymmetric_engine/application/sec_xbrl_extraction.py:398-490 | Succeeds exactly when source and facts are admitted and no two candidate ids collide; the result is the assembled set and intact. |
| SecLaws.ExtractedSetIs | src/asymmetric_engine/application/sec_xbrl_extraction.py:413-490 | The candidate set field by field: one candidate for each fact, by serialised text, with the filing's lineage, the fixed method and version, and ids and fingerprint over exactly that. |
| SecExtraction.ExtractionIsUnordered | src/asymmetric_engine/application/sec_xbrl_extraction.py:413-490 | The candidate set depends only on which facts were emitted, not on the order of facts, dimensions or units. |
| SecExtraction.InjectiveIdsDoNotCollide | src/asymmetric_engine/application/sec_xbrl_extraction.py:187-200 | With injective candidate ids, admitted facts never collide. |
| Text.StripRemovesOnlySpaces | src/asymmetric_engine/application/sec_xbrl_extraction.py:309-314 | Trimming removes spaces at the two ends and nothing else. |
| Text.StripIdempotent | src/asymmetric_engine/application/sec_xbrl_extraction.py:309-314 | Required text is trimmed at both ends, and trimming twice is trimming once. |
| Text.SpacesAre | src/asymmetric_engine/application/sec_xbrl_extraction.py:309-314 | Which characters count as spaces. |
| SecManifest.Build | src/asymmetric_engine/application/sec_source_manifest.py:172-249 | Succeeds exactly when every declared page was supplied once, as declared, and every filing belongs to the filer with no accession twice. |
| ManifestLaws.ReconcilesIff | src/asymmetric_engine/application/sec_source_manifest.py:179-236 | The pages reconcile exactly when they have none of nine defects, each stated on pages and filings. |
| ManifestLaws.FilingsAre | src/asymmetric_engine/application/sec_source_manifest.py:225-249 | A manifest lists exactly the filings of the current and the supplied pages, by filing date and accession, no accession twice, under the hash of what it lists. |
| ManifestLaws.PagesAre | src/asymmetric_engine/application/sec_source_manifest.py:200-241 | Its pages are the declared ones, by start date and name. |
| SecManifest.EveryFilingOnce | src/asymmetric_engine/application/sec_source_manifest.py:225-249 | Every admitted filing is listed, each accession exactly once, by (filing date, accession). |
| SecManifest.SourcesFollowPages | src/asymmetric_engine/application/sec_source_manifest.py:239-249 | Page names follow the declared order by start date and name; the sources are the current page's, then each named page's own. |
| SecManifest.ReconciliationIsUnordered | src/asymmetric_engine/application/sec_source_manifest.py:172-236 | Whether the pages reconcile does not depend on any order they are given in. |
| SecManifest.ManifestIsUnordered | src/asymmetric_engine/application/sec_source_manifest.py:172-249 | The manifest, hash included, depends only on the set of supplied pages. |
| EvidenceTrace.CollectClaims | frontend/src/api.ts:111-123 | The worklist terminates on every fact graph, cycles included, and collects exactly the claims of the item and of every fact reachable through its inputs. |
| EvidenceTrace.EvidenceFor | frontend/src/api.ts:109-127 | Without an item everything is shown; otherwise exactly the traced claims and exactly their evidence, in dossier order. |
| TraceLaws.TracedIff | frontend/src/api.ts:111-123 | A claim is traced exactly when the item makes it or a chain of facts, each an input of the one before, leads from the item to a fact that rests on it; an id names the first financial fact with it, else the first derived one. |
| TraceLaws.ShownIff | frontend/src/api.ts:109-127 | Exactly the traced claims of the dossier are shown, and exactly the evidence one of them names. |
| Sorting.SortIsCanonical | src/asymmetric_engine/application/portfolio_state.py:78-100 | Sorting by a key under which only equal items tie forgets the order of its input and nothing else. |
| Sorting.StringLeqIs | src/asymmetric_engine/application/portfolio_state.py:78-100 | Texts are ordered as prefixes or by their first difference. |
| Sorting.FilterSorted | src/asymmetric_engine/application/evidence_ingestion.py:160-177 | Filtering a sorted list is sorting the filtered one. |

## Left out

- Decimal context rounding outside `CanonicalDecimal`: amounts are exact reals.
- Rows of a currency book are maps by id, not tuples sorted by id; labels and disclosure texts are opaque.
- `_validate_funding`, candidate, underwriting-status and profile-consistency checks of the marginal decision: one-branch admission checks.
- Replacement.Decide: equal knowledge boundaries, a current-only exposure, new-capital-first funding and the target's own evidence (`_validate_target`) are one-branch checks before the cited lines; the target is taken as admitted. Content addressing follows after them.
- Reason details and content addresses of execution plans: derived texts.
- Opening a learning case and the guards of its evaluation (boundaries, observation times, conflicts): one-branch admission checks.
- Database transactions, schema triggers and migrations: the tables are sequences of rows, and a primary-key collision is an outcome that changes nothing.
- Cross references inside a portfolio draft (`validate_portfolio_state`): canonicalisation only permutes lists and keeps every reference.
- What a builder derives from its canonical input is an arbitrary function in the replay modules; `ExposureState.Execute` states it for the exposure engine.
- Replay of owner policies (with change conditions nested in position policies), replacement decisions (with nested costs and an oriented comparison), execution plans, learning cases and position reviews: the lists `Canonical` and the orientation `DecisionReplay` already treat.
- Loading filing bytes and the XBRL processor: the emitted facts are a parameter. A duplicate axis that mixes typed and explicit members raises a comparison error in the source; here it is the same extraction error.
- Fetching submissions pages and capturing the filings a manifest lists.
- Dossier entries whose id is missing or not a text.
- Causal readiness, underwriting gates, fact admission, position reviews, decision and execution cards, the command line, web servers and user interface.
