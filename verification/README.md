# Verified model of the research backtest, proof governance, monitor relay and MT5 kernels

This project models four parts of a trading workstation in Dafny 4.11 and proves what they promise for
every input, every run and every interleaving. `dafny verify dfyconfig.toml` checks all of it.

**Backtest and replay** (`Models`, `Sizing`, `Indicators`, `FrameMeaning`, `Engine`, `Runner`, `Runs`, `Explanation`,
`Openings`, `Capital`, `Clamp`, `Reporting`, `Replay`, `Hindsight`, `LiveReplay`, `FinalReplay`, `ReplayMeaning`,
`Research`). `Engine.BacktestEngine` is the single-position
engine with its fields updated in place; `Runner` drives it candle by candle over the indicator frame;
`Replay` projects a finished run at a cursor. The central result is `LiveReplay.ReplayIsLive`: replaying a
finished run at a cursor shows exactly what an engine that was fed only the candles up to the cursor knows.
That there is no look-ahead (`NoLookAhead`) follows from it. Beside it stand the shape of every run, the
explanation of every trade from the data alone (`Explanation.EveryTradeExplained`) and, the other way round, of
every signal that becomes one (`Openings.SignalBecomesTrade`), the defining equations of every indicator column
(`FrameMeaning.FrameDefines`), what every field of a replay shows (`ReplayMeaning.ReplayShows`), the conservation of its ledger, the bound on ruin, and the agreement of three drawdown loops and two streak loops.

**Proof governance** (`Texts`, `Evidence`, `EvidenceReview`, `EvidenceSoundness`, `Shadowing`, `Registration`,
`Registry`, `RegistryRuns`, `DurableProofs`, `Codec`, `Payload`, `Store`, `TermsService`, `Governance`, `Attempts`,
`Causes`, `Pipeline`, `Padding`, `Samples`, `Operations`). Each validation stage is shown to be equivalent to a soundness
predicate over the evidence; the stages compose into `Registry.AdmittedIff` (admission happens exactly for a sound
attempt under fresh identities). Read backwards, `Attempts.AdmissibleIff` says exactly which requests have such an
attempt, and `Pipeline.ReachableIff` which whole registries admissions can reach. The durable state round-trips through its payload, the store only grows and lookups only climb. `Operations`
runs admissions, revocations, persists and reloads in any order from an empty store: every persist is accepted, terms
are offered only on the strength of a sound admission among them, and a recorded revocation is final. The store by
itself gives no such guarantee; `Pipeline.TermsProvenanceIff` is the exact condition. `Causes` states, for every reason
code of every stage, exactly when it is reported, and `TermsService.ServiceAnswers` every answer of the service.
SHA-256 and the payload digest are arbitrary function parameters; no theorem needs them to be injective.

**Monitor relay** (`Limiter`, `Relay`, `RelayOutcomes`, `RelayMonitor`). The relay is a step machine over three semaphores, the pending map and the
tasks; a run is any sequence of steps, enabled or not. `Relay.EveryRunIsSound` is the invariant of all of them,
`RelayOutcomes.EveryStepAdvances` what each step makes of each task, and `RelayOutcomes.OutcomeIff` why a read ended as
it did. `RelayMonitor.Monitor` and `Limiter.SlidingWindow` are the same steps in place.

**MT5 and PBO kernels** (`Mt5History`, `Mt5Lots`, `Pbo`). History paging, lot sizing against
submit-time normalisation, and mid-rank overfitting counts.

Floats are modelled as `real`. Strategy, regime detection, the MT5 terminal, prices, clocks and hashes are
parameters.

## What the proofs show about the code

- The cash clamp in the engine never binds at a risk of 50% or less, nor without a fee. `Clamp.ClampsIff` is the exact
  condition: a configuration has a run with a clamped trade if and only if it risks more than half, charges a fee, and
  its smallest possible loss (one size increment over the closest stop its minimum ATR allows) still fits a balance
  that the stop and the fee together exhaust. More than half and a fee alone are not enough
  (`Clamp.HalfAndFeeAreNotEnough`).
- Neither the store nor the service consults admission. An entry whose semantics do not carry its loss model's identity
  is stored and obtains terms although no admissions can produce it (`Samples.UnadmittedObtainsTerms`). Whatever
  the row, the entry that offered terms come from could have been admitted exactly when it is admissible
  (`Pipeline.TermsProvenanceIff`).
- The review indexes claims by identity and a later artifact's claim replaces an earlier one, so a rejected,
  contradicting claim can stand behind an admission (`Samples.RejectedClaimIsAdmitted`). The verdict covers every cited
  claim, whatever the review states, exactly when no listed claim identity is carried by two listed artifacts
  (`Shadowing.VerdictCoversAllIff`).
- Artifact identities are stripped before lookup, so every admissible request can also be admitted with any of its
  identities padded (`Padding.PaddedIsAdmitted`). An admitted entry lists its artifacts literally exactly when stripping changes
  none of its identities (`Padding.AdmittedLiterallyIff`).
- The registry entry's own constructor does not compare semantics with the material hash; decoding does. An entry
  survives the payload exactly when they match (`Payload.EntryRoundTrip`), which every admitted entry does.
- No task of the relay ever waits for an `inflight` permit: the two slot semaphores and the single health key
  already bound the demand by four, so the timeout branch on `inflight` is unreachable.
- Normalising a volume down never returns more than was requested, to the slack, for every table of a step exactly when
  the step is a whole number of 1e-8 (`Mt5Lots.NeverRaisesIff`); for every other step there is a table on its own grid
  and a request that comes back larger (`Mt5Lots.OffGridRaises`). Authorised lots themselves never come back larger,
  whatever the table and the quote (`Mt5Lots.NeverLargerAtSubmit`). That they come back unchanged, for every table of a
  step with its limits on the step's grid, holds exactly when the step is a whole number of 1e-8
  (`Mt5Lots.UnchangedIff`); for every other step some authorised lots are refused (`Mt5Lots.OffGridRefused`).
- The final loss check of lot sizing refuses nothing more than the sizing already did while one lot loses at most
  1e10 at the stop (`Mt5Lots.LossCheckIsCovered`).
- The fallback reason for a revoked proof without a stated reason is never used (`Consumption.RevokedHasReasons`).

## Model

| member | source | states |
|---|---|---|
| Sizing.AuthorizeIsLargestSafeQuantity | risk/simulation_contract.py:122-163 | The authorised quantity is the largest point of the 1e-12 grid whose loss at the stop stays within the risk; refusal means no positive grid point does |
| Sizing.AuthorizeIsTop | risk/position_sizing.py:39-128 | The defensive decrement and the final re-check never change the result of the exact floor |
| Indicators.FrameCausal | core/indicators.py:18-55 | Computing EMA50, EMA200, RSI and ATR on the whole dataset and slicing equals computing them on the slice |
| Indicators.EwmCausal | core/indicators.py:18-55 | The EMA recursion's first k outputs need only its first k inputs |
| Indicators.RsiCausal | core/indicators.py:18-55 | The same for the rolling RSI |
| Indicators.RollingMeanCausal | core/indicators.py:18-55 | The same for a rolling mean with missing values |
| Indicators.AtrDefined | core/indicators.py:18-55 | ATR is missing exactly on the first 13 rows, so never on a row the runner evaluates |
| Indicators.EwmWithin | core/indicators.py:18-55 | A moving average stays within the range of the prices it averages |
| Indicators.RsiInRange | core/indicators.py:18-55 | RSI lies between 0 and 100 wherever it is defined |
| FrameMeaning.FrameDefines | core/indicators.py:18-55 | EMA50 and EMA200 start at the first close and satisfy their recursion, RSI * (rises + falls) = 100 * rises over the last 14 steps wherever there was a move, 14 * ATR is the sum of the last 14 true ranges |
| FrameMeaning.DefinesUnique | core/indicators.py:18-55 | These equations determine the frame |
| Engine.BacktestEngine.constructor | backtesting/engine.py:38-57 | A fresh engine holds the starting balance, no orders, and a one-point equity curve |
| Engine.BacktestEngine.ProcessCandle | backtesting/engine.py:59-69 | In-place entry and exit on one candle equal the step function on the engine's whole state, which Openings and Explanation describe from the data |
| Engine.BacktestEngine.QueueSignal | backtesting/engine.py:71-109 | The gates in order, the decision recorded, and the pending slot, against the step function |
| Engine.BacktestEngine.Finish | backtesting/engine.py:111-114 | An open position is closed at the last close as end of data; the pending slot is emptied |
| Engine.BacktestEngine.Enter | backtesting/engine.py:158-193 | Adverse fill, levels, sizing and the refusal decision, against the step function |
| Engine.BacktestEngine.EvaluateExit | backtesting/engine.py:195-207 | Stop before target before holding limit, against the step function |
| Engine.BacktestEngine.Close | backtesting/engine.py:209-224 | The clamped balance, the trade record, the curve and the counters after a close |
| Runner.CheckChronological | backtesting/backtest.py:87-223 | The neighbour-by-neighbour test accepts exactly strictly increasing datasets |
| Runner.Drive | backtesting/backtest.py:191-206 | The driver loop leaves the engine in the run's final state and fills in the observations |
| Runner.RunBacktest | backtesting/backtest.py:87-223 | Succeeds exactly on valid, long enough datasets and positive capital, with the run's final state |
| Runner.StepCausal | backtesting/backtest.py:191-206 | One iteration reads nothing beyond its own candle |
| Runner.LoopCausal | backtesting/backtest.py:191-206 | The engine state after n candles is a function of those n candles |
| Runs.LoopShape | backtesting/backtest.py:194-206 | After every candle: at most one of pending and position, entry one candle after the signal, disjoint ordered trades, holding in [1, max] |
| Runs.NothingPendingWhenSignalArrives | backtesting/engine.py:71-95 | The rejection for an entry already pending is unreachable in every run |
| Runs.RunShape | backtesting/engine.py:59-114 | The same shape for the finished run, which leaves nothing pending and nothing open |
| Explanation.QueuedIffWarranted | backtesting/engine.py:71-109 | With nothing pending, a signal is queued exactly when the engine is flat and direction, confidence and volatility pass |
| Explanation.EveryTradeExplained | backtesting/engine.py:158-224 | Every trade is warranted by the signal one candle before, filled adversely at the open, sized by the sizing rule, untouched until its exit candle, and closed there by stop, else target, else holding limit, else the end of the run |
| Explanation.LoopNeverForces | backtesting/engine.py:111-114 | Only finish closes a position for lack of data |
| Explanation.ReachedIffCovered | backtesting/engine.py:195-207 | On a valid candle, reaching a stop or target means covering a price at it or beyond it |
| Openings.SignalOpensTrade | backtesting/engine.py:61-67 | A position or trade of a direction is entered on candle n + 1 exactly when the engine was flat, the signal of n warranted in that direction, the stop distance positive, fee < risk <= balance, and the size authorised |
| Openings.SignalBecomesTrade | backtesting/engine.py:158-193 | The same over the finished run: exactly these signals become trades |
| Openings.CandleDecides | backtesting/engine.py:71-109 | Each candle adds one rejection where the size of the waiting signal is refused, nothing where a guard fails, and one answer to its own signal |
| Openings.RunAnswers | backtesting/backtest.py:191-206 | A run answers one signal for each candle from max(200, start) to before min(length, end), in order, with the state, reasons and plan the gates call for |
| Openings.ObservationsShow | backtesting/backtest.py:194-206 | Each observation repeats its row's columns, with the regime exactly where a decision is made |
| Capital.LoopLedger | backtesting/engine.py:209-224 | Along every run: balances chain from trade to trade, equity is the start then each closing balance, counters match, nothing negative |
| Capital.NetsTelescope | backtesting/backtest.py:226-282 | Net results of a balance chain sum to last minus first |
| Capital.CountIfIs | backtesting/backtest.py:226-239 | Counts of wins and losses are numbers of trades with that sign |
| Capital.RunLedger | backtesting/engine.py:171-224 | Conservation over a whole run, and no trade ever opens on a zero balance |
| Capital.RunPrudent | backtesting/engine.py:158-217 | Every trade exits between stop and target, pays a fee below its risk, and loses at most its risk before the fee |
| Capital.BoundedRuin | backtesting/engine.py:158-217 | After n trades equity is at least start * (1 - r)^n - n * fee |
| Capital.ClampNeverBinds | backtesting/engine.py:209-217 | At 50% risk or less each trade books exactly gross minus costs and the balance stays positive |
| Clamp.ClampNeedsRoom | backtesting/engine.py:158-217 | A clamped trade of any run shows that its configuration risks more than half, charges a fee and can size a trade on an exhaustible balance |
| Clamp.ClampsIff | backtesting/engine.py:158-217 | A valid configuration has a dataset and a strategy whose run clamps a trade if and only if it meets that condition |
| Clamp.CanClampWithoutMinimum | backtesting/models.py:77-93 | With no minimum ATR the condition is more than half and a fee |
| Clamp.HalfAndFeeAreNotEnough | backtesting/models.py:77-93 | A valid configuration above half with a fee that can never clamp |
| Reporting.ResultDrawdown | backtesting/backtest.py:240-245 | The loop returns the largest fall from any value to a later one, and the percentage of its first occurrence |
| Reporting.PerformanceDrawdown | analytics/performance.py:98-116 | The same maximum from the second loop |
| Reporting.RealizedDrawdown | api/service.py:148-157 | The cumulative-profit loop returns the maximum drawdown of the running totals from zero |
| Reporting.DrawdownsAgree | api/service.py:148-157 | On every run the equity curve and the realised profits have the same maximum drawdown |
| Reporting.MaxDrawdownUnique | analytics/performance.py:98-116 | Maximum drawdown is a single number, so the three loops agree |
| Reporting.PercentOfIs | backtesting/drawdown.py:4-7 | The percentage times the peak is a hundred times the drawdown, and zero for a zero peak |
| Reporting.RunningMaximum | backtesting/drawdown.py:4-7 | The largest peak-to-current fall is the largest fall between any two values |
| Reporting.ResultStreaks | backtesting/backtest.py:246-249 | The paired updates return the longest winning and losing runs |
| Reporting.PerformanceStreaks | analytics/performance.py:137-150 | The branching updates return the same |
| Reporting.LongestIsLongestRun | analytics/performance.py:137-150 | The running maximum of trailing runs is the longest run anywhere |
| Reporting.StreaksUnique | analytics/performance.py:137-150 | Longest runs are single numbers, so the two loops agree |
| Replay.Replay | api/research.py:334-369 | The three loops build exactly the view that ReplayMeaning describes field by field; a cursor outside the dataset is an error |
| Replay.BalanceCurve | api/research.py:353-359 | The balance loop carries each exit balance forward with its running peak and drawdown |
| Hindsight.LoopExtends | backtesting/backtest.py:191-206 | A longer loop keeps all trades and decisions of a shorter one, closes its open position first, and adds only later events |
| Hindsight.RunExtends | backtesting/backtest.py:191-206 | The same for the finished run |
| Hindsight.KnownExtends | backtesting/backtest.py:191-206 | What is known at any candle is well formed and the finished run extends it |
| LiveReplay.ReplayIsLive | api/research.py:334-369 | Replay of a finished run before its last candle equals the live view of the candles up to the cursor |
| LiveReplay.NoLookAhead | api/research.py:334-369 | Datasets that agree up to the cursor and continue beyond it replay identically there |
| LiveReplay.ExitBalancesExact | api/research.py:337-352 | No exit overwrites another in the balance dictionary, which holds every exit up to the cursor and nothing else |
| LiveReplay.BalanceSeen | api/research.py:353-359 | The replayed balance at each candle is what the engine held after it |
| FinalReplay.CurveGrows | api/research.py:353-359 | The curve at a cursor is a prefix of the curve at the next |
| FinalReplay.CurveStutters | api/research.py:353-359 | The replayed curve walks through the equity curve in order, repeating but never skipping |
| FinalReplay.StutterKeepsDrawdown | backtesting/drawdown.py:4-7 | A curve that only repeats values of another has the same maximum drawdown |
| FinalReplay.FinalCurveMatchesResult | api/research.py:337-360 | At the last candle the curve ends at the ending capital and its largest drawdown is the reported one |
| FinalReplay.CutRun | backtesting/engine.py:111-114 | A run cut at e has exactly the longer run's trades that exited before e, plus at most one end-of-data exit at e - 1 |
| ReplayMeaning.ReplayShows | api/research.py:334-369 | At every cursor, the last included: the candles, indicators and decisions up to it, one item per trade entered by it with the trade's own figures, an exit exactly when reached, balances that move at exits only, true peaks and percentages, metrics at the end |
| ReplayMeaning.ClosedItemsBalance | api/research.py:347-359 | A closed item's closing balance is its opening balance plus its net result and the curve's balance at its exit |
| Research.BuildResult | backtesting/backtest.py:226-282 | Counts partition the trades, gross profit less gross loss is the sum of nets, the profit factor exists exactly with losses, drawdown and streaks are the true ones |
| Research.CreateSession | api/research.py:314-331 | Run, summarise, store: the stored session is the run's, and the report balances with the engine's ledger and counters |
| EvidenceReview.ScanArtifacts | broker/deriv_evidence_review.py:135-233 | The artifact loop resolves every identity and collects exactly the artifact reasons |
| EvidenceReview.IndexClaims | broker/deriv_evidence_review.py:135-233 | The claim dictionary holds the last claim of each identity |
| EvidenceReview.ScanClaims | broker/deriv_evidence_review.py:135-233 | The claim loop selects the named claims and collects exactly the claim reasons |
| EvidenceReview.FindConflict | broker/deriv_evidence_review.py:135-233 | Comparing each claim with the first of its subject finds a conflict exactly when some two claims contradict each other |
| EvidenceReview.ValidateReview | broker/deriv_evidence_review.py:135-233 | The validator's verdict and observed reasons, against the review's specification |
| EvidenceReview.ApprovalIsSound | broker/deriv_evidence_review.py:64-233 | A valid approval stands on reviewed artifacts with the listed hashes and, for each listed identity, on the claim the review selects: reviewed, of exactly its scope, contradicting no other selected one, semantics bound |
| EvidenceReview.SoundIsApprovable | broker/deriv_evidence_review.py:64-233 | Conversely an approval of such evidence validates |
| Causes.ReviewReasonsAre | broker/deriv_evidence_review.py:135-213 | Each reason is observed exactly for its cause, and completeness exactly without one |
| Causes.ReviewValidIff | broker/deriv_evidence_review.py:200-233 | When an approval, a rejection and an insufficiency are valid |
| EvidenceSoundness.SoundIffFullySound | broker/deriv_evidence_review.py:164-198 | Where no listed claim identity is carried by two listed artifacts, soundness of the selection is soundness of every cited claim |
| EvidenceSoundness.ApprovalIffFullySound | broker/deriv_evidence_review.py:135-233 | There an approval is valid exactly when every cited claim is reviewed, in scope and uncontradicted, every identity is cited and the semantics are declared |
| EvidenceSoundness.IndexAt | broker/deriv_evidence_review.py:164-168 | The claim dictionary holds, for each identity, the claim of the last artifact that carries it |
| Shadowing.VerdictCoversAllIff | broker/deriv_evidence_review.py:164-198 | A sound verdict speaks for every cited claim under every review of the claims if and only if no listed identity is carried by two listed artifacts |
| Shadowing.ShadowEscapes | broker/deriv_evidence_review.py:164-168 | Where two listed artifacts repeat an identity, one of the claims can be rejected without the verdict changing |
| ProofReview.ReadyIffSound | broker/deriv_proof_review.py:135-199 | A ready assessment is valid exactly when it repeats an approved decision over sound evidence |
| Causes.AssessmentValidIff | broker/deriv_proof_review.py:135-199 | When each kind of assessment is valid: it repeats a valid decision of the matching kind and states its reasons |
| Registration.SemanticMismatch | broker/deriv_proof_registration.py:352-401 | The reasons are empty exactly when the two semantics are equal |
| Registration.VerificationClearIffSame | broker/deriv_proof_registration.py:404-527 | Verification raises nothing exactly when it is VERIFIED over the candidate's own lineage |
| Registration.ChainClearIffSound | broker/deriv_proof_registration.py:404-527 | The advisory chain raises nothing exactly when the lineage is carried by sound evidence |
| Registration.EligibleIff | broker/deriv_proof_registration.py:404-527 | Eligibility is complete exactly for a sound chain, a matching verification and no revocation |
| Causes.SemanticMismatchIs | broker/deriv_proof_registration.py:352-401 | Each semantic mismatch is reported exactly for its difference |
| Causes.EligibilityReasonsAre | broker/deriv_proof_registration.py:404-527 | Ineligibility states exactly its causes |
| Registry.ScanRevocations | broker/deriv_proof_registry.py:351-381 | The loop collects exactly the revocation reasons of the candidate, the verification and the proof |
| Registry.CollectProblems | broker/deriv_proof_registry.py:413-461 | The accumulated reasons are those of the recomputed eligibility, the lineage and the revocations |
| Registry.Decide | broker/deriv_proof_registry.py:463-530 | Resubmission, identity conflicts and insertion, against the admission's specification |
| Registry.AdmitEntry | broker/deriv_proof_registry.py:384-530 | Admits exactly sound attempts under fresh identities; anything else leaves the registry as it was |
| Registry.ProblemsClearIffSound | broker/deriv_proof_registry.py:413-461 | No reason is raised exactly when the attempt is sound |
| Registry.AdmittedIff | broker/deriv_proof_registry.py:384-530 | ADMITTED exactly when the attempt is sound and its identities are fresh |
| Causes.RejectionReasonsAre | broker/deriv_proof_registry.py:413-530 | An attempt is rejected exactly when there is a cause, with exactly its causes, and the registry unchanged |
| Registry.AdmittedEvidence | broker/deriv_proof_registry.py:384-530 | Behind an admitted entry: sound selected evidence, and sound evidence throughout where no claim identity is shadowed; a verified identical lineage, a bound material hash, no revocation |
| RegistryRuns.AdmitKeepsValid | broker/deriv_proof_registry.py:243-256 | The constructor accepts the new registry, which gains at most the admitted entry and loses none |
| RegistryRuns.AuthorityIff | broker/deriv_proof_registry.py:215-234 | Two requests have the same authority exactly when proof, verification and whole lineage agree |
| RegistryRuns.AlreadyAdmittedIff | broker/deriv_proof_registry.py:463-482 | ALREADY_ADMITTED exactly for a sound attempt whose authority some entry of the registry already has |
| RegistryRuns.HeldIsAnswered | broker/deriv_proof_registry.py:463-482 | Any valid registry answers such an attempt with that very entry and stays as it was |
| RegistryRuns.ResubmissionIsIdempotent | broker/deriv_proof_registry.py:463-482 | Once admitted, and whatever attempts follow, a resubmission of the same authority answers ALREADY_ADMITTED with the admitted entry and the same registry |
| RegistryRuns.ReachableRegistry | broker/deriv_proof_registry.py:237-260 | Any sequence of attempts keeps identities unique and ordered, hashes bound and every earlier entry |
| DurableProofs.CheckTargets | broker/deriv_proof_store.py:301-322 | Comparing each record with the latest of its target finds every contradiction among all records |
| DurableProofs.RevocationsConflict | broker/deriv_proof_consumption.py:255-277 | One pass over two dictionaries finds a reused identity or a contradiction exactly when there is one |
| DurableProofs.LookupOnlyRises | broker/deriv_proof_registry.py:588-649 | As durable state grows the lookup of a scope only moves up none, active, revoked, conflicting |
| DurableProofs.EntryRevokedIff | broker/deriv_proof_registry.py:588-649 | An entry is revoked exactly when some record names its candidate, its verification or its proof |
| Causes.LookupAnswers | broker/deriv_proof_registry.py:588-649 | What lookup answers, by the entries of the scope and the records that name them |
| Codec.ApplicabilityRoundTrip | broker/deriv_proof_store.py:95-106 | Decoding an encoded scope returns it |
| Codec.OutputRoundTrip | broker/deriv_proof_store.py:108-135 | Decoding an encoded financial output returns it |
| Codec.OperandRoundTrip | broker/deriv_proof_store.py:138-226 | Decoding an encoded operand returns it |
| Codec.RoundingRoundTrip | broker/deriv_proof_store.py:138-226 | Decoding an encoded rounding rule returns it |
| Codec.SemanticsRoundTrip | broker/deriv_proof_store.py:138-226 | Decoding encoded semantics returns them |
| Payload.EntryRoundTrip | broker/deriv_proof_store.py:229-273 | A valid entry survives exactly when its semantics hash to its material hash |
| Payload.RevocationRoundTrip | broker/deriv_proof_store.py:276-293 | Decoding an encoded revocation returns it |
| Payload.StateRoundTrip | broker/deriv_proof_store.py:325-346 | A valid state survives exactly when every entry's material hash matches |
| Store.ProofStore.constructor | broker/deriv_proof_store.py:352-380 | A new store holds no snapshot |
| Store.ProofStore.Load | broker/deriv_proof_store.py:397-413 | An absent row is the empty state; a row loads as a state exactly when its version is 1, its digest fits and its payload encodes that valid state with matching material hashes |
| Store.ProofStore.Persist | broker/deriv_proof_store.py:415-441 | An accepted state is what Load then returns and extends what it returned before; a rejected one leaves the row alone |
| Store.PersistIff | broker/deriv_proof_store.py:415-441 | Accepted exactly when the store loads, the state extends it and every material hash matches |
| Store.PersistThenLoad | broker/deriv_proof_store.py:397-441 | Loading after an accepted persist returns the persisted state |
| Store.KeptIffGrows | broker/deriv_proof_store.py:418-426 | The identity-keyed append-only comparison is exactly inclusion of entries and revocations |
| Store.LoadedIsValid | broker/deriv_proof_store.py:334-413 | Whatever loads is a valid state with matching material hashes |
| Store.StoreOnlyGrows | broker/deriv_proof_store.py:415-441 | Over any sequence of persists a loadable store stays loadable and loses nothing |
| Store.LookupOnlyClimbs | broker/deriv_proof_store.py:415-441 | Over any sequence of persists the lookup of a scope never descends |
| Consumption.CollectRevocationReasons | broker/deriv_proof_consumption.py:226-252 | The loop collects exactly the revocation reasons of an entry |
| Consumption.RevokedHasReasons | broker/deriv_proof_consumption.py:226-372 | A revoked entry always has one of them |
| Causes.MismatchReasonsAre | broker/deriv_proof_consumption.py:280-372 | Each mismatch is reported exactly for its cause |
| Causes.RevocationReasonsAre | broker/deriv_proof_consumption.py:226-252 | Each revocation reason is reported exactly when a record gives cause |
| Causes.ConsumeAnswers | broker/deriv_proof_consumption.py:280-372 | Every answer of consumption, reason by reason |
| TermsService.AvailableIffInForce | broker/deriv_proof_consumption.py:280-372 | The service's own request finds the proof available exactly when its one entry is unrevoked and inside its validity |
| TermsService.TermsIff | broker/deriv_execution_terms_service.py:118-217 | Terms are offered exactly for one unrevoked entry in force whose semantics price the request within its risk |
| TermsService.TermsAreBound | broker/deriv_execution_terms.py:156-244 | Offered terms carry the request's own stake, multiplier, levels, maximum loss and account scope, and the scope, identities and hash of the one entry in force |
| TermsService.ServiceAnswers | broker/deriv_execution_terms_service.py:118-217 | Every answer for every row and request: store, conflict, revocation, validity, model, input, risk bound, terms |
| TermsService.RevocationIsPermanent | broker/deriv_execution_terms_service.py:118-217 | Once a scope is revoked or duplicated, no later persists and no request obtain terms for it |
| Governance.EveryEntryHasProvenance | broker/deriv_proof_registry.py:384-530 | Every entry of a registry grown by admissions goes back to a sound attempt for exactly it |
| Governance.ReachableSurvivesPayload | broker/deriv_proof_store.py:325-346 | A registry grown by admissions survives the payload with any valid revocations |
| Operations.DeskStaysInOrder | broker/deriv_proof_store.py:301-441 | Any admissions, revocations, persists and reloads keep the memory valid and an extension of what is stored, and every entry admitted by a sound attempt among them |
| Operations.EveryPersistIsAccepted | broker/deriv_proof_store.py:415-441 | Along any operations every persist is accepted and loads back what the desk holds |
| Operations.TermsHaveProvenance | broker/deriv_execution_terms_service.py:118-217 | After any operations terms are offered only where one of the admissions was sound for exactly the requested scope and its entry is stored and not revoked |
| Operations.RevocationIsFinal | broker/deriv_execution_terms_service.py:118-217 | Once a revocation of an entry is recorded and persisted, no further operations let its scope obtain terms |
| Attempts.AdmissibleIff | broker/deriv_proof_registry.py:384-530 | A valid request has a sound attempt on some evidence exactly when its semantics are bound to its loss model and material hash and its artifact names agree with their hashes |
| Attempts.ReviewedNamesAgree | broker/deriv_evidence.py:142-192 | Reviewed artifacts of a registry force identities that strip alike to have equal hashes and conversely |
| Padding.AdmittedLiterallyIff | broker/deriv_evidence.py:170-175 | An admitted entry lists all its artifacts literally exactly when stripping changes none of its identities |
| Padding.PaddedIsAdmitted | broker/deriv_evidence.py:170-175 | Every admissible request stays admissible, and can be admitted, with any one of its artifact identities padded |
| Pipeline.SoundIsAdmitted | broker/deriv_proof_registry.py:384-530 | Every valid sound attempt is admitted to the empty registry |
| Pipeline.CanBeAdmittedIff | broker/deriv_proof_registry.py:384-530 | An entry is in some registry grown by admissions exactly when its request is admissible |
| Pipeline.ReachableIff | broker/deriv_proof_registry.py:237-260 | A registry is what some admissions from nothing lead to exactly when the constructor accepts it and all its requests are admissible |
| Pipeline.StoredEntryGetsTerms | broker/deriv_proof_store.py:415-441 | The store takes any valid entry whose material hash matches and the service offers terms for every request it serves |
| Pipeline.TermsProvenanceIff | broker/deriv_execution_terms_service.py:118-217 | For any row, offered terms come from an entry in force that could have been admitted if and only if it is admissible |
| Pipeline.PipelineCompletes | broker/deriv_execution_terms_service.py:118-217 | Every admissible request can be admitted, its entry persisted and loaded back, and terms offered for every request it serves |
| Samples.PremisesCanBeMet | broker/deriv_execution_terms.py:156-244 | For any digest of the right form some request and service call meet those premises |
| Samples.UnadmittedObtainsTerms | broker/deriv_proof_store.py:251-273 | An entry under another loss model identity than its semantics declare cannot be admitted, is stored, and obtains terms |
| Samples.RejectedClaimIsAdmitted | broker/deriv_evidence_review.py:164-198 | An attempt whose evidence holds a rejected contradicting claim under a listed identity is admitted |
| Limiter.SlidingWindow.constructor | api/monitor_relay.py:92-92 | An empty deque |
| Limiter.SlidingWindow.Admit | api/monitor_relay.py:150-155 | Admits exactly when fewer than 600 admitted requests lie in the last 60 seconds, and keeps the deque equal to them |
| Limiter.ServeIsExact | api/monitor_relay.py:150-155 | For any arrivals in time order the deque is the admissions still in the window and no window holds more than 600 |
| Limiter.RejectedIffFull | api/monitor_relay.py:150-155 | 429 exactly when 600 admitted requests lie in the window |
| Relay.OneHealthKey | api/monitor_relay.py:148-149 | Every accepted health request has the one key with no parameters |
| Relay.SharedReadsAgree | api/monitor_relay.py:180-183 | Requests that share a read ask the same route for the same parameters |
| Relay.ReorderedReadsShare | api/monitor_relay.py:180-183 | Requests whose parameters differ only in order share one read |
| Relay.StepConserves | api/monitor_relay.py:99-134 | Every step keeps permits plus holders equal to capacity, on every failure and timeout path |
| Relay.StepPairs | api/monitor_relay.py:183-199 | Every step keeps the pending map and the live tasks inverse to each other and at most 32 |
| Relay.InflightNeverContended | api/monitor_relay.py:92-112 | A task that asks for an inflight permit finds one free and nobody queued |
| Relay.EveryRunIsSound | api/monitor_relay.py:92-199 | In every interleaving: conservation, one live task per key, at most 32 pending, no wait on inflight, no health task waits or ends busy |
| RelayOutcomes.EveryStepAdvances | api/monitor_relay.py:98-199 | What every step makes of every task: which are created, removed, and what each other becomes |
| RelayOutcomes.OutcomeIff | api/monitor_relay.py:98-199 | Over every run a live read stands ended with an outcome exactly when a step ended it so: an answer, an error, a timeout while waiting, a cancellation |
| RelayMonitor.Monitor.constructor | api/monitor_relay.py:93-96 | The initial semaphores and map satisfy the invariant |
| RelayMonitor.Monitor.Observe | api/monitor_relay.py:176-199 | Answers with the only live task reading the key, or refuses exactly when the key is new and 32 reads are pending |
| RelayMonitor.Monitor.Acquire | api/monitor_relay.py:107-110 | A permit is taken exactly when one is free and nobody is queued |
| RelayMonitor.Monitor.Launch | api/monitor_relay.py:98-109 | A task takes its slot at once exactly when it needs none or a permit is free and nobody is in line, else it queues; a health task never queues |
| RelayMonitor.Monitor.Enter | api/monitor_relay.py:110-110 | The inflight permit is taken at once in every reachable state |
| RelayMonitor.Monitor.Wake | api/monitor_relay.py:107-109 | Handing a free slot to a queued task keeps the invariant |
| RelayMonitor.Monitor.Resumed | api/monitor_relay.py:107-110 | The woken task keeps its slot and runs on |
| RelayMonitor.Monitor.Leave | api/monitor_relay.py:111-131 | Answer, error, timeout and cancellation end the task with that outcome, return everything that was taken and change no other task |
| RelayMonitor.Monitor.Finished | api/monitor_relay.py:193-198 | The callback frees the key and keeps the invariant |
| Mt5History.GetCandles | broker/mt5_gateway.py:507-546 | Terminates; over a stable history returns the newest closed bars, contiguous and ascending, never the forming one, and min(count, available) of them when the terminal sends all it has |
| Mt5Lots.NormalizeIsLargest | broker/mt5_gateway.py:228-242 | For every table: accepted exactly within the limits with a rounded volume not below the minimum; the volume is the largest grid volume not above the request (to the slack) rounded to eight decimals, and that grid volume itself on a step that is a whole number of 1e-8 |
| Mt5Lots.NormalizeFixesIff | broker/mt5_gateway.py:228-242 | A grid volume within the limits passes unchanged exactly when it has at most eight decimals |
| Mt5Lots.NeverRaisesIff | broker/mt5_gateway.py:228-242 | Normalisation never returns more than the request plus the slack, for every table of a step, if and only if the step is a whole number of 1e-8 |
| Mt5Lots.OffGridRaises | broker/mt5_gateway.py:228-242 | Every other step has a table on its own grid and a request that comes back larger |
| Mt5Lots.AuthorizedIsLargest | broker/mt5_demo.py:144-173 | For every table: authorised lots are the largest affordable grid volume, capped at the maximum and rounded to eight decimals |
| Mt5Lots.AuthorizedIff | broker/mt5_demo.py:144-173 | For every table: sizing succeeds exactly with risk to spend, an affordable grid volume that reaches the minimum, and rounded lots that are positive, tolerated and within margin |
| Mt5Lots.NeverLargerAtSubmit | broker/mt5_gateway.py:228-242 | For every table and every quote, authorised lots never come back larger from normalisation |
| Mt5Lots.UnchangedIff | broker/mt5_gateway.py:228-242 | Over all tables of a step with limits on its grid, linear quotes and risks, authorised lots pass unchanged if and only if the step is a whole number of 1e-8 |
| Mt5Lots.OffGridRefused | broker/mt5_gateway.py:228-242 | Every other step has such a table, quote and risk whose authorised lots are refused |
| Mt5Lots.LossCheckIsCovered | broker/mt5_demo.py:166-173 | The final loss check adds nothing while one lot loses at most 1e10 |
| Mt5Lots.RoundingHarmlessIff | broker/mt5_demo.py:160-160 | Rounding leaves every grid volume alone exactly when the step is a whole number of 1e-8 |
| Pbo.Best | analytics/pbo.py:85-86 | The first index of the largest in-sample value |
| Pbo.RanksAre | analytics/pbo.py:83-98 | Each rank is the out-of-sample mid-rank of the first model that is best in sample |
| Pbo.DegradedAre | analytics/pbo.py:106-109 | The degraded count is the number of splits ranked at one half or below |
| Pbo.CheckShape | analytics/pbo.py:66-74 | The validation pass accepts exactly matrices of the expected shape |
| Pbo.RankSplits | analytics/pbo.py:79-109 | The loop over splits collects every rank and counts the degraded ones |
| Pbo.CalculatePbo | analytics/pbo.py:54-111 | Succeeds exactly on nonempty matching matrices, with the degraded fraction in [0, 1] |
| Pbo.RanksInside | analytics/pbo.py:89-97 | Every relative rank lies strictly between 0 and 1 |
| Pbo.DegradedIffNotAhead | analytics/pbo.py:89-109 | A split counts as degraded exactly when at least as many models beat the selected one as it beats |
| Pbo.OmegaReflects | analytics/pbo.py:89-97 | Negating the out-of-sample row turns omega into 1 - omega |
| Pbo.PboReflection | analytics/pbo.py:79-109 | The degraded counts of a matrix and its negation sum to the splits plus those exactly at 1/2 |

## Left out

- Rounding, NaN and infinity of floating point; Decimal's 28 digits in sizing. A missing ATR is zero in `Engine.AtrOf`, which `Indicators.AtrDefined` shows is never read by a run.
- Strategy and regime internals: they are functions of the history they are given.
- Symbol, timeframe, provider and source labels, and the cost figures formatted into an execution-rejected reason.
- The legacy `execute_trade` shim, which bypasses the single-position machine.
- Rounded report fields, expectancy and Sharpe figures, result fingerprints; replay metrics beyond ending capital and maximum drawdown.
- Replay over sessions whose trades name times outside the dataset (the source raises a lookup error); every stored session is coherent.
- JSON text: payloads are data trees with typed leaves, and a sorted reason list is a set leaf. The single-valued equation family is omitted. Lineage fields shared by candidate, verification, request and entry are one record.
- Type checks on arguments of the governance validators, which Dafny's types subsume.
- SQLite, its transactions, and two writers racing between the append-only check and the write.
- Evidence registration, removal and lookup by hash; evidence intake and handoff; Deriv authentication, gateway and demo guard.
- HTTP, JWT, host and method checks, static pages and logging in the relay; the actual origin thread, which outlives a cancelled task.
- The gap between a relay task finishing and its callback: a finished task stays pending in the model until the callback step, and a request in between shares it, as in the source.
- Fairness of semaphore queues: any queued task may be granted next, which includes the source's order. Timeouts may happen at any moment.
- MT5 range requests with an end time, bar-to-candle conversion and symbol resolution. Paging assumes pages no longer than requested.
- Mt5Lots.AuthorizedIsLargest: assumes a stop loss linear in the volume, as do Mt5Lots.AuthorizedIff and Mt5Lots.UnchangedIff.
- How an operator obtains the records passed to the governance desk: Operations starts from nothing and an empty store, and the desk alone hands states to the store. A revocation is added to the sorted tuple if the state constructor accepts the result.
- PBO logits, median rank, risk level and single-model stability; deflated and haircut Sharpe ratios.
- The live trading cycle, executor, recovery and daily guards.
