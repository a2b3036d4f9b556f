# A verified model of the scaling operator's decision and safety machinery

The operator watches AIScaler policies. For each one it runs a reconcile cycle: a cooldown gate,
candidate decisions from safety, approval, SLOs, reactive rules, an LLM and KEDA, a first
resolution, a cost estimate and hard budget, an approval hold, a second resolution, validation,
coordination with the rest of the cluster, the patch of the replica count and the write of the
policy's status. Around the cycle stand a slot table with expiry, a dependency graph, a rate
limiter, circuit breakers, a response cache, alert gating, an oscillation detector, a bounded
audit store, a seasonal predictor and percentile statistics.

This project models that machinery and proves what it guarantees, for every input, every run and
every interleaving. Signals, LLM answers, rollback advice, costs, clock readings and the outcome of
every API call are arbitrary inputs of a cycle.

## How it is laid out

- `Common`, `Policy`: options, 32-bit arithmetic, the policy and what is observed for it.
- `Validator`, `Precedence`, `Cost`, `Slo`: the pieces a cycle decides with.
- `Pipeline`: the steps of a cycle as functions on the state they pass along. `PlanGuarantees`:
  the decided target in closed form, then bounds, the hard budget, SLO protection, safety holds and
  rollbacks. `RuleVersusLLM`: what a fired reactive rule and the LLM can do to each other.
  `WholeChain`: the same from a cycle's inputs, without the steps: when it plans, fails or stops,
  whose wish it follows and what it decides.
- `ReconcileCycle`: coordination, actuation and the status write; what one cycle does to the
  desired count, the stored scaling time and the slot table. `ClusterBudget`: who gets a slot, and
  the cluster-wide cost limit. `Runs`: any number of cycles.
  `Witnesses`: concrete runs at the edges of the guarantees.
- `Reconciler`: the step methods on a mutable state, the coordinator object and the cluster,
  proved equal to those functions. `Materialize`: the same copy on shared heap objects.
- `Coordinator`, `Protocol`, `Exclusion`: the slot table, and many reconciles interleaving on it.
  `Refinement` and `Interleaving`: the calls of one cycle, and of any number of policies' cycles in
  any order, are steps of that interleaving model.
- `RateLimiter`, `CircuitBreaker`, `Cache`, `Router`, `Alerting`, `Oscillation`, `AuditStore`:
  compressed state against a ghost log of everything that happened. `AlertRuns`: one alert evaluator
  serving every policy.
- `Seasonal`, `Percentile`: the numeric cores over `real`.

`dafny verify dfyconfig.toml` checks everything.

## Where the code and its documentation differ

The model follows the code.

- `plan.md:2485` says SLO violations always trump cost limits. In the code the cost ceiling caps
  every layer: a breaching workload is scaled down exactly when what it already costs is over a hard
  budget (`PlanGuarantees.SloProtectionExact`; `Witnesses.CostTrumpsSlo` is such a cycle). If a
  budget is so large that its quotient is no int32, the converted garbage can become the ceiling of
  a workload within its budget (`Witnesses.OverflowCutsAffordable`).
- `plan.md:585` lets the LLM ask for more than an active reactive rule, and forbids it to weaken
  one. In the code a fired rule whose override is in force makes the LLM's answer irrelevant
  (`RuleVersusLLM.RuleSilencesLLM`), and without the override an answer can outdo the rule in either
  direction (`RuleVersusLLM.WeakenedExactly` and `RuleVersusLLM.ExceededExactly` say exactly when it
  cannot; `Witnesses.LLMWeakensRule` is a cycle in which it does).
- `internal/decision/oscillation.go:47` speaks of three or more direction changes; the code asks for
  two (`Oscillation.ChangesMeaning`).
- A status write after a deferred or failed actuation starts the cooldown although nothing was
  scaled (`ReconcileCycle.DeferredIsStamped`; `ReconcileCycle.StampMeansScaling` says exactly when, and
  `Witnesses.FailedGetIsStamped` is such a cycle),
  and a scaling whose status write is lost to a conflict starts none
  (`Witnesses.LostWriteBreaksCooldown`).
- The actuator compares with the desired count and the rest of the cycle with the observed one, so
  a stale observation can undo another actor's scaling without a slot and without a cooldown
  (`Witnesses.StaleObservationUndoesScaling`; the exact conditions are
  `ReconcileCycle.ChangeUnderSlot` and `ReconcileCycle.StampedExactly`).
- `cmd/main.go:244-259` builds one alert evaluator, one oscillation detector and one seasonal
  predictor for all policies. Rules that share an alert name disturb each other's hold time, across
  policies and within one (`AlertRuns.AlertsExact` says exactly which rules are safe, and
  `AlertRuns.SharedNameMisfires` builds a run in which a due alert is not fired); the theorems about the detector and the predictor are about the one
  log that all policies share.
- The dependency check and the slot are separate critical sections, so dependent workloads can
  scale together whatever they declare (`Exclusion.SeparateStepsExclude`).
- The cluster-wide cost limit is checked before the slot is taken. No single change exceeds it
  (`ClusterBudget.ChangeKeepsLimit`), but two cycles can exceed it together, even with a single slot
  (`Witnesses.TogetherOverLimit`).
- Slots are keyed by target name without namespace, so two policies with equal target names lose
  slots (`Protocol.CoverageIffDistinctNames`).
- `api/v1/aiscaler_types.go:294` gives each direction its own cooldown; no code reads it, so the model
  has only the policy's cooldown.
- The validators' int32 subtraction can wrap; only the clamp that the resolver applies first keeps
  it from happening (`Validator.NoWrap`, `Validator.SubtractionExact`, `Validator.RawTargetReverses`).

## Model

| member | source | states |
|---|---|---|
| Validator.NoWrap | internal/decision/validator.go:44-97 | for an in-bounds target and a real count no subtraction, addition or negation leaves int32, and the limited step is the exact one |
| Validator.ClampMessageDistance | internal/decision/validator.go:96-122 | the clamp message speaks of the step exactly when the step was too large, and reports the true distance |
| Validator.SubtractionExact | internal/decision/validator.go:63-77 | for every int32 target and real count, the subtraction is exact if and only if the true distance is at least the smallest int32 |
| Validator.RawTargetReverses | internal/decision/validator.go:44-77 | exactly which unclamped requests for fewer replicas the wrapped subtraction turns into a scale-up |
| Validator.RawTargetCanWrap | internal/decision/validator.go:44-77 | such a request exists |
| Validator.ValidatedIsBetween | internal/decision/asymmetric_validator.go:18-85 | whichever validator runs: no overshoot, no reversal, in bounds, and from inside the bounds at most the applicable step |
| Validator.ShutGateHolds | internal/decision/asymmetric_validator.go:33-69 | a decision below the confidence its direction requires changes nothing but the bounds, whichever the direction |
| Validator.AsymmetricExactly | internal/decision/asymmetric_validator.go:33-69 | from inside the bounds the count moves if and only if it is asked to and that direction has no requirement or a confidence that meets it; then all the way within the step, else one full step |
| Validator.PlainExactly | internal/decision/validator.go:35-90 | the plain validator whatever the confidence: all the way within the step, else one full step, and the bounds last |
| Validator.WhichValidator | internal/controller/aiscaler_controller.go:835-856 | which policies go through which validator |
| Validator.ReportsExactly | internal/decision/asymmetric_validator.go:69-87 | what was asked, that it was changed exactly if it was, and the direction asked for |
| Validator.ValidateIdempotent | internal/decision/validator.go:35-90 | validating the validated count again changes nothing and clamps nothing |
| Validator.IteratePath | internal/decision/validator.go:35-90 | the exact path of repeated validation towards a fixed target |
| Validator.ConvergesExactly | internal/decision/asymmetric_validator.go:33-69 | the target is reached after exactly ceil(distance / step) cycles, not before, and kept |
| Precedence.PrecedenceResolver.Resolve | internal/decision/precedence.go:76-177 | the resolver's three phases produce the specified target, audit trail and conflicts |
| Precedence.PrecedenceResolver.Consult | internal/decision/precedence.go:117-155 | the loop over the layers picks the first present one, applies only its entry and records every later disagreement |
| Precedence.PrecedenceResolver.BuildLayers | internal/decision/precedence.go:89-115 | the layers are consulted in the flag-dependent order |
| Precedence.OrderedByRank | internal/decision/precedence.go:89-115 | every layer is consulted, in strictly increasing rank for every setting of the three flags |
| Precedence.AppliedLayerOutranksAll | internal/decision/precedence.go:117-155 | exactly one layer entry is applied, it is the best-ranked of the layers that ask, and every entry says what its layer asked |
| Precedence.AuditTrailReplays | internal/decision/precedence.go:117-176 | replaying the applied entries and the bounds gives the decided target |
| Precedence.ConflictsExact | internal/decision/precedence.go:117-166 | the conflicts are exactly the layers below the winner that disagree, and the cost cap if it bit |
| Precedence.ConflictsInOrder | internal/decision/precedence.go:117-166 | conflicts are listed in rank order, each layer at most once, and the cost cap last |
| Precedence.ResolutionOfWinner | internal/decision/precedence.go:117-176 | the target is the winner's wish, capped, then bounded |
| Precedence.ResolutionBounded | internal/decision/precedence.go:157-176 | the target is in the bounds and never above a ceiling of at least the minimum, whoever asked |
| Cost.CheckMeansAffordable | internal/cost/budget.go:21-50 | a hard check allows a count exactly when its cost is within both the hourly and the monthly budget |
| Cost.EstimateMeaning | internal/cost/estimator.go:26-54 | no estimate when nothing runs; else what every count costs, what the change costs by the hour and by the month of 720 hours, and what it saves, all in terms of what is spent now |
| Cost.CheckExactly | internal/cost/budget.go:21-50 | warns exactly if a budget is exceeded, refuses exactly if a hard one is, and what is left of which budget |
| Cost.HourlyCapMeaning | internal/controller/aiscaler_controller.go:1487-1490 | counts up to the truncated hourly quotient are affordable, and exactly those if the conversion did not overflow |
| Cost.MonthlyCapMeaning | internal/controller/aiscaler_controller.go:1491-1497 | the same for the monthly budget at 720 hours |
| Cost.CeilingAffordable | internal/controller/aiscaler_controller.go:1476-1506 | the ceiling exists exactly when there is a limit, is at least the minimum, and everything above the minimum up to it is affordable even if a conversion overflowed |
| Cost.CeilingIsLargestAffordable | internal/controller/aiscaler_controller.go:1476-1506 | above the minimum a count is affordable exactly when it is at most the ceiling |
| Slo.EvaluateSLOs | internal/decision/slo.go:23-43 | one status per objective, in order |
| Slo.AnyBreachedLoop | internal/decision/slo.go:46-53 | true exactly when some status is breached |
| Slo.BreachMeaning | internal/decision/slo.go:103-119 | on which side of a positive, zero or negative target a metric is in breach, for lower-is-better metrics and for availability |
| Slo.BreachObserved | internal/decision/slo.go:76-119 | the same in terms of the field of the observation that the metric names |
| Slo.MarginMeaning | internal/decision/slo.go:103-119 | the margin is the distance from the target on the good side in per cent of the target |
| PlanGuarantees.HoldOutranked | internal/decision/precedence.go:89-115 | an approval hold wins unless safety has asked for something |
| PlanGuarantees.DecidesFinalTarget | internal/controller/aiscaler_controller.go:1244-1290 | two resolutions, the budget and the hold together decide one closed-form target under one ceiling |
| PlanGuarantees.FinalTargetBounded | internal/controller/aiscaler_controller.go:1244-1290 | that target is in the bounds and below the ceiling, or is the unchanged count of a policy with no candidate |
| PlanGuarantees.CycleSafety | internal/controller/aiscaler_controller.go:835-856 | every planned count is in the bounds; from inside them it does not pass the decided target and is at most one applicable step away |
| PlanGuarantees.RefusedMeansCeiling | internal/controller/aiscaler_controller.go:751-782 | a refused estimate always leaves a real ceiling, below which the same check allows everything above the minimum |
| PlanGuarantees.HardBudget | internal/controller/aiscaler_controller.go:725-785 | a cycle that scales up plans the minimum or a count the budget check allows, for any candidates, hold and validator |
| PlanGuarantees.TrailNamesWinner | internal/controller/aiscaler_controller.go:1353-1368 | the scan of the audit trail finds the winning layer, and the cost cap exactly if it lowered the winner |
| PlanGuarantees.MaterializeKeepsLayer | internal/controller/aiscaler_controller.go:1340-1425 | the decision acted on keeps the winning layer's confidence, urgency, reason codes and vertical proposal, with the cap's reason added to its own if the cap applied, and is attributed to it otherwise |
| PlanGuarantees.DecidedConfidence | internal/controller/aiscaler_controller.go:1244-1290 | a fully confident first candidate yields a fully confident decision, held or not |
| PlanGuarantees.SloWish | internal/controller/aiscaler_controller.go:1427-1445 | under a breach the wish is the largest of the current count and the reactive, LLM and KEDA targets |
| PlanGuarantees.CeilingCuts | internal/controller/aiscaler_controller.go:751-782 | when the ceiling falls below the current count: if that count is itself over the budget, or if the check refuses a target below it |
| PlanGuarantees.SloProtection | internal/controller/aiscaler_controller.go:1244-1275 | with a known breach a cycle scales down if and only if the policy's gate is open and what the workload already costs is over a hard budget, above the minimum; without a hold, and with room for it in the budget, the target is the clamped wish |
| PlanGuarantees.ReactiveMoves | internal/controller/aiscaler_controller.go:463-480 | when a rule with the override fires, the count goes down if and only if the gate is open and either the clamped rule is lower and not held, or the budget refuses it, or the current count is over the budget |
| PlanGuarantees.SloProtectionExact | internal/controller/aiscaler_controller.go:435-596 | for the whole chain and in terms of its inputs, with an observed breach: a scale-down happens if and only if the gate is open and the workload is over a hard budget, or an overriding reactive rule lowers the count |
| PlanGuarantees.OscillationHolds | internal/controller/aiscaler_controller.go:598-633 | while oscillating without a rollback, no cycle scales up, and one scales down if and only if the workload is over a hard budget, whatever every other layer says |
| PlanGuarantees.RollbackDecides | internal/controller/aiscaler_controller.go:635-708 | a recommended rollback decides the target against every other layer, an oscillation hold and an approval hold included, and only a hard budget lowers it |
| RuleVersusLLM.RuleSilencesLLM | internal/controller/aiscaler_controller.go:463-480 | with the override in force a fired rule makes the plan the same for every LLM answer and for none |
| RuleVersusLLM.RuleCycle | internal/controller/aiscaler_controller.go:435-595 | with a fired rule and nothing in the way, the decided target in closed form from rule, answer, breach, KEDA, hold and budget |
| RuleVersusLLM.WeakenedExactly | internal/controller/aiscaler_controller.go:463-480 | no sure answer lowers the target below what the rule gets without one, if and only if the override is in force, a breach keeps the target up, the rule's outcome is the minimum, or a hold keeps the count |
| RuleVersusLLM.ExceededExactly | internal/controller/aiscaler_controller.go:463-480 | no sure answer raises the target above it, if and only if the override is in force, the rule's outcome is what the maximum would get, or a hold keeps the count |
| RuleVersusLLM.PlainRule | internal/decision/precedence.go:89-115 | without hold, breach and cost data: not weakened exactly under the override or at the minimum, not exceeded exactly under the override or at the maximum |
| WholeChain.GathersExactly | internal/controller/aiscaler_controller.go:435-708 | the candidates are compared if and only if nothing ends the chain before and somebody asks; which candidates there then are and what each asks for, from the inputs |
| WholeChain.PlansExactly | internal/controller/aiscaler_controller.go:154-225 | a cycle plans a count if and only if the policy is valid, not deleted and updatable, past its cooldown, observed and not frozen, somebody asks for something, and something runs if costs are known |
| WholeChain.FailsExactly | internal/controller/aiscaler_controller.go:236-596 | a cycle fails if and only if the policy cannot be updated, or it is due and nothing is observed, nobody asks, or costs are known and nothing runs; any other cycle that plans nothing stops |
| WholeChain.CycleDecides | internal/controller/aiscaler_controller.go:435-856 | from the inputs alone: whose wish is followed (rollback, oscillation, breach, rule, sure or unsure answer, KEDA), and the count, confidence, direction, validation, attribution and additions decided under approval, budget and bounds |
| WholeChain.UnsureMovesNothing | internal/decision/asymmetric_validator.go:33-69 | over the whole chain from its inputs: the planned count differs from the current one if and only if the decided one does and the gate of that direction lets the sureness of the source through |
| Pipeline.GatherKeepsBundle | internal/controller/aiscaler_controller.go:172-180 | gathering candidates sets no hold, ceiling, cost, validation or slot, and keeps what was observed |
| ReconcileCycle.Planned | internal/controller/aiscaler_controller.go:236-299 | a planned count implies a valid policy, a passed cooldown, an observation and no change freeze |
| ReconcileCycle.DryRunChangesNothing | internal/controller/aiscaler_controller.go:1542-1550 | a dry run changes neither replicas, nor the stored scaling time, nor the slot table |
| ReconcileCycle.ChangeIsPlanned | internal/actuator/actuator.go:47-126 | a change of the desired count is to the validated count, outside dry run, after coordination let it pass |
| ReconcileCycle.LandsExactly | internal/controller/aiscaler_controller.go:192-218 | the status of a cycle that changes the count reaches the API server if and only if the first write lands, or it fails after no vertical change failed and the second one lands |
| ReconcileCycle.AppliedIsStamped | internal/controller/aiscaler_controller.go:1213-1216 | every change of a settled workload whose status is stored is stamped with the time of the write that was stored, the first or the second |
| ReconcileCycle.StoredExactly | internal/controller/aiscaler_controller.go:1213-1216 | the stored time is the last whole unit not after the clock reading |
| ReconcileCycle.StampedExactly | internal/controller/aiscaler_controller.go:1213-1240 | any change is stamped if and only if its status is stored and it differs from the observed count |
| ReconcileCycle.DeferredIsStamped | internal/controller/aiscaler_controller.go:192-218 | every move that coordination defers or refuses, or whose Get or Patch fails, leaves the count alone and is stamped all the same |
| ReconcileCycle.StampMeansScaling | internal/controller/aiscaler_controller.go:192-218 | a stamped cycle scaled the workload, except exactly when coordination stopped it, the Get or Patch failed, or the desired count was already right |
| ReconcileCycle.StampsExactly | internal/controller/aiscaler_controller.go:192-218 | when a planned cycle moves the stored time, and to the time of which of the two writes, whatever coordination, Get, Patch and the vertical change did |
| ReconcileCycle.ChangeUnderSlot | internal/controller/aiscaler_controller.go:858-916 | with a coordinator a change is made under a slot, taken in this cycle and listed, if and only if it differs from the observed count or a vertical change needs the slot |
| ReconcileCycle.CoordinationTable | internal/controller/aiscaler_controller.go:858-916 | coordination may drop expired entries and add only the cycle's own, which the cycle then holds |
| ReconcileCycle.SlotReturned | internal/controller/aiscaler_controller.go:1030-1043 | on every way out the table lists nothing it did not list before, and loses only expired entries and the cycle's own |
| ReconcileCycle.ChangeIsSafe | internal/controller/aiscaler_controller.go:918-940 | every change made is a safe move from the observed count, and affordable if it goes up above the minimum |
| ClusterBudget.PassesExactly | internal/controller/aiscaler_controller.go:858-916 | coordination lets a planned cycle pass if and only if there is nothing to coordinate, or the policies can be listed, no dependency is scaling, the cluster limit has room for what was decided, and a slot is left |
| ClusterBudget.ExceedsExactly | internal/controller/aiscaler_controller.go:1580-1598 | the cluster limit stops a planned cycle if and only if there is one, the decided count would cost more than is spent now, and with the other workloads' cost more than the limit |
| ClusterBudget.PassingKeepsLimit | internal/controller/aiscaler_controller.go:891-903 | at the count planned by a cycle that coordination lets pass, the workload costs no more than now, or all workloads together stay within the cluster limit |
| ClusterBudget.ChangeKeepsLimit | internal/controller/aiscaler_controller.go:858-940 | no change of the desired count raises the cost above the cluster limit |
| ClusterBudget.ChangesExactly | internal/actuator/actuator.go:47-126 | the desired count changes if and only if another one is planned outside dry run, coordination passes, and neither Get nor Patch fails |
| Runs.StoredSinceKept | internal/controller/aiscaler_controller.go:1133-1242 | no event moves the stored time back before a change it covers |
| Runs.CooldownSpacing | internal/controller/aiscaler_controller.go:279-299 | over every run, a change comes at least a cooldown after every earlier change whose status was stored, less what rounding stored times takes away |
| Runs.StaysInside | internal/controller/aiscaler_controller.go:835-856 | once inside the bounds, every run stays inside, even on stale observations |
| Runs.EveryChangeSafe | internal/controller/aiscaler_controller.go:835-940 | every change of every run lands in bounds, is affordable, and on a settled workload neither overshoots nor exceeds the step |
| Runs.DryRunForever | internal/controller/aiscaler_controller.go:1542-1550 | a dry-run policy never changes anything over any number of cycles |
| Runs.NoSlotLeaks | internal/controller/aiscaler_controller.go:170-170 | no number of cycles leaves a slot behind |
| RuleVersusLLM.ReactiveCycle | internal/controller/aiscaler_controller.go:463-480 | a fired rule with the override is carried out, or held, whatever the LLM, KEDA or the SLOs would say, and only a hard budget lowers it |
| Witnesses.LostWriteBreaksCooldown | internal/controller/aiscaler_controller.go:1235-1240 | two live changes at the same instant when status writes meet conflicts |
| Witnesses.CooldownIsTight | internal/controller/aiscaler_controller.go:279-299 | with stored writes two live changes can come exactly one cooldown apart |
| Witnesses.StaleObservationUndoesScaling | internal/actuator/actuator.go:68-81 | a cycle that means to keep the observed count scales down the desired one, unstamped and without a slot |
| Witnesses.FailedGetIsStamped | internal/controller/aiscaler_controller.go:192-218 | a cycle whose Get fails, with the count unchanged and the cooldown started |
| Witnesses.LLMWeakensRule | internal/decision/precedence.go:89-115 | a cycle without the override in which an answer asking for two outdoes a rule asking for eight |
| Witnesses.CostTrumpsSlo | internal/controller/aiscaler_controller.go:751-782 | a breaching workload with sloAlwaysWins is scaled down by a hard budget |
| Witnesses.OverflowCutsAffordable | internal/controller/aiscaler_controller.go:1487-1497 | with a budget whose quotient is no int32, a breaching workload within its budget is scaled down |
| Witnesses.TogetherOverLimit | internal/controller/aiscaler_controller.go:871-914 | with one slot only, two cycles whose changes each have room exceed the cluster limit together, because the check precedes the slot |
| Reconciler.AIScalerReconciler.EnsureFinalizer | internal/controller/aiscaler_controller.go:236-277 | deletion and invalid policies stop the chain, failed updates fail it |
| Reconciler.AIScalerReconciler.CheckCooldown | internal/controller/aiscaler_controller.go:279-299 | stops exactly while less than the cooldown has passed |
| Reconciler.AIScalerReconciler.FetchDecision | internal/controller/aiscaler_controller.go:435-499 | gathers KEDA, reactive and SLO candidates in order, and returns early under the override |
| Reconciler.AIScalerReconciler.AskLLM | internal/controller/aiscaler_controller.go:525-595 | a missing answer fails only without other candidates; an unsure one becomes a hold or nothing |
| Reconciler.AIScalerReconciler.CheckOscillation | internal/controller/aiscaler_controller.go:598-633 | an oscillation becomes a safety hold at the current count |
| Reconciler.AIScalerReconciler.CheckRollback | internal/controller/aiscaler_controller.go:635-708 | a recommended rollback replaces the safety decision |
| Reconciler.AIScalerReconciler.BuildSLODecision | internal/controller/aiscaler_controller.go:1427-1445 | the loop over candidates finds the largest target while a breach is known |
| Reconciler.AIScalerReconciler.BuildPrecedenceInputs | internal/controller/aiscaler_controller.go:1292-1338 | fills in exactly the layers present, hold and ceiling only when asked |
| Reconciler.AIScalerReconciler.ResolveDecisionState | internal/controller/aiscaler_controller.go:1244-1290 | one resolution on the mutable state, with its fallback and its failing estimate |
| Reconciler.AIScalerReconciler.EstimateCost | internal/controller/aiscaler_controller.go:725-785 | estimate, budget check and ceiling on the mutable state |
| Reconciler.AIScalerReconciler.CheckApproval | internal/controller/aiscaler_controller.go:788-832 | a needed approval becomes a human request for the current count |
| Reconciler.AIScalerReconciler.CheckCoordination | internal/controller/aiscaler_controller.go:858-916 | snapshot, graph, deferral, cluster budget and slot on the coordinator object, with every early return |
| Reconciler.AIScalerReconciler.ApplyReplicas | internal/actuator/actuator.go:47-126 | the patch: no-op when equal, nothing on an error or in dry run |
| Reconciler.AIScalerReconciler.Actuate | internal/controller/aiscaler_controller.go:918-950 | replicas first, then the vertical change, whose failure does not undo them |
| Reconciler.AIScalerReconciler.PersistStatus | internal/controller/aiscaler_controller.go:1133-1242 | one status write that may be stored, lost to a conflict or fail |
| Reconciler.AIScalerReconciler.ReleaseCoordination | internal/controller/aiscaler_controller.go:1030-1043 | gives back the slot held, and only that |
| Reconciler.AIScalerReconciler.FinishStatus | internal/controller/aiscaler_controller.go:192-218 | the status writes at the end of a cycle, with the second write after a failed first one |
| Reconciler.AIScalerReconciler.Reconcile | internal/controller/aiscaler_controller.go:154-225 | the imperative cycle leaves cluster and slot table exactly as the function on values says, so everything proved of that function holds of it |
| Materialize.ScalingDecision.Clone | internal/controller/aiscaler_controller.go:1643-1656 | a copy with the same value that shares no object with the original |
| Materialize.ScanLayers | internal/controller/aiscaler_controller.go:1353-1368 | the loop finds the first applied layer and the last applied cost entry |
| Materialize.Candidates.MaterializeResolvedDecision | internal/controller/aiscaler_controller.go:1340-1398 | the result is a fresh deep copy with the specified value; no existing decision, cached ones included, is written |
| Coordinator.ClusterCoordinator.AcquireScalingSlot | internal/coordinator/coordinator.go:30-47 | expires, refreshes, refuses or grants as specified |
| Coordinator.ClusterCoordinator.ReleaseScalingSlot | internal/coordinator/coordinator.go:49-53 | removes exactly the named slot |
| Coordinator.ClusterCoordinator.ActiveOperations | internal/coordinator/coordinator.go:56-61 | the number of the unexpired slots |
| Coordinator.ClusterCoordinator.ActiveWorkloads | internal/coordinator/coordinator.go:64-73 | the names of the unexpired slots |
| Coordinator.ClusterCoordinator.CleanupLocked | internal/coordinator/coordinator.go:99-106 | the deleting loop keeps exactly the entries not older than the TTL |
| Coordinator.AcquireBounded | internal/coordinator/coordinator.go:30-47 | asking for slots never takes the table beyond its limit |
| Coordinator.CleanupExactly | internal/coordinator/coordinator.go:99-106 | exactly the slots older than five minutes are dropped |
| Coordinator.AcquireExactly | internal/coordinator/coordinator.go:30-47 | a slot is given if and only if the workload has one, there is no limit, or fewer unexpired ones than the limit are out; it is dated now and no other is touched |
| Coordinator.DependencyGraph.BuildFromPolicies | internal/coordinator/dependency.go:37-69 | the append loops build the specified graph, the last policy of a name counting |
| Coordinator.DependencyGraph.ShouldDefer | internal/coordinator/dependency.go:72-96 | defers exactly when a declared dependency, in either direction, is active |
| Coordinator.GraphDeclares | internal/coordinator/dependency.go:37-69 | the graph declares for a workload exactly what the last policy of that name does, in either direction |
| Coordinator.UnnamedDependsOnNothing | internal/coordinator/dependency.go:72-96 | a workload without a policy defers to nothing |
| Protocol.StepKeepsInv | internal/coordinator/coordinator.go:30-106 | every atomic step of every reconcile keeps the table and the holders consistent |
| Protocol.SlotSafety | internal/controller/aiscaler_controller.go:858-916 | in every interleaving the table is within its limit, equals the holders while none has expired, and is empty when all is quiet |
| Protocol.HolderWasGranted | internal/controller/aiscaler_controller.go:905-914 | whoever holds a slot was granted it, at the time recorded, and has held it since |
| Protocol.ChangesAreCovered | internal/controller/aiscaler_controller.go:918-940 | every change made under a slot is made by a reconcile that was granted the slot and has held it since, and the table shows that slot unless it has expired |
| Protocol.SharedNameLosesSlot | internal/controller/aiscaler_controller.go:1532-1540 | two policies with one target name can run with a slot the table no longer lists |
| Protocol.CoverageIffDistinctNames | internal/controller/aiscaler_controller.go:1532-1540 | the table covers every unexpired slot in every run if and only if no two reconciles share a name |
| Refinement.AskDependenciesIsCheck | internal/controller/aiscaler_controller.go:871-903 | snapshot, deferral and cluster budget are one step of the interleaving model on the same table |
| Refinement.AskSlotIsTake | internal/controller/aiscaler_controller.go:905-914 | asking for the slot is one step of the interleaving model |
| Refinement.CycleIsProtocolRun | internal/controller/aiscaler_controller.go:154-225 | a whole cycle is a run of the interleaving model's steps, with the same table and the same logged change |
| Refinement.CycleStaysReachable | internal/controller/aiscaler_controller.go:154-225 | a cycle on a reachable table leaves a reachable table, within its limit |
| Interleaving.CallIsSteps | internal/controller/aiscaler_controller.go:871-914 | each call of a cycle, on whatever the others have made of the table, is steps of the interleaving model |
| Interleaving.InterleavingIsProtocolRun | internal/controller/aiscaler_controller.go:154-225 | any interleaving of any policies' calls is a run of the interleaving model |
| Interleaving.InterleavedCyclesAreSafe | internal/controller/aiscaler_controller.go:154-225 | so in every interleaving of real cycles the table is within its limit, empty at quiescence, lists every unexpired slot, and changes are made by slot holders |
| Exclusion.AtomicExclusion | internal/controller/aiscaler_controller.go:871-914 | check and slot as one step with symmetric declarations: slot holders are independent in every reachable state |
| Exclusion.SeparateStepsLetBothIn | internal/controller/aiscaler_controller.go:871-914 | as written, any two reconciles can both get a slot |
| Exclusion.SeparateStepsExclude | internal/controller/aiscaler_controller.go:871-914 | as written, dependencies are respected in every run if and only if there are none or there is only one slot |
| Exclusion.OneSidedLetsBothIn | internal/coordinator/dependency.go:72-96 | a dependency declared on one side only is violated in one order |
| Exclusion.AtomicStepsExclude | internal/coordinator/dependency.go:72-96 | with check and slot as one step, dependencies are respected in every run if and only if declared on both sides or there is only one slot |
| RateLimiter.RateLimiter.Allow | internal/decision/rate_limiter.go:36-79 | admits exactly when fewer calls than the cap are running and fewer than each limit were admitted since its window began, where the windows follow from the clock readings of all calls |
| RateLimiter.RateLimiter.Release | internal/decision/rate_limiter.go:82-88 | concurrent is admissions minus effective releases and never negative |
| RateLimiter.RateLimiter.WindowBounds | internal/decision/rate_limiter.go:36-79 | at most M * (floor(T / window) + 2) admissions in any interval, M * (floor(E / window) + 1) from construction, for both windows at once |
| CircuitBreaker.CircuitBreaker.Allow | internal/llm/circuit_breaker.go:29-47 | refuses exactly when the history has a threshold of failures since the last success and the last is recent |
| CircuitBreaker.CircuitBreaker.RecordSuccess | internal/llm/circuit_breaker.go:50-55 | one success in the history, with the fields kept in agreement |
| CircuitBreaker.CircuitBreaker.RecordFailure | internal/llm/circuit_breaker.go:58-66 | one failure in the history, with the fields kept in agreement |
| CircuitBreaker.CircuitBreaker.State | internal/llm/circuit_breaker.go:69-77 | reading the state never changes a later answer |
| CircuitBreaker.ConsecutiveFailuresMeaning | internal/llm/circuit_breaker.go:58-66 | the trailing failure count is the longest failing suffix |
| CircuitBreaker.RefusesExactly | internal/llm/circuit_breaker.go:29-47 | a call is refused if and only if the latest outcomes, as many as the threshold and at least one, are failures and the last is no older than the reset timeout |
| Router.Router.CallProviderWithCB | internal/llm/router.go:177-202 | a provider is called exactly when its breaker admits; each call leaves one outcome in that breaker only, a success if it was answered and else a failure at the time of the outcome |
| Router.VainCallsShutOut | internal/llm/router.go:177-202 | after any number of calls in a row without an answer, the next attempt is refused if and only if they reach the threshold and it comes within the reset timeout of the last |
| Router.AnswerLetsIn | internal/llm/router.go:177-202 | after a call that was answered, the next attempt is called whenever it comes |
| Router.TimeLetsIn | internal/llm/circuit_breaker.go:29-47 | later than the reset timeout after the last failure, the next attempt is called |
| Router.Router.Decide | internal/llm/router.go:118-175 | a fresh cached answer wins, then primary, then fallback, and the fallback is not called if either of the former answered; what answered is what the cache then holds |
| Cache.Cache.Get | internal/llm/cache.go:32-44 | equals a lookup in a log that never evicts |
| Cache.Cache.Set | internal/llm/cache.go:47-61 | one more store in the log; eviction stays invisible |
| Cache.LookupIsNewest | internal/llm/cache.go:32-44 | a hit is the newest store for the key and within the TTL, everything else a miss |
| Alerting.Evaluator.Evaluate | internal/alerting/evaluator.go:44-70 | for any sequence of rule lists and names, fires exactly the rules whose name has been breached without a break for their hold time |
| Alerting.FiredExactly | internal/alerting/evaluator.go:44-70 | exactly the due rules sound, under their own name and severity, with the observed value and the time |
| Alerting.ConditionMeaning | internal/alerting/evaluator.go:73-118 | each operator compares the observed field with the threshold, error_rate in per cent; malformed conditions and unknown operators never breach |
| AlertRuns.AlertsExact | internal/alerting/evaluator.go:44-70 | over every run of every policy's evaluations, a rule always fires rightly if and only if it has no hold time, cannot be breached, or its name is used by no other policy and its own policy's rules of that name are breached with it, the last of them never without |
| AlertRuns.UniqueNamesExact | internal/alerting/evaluator.go:44-70 | when its policy uses the name once, a breachable rule with a hold time always fires rightly if and only if no other policy uses the name |
| AlertRuns.SharedNameMisfires | internal/alerting/evaluator.go:65-67 | for any rule of another policy with the same name, a run in which an alert that is due is not fired |
| Alerting.RunStartIsMaximal | internal/alerting/evaluator.go:44-70 | that run is the maximal unbroken one ending now |
| Oscillation.OscillationDetector.Record | internal/decision/oscillation.go:34-43 | the buffer is always the last events up to its size |
| Oscillation.OscillationDetector.IsOscillating | internal/decision/oscillation.go:46-71 | true exactly when three of the kept events later than the start of the window turn and turn back |
| Oscillation.ChangesMeaning | internal/decision/oscillation.go:62-71 | two neighbouring changes exist exactly if three events, anywhere in order, turn and turn back |
| Oscillation.AfterIsFilter | internal/decision/oscillation.go:46-56 | the window keeps exactly the events later than its start, in order |
| Oscillation.ZigZagInWindow | internal/decision/oscillation.go:46-71 | a zig-zag of what the window keeps is one of the events themselves |
| Oscillation.ZigZagNeedsThree | internal/decision/oscillation.go:58-60 | the early return is redundant |
| AuditStore.ConfigMapStore.Store | internal/audit/store.go:50-94 | succeeds exactly when every call and the encoding do; then at most maxPerCM cells, nothing newer dropped than kept, and agreement with the full history kept; else nothing changed |
| AuditStore.ConfigMapStore.List | internal/audit/store.go:97-128 | nothing exactly if the read fails; else newest first, none left out that is newer, and up to the store's size exactly the newest of everything ever stored |
| AuditStore.PruneOldest | internal/audit/store.go:153-178 | corrupt cells go, the newest decodable ones stay |
| AuditStore.StoreKeepsNewest | internal/audit/store.go:50-94 | one more record on the last n of a history leaves the last n of the longer one |
| AuditStore.ListingIsNewest | internal/audit/store.go:97-128 | listing the bounded map equals listing the unbounded history |
| Seasonal.SeasonalPredictor.UpdateBaseline | internal/prediction/seasonal.go:25-40 | the observation goes to its own slot of its own metric and nowhere else |
| Seasonal.SeasonalPredictor.Predict | internal/prediction/seasonal.go:42-59 | the average and the confidence of everything fed to the slot |
| Seasonal.SeasonalPredictor.SetBaselines | internal/prediction/seasonal.go:74-85 | a positive preset counts as twenty samples, any other as none, in every slot |
| Seasonal.SlotsDistinct | internal/prediction/seasonal.go:88-90 | different hours of the week never share a slot |
| Seasonal.SlotsInOrder | internal/prediction/seasonal.go:88-90 | slots run through the week hour by hour from Sunday midnight |
| Seasonal.EmaIsMean | internal/prediction/seasonal.go:25-40 | up to a hundred samples the baseline is the exact weighted mean, (20b + sum) / (20 + k) after preloading b |
| Seasonal.PreloadedMean | internal/prediction/seasonal.go:74-85 | a positive preset weighs as much as twenty samples, any other nothing |
| Seasonal.EmaWithinRange | internal/prediction/seasonal.go:25-40 | for any number of samples the baseline stays within what was fed |
| Seasonal.OldDataFades | internal/prediction/seasonal.go:25-40 | from a hundred samples on, old data fades by exactly one per cent a sample |
| Seasonal.ConfidenceNeverDrops | internal/prediction/seasonal.go:42-59 | confidence is in [0, 1], never drops with an update, and is 1 from twenty samples on |
| Seasonal.ConfidenceExactly | internal/prediction/seasonal.go:42-59 | confidence is a twentieth a sample up to twenty samples, exactly |
| Percentile.Percentile | internal/finops/historical_collector.go:152-169 | copy, sort and interpolate give the specified percentile, with every index in range |
| Percentile.OrderIrrelevant | internal/finops/historical_collector.go:152-169 | the result depends only on the multiset of values |
| Percentile.PercentileMonotone | internal/finops/historical_collector.go:152-169 | a higher percentile is never a smaller value |
| Percentile.PercentileEnds | internal/finops/historical_collector.go:152-169 | 0 gives the minimum and 1 the maximum |
| Percentile.PercentileIsOrderStatistic | internal/finops/historical_collector.go:152-169 | at k / (n - 1) it is the k-th smallest sample: more than k samples are at most that, and at least n - k at least that |
| Percentile.PercentileIsLinear | internal/finops/historical_collector.go:152-169 | between neighbouring such points it is the straight line |
| Percentile.MedianIsP50 | internal/finops/historical_collector.go:71-88 | P50 is the median, for odd and even numbers of samples |
| Percentile.ReportedFiguresOrdered | internal/finops/historical_collector.go:71-88 | P50, P95, P99 and the maximum are in order |

## Left out

- Floating point: costs, margins, averages and percentiles are `real`; rounding and NaN are not modelled. The conversion of an out-of-range quotient to int32 is, as an arbitrary int32.
- Kubernetes: the cluster is the desired count and the stored scaling time; each API call succeeds, meets a conflict or fails as the input says. A read always sees the latest write, so stale informer caches are not modelled for the status.
- Reconciler.AIScalerReconciler.Reconcile: runs alone on the slot table; other reconciles interleaving with its calls are the subject of `Protocol` and `Exclusion`, to which `Refinement` connects it.
- Reconciler.AIScalerReconciler.ResolveDecisionState: decisions are values here; sharing with the response cache is the subject of `Materialize.Candidates`.
- Runs.CooldownSpacing: a change whose status write is lost is outside it (`Witnesses.LostWriteBreaksCooldown`), and stored times are rounded down to a unit that is a parameter of the configuration; the API server stores whole seconds.
- Context for the LLM prompt and the choice of the audit record a rollback compares with: nothing else depends on them, or only the rollback input does.
- RuleVersusLLM.WeakenedExactly: like `ExceededExactly`, and like one direction of `PlanGuarantees.SloProtectionExact`, for budgets whose quotients fit an int32; `Witnesses.OverflowCutsAffordable` shows what an overflow does.
- Signal plugins, LLM calls and JSON parsing, reactive rule matching, rollback conditions, approval triggers, node feasibility and feedback: their outcomes are inputs.
- Vertical scaling: whether a vertical change is proposed, mutates anything and fails are inputs; its resource quantities are not modelled.
- ClusterBudget.ChangeKeepsLimit: the other workloads' recorded cost is an input, so it is about each change by itself.
- The coordinator's budget tracking (CheckBudget, RecordSpend) and co-scaling targets: no caller in the cycle.
- Reason texts, prompts, conditions, notifications and metrics; the metric reads that change a breaker's state are modelled.
- The cache key is opaque, and a rate limiter's concurrent counter is unbounded rather than 32 bits wide.
- Each evaluation of alerts, rate limits and slots reads the clock once.
- Savings trackers, event prediction and configuration defaults: easy members.
