/** The reconciler itself: step methods that update one cycle's state, the coordinator's table
    and the cluster, each proved to do what the functions of Pipeline and ReconcileCycle say. */
module Reconciler {
  import opened Common
  import opened Policy
  import opened Validator
  import opened Precedence
  import opened Cost
  import opened Slo
  import opened Coordinator
  import opened Pipeline
  import opened PlanGuarantees
  import opened ReconcileCycle
  import Materialize

  /** How a step returns: nothing, a result that ends the chain, or an error. */
  datatype Result = Next | ShortCircuit | Error

  function FlowOf(r: Result, s: State): Flow {
    match r
    case Next => Continue(s)
    case ShortCircuit => Stop(s)
    case Error => Fail(s)
  }

  /** The workload's desired count and the policy's status, as the API server holds them. */
  class Cluster {
    var specReplicas: int
    var lastScaleTime: Option<Time>

    constructor (specReplicas: int, lastScaleTime: Option<Time>)
      ensures this.specReplicas == specReplicas && this.lastScaleTime == lastScaleTime
    {
      this.specReplicas, this.lastScaleTime := specReplicas, lastScaleTime;
    }
  }

  /** What one cycle carries from step to step. */
  class ReconcileState {
    var bundle: Option<Bundle>
    var decision: Option<Decision>
    var llmDecision: Option<Decision>
    var reactiveDecision: Option<Decision>
    var deterministicDecision: Option<Decision>
    var sloDecision: Option<Decision>
    var safetyDecision: Option<Decision>
    var humanDecision: Option<Decision>
    var provider: string
    var llmProvider: string
    var safetySource: string
    var validation: Option<ValidationResult>
    var precedence: Option<ResolvedDecision>
    var currentSLOs: seq<SLOStatus>
    var coordinationSlotHeld: bool
    var coordinationWorkload: string
    var currentWorkloadCost: Option<WorkloadCost>
    var costEstimate: Option<CostEstimate>
    var costCeiling: Option<int>
    var costReason: string

    constructor ()
      ensures Snap() == Fresh
    {
      bundle, decision, llmDecision, reactiveDecision := None, None, None, None;
      deterministicDecision, sloDecision, safetyDecision, humanDecision := None, None, None, None;
      provider, llmProvider, safetySource := "", "", "";
      validation, precedence, currentSLOs := None, None, [];
      coordinationSlotHeld, coordinationWorkload := false, "";
      currentWorkloadCost, costEstimate, costCeiling, costReason := None, None, None, "";
    }

    function Snap(): State
      reads this
    {
      State(bundle, decision, llmDecision, reactiveDecision, deterministicDecision, sloDecision, safetyDecision,
            humanDecision,
            provider, llmProvider, safetySource, validation, precedence, currentSLOs,
            coordinationSlotHeld, coordinationWorkload,
            currentWorkloadCost, costEstimate, costCeiling, costReason)
    }
  }

  class AIScalerReconciler {
    const cfg: Config
    const resolver: PrecedenceResolver
    const coordinator: ClusterCoordinator

    constructor (cfg: Config, resolver: PrecedenceResolver, coordinator: ClusterCoordinator)
      requires IsInt32(cfg.outOfRange) && coordinator.maxConcurrent == cfg.maxConcurrent
      ensures Valid() && this.cfg == cfg && this.coordinator == coordinator
    {
      this.cfg, this.resolver, this.coordinator := cfg, resolver, coordinator;
    }

    ghost predicate Valid() {
      IsInt32(cfg.outOfRange) && coordinator.maxConcurrent == cfg.maxConcurrent
    }

    ghost function WorldOf(cluster: Cluster): World
      reads cluster, coordinator
    {
      World(cluster.specReplicas, cluster.lastScaleTime, coordinator.activeOps)
    }

    // ----- gathering -----

    method EnsureFinalizer(spec: Spec, i: Input, st: ReconcileState) returns (r: Result)
      ensures FlowOf(r, st.Snap()) == Pipeline.EnsureFinalizer(spec, i, st.Snap())
    {
      if i.deleting {
        return if i.updateFails then Error else ShortCircuit;
      }
      if !ValidateSpec(spec) {
        return if i.updateFails then Error else ShortCircuit;
      }
      if i.updateFails {
        return Error;
      }
      return Next;
    }

    method CheckCooldown(spec: Spec, cluster: Cluster, i: Input, st: ReconcileState) returns (r: Result)
      ensures FlowOf(r, st.Snap()) == Pipeline.CheckCooldown(spec, cluster.lastScaleTime, i, st.Snap())
    {
      if cluster.lastScaleTime.None? {
        return Next;
      }
      var elapsed := i.now - cluster.lastScaleTime.value;
      if elapsed < spec.cooldown {
        return ShortCircuit;
      }
      return Next;
    }

    method CollectSignals(i: Input, st: ReconcileState) returns (r: Result)
      modifies st
      ensures FlowOf(r, st.Snap()) == Pipeline.CollectSignals(i, old(st.Snap()))
    {
      if i.bundle.None? {
        return Error;
      }
      st.bundle := i.bundle;
      return if i.frozen then ShortCircuit else Next;
    }

    method FetchDecision(spec: Spec, i: Input, st: ReconcileState) returns (r: Result)
      requires st.bundle.Some? && st.deterministicDecision.None? && st.reactiveDecision.None?
      modifies st
      ensures FlowOf(r, st.Snap()) == Pipeline.FetchDecision(spec, i, old(st.Snap()))
    {
      hide Pipeline.AskLLM, KedaDecision, Statuses;
      RuleCandidates(spec, i, st);
      if i.reactive.Some? && SkipsLLM(spec) {
        return Next;
      }
      CheckSLOs(spec, st);
      r := AskLLM(spec, i, st);
    }

    /** The candidates of KEDA and of the reactive rules. */
    method RuleCandidates(spec: Spec, i: Input, st: ReconcileState)
      requires st.bundle.Some? && st.deterministicDecision.None? && st.reactiveDecision.None?
      modifies st`deterministicDecision, st`reactiveDecision
      ensures var b := st.bundle.value;
              && st.deterministicDecision == KedaDecision(spec, b) && st.reactiveDecision == ReactiveDecision(i, b)
              && st.Snap() == old(st.Snap()).(deterministicDecision := KedaDecision(spec, b),
                                              reactiveDecision := ReactiveDecision(i, b))
    {
      var b := st.bundle.value;
      if spec.kedaEnabled && b.kedaDesired > 0 {
        var action := ActionTypeForTarget(b.kedaDesired, b.currentReplicas);
        st.deterministicDecision := Some(Decision(b.kedaDesired, "keda", 1.0, action, "medium", [], None));
      }
      if i.reactive.Some? {
        var target := i.reactive.value.target;
        var action := ActionTypeForTarget(target, b.currentReplicas);
        st.reactiveDecision := Some(Plain(target, i.reactive.value.reason, 1.0, action));
      }
    }

    method CheckSLOs(spec: Spec, st: ReconcileState)
      requires st.bundle.Some?
      modifies st`currentSLOs
      ensures st.Snap() == if spec.slos == [] then old(st.Snap())
                           else old(st.Snap()).(currentSLOs := Statuses(spec.slos, st.bundle.value))
    {
      if |spec.slos| > 0 {
        var statuses := EvaluateSLOs(spec.slos, st.bundle.value);
        st.currentSLOs := statuses;
      }
    }

    method AskLLM(spec: Spec, i: Input, st: ReconcileState) returns (r: Result)
      requires st.bundle.Some?
      modifies st
      ensures FlowOf(r, st.Snap()) == Pipeline.AskLLM(spec, i, old(st.Snap()))
    {
      if i.answer.None? {
        return if st.reactiveDecision.Some? || st.deterministicDecision.Some? then Next else Error;
      }
      var scalingDecision := i.answer.value.decision;
      st.llmProvider := i.answer.value.provider;
      if spec.constraints.minConfidence > 0.0 && scalingDecision.confidence < spec.constraints.minConfidence {
        if st.reactiveDecision.None? && st.deterministicDecision.None? {
          st.llmDecision := Some(Plain(st.bundle.value.currentReplicas, "low confidence", scalingDecision.confidence,
                                       NoChange));
        }
        return Next;
      }
      st.llmDecision := Some(scalingDecision);
      return Next;
    }

    method CheckOscillation(i: Input, st: ReconcileState) returns (r: Result)
      requires st.bundle.Some?
      modifies st
      ensures FlowOf(r, st.Snap()) == Pipeline.CheckOscillation(i, old(st.Snap()))
    {
      if i.oscillating {
        st.safetyDecision := Some(Plain(st.bundle.value.currentReplicas, "oscillation", 1.0, NoChange));
        st.safetySource := "safety";
      }
      return Next;
    }

    method CheckRollback(i: Input, st: ReconcileState) returns (r: Result)
      requires st.bundle.Some?
      modifies st
      ensures FlowOf(r, st.Snap()) == Pipeline.CheckRollback(i, old(st.Snap()))
    {
      if i.rollback.None? {
        return Next;
      }
      var target := i.rollback.value.target;
      st.safetyDecision := Some(Plain(target, i.rollback.value.reason, 1.0,
                                      ActionTypeForTarget(target, st.bundle.value.currentReplicas)));
      st.safetySource := "rollback";
      return Next;
    }

    // ----- resolution -----

    method BuildSLODecision(st: ReconcileState) returns (d: Option<Decision>)
      requires st.bundle.Some?
      ensures d == Pipeline.BuildSLODecision(st.Snap())
    {
      var breached := AnyBreachedLoop(st.currentSLOs);
      if st.currentSLOs == [] || !breached {
        return None;
      }
      var current := st.bundle.value.currentReplicas;
      var target := current;
      var candidates := [st.reactiveDecision, st.llmDecision, st.deterministicDecision];
      for n := 0 to |candidates|
        invariant target == if n == 0 then current
                            else if n == 1 then Raise(current, candidates[0])
                            else if n == 2 then Raise(Raise(current, candidates[0]), candidates[1])
                            else Raise(Raise(Raise(current, candidates[0]), candidates[1]), candidates[2])
      {
        if candidates[n].Some? && candidates[n].value.targetReplicas > target {
          target := candidates[n].value.targetReplicas;
        }
      }
      return Some(Plain(target, "slo", 1.0, ActionTypeForTarget(target, current)));
    }

    method BuildPrecedenceInputs(spec: Spec, st: ReconcileState, includeHuman: bool,
                                 includeCost: bool) returns (inputs: Inputs)
      ensures inputs == Pipeline.BuildPrecedenceInputs(spec, st.Snap(), includeHuman, includeCost)
    {
      hide AsRequest;
      var schedule, reactive, slo := None, None, None;
      if spec.precedence.Some? {
        var p := spec.precedence.value;
        schedule, reactive := Some(p.scheduleOverridesLLM), Some(p.reactiveRulesOverrideLLM);
        slo := Some(p.sloAlwaysWins);
      }
      var human := None;
      if includeHuman {
        human := AsRequest(st.humanDecision);
      }
      var costMax, costReason := None, "";
      if includeCost && st.costCeiling.Some? {
        costMax, costReason := st.costCeiling, st.costReason;
      }
      inputs := Inputs(
        AsRequest(st.safetyDecision), human, None, AsRequest(st.sloDecision), AsRequest(st.reactiveDecision),
        AsRequest(st.llmDecision), AsRequest(st.deterministicDecision), costMax, costReason,
        spec.constraints.minReplicas, spec.constraints.maxReplicas, schedule, reactive, slo);
    }

    /** On values; Materialize.Candidates has the same on shared objects. */
    method MaterializeResolvedDecision(st: ReconcileState, rd: ResolvedDecision) returns (d: Decision, provider: string)
      requires st.bundle.Some?
      ensures (d, provider) == Pipeline.Materialize(st.Snap(), rd)
    {
      var base, cost := Materialize.ScanLayers(rd.layers);
      var (found, name) := DecisionForLayer(st.Snap(), base);
      var finished := FinishDecision(found, name, rd, st.bundle.value.currentReplicas);
      return finished.0, finished.1;
    }

    method ResolveDecisionState(spec: Spec, st: ReconcileState, includeHuman: bool,
                                includeCost: bool) returns (r: Result)
      requires st.bundle.Some?
      modifies st
      ensures FlowOf(r, st.Snap())
              == Pipeline.ResolveDecisionState(cfg, spec, old(st.Snap()), includeHuman, includeCost)
    {
      hide Pipeline.BuildSLODecision, Pipeline.BuildPrecedenceInputs, Pipeline.AdoptResolution, Pipeline.KeepCurrent;
      hide Resolution, Pipeline.Recalculate, NoCandidate;
      SetSLODecision(st);
      if NoCandidate(st.Snap()) {
        KeepCurrent(st);
        return Next;
      }
      var inputs := BuildPrecedenceInputs(spec, st, includeHuman, includeCost);
      var resolved := resolver.Resolve(inputs);
      AdoptResolution(st, resolved);
      if !includeCost {
        return Next;
      }
      r := Recalculate(st);
    }

    method SetSLODecision(st: ReconcileState)
      requires st.bundle.Some?
      modifies st`sloDecision
      ensures st.Snap() == old(st.Snap()).(sloDecision := Pipeline.BuildSLODecision(old(st.Snap())))
    {
      hide Pipeline.BuildSLODecision;
      var slo := BuildSLODecision(st);
      st.sloDecision := slo;
    }

    method KeepCurrent(st: ReconcileState)
      requires st.bundle.Some?
      modifies st`decision, st`provider, st`precedence
      ensures st.Snap() == Pipeline.KeepCurrent(old(st.Snap()))
    {
      st.decision := Some(Plain(st.bundle.value.currentReplicas, "no applicable scaling inputs", 1.0, NoChange));
      st.provider := "fallback";
      st.precedence := None;
    }

    method AdoptResolution(st: ReconcileState, rd: ResolvedDecision)
      requires st.bundle.Some?
      modifies st`decision, st`provider, st`precedence
      ensures st.Snap() == Pipeline.AdoptResolution(old(st.Snap()), rd)
    {
      hide Pipeline.Materialize;
      var d, name := MaterializeResolvedDecision(st, rd);
      st.precedence := Some(rd);
      st.decision := Some(d);
      st.provider := name;
    }

    method Recalculate(st: ReconcileState) returns (r: Result)
      requires st.bundle.Some? && st.decision.Some?
      modifies st
      ensures FlowOf(r, st.Snap()) == Pipeline.Recalculate(cfg, old(st.Snap()))
    {
      hide Estimate;
      if st.currentWorkloadCost.Some? && cfg.costEnabled {
        var estimate := Estimate(st.currentWorkloadCost.value, st.bundle.value.currentReplicas,
                                 st.decision.value.targetReplicas);
        if estimate.None? {
          return Error;
        }
        st.costEstimate := estimate;
      }
      return Next;
    }

    // ----- cost, approval, validation -----

    method EstimateCost(spec: Spec, i: Input, st: ReconcileState) returns (r: Result)
      requires Valid() && st.bundle.Some?
      modifies st
      ensures FlowOf(r, st.Snap()) == Pipeline.EstimateCost(cfg, spec, i, old(st.Snap()))
    {
      hide Estimate, Pipeline.EnforceBudget;
      if !cfg.costEnabled || st.decision.None? || i.workloadCost.None? {
        return Next;
      }
      st.currentWorkloadCost := i.workloadCost;
      var current := st.bundle.value.currentReplicas;
      var estimate := Estimate(i.workloadCost.value, current, st.decision.value.targetReplicas);
      if estimate.None? {
        return Next;
      }
      st.costEstimate := estimate;
      if cfg.budgetEnabled && spec.cost.Some? {
        EnforceBudget(spec, estimate.value, st);
      }
      return Next;
    }

    method EnforceBudget(spec: Spec, estimate: CostEstimate, st: ReconcileState)
      requires Valid() && st.bundle.Some? && spec.cost.Some?
      modifies st
      ensures st.Snap() == Pipeline.EnforceBudget(cfg, spec, estimate, old(st.Snap()))
    {
      hide Check, ComputeCostCeiling;
      var cc := spec.cost.value;
      var result := Check(cc.maxHourly, cc.maxMonthly, cc.enforcement, estimate);
      if !result.allowed {
        st.costCeiling := ComputeCostCeiling(spec.cost, estimate, spec.constraints.minReplicas, cfg.outOfRange);
        st.costReason := if st.costCeiling.Some? then "cost budget caps replicas" else "budget exceeded";
        if st.costCeiling.None? {
          st.costCeiling := Some(st.bundle.value.currentReplicas);
        }
      }
    }

    method CheckApproval(i: Input, st: ReconcileState) returns (r: Result)
      requires st.bundle.Some?
      modifies st
      ensures FlowOf(r, st.Snap()) == Pipeline.CheckApproval(cfg, i, old(st.Snap()))
    {
      if !cfg.approvalEnabled || st.decision.None? {
        return Next;
      }
      if i.needsApproval {
        st.humanDecision := Some(Plain(st.bundle.value.currentReplicas, "awaiting human approval",
                                       st.decision.value.confidence, NoChange));
        return Next;
      }
      st.humanDecision := None;
      return Next;
    }

    method ValidateDecision(spec: Spec, st: ReconcileState) returns (r: Result)
      modifies st
      ensures FlowOf(r, st.Snap()) == Pipeline.ValidateDecision(spec, old(st.Snap()))
    {
      if st.decision.Some? && st.bundle.Some? {
        st.validation := Some(ValidateFor(st.decision.value, st.bundle.value.currentReplicas, spec));
      }
      return Next;
    }

    // ----- coordination, actuation, status -----

    /** Every way through leaves the table and the state as CheckCoordination says. */
    method CheckCoordination(spec: Spec, i: Input, st: ReconcileState) returns (r: Result)
      requires Valid()
      modifies st, coordinator
      ensures (FlowOf(r, st.Snap()), coordinator.activeOps)
              == ReconcileCycle.CheckCoordination(cfg, spec, i, old(st.Snap()), old(coordinator.activeOps))
    {
      hide Cleanup, Acquire, GraphOf, Defers;
      if !cfg.coordinated || !NeedsLiveCoordination(spec, i, st.Snap()) {
        return Next;
      }
      if i.policies.None? {
        return Error;
      }
      var workload := CoordinationWorkloadName(spec);
      var active := coordinator.ActiveWorkloads(i.checkedAt);
      active := active - {workload};
      var graph := new DependencyGraph();
      graph.BuildFromPolicies(i.policies.value);
      var defer := graph.ShouldDefer(workload, active);
      if defer {
        return ShortCircuit;
      }
      if ExceedsClusterBudget(cfg, i, st.Snap()) {
        return ShortCircuit;
      }
      var ok := coordinator.AcquireScalingSlot(workload, i.takenAt);
      if !ok {
        return ShortCircuit;
      }
      st.coordinationSlotHeld := true;
      st.coordinationWorkload := workload;
      return Next;
    }

    /** The patch of the workload's replica count. */
    method ApplyReplicas(spec: Spec, cluster: Cluster, i: Input, validated: int) returns (ok: bool)
      modifies cluster`specReplicas
      ensures var applied := Apply(spec, i, validated, old(cluster.specReplicas));
              ok == applied.Some? && cluster.specReplicas == if ok then applied.value else old(cluster.specReplicas)
    {
      if i.getFails {
        return false;
      }
      if cluster.specReplicas == validated {
        return true;
      }
      if i.patchFails {
        return false;
      }
      if !spec.dryRun {
        cluster.specReplicas := validated;
      }
      return true;
    }

    method Actuate(spec: Spec, cluster: Cluster, i: Input, st: ReconcileState) returns (r: Result)
      modifies cluster`specReplicas
      ensures (FlowOf(r, st.Snap()), cluster.specReplicas)
              == ReconcileCycle.Actuate(spec, i, st.Snap(), old(cluster.specReplicas))
    {
      if st.validation.None? && !i.verticalDecided {
        return Next;
      }
      if st.validation.Some? {
        var ok := ApplyReplicas(spec, cluster, i, st.validation.value.validated);
        if !ok {
          return Error;
        }
      }
      if i.verticalDecided && i.verticalFails {
        return Error;
      }
      return Next;
    }

    /** One status write at time `at`, which may be lost to a conflict or fail. */
    method PersistStatus(spec: Spec, cluster: Cluster, st: ReconcileState, at: Time, write: Write) returns (r: Result)
      modifies cluster`lastScaleTime
      ensures r == (match write case Written => Next case Conflicted => ShortCircuit case WriteFailed => Error)
      ensures cluster.lastScaleTime
              == if MovesObserved(st.Snap()) && !spec.dryRun && write.Written? then Some(StoredTime(cfg, at))
                 else old(cluster.lastScaleTime)
    {
      var status := cluster.lastScaleTime;
      if st.bundle.Some? && st.validation.Some? && st.validation.value.validated != st.bundle.value.currentReplicas
        && !spec.dryRun {
        status := Some(StoredTime(cfg, at));
      }
      match write
      case Written =>
        cluster.lastScaleTime := status;
        return Next;
      case Conflicted => return ShortCircuit;
      case WriteFailed => return Error;
    }

    method ReleaseCoordination(st: ReconcileState)
      modifies st`coordinationSlotHeld, coordinator
      ensures coordinator.activeOps == ReconcileCycle.ReleaseCoordination(old(st.Snap()), old(coordinator.activeOps))
    {
      if !st.coordinationSlotHeld || st.coordinationWorkload == "" {
        return;
      }
      coordinator.ReleaseScalingSlot(st.coordinationWorkload);
      st.coordinationSlotHeld := false;
    }

    // ----- the chain -----

    method GatherSteps(spec: Spec, cluster: Cluster, i: Input, st: ReconcileState) returns (r: Result)
      requires st.Snap() == Fresh
      modifies st
      ensures FlowOf(r, st.Snap()) == Gather(spec, cluster.lastScaleTime, i)
    {
      hide Pipeline.EnsureFinalizer, Pipeline.CheckCooldown, Pipeline.FetchDecision;
      hide Pipeline.CheckOscillation, Pipeline.CheckRollback;
      EarlyKeeps(spec, cluster.lastScaleTime, i);
      r := EnsureFinalizer(spec, i, st);
      if r != Next { return; }
      r := CheckCooldown(spec, cluster, i, st);
      if r != Next { return; }
      r := CollectSignals(i, st);
      if r != Next { return; }
      FetchKeeps(spec, i, st.Snap());
      r := FetchDecision(spec, i, st);
      if r != Next { return; }
      HoldsKeep(i, st.Snap());
      r := CheckOscillation(i, st);
      if r != Next { return; }
      r := CheckRollback(i, st);
    }

    method DecideSteps(spec: Spec, i: Input, st: ReconcileState) returns (r: Result)
      requires Valid() && st.bundle.Some?
      modifies st
      ensures FlowOf(r, st.Snap()) == Decide(cfg, spec, i, old(st.Snap()))
    {
      hide Pipeline.ResolveDecisionState, Pipeline.EstimateCost, Pipeline.CheckApproval, Pipeline.ValidateDecision;
      r := ResolveDecisionState(spec, st, false, false);
      if r != Next { return; }
      r := EstimateCost(spec, i, st);
      if r != Next { return; }
      r := CheckApproval(i, st);
      if r != Next { return; }
      r := ResolveDecisionState(spec, st, true, true);
      if r != Next { return; }
      r := ValidateDecision(spec, st);
    }

    method PlanSteps(spec: Spec, cluster: Cluster, i: Input, st: ReconcileState) returns (r: Result)
      requires Valid() && st.Snap() == Fresh
      modifies st
      ensures FlowOf(r, st.Snap()) == Plan(cfg, spec, cluster.lastScaleTime, i)
    {
      hide Gather, Decide;
      GatherKeepsBundle(spec, cluster.lastScaleTime, i);
      r := GatherSteps(spec, cluster, i, st);
      if r != Next { return; }
      r := DecideSteps(spec, i, st);
    }

    /** The status writes at the end of a cycle, as its chain ended. */
    method FinishStatus(spec: Spec, cluster: Cluster, i: Input, st: ReconcileState, ended: Result)
      modifies cluster`lastScaleTime
      ensures cluster.lastScaleTime
              == ReconcileCycle.PersistStatus(cfg, spec, i, st.Snap(), old(cluster.lastScaleTime), ended == Next)
    {
      hide StoredTime;
      var r := PersistStatus(spec, cluster, st, i.stampedAt, i.firstWrite);
      if ended == Next && r == Error {
        r := PersistStatus(spec, cluster, st, i.restampedAt, i.secondWrite);
      }
    }

    /** One reconcile of a policy: the world afterwards is the one Cycle says. A chain that
        ends before validation writes a status without a new scaling time. */
    method Reconcile(spec: Spec, cluster: Cluster, i: Input)
      requires Valid()
      modifies cluster, coordinator
      ensures WorldOf(cluster) == Cycle(cfg, spec, old(WorldOf(cluster)), i)
    {
      hide Plan, ReconcileCycle.CheckCoordination, ReconcileCycle.Actuate, StoredTime, StatusWritten;
      Planned(cfg, spec, cluster.lastScaleTime, i);
      PlanStops(cfg, spec, cluster.lastScaleTime, i);
      var st := new ReconcileState();
      var r := PlanSteps(spec, cluster, i, st);
      ghost var planned := st.Snap();
      if r == Next {
        CoordinationKeepsPlan(cfg, spec, i, planned, coordinator.activeOps);
        r := CheckCoordination(spec, i, st);
        if r == Next {
          r := Actuate(spec, cluster, i, st);
        }
      }
      FinishStatus(spec, cluster, i, st, r);
      ReleaseCoordination(st);
    }
  }

  /** A chain that ends before validation has nothing to stamp and no slot to return. */
  lemma PlanStops(cfg: Config, spec: Spec, lastScale: Option<Time>, i: Input)
    requires IsInt32(cfg.outOfRange)
    ensures var p := Plan(cfg, spec, lastScale, i);
            !p.Continue? ==> p.s.validation.None? && !p.s.slotHeld
  {
    GatherKeepsBundle(spec, lastScale, i);
    hide Gather, Decide;
    var g := Gather(spec, lastScale, i);
    if g.Continue? {
      DecideStops(cfg, spec, i, g.s);
    }
  }

  lemma DecideStops(cfg: Config, spec: Spec, i: Input, s: State)
    requires Gathered(s) && IsInt32(cfg.outOfRange)
    ensures !Decide(cfg, spec, i, s).Continue? ==>
              Decide(cfg, spec, i, s).s.validation.None? && !Decide(cfg, spec, i, s).s.slotHeld
  {
    hide Pipeline.ResolveDecisionState, Pipeline.EstimateCost;
    var s1 := Pipeline.ResolveDecisionState(cfg, spec, s, false, false).s;
    TentativeTarget(cfg, spec, s);
    EstimateStage(cfg, spec, i, s, s1);
    var s3 := Pipeline.CheckApproval(cfg, i, Pipeline.EstimateCost(cfg, spec, i, s1).s).s;
    ResolveStage(cfg, spec, s3, true, true);
  }
}
