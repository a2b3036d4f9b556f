/** The cluster-wide hourly limit: when it, a dependency or a full table stops a planned cycle, and
    what a cycle that gets its slot keeps. */
module ClusterBudget {
  import opened Common
  import opened Policy
  import opened Validator
  import opened Precedence
  import opened Cost
  import opened Coordinator
  import opened Pipeline
  import opened PlanGuarantees
  import opened ReconcileCycle
  import opened WholeChain

  /** The workload's hourly cost with n replicas, each at its share of what is spent now. */
  function HourlyCost(i: Input, n: int): real
    requires i.bundle.Some? && i.workloadCost.Some? && i.bundle.value.currentReplicas >= 1
  {
    i.workloadCost.value.totalCost / i.bundle.value.currentReplicas as real * n as real
  }

  /** Costs are known and there is a cluster limit, n replicas would cost more than is spent now,
      and together with the other workloads more than the limit. */
  predicate NoRoom(cfg: Config, i: Input, n: int) {
    && cfg.costEnabled && cfg.clusterMaxHourly > 0.0
    && i.workloadCost.Some? && i.bundle.Some? && i.bundle.value.currentReplicas >= 1
    && HourlyCost(i, n) > i.workloadCost.value.totalCost
    && i.othersHourly + HourlyCost(i, n) > cfg.clusterMaxHourly
  }

  // ----- the estimate a planned cycle carries -----

  lemma EstimatedTentatively(cfg: Config, spec: Spec, i: Input, s: State, s1: State)
    requires Gathered(s) && IsInt32(cfg.outOfRange)
    requires s1.bundle == s.bundle && s1.costEstimate.None? && s1.workloadCost.None? && s1.decision.Some?
    ensures var r := EstimateCost(cfg, spec, i, s1).s;
            && r.costEstimate == (if cfg.costEnabled && i.workloadCost.Some?
                                  then Estimate(i.workloadCost.value, Current(s), s1.decision.value.targetReplicas)
                                  else None)
            && (cfg.costEnabled ==> r.workloadCost == i.workloadCost)
  {
    hide Estimate, Check, ComputeCostCeiling;
  }

  lemma EstimatedFinally(cfg: Config, spec: Spec, s: State)
    requires s.bundle.Some?
    ensures var r := ResolveDecisionState(cfg, spec, s, true, true);
            r.Continue? && r.s.decision.Some? ==>
              r.s.costEstimate == (if cfg.costEnabled && s.workloadCost.Some? && !NoCandidate(WithSlo(s))
                                   then Estimate(s.workloadCost.value, Current(s), r.s.decision.value.targetReplicas)
                                   else s.costEstimate)
  {
    hide Resolution, BuildPrecedenceInputs, Materialize, NoCandidate, BuildSLODecision, Estimate;
  }

  /** With costs known, what is carried is the estimate of exactly what was decided. */
  lemma DecidedIsEstimated(cfg: Config, spec: Spec, i: Input, s: State)
    requires Gathered(s) && IsInt32(cfg.outOfRange)
    ensures var r := Decide(cfg, spec, i, s);
            r.Continue? && r.s.decision.Some? ==>
              r.s.costEstimate == (if cfg.costEnabled && i.workloadCost.Some?
                                   then Estimate(i.workloadCost.value, Current(s), r.s.decision.value.targetReplicas)
                                   else None)
  {
    hide ResolveDecisionState, EstimateCost, ValidateFor, BuildSLODecision, FinalTarget, Ceiling, Estimate;
    hide BuildPrecedenceInputs, Resolution;
    var r1 := ResolveDecisionState(cfg, spec, s, false, false);
    TentativeTarget(cfg, spec, s);
    EstimatedTentatively(cfg, spec, i, s, r1.s);
    EstimateStage(cfg, spec, i, s, r1.s);
    var s3 := CheckApproval(cfg, i, EstimateCost(cfg, spec, i, r1.s).s).s;
    EstimatedFinally(cfg, spec, s3);
    ResolveStage(cfg, spec, s, false, false);
    ResolveStage(cfg, spec, s3, true, true);
    assert BuildSLODecision(s3) == BuildSLODecision(s) by { SameSlo(s, s3); }
  }

  // ----- who gets a slot -----

  lemma PlanIsEstimated(cfg: Config, spec: Spec, lastScale: Option<Time>, i: Input)
    requires IsInt32(cfg.outOfRange) && Plan(cfg, spec, lastScale, i).Continue?
    ensures var s := Plan(cfg, spec, lastScale, i).s;
            && s.decision.Some? && i.bundle.Some?
            && s.costEstimate == (if cfg.costEnabled && i.workloadCost.Some?
                                  then Estimate(i.workloadCost.value, i.bundle.value.currentReplicas,
                                                s.decision.value.targetReplicas)
                                  else None)
  {
    GatherKeepsBundle(spec, lastScale, i);
    hide Gather, Decide, FinalTarget, Ceiling, ValidateFor, Estimate;
    var g := Gather(spec, lastScale, i).s;
    DecidesFinalTarget(cfg, spec, i, g);
    DecidedIsEstimated(cfg, spec, i, g);
  }

  /** The limit is exceeded exactly if there is no room for what was decided. */
  lemma ExceedsExactly(cfg: Config, spec: Spec, lastScale: Option<Time>, i: Input)
    requires IsInt32(cfg.outOfRange) && Plan(cfg, spec, lastScale, i).Continue?
    ensures var s := Plan(cfg, spec, lastScale, i).s;
            s.decision.Some? && (ExceedsClusterBudget(cfg, i, s) <==> NoRoom(cfg, i, s.decision.value.targetReplicas))
  {
    hide Plan, ExceedsClusterBudget, NoRoom, Estimate;
    PlanIsEstimated(cfg, spec, lastScale, i);
    EstimateDecides(cfg, i, Plan(cfg, spec, lastScale, i).s);
  }

  lemma EstimateDecides(cfg: Config, i: Input, s: State)
    requires i.bundle.Some? && s.decision.Some?
    requires s.costEstimate == (if cfg.costEnabled && i.workloadCost.Some?
                                then Estimate(i.workloadCost.value, i.bundle.value.currentReplicas,
                                              s.decision.value.targetReplicas)
                                else None)
    ensures ExceedsClusterBudget(cfg, i, s) <==> NoRoom(cfg, i, s.decision.value.targetReplicas)
  {
  }

  /** A dependency of this workload, other than itself, is scaling. */
  predicate DependencyScales(spec: Spec, i: Input, table: Table)
    requires i.policies.Some?
  {
    exists w :: w in Unexpired(table, i.checkedAt) && w != CoordinationWorkloadName(spec)
                && DependsOn(GraphOf(i.policies.value), CoordinationWorkloadName(spec), w)
  }

  /** A slot is left, or is the workload's own. */
  predicate SlotLeft(cfg: Config, spec: Spec, i: Input, table: Table) {
    var taken := Unexpired(table, Max(i.checkedAt, i.takenAt));
    CoordinationWorkloadName(spec) in taken || cfg.maxConcurrent <= 0 || |taken| < cfg.maxConcurrent
  }

  /** Nothing is decided about the cluster here but what each of the two critical sections asks. */
  lemma SectionsExactly(cfg: Config, spec: Spec, i: Input, s: State, table: Table)
    requires cfg.coordinated && NeedsLiveCoordination(spec, i, s) && i.policies.Some?
    ensures var (c, after) := CheckCoordination(cfg, spec, i, s, table);
            var free := && !DependencyScales(spec, i, table) && !ExceedsClusterBudget(cfg, i, s)
                        && SlotLeft(cfg, spec, i, table);
            && c == (if free then Continue(s.(slotHeld := true, slotWorkload := CoordinationWorkloadName(spec)))
                     else Stop(s))
            && (free ==> CoordinationWorkloadName(spec) in after && after[CoordinationWorkloadName(spec)] == i.takenAt)
  {
    hide DependsOn, GraphOf, ExceedsClusterBudget, Cleanup, Acquire, CoordinationWorkloadName, NeedsLiveCoordination;
    var name := CoordinationWorkloadName(spec);
    var live := Cleanup(table, i.checkedAt);
    CleanupExactly(table, i.checkedAt);
    AcquireExactly(live, cfg.maxConcurrent, name, i.takenAt);
    assert Unexpired(live, i.takenAt) == Unexpired(table, Max(i.checkedAt, i.takenAt));
  }

  /** Something to coordinate: outside dry run, a count other than the observed one, or a vertical
      change. */
  predicate Moves(spec: Spec, i: Input, validated: int) {
    && !spec.dryRun
    && ((i.bundle.Some? && validated != i.bundle.value.currentReplicas) || (i.verticalDecided && i.verticalMutates))
  }

  /** Coordination lets a planned cycle pass exactly if there is none or nothing to coordinate, or if
      the policies can be listed, no dependency of the workload is scaling, the cluster limit has
      room for what was decided, and a slot is left, which the cycle then holds. */
  lemma PassesExactly(cfg: Config, spec: Spec, lastScale: Option<Time>, i: Input, table: Table)
    requires IsInt32(cfg.outOfRange) && Plan(cfg, spec, lastScale, i).Continue?
    ensures var s := Plan(cfg, spec, lastScale, i).s;
            var (c, after) := CheckCoordination(cfg, spec, i, s, table);
            && s.decision.Some? && s.validation.Some?
            && var asks := cfg.coordinated && Moves(spec, i, s.validation.value.validated);
               && (c.Continue? <==> !asks || (i.policies.Some? && !DependencyScales(spec, i, table)
                                              && !NoRoom(cfg, i, s.decision.value.targetReplicas)
                                              && SlotLeft(cfg, spec, i, table)))
               && (c.Fail? <==> asks && i.policies.None?)
               && (c.s.slotHeld <==> asks && c.Continue?)
  {
    hide Plan, DependencyScales, SlotLeft, ExceedsClusterBudget, NoRoom, AskDependencies, AskSlot;
    Planned(cfg, spec, lastScale, i);
    ExceedsExactly(cfg, spec, lastScale, i);
    var s := Plan(cfg, spec, lastScale, i).s;
    if cfg.coordinated && NeedsLiveCoordination(spec, i, s) && i.policies.Some? {
      SectionsExactly(cfg, spec, i, s, table);
    }
  }

  /** A cycle changes the desired count exactly if it plans another one, outside dry run,
      coordination lets it pass, and neither the Get nor the Patch fails. */
  lemma ChangesExactly(cfg: Config, spec: Spec, w: World, i: Input)
    requires IsInt32(cfg.outOfRange)
    ensures var p := Plan(cfg, spec, w.lastScale, i);
            && (p.Continue? ==> p.s.validation.Some?)
            && (Changes(cfg, spec, w, i)
                <==> && p.Continue? && p.s.validation.value.validated != w.specReplicas && !spec.dryRun
                     && CheckCoordination(cfg, spec, i, p.s, w.table).0.Continue?
                     && !i.getFails && !i.patchFails)
  {
    Planned(cfg, spec, w.lastScale, i);
    var p := Plan(cfg, spec, w.lastScale, i);
    hide Plan, CheckCoordination;
    if p.Continue? {
      CoordinationKeepsPlan(cfg, spec, i, p.s, w.table);
    }
  }

  // ----- what a cycle with a slot keeps -----

  lemma MoreCostsMore(i: Input, m: int, n: int)
    requires i.bundle.Some? && i.workloadCost.Some? && i.bundle.value.currentReplicas >= 1
    ensures HourlyCost(i, i.bundle.value.currentReplicas) == i.workloadCost.value.totalCost
    ensures i.workloadCost.value.totalCost >= 0.0 && m <= n ==> HourlyCost(i, m) <= HourlyCost(i, n)
    ensures i.workloadCost.value.totalCost <= 0.0 && m <= n ==> HourlyCost(i, m) >= HourlyCost(i, n)
  {
    var c := i.bundle.value.currentReplicas as real;
    var price := i.workloadCost.value.totalCost / c;
    assert price * c == i.workloadCost.value.totalCost;
    assert i.workloadCost.value.totalCost >= 0.0 ==> price >= 0.0;
    assert i.workloadCost.value.totalCost <= 0.0 ==> price <= 0.0;
    if m <= n { Slope(price, m as real, n as real); }
  }

  lemma Slope(price: real, m: real, n: real)
    requires m <= n
    ensures price >= 0.0 ==> price * m <= price * n
    ensures price <= 0.0 ==> price * m >= price * n
  {
  }

  /** A count on the way to one there is room for does not raise the cost above the limit either. */
  lemma RoomOnTheWay(cfg: Config, i: Input, v: int, target: int)
    requires i.bundle.Some? && i.bundle.value.currentReplicas >= 1 && !NoRoom(cfg, i, target)
    requires var current := i.bundle.value.currentReplicas;
             || Between(v, current, target)
             || (i.workloadCost.Some? && i.workloadCost.value.totalCost >= 0.0 && (v <= current || v <= target))
    ensures !NoRoom(cfg, i, v)
  {
    if i.workloadCost.Some? {
      hide HourlyCost;
      var current := i.bundle.value.currentReplicas;
      MoreCostsMore(i, v, target);
      MoreCostsMore(i, target, v);
      MoreCostsMore(i, v, current);
      MoreCostsMore(i, current, v);
    }
  }

  lemma PassingIsAsking(cfg: Config, spec: Spec, i: Input, s: State, table: Table)
    requires cfg.coordinated && NeedsLiveCoordination(spec, i, s)
    requires CheckCoordination(cfg, spec, i, s, table).0.Continue?
    ensures i.policies.Some? && !ExceedsClusterBudget(cfg, i, s)
  {
    hide Cleanup, Acquire, Defers, GraphOf, ExceedsClusterBudget;
  }

  /** From inside the bounds the planned count is on the way to the decided one; from outside it is
      at most the decided one if it goes up. */
  lemma PlannedOnTheWay(cfg: Config, spec: Spec, lastScale: Option<Time>, i: Input)
    requires Accepted(spec) && IsInt32(cfg.outOfRange) && Plan(cfg, spec, lastScale, i).Continue?
    requires i.bundle.Some? && 0 <= i.bundle.value.currentReplicas && IsInt32(i.bundle.value.currentReplicas)
    ensures var s := Plan(cfg, spec, lastScale, i).s;
            var current := i.bundle.value.currentReplicas;
            && s.decision.Some? && s.validation.Some?
            && var v, target := s.validation.value.validated, s.decision.value.targetReplicas;
               && (v <= current || v <= target)
               && (InBounds(current, spec.constraints) ==> Between(v, current, target))
  {
    GathersExactly(spec, lastScale, i);
    GatherKeepsBundle(spec, lastScale, i);
    hide Gather, Gathers, Candidates, SomebodyAsks, Decide, FinalTarget, Ceiling, ValidateFor, Accepted, NoCandidate;
    var g := Gather(spec, lastScale, i).s;
    assert i.bundle.Some? && SomebodyAsks(spec, i) by { AsksWhenGathering(spec, lastScale, i); }
    DeciderWins(spec, i, g);
    CycleSafety(cfg, spec, i, g);
    DecidesFinalTarget(cfg, spec, i, g);
    FinalTargetBounded(spec, g, Held(cfg, i), Ceiling(cfg, spec, i, g));
  }

  lemma AsksWhenGathering(spec: Spec, lastScale: Option<Time>, i: Input)
    requires Gathers(spec, lastScale, i)
    ensures i.bundle.Some? && SomebodyAsks(spec, i)
  {
    hide SomebodyAsks, ValidateSpec;
  }

  /** A cycle that coordination lets pass does not raise the hourly cost of all workloads above the
      cluster limit: at the planned count the workload costs no more than now, or all of them
      together stay within the limit. */
  lemma PassingKeepsLimit(cfg: Config, spec: Spec, lastScale: Option<Time>, i: Input, table: Table)
    requires Accepted(spec) && IsInt32(cfg.outOfRange) && cfg.coordinated && !spec.dryRun
    requires i.bundle.Some? && 0 <= i.bundle.value.currentReplicas && IsInt32(i.bundle.value.currentReplicas)
    requires cfg.costEnabled && i.workloadCost.Some? && cfg.clusterMaxHourly > 0.0
    requires InBounds(i.bundle.value.currentReplicas, spec.constraints) || i.workloadCost.value.totalCost >= 0.0
    requires var p := Plan(cfg, spec, lastScale, i);
             p.Continue? && CheckCoordination(cfg, spec, i, p.s, table).0.Continue?
    ensures var s := Plan(cfg, spec, lastScale, i).s;
            && s.validation.Some? && i.bundle.value.currentReplicas >= 1
            && var cost := HourlyCost(i, s.validation.value.validated);
               cost <= i.workloadCost.value.totalCost || i.othersHourly + cost <= cfg.clusterMaxHourly
  {
    hide Plan, ValidateSpec, SomebodyAsks, CheckCoordination, ExceedsClusterBudget, HourlyCost, Accepted, InBounds;
    PlansExactly(cfg, spec, lastScale, i);
    PlannedOnTheWay(cfg, spec, lastScale, i);
    ExceedsExactly(cfg, spec, lastScale, i);
    Planned(cfg, spec, lastScale, i);
    var s := Plan(cfg, spec, lastScale, i).s;
    var v, current := s.validation.value.validated, i.bundle.value.currentReplicas;
    if v == current {
      MoreCostsMore(i, v, v);
    } else {
      PassingIsAsking(cfg, spec, i, s, table);
      RoomOnTheWay(cfg, i, v, s.decision.value.targetReplicas);
    }
  }

  /** No change of the desired count raises the cost above the cluster limit. */
  lemma ChangeKeepsLimit(cfg: Config, spec: Spec, w: World, i: Input)
    requires Accepted(spec) && IsInt32(cfg.outOfRange) && cfg.coordinated && Changes(cfg, spec, w, i)
    requires i.bundle.Some? ==> 0 <= i.bundle.value.currentReplicas && IsInt32(i.bundle.value.currentReplicas)
    requires cfg.costEnabled && i.workloadCost.Some? && cfg.clusterMaxHourly > 0.0
    requires || i.workloadCost.value.totalCost >= 0.0
             || (i.bundle.Some? && InBounds(i.bundle.value.currentReplicas, spec.constraints))
    ensures i.bundle.Some? && i.bundle.value.currentReplicas >= 1
    ensures var cost := HourlyCost(i, Cycle(cfg, spec, w, i).specReplicas);
            cost <= i.workloadCost.value.totalCost || i.othersHourly + cost <= cfg.clusterMaxHourly
  {
    ChangeIsPlanned(cfg, spec, w, i);
    hide Cycle, Plan, CheckCoordination, Changes, Accepted, HourlyCost;
    PassingKeepsLimit(cfg, spec, w.lastScale, i, w.table);
  }
}
