/** What one cycle guarantees about the count it plans, whatever the candidates, the LLM and
    the cost data say. */
module PlanGuarantees {
  import opened Common
  import opened Policy
  import opened Validator
  import opened Precedence
  import opened Cost
  import opened Slo
  import opened Pipeline

  /** A policy that both the API server's schema and the operator let through. */
  ghost predicate Accepted(spec: Spec) {
    && SchemaValid(spec.constraints) && ValidateConstraints(spec.constraints)
    && (spec.safety.Some? && spec.safety.value.scaleUp.Some? ==> IsInt32(spec.safety.value.scaleUp.value.maxStep))
    && (spec.safety.Some? && spec.safety.value.scaleDown.Some? ==> IsInt32(spec.safety.value.scaleDown.value.maxStep))
  }

  function Current(s: State): int
    requires s.bundle.Some?
  {
    s.bundle.value.currentReplicas
  }

  /** The observed count is one a workload can have. */
  ghost predicate Observed(s: State) {
    s.bundle.Some? && 0 <= Current(s) && IsInt32(Current(s))
  }

  // ----- the decided target in closed form -----

  function WithSlo(s: State): State
    requires s.bundle.Some?
  {
    s.(sloDecision := BuildSLODecision(s))
  }

  /** What the first layer asked asks for. */
  function Winner(i: Inputs): int {
    BaseTarget(Present(Ordered(i)))
  }

  /** What the first candidate layer wants, before approval, cost and bounds. */
  function Wish(spec: Spec, s: State): int
    requires s.bundle.Some?
  {
    Winner(BuildPrecedenceInputs(spec, WithSlo(s), false, false))
  }

  predicate Held(cfg: Config, i: Input) {
    cfg.approvalEnabled && i.needsApproval
  }

  function Capped(target: int, ceiling: Option<int>): int {
    if ceiling.Some? then Min(target, ceiling.value) else target
  }

  /** The decided target: a hold outranks everything but safety, the ceiling caps everybody,
      the bounds come last; with nothing to go on the current count is left alone. */
  function FinalTarget(spec: Spec, s: State, held: bool, ceiling: Option<int>): int
    requires s.bundle.Some?
  {
    if NoCandidate(WithSlo(s)) && !held then Current(s)
    else BoundTo(Capped(if held && s.safetyDecision.None? then Current(s) else Wish(spec, s), ceiling),
                 spec.constraints.minReplicas, spec.constraints.maxReplicas)
  }

  /** The ceiling that a budget check of the tentative target leaves behind. */
  function Ceiling(cfg: Config, spec: Spec, i: Input, s: State): Option<int>
    requires s.bundle.Some? && IsInt32(cfg.outOfRange)
  {
    if !cfg.costEnabled || i.workloadCost.None? || !cfg.budgetEnabled || spec.cost.None? then None
    else
      var e := Estimate(i.workloadCost.value, Current(s), FinalTarget(spec, s, false, None));
      if e.None? || Check(spec.cost.value.maxHourly, spec.cost.value.maxMonthly, spec.cost.value.enforcement,
                          e.value).allowed then None
      else
        var c := ComputeCostCeiling(spec.cost, e.value, spec.constraints.minReplicas, cfg.outOfRange);
        if c.Some? then c else Some(Current(s))
  }

  /** A hold wins unless safety has asked for something. */
  lemma HoldOutranked(i: Inputs, hold: Request)
    requires i.human.None?
    ensures Winner(i.(human := Some(hold))) == if i.safety.Some? then Winner(i) else hold.target
  {
    hide Ordered, Present;
    var held := i.(human := Some(hold));
    if i.safety.Some? {
      WinnerIsFirst(i, SafetyLayer);
      WinnerIsFirst(held, SafetyLayer);
    } else {
      WinnerIsFirst(held, HumanLayer);
    }
  }

  /** Cost inputs do not change who wins. */
  lemma CostKeepsWinner(i: Inputs, costMax: Option<int>, reason: string)
    ensures Winner(i.(costMax := costMax, costReason := reason)) == Winner(i)
    ensures Resolution(i.(costMax := costMax, costReason := reason)).targetReplicas
            == BoundTo(Capped(Winner(i), costMax), i.minReplicas, i.maxReplicas)
  {
    assert Ordered(i.(costMax := costMax, costReason := reason)) == Ordered(i);
  }

  /** One resolution: it decides this target and touches nothing that later steps read. */
  lemma ResolveStage(cfg: Config, spec: Spec, s: State, includeHuman: bool, includeCost: bool)
    requires s.bundle.Some?
    ensures var r := ResolveDecisionState(cfg, spec, s, includeHuman, includeCost);
            && r.s.decision.Some?
            && r.s == s.(sloDecision := BuildSLODecision(s), decision := r.s.decision, provider := r.s.provider,
                         precedence := r.s.precedence, costEstimate := r.s.costEstimate)
            && r.s.decision.value.targetReplicas
               == (if NoCandidate(WithSlo(s)) then Current(s)
                   else Resolution(BuildPrecedenceInputs(spec, WithSlo(s), includeHuman, includeCost)).targetReplicas)
            && (!r.Continue? ==> r.Fail?)
            && (!includeCost ==> r.Continue? && r.s.costEstimate == s.costEstimate)
            && (r.Continue? && includeCost && cfg.costEnabled && s.workloadCost.Some? && Current(s) <= 0 ==>
                  NoCandidate(WithSlo(s)))
  {
    hide Resolution, BuildPrecedenceInputs, BaseLayer, CostApplied, LayerReason;
    hide DecisionForLayer, NoCandidate, BuildSLODecision;
  }

  /** Every successful cycle decides exactly FinalTarget, under exactly Ceiling. */
  lemma DecidesFinalTarget(cfg: Config, spec: Spec, i: Input, s: State)
    requires Gathered(s) && IsInt32(cfg.outOfRange)
    ensures var r := Decide(cfg, spec, i, s);
            r.Continue? ==>
              && r.s.bundle == s.bundle && r.s.decision.Some?
              && r.s.validation == Some(ValidateFor(r.s.decision.value, Current(s), spec))
              && r.s.costCeiling == Ceiling(cfg, spec, i, s)
              && r.s.decision.value.targetReplicas == FinalTarget(spec, s, Held(cfg, i), Ceiling(cfg, spec, i, s))
              && (cfg.costEnabled && i.workloadCost.Some? && Current(s) <= 0 ==>
                    r.s.decision.value.targetReplicas == Current(s))
  {
    hide ResolveDecisionState, EstimateCost, FinalTarget, Ceiling, ValidateFor, BuildSLODecision;
    var r1 := ResolveDecisionState(cfg, spec, s, false, false);
    TentativeTarget(cfg, spec, s);
    EstimateStage(cfg, spec, i, s, r1.s);
    var s2 := EstimateCost(cfg, spec, i, r1.s).s;
    var s3 := CheckApproval(cfg, i, s2).s;
    assert s3 == s2.(humanDecision := s3.humanDecision);
    FinalStage(cfg, spec, s, s3, Held(cfg, i));
  }

  lemma TentativeTarget(cfg: Config, spec: Spec, s: State)
    requires Gathered(s)
    ensures var r := ResolveDecisionState(cfg, spec, s, false, false);
            && r.Continue?
            && r.s == s.(sloDecision := BuildSLODecision(s), decision := r.s.decision, provider := r.s.provider,
                         precedence := r.s.precedence)
            && r.s.decision.Some? && r.s.decision.value.targetReplicas == FinalTarget(spec, s, false, None)
  {
    ResolveStage(cfg, spec, s, false, false);
    var inputs := BuildPrecedenceInputs(spec, WithSlo(s), false, false);
    CostKeepsWinner(inputs, None, "");
    assert inputs == inputs.(costMax := None, costReason := "");
    hide ResolveDecisionState, Resolution, Ordered, NoCandidate, BuildSLODecision;
  }

  lemma EstimateStage(cfg: Config, spec: Spec, i: Input, s: State, s1: State)
    requires Gathered(s) && IsInt32(cfg.outOfRange)
    requires s1.bundle == s.bundle && s1.costCeiling.None? && s1.decision.Some?
    requires s1.decision.value.targetReplicas == FinalTarget(spec, s, false, None)
    ensures var r := EstimateCost(cfg, spec, i, s1);
            && r.Continue? && r.s.costCeiling == Ceiling(cfg, spec, i, s)
            && (cfg.costEnabled && i.workloadCost.Some? ==> r.s.workloadCost == i.workloadCost)
            && r.s == s1.(workloadCost := r.s.workloadCost, costEstimate := r.s.costEstimate,
                          costCeiling := r.s.costCeiling, costReason := r.s.costReason)
  {
    hide FinalTarget, Estimate, Check, ComputeCostCeiling;
  }

  lemma FinalStage(cfg: Config, spec: Spec, s: State, s3: State, held: bool)
    requires Gathered(s)
    requires s3 == s.(sloDecision := s3.sloDecision, decision := s3.decision, provider := s3.provider,
                      precedence := s3.precedence,
                      workloadCost := s3.workloadCost, costEstimate := s3.costEstimate, costCeiling := s3.costCeiling,
                      costReason := s3.costReason, humanDecision := s3.humanDecision)
    requires if held then s3.humanDecision.Some? && s3.humanDecision.value.targetReplicas == Current(s)
             else s3.humanDecision.None?
    ensures var r := ResolveDecisionState(cfg, spec, s3, true, true);
            && r.s.decision.Some? && r.s.bundle == s.bundle && r.s.costCeiling == s3.costCeiling
            && r.s.decision.value.targetReplicas == FinalTarget(spec, s, held, s3.costCeiling)
            && (r.Continue? && cfg.costEnabled && s3.workloadCost.Some? && Current(s) <= 0 ==>
                  r.s.decision.value.targetReplicas == Current(s))
  {
    ResolveStage(cfg, spec, s3, true, true);
    assert BuildSLODecision(s3) == BuildSLODecision(s);
    var plain := BuildPrecedenceInputs(spec, WithSlo(s), false, false);
    var human := plain.(human := AsRequest(s3.humanDecision));
    var inputs := BuildPrecedenceInputs(spec, WithSlo(s3), true, true);
    assert inputs == human.(costMax := inputs.costMax, costReason := inputs.costReason);
    CostKeepsWinner(human, inputs.costMax, inputs.costReason);
    if held {
      HoldOutranked(plain, human.human.value);
    } else {
      assert human == plain;
    }
    hide ResolveDecisionState, Resolution, Ordered, BuildSLODecision;
  }

  // ----- bounds, steps, no overshoot -----

  /** Asked to keep the current count, validation only moves it into the bounds. */
  lemma HoldIsClamped(d: Decision, current: int, spec: Spec)
    requires Accepted(spec) && d.targetReplicas == current && IsInt32(current)
    ensures ValidateFor(d, current, spec).validated == ClampToBounds(current, spec.constraints)
  {
  }

  /** The decided target is in the bounds, or it is the current count of a policy with nothing
      to go on; a ceiling of at least Min is never exceeded by anything that moves. */
  lemma FinalTargetBounded(spec: Spec, s: State, held: bool, ceiling: Option<int>)
    requires Accepted(spec) && s.bundle.Some?
    ensures var t := FinalTarget(spec, s, held, ceiling);
            || t == Current(s)
            || (InBounds(t, spec.constraints)
                && (ceiling.Some? && ceiling.value >= spec.constraints.minReplicas ==> t <= ceiling.value))
    ensures InBounds(Current(s), spec.constraints) ==> InBounds(FinalTarget(spec, s, held, ceiling), spec.constraints)
    ensures InBounds(FinalTarget(spec, s, held, ceiling), spec.constraints) || NoCandidate(WithSlo(s))
  {
    hide Wish, NoCandidate, WithSlo;
  }

  /** Validating a decision that FinalTargetBounded describes. */
  lemma ValidatedOutcome(d: Decision, current: int, spec: Spec)
    requires Accepted(spec) && 0 <= current && IsInt32(current)
    requires InBounds(d.targetReplicas, spec.constraints) || d.targetReplicas == current
    ensures SafeMove(ValidateFor(d, current, spec).validated, d.targetReplicas, current, spec)
  {
    hide ValidateFor, ApplicableStep;
    if InBounds(d.targetReplicas, spec.constraints) {
      ValidatedIsBetween(d, current, spec);
    } else {
      HoldIsClamped(d, current, spec);
    }
  }

  /** v is in the bounds and beyond neither current, target nor, upwards, Min; from inside the
      bounds it lies between current and target, at most the applicable step away. */
  ghost predicate SafeMove(v: int, target: int, current: int, spec: Spec) {
    && InBounds(v, spec.constraints)
    && (v > current && v > spec.constraints.minReplicas ==> v <= target)
    && (InBounds(current, spec.constraints) ==>
          && Between(v, current, target)
          && (ApplicableStep(spec, target, current).Some? ==>
                var step := ApplicableStep(spec, target, current).value;
                current - step <= v <= current + step))
  }

  /** Every planned count is in the bounds. From inside them it lies between the current count
      and the decided target and is at most the applicable step away. */
  lemma CycleSafety(cfg: Config, spec: Spec, i: Input, s: State)
    requires Accepted(spec) && Gathered(s) && Observed(s) && IsInt32(cfg.outOfRange)
    ensures var r := Decide(cfg, spec, i, s);
            r.Continue? ==>
              && r.s.decision.Some? && r.s.validation.Some?
              && SafeMove(r.s.validation.value.validated, r.s.decision.value.targetReplicas, Current(s), spec)
  {
    hide Decide, FinalTarget, Ceiling, ValidateFor, SafeMove, Held, Accepted;
    DecidesFinalTarget(cfg, spec, i, s);
    var r := Decide(cfg, spec, i, s);
    if r.Continue? {
      FinalTargetBounded(spec, s, Held(cfg, i), Ceiling(cfg, spec, i, s));
      ValidatedOutcome(r.s.decision.value, Current(s), spec);
    }
  }

  // ----- the hard budget -----

  predicate BudgetAllows(c: CostConstraints, w: WorkloadCost, current: int, n: int)
    requires current >= 1
  {
    Check(c.maxHourly, c.maxMonthly, c.enforcement, Estimate(w, current, n).value).allowed
  }

  /** The operator knows what n replicas would cost, and a hard budget has no room for them. */
  predicate BudgetRefuses(cfg: Config, spec: Spec, i: Input, current: int, n: int) {
    && cfg.costEnabled && cfg.budgetEnabled && i.workloadCost.Some? && spec.cost.Some? && current >= 1
    && !BudgetAllows(spec.cost.value, i.workloadCost.value, current, n)
  }

  /** What the workload already costs is over a hard budget, and fewer replicas are possible. */
  predicate OverBudget(cfg: Config, spec: Spec, i: Input, current: int) {
    current > spec.constraints.minReplicas && BudgetRefuses(cfg, spec, i, current, current)
  }

  /** Each budget divided by the price of a replica is an int32, as the conversions assume. */
  predicate QuotientsFit(spec: Spec, i: Input, current: int) {
    spec.cost.Some? && i.workloadCost.Some? && current >= 1 && i.workloadCost.value.totalCost > 0.0 ==>
      var price := i.workloadCost.value.totalCost / current as real;
      && price > 0.0
      && (spec.cost.value.maxHourly > 0.0 ==> IsInt32((spec.cost.value.maxHourly / price).Floor))
      && (spec.cost.value.maxMonthly > 0.0 ==> IsInt32(((spec.cost.value.maxMonthly / (24.0 * 30.0)) / price).Floor))
  }

  /** If the check allows n replicas, it allows fewer. */
  lemma AllowedDownwards(c: CostConstraints, w: WorkloadCost, current: int, m: int, n: int)
    requires current >= 1 && 0 <= m <= n && BudgetAllows(c, w, current, n)
    ensures BudgetAllows(c, w, current, m)
  {
    hide Estimate, Check;
    CheckMeansAffordable(c, w, current, m);
    CheckMeansAffordable(c, w, current, n);
    var price := w.totalCost / current as real;
    if price >= 0.0 {
      if Affordable(c, price, n) { AffordableDownwards(c, price, m, n); }
    } else {
      FreeIsAffordable(c, price, m);
    }
  }

  lemma FreeIsAffordable(c: CostConstraints, price: real, n: int)
    requires price <= 0.0 && n >= 0
    ensures Affordable(c, price, n)
  {
    assert price * n as real <= 0.0;
  }

  /** When the check refuses the tentative target, the ceiling is a real one: at least Min,
      and the check allows every count above Min up to it. */
  lemma RefusedMeansCeiling(c: CostConstraints, w: WorkloadCost, current: int, tentative: int, minReplicas: int,
                            outOfRange: int, n: int)
    requires current >= 1 && tentative >= 0 && IsInt32(outOfRange) && !BudgetAllows(c, w, current, tentative)
    ensures var ceiling := ComputeCostCeiling(Some(c), Estimate(w, current, tentative).value, minReplicas, outOfRange);
            && ceiling.Some? && ceiling.value >= minReplicas
            && (minReplicas < n <= ceiling.value ==> BudgetAllows(c, w, current, n))
  {
    hide Check, ComputeCostCeiling;
    var e := Estimate(w, current, tentative).value;
    CheckMeansAffordable(c, w, current, tentative);
    CheckMeansAffordable(c, w, current, n);
    if e.perReplica <= 0.0 {
      FreeIsAffordable(c, e.perReplica, tentative);
    } else {
      CeilingAffordable(c, e, minReplicas, outOfRange, n);
    }
  }

  /** What the ceiling leaves affordable of the decided target. */
  lemma DecidedAffordable(cfg: Config, spec: Spec, i: Input, s: State, n: int)
    requires Accepted(spec) && Observed(s) && IsInt32(cfg.outOfRange) && Current(s) >= 1
    requires cfg.costEnabled && cfg.budgetEnabled && i.workloadCost.Some? && spec.cost.Some?
    requires n > Current(s) && n > spec.constraints.minReplicas
    requires n <= FinalTarget(spec, s, Held(cfg, i), Ceiling(cfg, spec, i, s))
    ensures BudgetAllows(spec.cost.value, i.workloadCost.value, Current(s), n)
  {
    hide BudgetAllows, Wish, Held, BuildSLODecision;
    var tentative := FinalTarget(spec, s, false, None);
    var c, w := spec.cost.value, i.workloadCost.value;
    FinalTargetBounded(spec, s, false, None);
    FinalTargetBounded(spec, s, Held(cfg, i), Ceiling(cfg, spec, i, s));
    CeilingMeaning(cfg, spec, i, s);
    if BudgetAllows(c, w, Current(s), tentative) {
      assert n <= tentative;
      AllowedDownwards(c, w, Current(s), n, tentative);
    } else {
      RefusedMeansCeiling(c, w, Current(s), tentative, spec.constraints.minReplicas, cfg.outOfRange, n);
    }
  }

  lemma CeilingMeaning(cfg: Config, spec: Spec, i: Input, s: State)
    requires s.bundle.Some? && Current(s) >= 1 && IsInt32(cfg.outOfRange)
    requires cfg.costEnabled && cfg.budgetEnabled && i.workloadCost.Some? && spec.cost.Some?
    ensures var tentative := FinalTarget(spec, s, false, None);
            var ceiling := ComputeCostCeiling(spec.cost, Estimate(i.workloadCost.value, Current(s), tentative).value,
                                              spec.constraints.minReplicas, cfg.outOfRange);
            Ceiling(cfg, spec, i, s)
            == if BudgetAllows(spec.cost.value, i.workloadCost.value, Current(s), tentative) then None
               else if ceiling.Some? then ceiling else Some(Current(s))
  {
    hide FinalTarget, ComputeCostCeiling, Check;
  }

  /** The hard budget across the whole chain: a cycle that scales up plans the minimum, or a
      count that the budget check allows, by the hour and by the month, whichever validator
      runs and whichever of the layers asked for more. */
  lemma HardBudget(cfg: Config, spec: Spec, i: Input, s: State)
    requires Accepted(spec) && Gathered(s) && Observed(s) && IsInt32(cfg.outOfRange)
    requires cfg.costEnabled && cfg.budgetEnabled && i.workloadCost.Some? && spec.cost.Some?
    ensures var r := Decide(cfg, spec, i, s);
            r.Continue? && r.s.validation.Some? && r.s.validation.value.validated > Current(s) ==>
              || r.s.validation.value.validated == spec.constraints.minReplicas
              || (Current(s) >= 1
                  && BudgetAllows(spec.cost.value, i.workloadCost.value, Current(s), r.s.validation.value.validated))
  {
    hide Decide, FinalTarget, Ceiling, ValidateFor, BudgetAllows, Held, Accepted, ApplicableStep;
    DecidesFinalTarget(cfg, spec, i, s);
    CycleSafety(cfg, spec, i, s);
    var r := Decide(cfg, spec, i, s);
    if r.Continue? {
      var v := r.s.validation.value.validated;
      if Current(s) >= 1 && v > Current(s) && v > spec.constraints.minReplicas {
        DecidedAffordable(cfg, spec, i, s, v);
      }
    }
  }

  // ----- whose decision it becomes -----

  /** The layer whose turn comes first among those that ask for something. */
  ghost predicate Wins(winner: Layer, i: Inputs) {
    RequestOf(winner, i).Some? && forall l: Layer :: RequestOf(l, i).Some? ==> Rank(winner, i) <= Rank(l, i)
  }

  lemma {:induction false} NoCostEntry(layers: seq<AuditEntry>)
    requires forall k :: 0 <= k < |layers| ==> layers[k].layer != CostLayer
    ensures CostApplied(layers) == None
  {
    if layers != [] {
      NoCostEntry(layers[..|layers| - 1]);
    }
  }

  /** The audit trail names the winner, and the cap exactly if it lowered the winner. */
  lemma TrailNamesWinner(i: Inputs, winner: Layer)
    requires Wins(winner, i)
    ensures var layers := Resolution(i).layers;
            && BaseLayer(layers) == Some(winner)
            && CostApplied(layers)
               == (if i.costMax.Some? && RequestOf(winner, i).value.target > i.costMax.value then Some(i.costReason)
                   else None)
  {
    hide Ordered, Present;
    WinnerIsFirst(i, winner);
    PresentRanked(i);
    var p := Present(Ordered(i));
    var layers := Resolution(i).layers;
    assert layers[0] == Entries(p)[0];
    if i.costMax.Some? && RequestOf(winner, i).value.target > i.costMax.value {
      assert layers[|layers| - 1] == AuditEntry(CostLayer, i.costMax.value, i.costReason, true);
    } else {
      assert layers == Entries(p);
      forall k | 0 <= k < |layers| ensures layers[k].layer != CostLayer {
        assert p[k] in p;
      }
      NoCostEntry(layers);
    }
  }

  /** The decision acted on is the winning layer's own: its confidence, urgency, reason codes
      and vertical proposal are kept, only the count, the direction that follows from it and
      the recorded cost reason change; it is attributed to that layer unless the cap applied. */
  lemma MaterializeKeepsLayer(spec: Spec, s: State, includeHuman: bool, includeCost: bool, winner: Layer)
    requires s.bundle.Some? && Wins(winner, BuildPrecedenceInputs(spec, s, includeHuman, includeCost))
    ensures var inputs := BuildPrecedenceInputs(spec, s, includeHuman, includeCost);
            var rd := Resolution(inputs);
            var (d, provider) := Materialize(s, rd);
            var (found, name) := DecisionForLayer(s, Some(winner));
            var capped := inputs.costMax.Some? && RequestOf(winner, inputs).value.target > inputs.costMax.value;
            && found.Some? && found.value.targetReplicas == RequestOf(winner, inputs).value.target
            && d == found.value.(targetReplicas := rd.targetReplicas,
                                 actionType := ActionTypeForTarget(rd.targetReplicas, s.bundle.value.currentReplicas),
                                 reasoning := d.reasoning)
            && d.reasoning == (if !capped || inputs.costReason == "" then found.value.reasoning
                               else if found.value.reasoning == "" then inputs.costReason
                               else found.value.reasoning + "; " + inputs.costReason)
            && provider == (if capped then "cost-override" else if name == "" then "precedence" else name)
  {
    hide Resolution, LayerReason, BaseLayer, CostApplied;
    TrailNamesWinner(BuildPrecedenceInputs(spec, s, includeHuman, includeCost), winner);
    WinnersReason(BuildPrecedenceInputs(spec, s, includeHuman, includeCost), winner);
  }

  lemma WinnersReason(i: Inputs, winner: Layer)
    requires Wins(winner, i)
    ensures LayerReason(Resolution(i).layers, Some(winner)) == RequestOf(winner, i).value.reason
  {
    hide Ordered, Present;
    WinnerIsFirst(i, winner);
    assert Resolution(i).layers[0] == Entries(Present(Ordered(i)))[0];
  }

  /** A resolution whose winner is fully confident decides with full confidence. */
  lemma StageConfidence(cfg: Config, spec: Spec, s: State, includeHuman: bool, includeCost: bool, winner: Layer)
    requires s.bundle.Some? && Wins(winner, BuildPrecedenceInputs(spec, WithSlo(s), includeHuman, includeCost))
    requires DecisionForLayer(WithSlo(s), Some(winner)).0.Some?
             && DecisionForLayer(WithSlo(s), Some(winner)).0.value.confidence == 1.0
    ensures var r := ResolveDecisionState(cfg, spec, s, includeHuman, includeCost);
            r.s.decision.Some? && r.s.decision.value.confidence == 1.0
  {
    MaterializeKeepsLayer(spec, WithSlo(s), includeHuman, includeCost, winner);
    hide Materialize, Resolution, DecisionForLayer, BuildPrecedenceInputs, NoCandidate, BuildSLODecision, Wins;
  }

  lemma HoldWins(plain: Inputs, held: Inputs)
    requires held == plain.(human := held.human, costMax := held.costMax, costReason := held.costReason)
    requires held.human.Some? && held.safety.None?
    ensures Wins(HumanLayer, held)
  {
  }

  lemma StillWins(plain: Inputs, later: Inputs, winner: Layer)
    requires later == plain.(human := later.human, costMax := later.costMax, costReason := later.costReason)
    requires plain.human.None? && Wins(winner, plain) && (later.human.None? || later.safety.Some?)
    ensures Wins(winner, later)
  {
    forall l: Layer | RequestOf(l, later).Some? ensures Rank(winner, later) <= Rank(l, later) {
      if plain.safety.Some? {
        assert RequestOf(SafetyLayer, plain).Some?;
      } else {
        assert RequestOf(l, plain).Some?;
      }
    }
  }

  /** A sure decision stays sure: if the first candidate layer is fully confident, so is the
      decision acted on, held or not. */
  lemma DecidedConfidence(cfg: Config, spec: Spec, i: Input, s: State, winner: Layer)
    requires Gathered(s) && IsInt32(cfg.outOfRange)
    requires Wins(winner, BuildPrecedenceInputs(spec, WithSlo(s), false, false))
    requires DecisionForLayer(WithSlo(s), Some(winner)).0.Some?
             && DecisionForLayer(WithSlo(s), Some(winner)).0.value.confidence == 1.0
    ensures var r := Decide(cfg, spec, i, s);
            r.Continue? ==> r.s.decision.Some? && r.s.decision.value.confidence == 1.0
  {
    hide ResolveDecisionState, EstimateCost, Wins, ValidateFor, BuildPrecedenceInputs;
    hide DecisionForLayer, BuildSLODecision, FinalTarget, Ceiling;
    var r1 := ResolveDecisionState(cfg, spec, s, false, false);
    StageConfidence(cfg, spec, s, false, false, winner);
    TentativeTarget(cfg, spec, s);
    EstimateStage(cfg, spec, i, s, r1.s);
    var s2 := EstimateCost(cfg, spec, i, r1.s).s;
    var s3 := CheckApproval(cfg, i, s2).s;
    LaterConfidence(cfg, spec, s, s3, winner);
  }

  lemma LaterConfidence(cfg: Config, spec: Spec, s: State, s3: State, winner: Layer)
    requires Gathered(s)
    requires Wins(winner, BuildPrecedenceInputs(spec, WithSlo(s), false, false))
    requires DecisionForLayer(WithSlo(s), Some(winner)).0.Some?
             && DecisionForLayer(WithSlo(s), Some(winner)).0.value.confidence == 1.0
    requires s3 == s.(sloDecision := s3.sloDecision, decision := s3.decision, provider := s3.provider,
                      precedence := s3.precedence,
                      workloadCost := s3.workloadCost, costEstimate := s3.costEstimate, costCeiling := s3.costCeiling,
                      costReason := s3.costReason, humanDecision := s3.humanDecision)
    requires s3.humanDecision.Some? ==> s3.humanDecision.value.confidence == 1.0
    ensures var r := ResolveDecisionState(cfg, spec, s3, true, true);
            r.s.decision.Some? && r.s.decision.value.confidence == 1.0
  {
    hide ResolveDecisionState, Wins, Ordered, Present;
    assert BuildSLODecision(s3) == BuildSLODecision(s);
    hide BuildSLODecision;
    var plain := BuildPrecedenceInputs(spec, WithSlo(s), false, false);
    var inputs := BuildPrecedenceInputs(spec, WithSlo(s3), true, true);
    assert inputs == plain.(human := inputs.human, costMax := inputs.costMax, costReason := inputs.costReason);
    if s3.humanDecision.Some? && s.safetyDecision.None? {
      HoldWins(plain, inputs);
      StageConfidence(cfg, spec, s3, true, true, HumanLayer);
    } else {
      StillWins(plain, inputs, winner);
      assert winner != HumanLayer;
      StageConfidence(cfg, spec, s3, true, true, winner);
    }
  }

  // ----- service level objectives -----

  predicate SloFirst(spec: Spec) {
    spec.precedence.None? || spec.precedence.value.sloAlwaysWins
  }

  /** An SLO is known to be breached and safety has nothing to say. */
  ghost predicate SloActive(spec: Spec, s: State) {
    s.bundle.Some? && AnyBreached(s.currentSLOs) && SloFirst(spec) && s.safetyDecision.None?
  }

  /** The count with which each candidate is satisfied. */
  ghost predicate Asks(d: Option<Decision>, n: int) {
    d.Some? && d.value.targetReplicas == n
  }

  /** While an SLO is breached the wish is the largest of the current count and the reactive,
      LLM and KEDA targets. */
  lemma SloWish(spec: Spec, s: State)
    requires SloActive(spec, s)
    ensures Wins(SloLayer, BuildPrecedenceInputs(spec, WithSlo(s), false, false))
    ensures !NoCandidate(WithSlo(s))
    ensures var n := Wish(spec, s);
            && n >= Current(s)
            && (forall m ::
                  Asks(s.reactiveDecision, m) || Asks(s.llmDecision, m) || Asks(s.deterministicDecision, m) ==> m <= n)
            && (n == Current(s) || Asks(s.reactiveDecision, n) || Asks(s.llmDecision, n)
                || Asks(s.deterministicDecision, n))
  {
    hide Ordered, Present;
    var i := BuildPrecedenceInputs(spec, WithSlo(s), false, false);
    assert i.slo.Some? && i.safety.None? && i.human.None? && i.schedule.None?;
    assert Wins(SloLayer, i);
    WinnerIsFirst(i, SloLayer);
  }

  /** A fully confident decision passes the policy's gate for scaling down. */
  predicate DownGateOpen(spec: Spec) {
    spec.safety.Some? && spec.safety.value.scaleDown.Some? ==>
      spec.safety.value.scaleDown.value.requireConfidence <= 1.0
  }

  /** A fully confident decision moves the count down exactly if it asks for less and the gate
      is open. */
  lemma MovesDown(d: Decision, current: int, spec: Spec)
    requires Accepted(spec) && InBounds(current, spec.constraints) && InBounds(d.targetReplicas, spec.constraints)
    requires d.confidence == 1.0
    ensures IsInt32(current)
            && (ValidateFor(d, current, spec).validated < current <==> DownGateOpen(spec) && d.targetReplicas < current)
  {
    NoWrap(d.targetReplicas, current, spec.constraints.maxScaleStep);
    if spec.safety.Some? {
      var dp := DirectionPolicyFor(spec.safety.value, d.targetReplicas, current);
      if dp.Some? && dp.value.maxStep > 0 {
        NoWrap(d.targetReplicas, current, dp.value.maxStep);
      }
    }
  }

  /** There is a ceiling exactly if the check refuses the tentative target; it is at least the
      minimum, and the check allows what lies between. */
  lemma CeilingExists(cfg: Config, spec: Spec, i: Input, s: State, n: int)
    requires s.bundle.Some? && IsInt32(cfg.outOfRange) && Current(s) >= 1 && FinalTarget(spec, s, false, None) >= 0
    ensures var c := Ceiling(cfg, spec, i, s);
            && (c.Some? <==> BudgetRefuses(cfg, spec, i, Current(s), FinalTarget(spec, s, false, None)))
            && (c.Some? ==> c.value >= spec.constraints.minReplicas)
            && (c.Some? && spec.constraints.minReplicas < n <= c.value ==> !BudgetRefuses(cfg, spec, i, Current(s), n))
  {
    hide FinalTarget, BudgetAllows, ComputeCostCeiling;
    if cfg.costEnabled && cfg.budgetEnabled && i.workloadCost.Some? && spec.cost.Some? {
      var tentative := FinalTarget(spec, s, false, None);
      CeilingMeaning(cfg, spec, i, s);
      if !BudgetAllows(spec.cost.value, i.workloadCost.value, Current(s), tentative) {
        RefusedMeansCeiling(spec.cost.value, i.workloadCost.value, Current(s), tentative,
                            spec.constraints.minReplicas, cfg.outOfRange, n);
      }
    }
  }

  /** When nothing overflows, a ceiling below the current count means that the current count is
      itself over the budget. */
  lemma LowCeilingMeansOverBudget(cfg: Config, spec: Spec, i: Input, s: State)
    requires s.bundle.Some? && IsInt32(cfg.outOfRange) && Current(s) >= 1 && FinalTarget(spec, s, false, None) >= 0
    requires QuotientsFit(spec, i, Current(s)) && Current(s) > spec.constraints.minReplicas
    requires Ceiling(cfg, spec, i, s).Some? && Ceiling(cfg, spec, i, s).value < Current(s)
    ensures BudgetRefuses(cfg, spec, i, Current(s), Current(s))
  {
    hide FinalTarget, ComputeCostCeiling, Check, Ceiling;
    var current, tentative := Current(s), FinalTarget(spec, s, false, None);
    CeilingExists(cfg, spec, i, s, current);
    CeilingMeaning(cfg, spec, i, s);
    var c, w := spec.cost.value, i.workloadCost.value;
    var e := Estimate(w, current, tentative).value;
    CheckMeansAffordable(c, w, current, tentative);
    CheckMeansAffordable(c, w, current, current);
    RefusedMeansCeiling(c, w, current, tentative, spec.constraints.minReplicas, cfg.outOfRange, current);
    assert e.perReplica > 0.0 by { RefusedHasPrice(c, w, current, tentative); }
    CeilingIsLargestAffordable(c, e, spec.constraints.minReplicas, cfg.outOfRange, current);
  }

  lemma RefusedHasPrice(c: CostConstraints, w: WorkloadCost, current: int, n: int)
    requires current >= 1 && n >= 0 && !BudgetAllows(c, w, current, n)
    ensures w.totalCost > 0.0 && w.totalCost / current as real > 0.0 && (c.maxHourly > 0.0 || c.maxMonthly > 0.0)
  {
    hide Check;
    CheckMeansAffordable(c, w, current, n);
    var price := w.totalCost / current as real;
    if price <= 0.0 { FreeIsAffordable(c, price, n); }
    assert price * current as real == w.totalCost;
  }

  ghost predicate Cuts(ceiling: Option<int>, current: int) {
    ceiling.Some? && ceiling.value < current
  }

  /** When the ceiling bites, by the tentative target: over budget for a target that is not
      below the current count, refused for one that is. */
  lemma CeilingCuts(cfg: Config, spec: Spec, i: Input, s: State)
    requires Accepted(spec) && s.bundle.Some? && IsInt32(cfg.outOfRange) && InBounds(Current(s), spec.constraints)
    ensures var tentative, current := FinalTarget(spec, s, false, None), Current(s);
            var over := OverBudget(cfg, spec, i, current);
            && (tentative >= current && over ==> Cuts(Ceiling(cfg, spec, i, s), current))
            && (tentative == current || QuotientsFit(spec, i, current) ==>
                  Cuts(Ceiling(cfg, spec, i, s), current) ==> over)
            && (tentative < current ==>
                  (Cuts(Ceiling(cfg, spec, i, s), current) <==> BudgetRefuses(cfg, spec, i, current, tentative)))
  {
    hide FinalTarget, Ceiling, BudgetAllows, QuotientsFit;
    var tentative, current := FinalTarget(spec, s, false, None), Current(s);
    FinalTargetBounded(spec, s, false, None);
    CeilingExists(cfg, spec, i, s, current);
    if cfg.costEnabled && cfg.budgetEnabled && i.workloadCost.Some? && spec.cost.Some? {
      var c, w := spec.cost.value, i.workloadCost.value;
      if BudgetAllows(c, w, current, tentative) && tentative >= current {
        AllowedDownwards(c, w, current, current, tentative);
      }
      if BudgetAllows(c, w, current, current) && tentative < current {
        AllowedDownwards(c, w, current, tentative, current);
      }
    }
    if QuotientsFit(spec, i, current) && Cuts(Ceiling(cfg, spec, i, s), current) {
      LowCeilingMeansOverBudget(cfg, spec, i, s);
    }
  }

  /** A cycle that knows of a breach scales down exactly if the gate is open and the ceiling is
      below the current count. */
  lemma SloMoves(cfg: Config, spec: Spec, i: Input, s: State)
    requires Accepted(spec) && Gathered(s) && Observed(s) && IsInt32(cfg.outOfRange)
    requires InBounds(Current(s), spec.constraints) && SloActive(spec, s)
    ensures var r := Decide(cfg, spec, i, s);
            r.Continue? ==>
              && r.s.validation.Some? && r.s.decision.Some?
              && (r.s.validation.value.validated < Current(s) <==>
                    DownGateOpen(spec) && Cuts(Ceiling(cfg, spec, i, s), Current(s)))
              && (Ceiling(cfg, spec, i, s).None? && !Held(cfg, i) ==>
                    r.s.decision.value.targetReplicas == ClampToBounds(Wish(spec, s), spec.constraints))
  {
    hide Decide, Ceiling, ValidateFor, NoCandidate, Wish, Wins, WithSlo, AnyBreached, BuildPrecedenceInputs;
    hide DecisionForLayer, ApplicableStep, Held, BudgetRefuses, DownGateOpen;
    DecidesFinalTarget(cfg, spec, i, s);
    CycleSafety(cfg, spec, i, s);
    SloWish(spec, s);
    CeilingExists(cfg, spec, i, s, 0);
    SloConfidence(spec, s);
    DecidedConfidence(cfg, spec, i, s, SloLayer);
    var r := Decide(cfg, spec, i, s);
    if r.Continue? {
      MovesDown(r.s.decision.value, Current(s), spec);
    }
  }

  /** SLO protection, exactly: from inside the bounds, a cycle that knows of a breach scales
      down if and only if the gate is open and what the workload already costs is over a hard
      budget, with the minimum still below it. A pending approval makes no difference. Without
      a hold, and if the budget has room for the clamped wish, that wish is the target. */
  lemma SloProtection(cfg: Config, spec: Spec, i: Input, s: State)
    requires Accepted(spec) && Gathered(s) && Observed(s) && IsInt32(cfg.outOfRange)
    requires InBounds(Current(s), spec.constraints) && SloActive(spec, s)
    ensures var r := Decide(cfg, spec, i, s);
            var over := OverBudget(cfg, spec, i, Current(s));
            var wish := ClampToBounds(Wish(spec, s), spec.constraints);
            r.Continue? ==>
              && r.s.validation.Some? && r.s.decision.Some?
              && (DownGateOpen(spec) && over ==> r.s.validation.value.validated < Current(s))
              && (QuotientsFit(spec, i, Current(s)) ==>
                    (r.s.validation.value.validated < Current(s) <==> DownGateOpen(spec) && over))
              && (!BudgetRefuses(cfg, spec, i, Current(s), wish) && !Held(cfg, i) ==>
                    r.s.decision.value.targetReplicas == wish)
  {
    hide Decide, Ceiling, NoCandidate, Wish, WithSlo, AnyBreached, Held, BudgetRefuses, QuotientsFit, DownGateOpen;
    SloWish(spec, s);
    SloMoves(cfg, spec, i, s);
    CeilingCuts(cfg, spec, i, s);
    CeilingExists(cfg, spec, i, s, 0);
  }

  lemma SloConfidence(spec: Spec, s: State)
    requires SloActive(spec, s)
    ensures var d := DecisionForLayer(WithSlo(s), Some(SloLayer)).0;
            d.Some? && d.value.confidence == 1.0
  {
  }

  /** A fired reactive rule whose override is in force ends the search for candidates before
      the SLOs are looked at. */
  predicate SkipsSlos(spec: Spec, i: Input) {
    i.reactive.Some? && SkipsLLM(spec)
  }

  lemma GatheredSlos(spec: Spec, lastScale: Option<Time>, i: Input)
    requires !i.oscillating && i.rollback.None?
    ensures var r := Gather(spec, lastScale, i);
            r.Continue? ==>
              && i.bundle.Some? && r.s.safetyDecision.None?
                 && r.s.reactiveDecision == ReactiveDecision(i, i.bundle.value)
              && (if SkipsSlos(spec, i) then r.s.currentSLOs == [] && r.s.llmDecision.None?
                  else r.s.currentSLOs == Statuses(spec.slos, i.bundle.value))
  {
    hide EnsureFinalizer, KedaDecision, Statuses;
    assert EnsureFinalizer(spec, i, Fresh).Continue? ==>
             EnsureFinalizer(spec, i, Fresh).s == Fresh by { EarlyKeeps(spec, lastScale, i); }
  }

  lemma ReactiveWish(spec: Spec, i: Input, s: State)
    requires Gathered(s) && SkipsSlos(spec, i) && s.currentSLOs == [] && s.safetyDecision.None?
    requires s.reactiveDecision == ReactiveDecision(i, s.bundle.value)
    ensures Wins(ReactiveLayer, BuildPrecedenceInputs(spec, WithSlo(s), false, false))
    ensures !NoCandidate(WithSlo(s)) && Wish(spec, s) == i.reactive.value.target
    ensures var d := DecisionForLayer(WithSlo(s), Some(ReactiveLayer)).0; d.Some? && d.value.confidence == 1.0
  {
    hide Ordered, Present;
    var inputs := BuildPrecedenceInputs(spec, WithSlo(s), false, false);
    assert inputs.reactive.Some? && inputs.slo.None? && inputs.safety.None? && inputs.human.None?
           && inputs.schedule.None?;
    WinnerIsFirst(inputs, ReactiveLayer);
  }

  /** A reactive decision whose clamped target is below the current count scales down exactly
      if it is not held or the budget refuses even that target; any other exactly if the
      current count is over the budget. */
  ghost predicate RuleLowers(cfg: Config, spec: Spec, i: Input, current: int)
    requires i.reactive.Some?
  {
    var t := ClampToBounds(i.reactive.value.target, spec.constraints);
    if t < current then !Held(cfg, i) || BudgetRefuses(cfg, spec, i, current, t) else OverBudget(cfg, spec, i, current)
  }

  lemma ReactiveMoves(cfg: Config, spec: Spec, i: Input, s: State)
    requires Accepted(spec) && Gathered(s) && Observed(s) && IsInt32(cfg.outOfRange)
    requires InBounds(Current(s), spec.constraints)
    requires SkipsSlos(spec, i) && s.currentSLOs == [] && s.safetyDecision.None?
    requires s.reactiveDecision == ReactiveDecision(i, s.bundle.value)
    ensures var r := Decide(cfg, spec, i, s);
            r.Continue? ==>
              && r.s.validation.Some?
              && (DownGateOpen(spec) && RuleLowers(cfg, spec, i, Current(s)) ==>
                    r.s.validation.value.validated < Current(s))
              && (QuotientsFit(spec, i, Current(s)) && r.s.validation.value.validated < Current(s) ==>
                    DownGateOpen(spec) && RuleLowers(cfg, spec, i, Current(s)))
  {
    hide Decide, Ceiling, ValidateFor, NoCandidate, Wish, Wins, WithSlo, BuildPrecedenceInputs, DecisionForLayer;
    hide ApplicableStep, Held, BudgetRefuses, QuotientsFit, DownGateOpen;
    DecidesFinalTarget(cfg, spec, i, s);
    CycleSafety(cfg, spec, i, s);
    ReactiveWish(spec, i, s);
    CeilingCuts(cfg, spec, i, s);
    CeilingExists(cfg, spec, i, s, 0);
    DecidedConfidence(cfg, spec, i, s, ReactiveLayer);
    var r := Decide(cfg, spec, i, s);
    if r.Continue? {
      MovesDown(r.s.decision.value, Current(s), spec);
    }
  }

  /** The same for the whole chain, from what a caller can see beforehand: with an SLO breached
      by what was observed, sloAlwaysWins in force and no safety override, a cycle that starts
      inside the bounds scales down if and only if the policy's gate lets it and either the
      workload is already over a hard budget, or an overriding reactive rule fired that lowers
      the count. Only the direction from a scale-down back to its cause needs the budgets to
      convert without overflow. */
  lemma SloProtectionExact(cfg: Config, spec: Spec, lastScale: Option<Time>, i: Input)
    requires Accepted(spec) && IsInt32(cfg.outOfRange) && SloFirst(spec)
    requires i.bundle.Some? && InBounds(i.bundle.value.currentReplicas, spec.constraints)
    requires AnyBreached(Statuses(spec.slos, i.bundle.value)) && !i.oscillating && i.rollback.None?
    ensures var r := Plan(cfg, spec, lastScale, i);
            var current := i.bundle.value.currentReplicas;
            var cause := if SkipsSlos(spec, i) then RuleLowers(cfg, spec, i, current)
              else OverBudget(cfg, spec, i, current);
            r.Continue? ==>
              && r.s.validation.Some?
              && (DownGateOpen(spec) && cause ==> r.s.validation.value.validated < current)
              && (QuotientsFit(spec, i, current) ==>
                    (r.s.validation.value.validated < current <==> DownGateOpen(spec) && cause))
  {
    hide Gather, Decide, Statuses, AnyBreached, Held, Accepted, DownGateOpen, SkipsSlos, BudgetRefuses, QuotientsFit;
    GatherKeepsBundle(spec, lastScale, i);
    GatheredSlos(spec, lastScale, i);
    var g := Gather(spec, lastScale, i);
    if g.Continue? {
      assert Observed(g.s) by { CurrentFits(spec, i.bundle.value); }
      if SkipsSlos(spec, i) {
        ReactiveMoves(cfg, spec, i, g.s);
      } else {
        SloProtection(cfg, spec, i, g.s);
      }
    }
  }

  lemma CurrentFits(spec: Spec, b: Bundle)
    requires Accepted(spec) && InBounds(b.currentReplicas, spec.constraints)
    ensures 0 <= b.currentReplicas && IsInt32(b.currentReplicas)
  {
  }

  // ----- safety -----

  /** Gathering ends with a rollback if one is recommended, else with an oscillation hold. */
  lemma GatheredSafety(spec: Spec, lastScale: Option<Time>, i: Input)
    ensures var r := Gather(spec, lastScale, i);
            r.Continue? ==>
              && i.bundle.Some?
              && (i.rollback.Some? ==>
                    && r.s.safetyDecision.Some? && r.s.safetyDecision.value.confidence == 1.0
                    && r.s.safetyDecision.value.targetReplicas == i.rollback.value.target)
              && (i.oscillating && i.rollback.None? ==>
                    && r.s.safetyDecision.Some? && r.s.safetyDecision.value.confidence == 1.0
                    && r.s.safetyDecision.value.targetReplicas == i.bundle.value.currentReplicas)
  {
    hide EnsureFinalizer, CheckCooldown, FetchDecision;
    EarlyKeeps(spec, lastScale, i);
    var s2 := CollectSignals(i, Fresh);
    if s2.Continue? {
      FetchKeeps(spec, i, s2.s);
    }
  }

  lemma SafetyWish(spec: Spec, s: State)
    requires s.bundle.Some? && s.safetyDecision.Some?
    ensures Wins(SafetyLayer, BuildPrecedenceInputs(spec, WithSlo(s), false, false))
    ensures !NoCandidate(WithSlo(s)) && Wish(spec, s) == s.safetyDecision.value.targetReplicas
    ensures DecisionForLayer(WithSlo(s), Some(SafetyLayer)).0 == s.safetyDecision
  {
    hide Ordered, Present;
    WinnerIsFirst(BuildPrecedenceInputs(spec, WithSlo(s), false, false), SafetyLayer);
  }

  /** A fully confident safety decision is carried out against every other layer, held or not:
      only the ceiling can lower it, and the gate and step of the policy pace it. */
  lemma SafetyDecides(cfg: Config, spec: Spec, i: Input, s: State)
    requires Accepted(spec) && Gathered(s) && Observed(s) && IsInt32(cfg.outOfRange)
    requires InBounds(Current(s), spec.constraints)
    requires s.safetyDecision.Some? && s.safetyDecision.value.confidence == 1.0
    ensures var r := Decide(cfg, spec, i, s);
            r.Continue? ==>
              && r.s.decision.Some? && r.s.decision.value.confidence == 1.0
              && r.s.validation == Some(ValidateFor(r.s.decision.value, Current(s), spec))
              && r.s.decision.value.targetReplicas
                 == ClampToBounds(Capped(s.safetyDecision.value.targetReplicas, Ceiling(cfg, spec, i, s)),
                                  spec.constraints)
    ensures FinalTarget(spec, s, false, None) == ClampToBounds(s.safetyDecision.value.targetReplicas, spec.constraints)
  {
    hide Decide, Ceiling, ValidateFor, NoCandidate, Wish, Wins, WithSlo, BuildPrecedenceInputs, DecisionForLayer, Held;
    DecidesFinalTarget(cfg, spec, i, s);
    SafetyWish(spec, s);
    DecidedConfidence(cfg, spec, i, s, SafetyLayer);
  }

  /** While the count is oscillating, and no rollback is due, a cycle never scales up, and it
      scales down exactly if the workload is over a hard budget: whatever the SLOs, rules, LLM,
      KEDA and approvals say, the count otherwise stays. */
  lemma OscillationHolds(cfg: Config, spec: Spec, lastScale: Option<Time>, i: Input)
    requires Accepted(spec) && IsInt32(cfg.outOfRange) && i.oscillating && i.rollback.None?
    requires i.bundle.Some? && InBounds(i.bundle.value.currentReplicas, spec.constraints)
    ensures var r := Plan(cfg, spec, lastScale, i);
            var current := i.bundle.value.currentReplicas;
            r.Continue? ==>
              && r.s.validation.Some? && r.s.validation.value.validated <= current
              && (r.s.validation.value.validated < current <==> DownGateOpen(spec) && OverBudget(cfg, spec, i, current))
  {
    hide Gather, Decide, Ceiling, ValidateFor, FinalTarget, BudgetRefuses, DownGateOpen, ApplicableStep;
    GatherKeepsBundle(spec, lastScale, i);
    GatheredSafety(spec, lastScale, i);
    var g := Gather(spec, lastScale, i);
    if g.Continue? {
      SafetyDecides(cfg, spec, i, g.s);
      CycleSafety(cfg, spec, i, g.s);
      CeilingCuts(cfg, spec, i, g.s);
      CeilingExists(cfg, spec, i, g.s, 0);
      var r := Decide(cfg, spec, i, g.s);
      if r.Continue? {
        MovesDown(r.s.decision.value, Current(g.s), spec);
      }
    }
  }

  /** A recommended rollback decides the target even while the count is oscillating, and
      against every other layer: the clamped rollback count, or what a hard budget that refuses
      it leaves of it. */
  lemma RollbackDecides(cfg: Config, spec: Spec, lastScale: Option<Time>, i: Input)
    requires Accepted(spec) && IsInt32(cfg.outOfRange) && i.rollback.Some?
    requires i.bundle.Some? && InBounds(i.bundle.value.currentReplicas, spec.constraints)
    ensures var r := Plan(cfg, spec, lastScale, i);
            var current := i.bundle.value.currentReplicas;
            var wanted := ClampToBounds(i.rollback.value.target, spec.constraints);
            r.Continue? ==>
              && r.s.decision.Some? && r.s.decision.value.confidence == 1.0
              && r.s.validation == Some(ValidateFor(r.s.decision.value, current, spec))
              && (!BudgetRefuses(cfg, spec, i, current, wanted) ==> r.s.decision.value.targetReplicas == wanted)
              && (BudgetRefuses(cfg, spec, i, current, wanted) ==>
                    var e := Estimate(i.workloadCost.value, current, wanted).value;
                    var ceiling := ComputeCostCeiling(spec.cost, e, spec.constraints.minReplicas, cfg.outOfRange);
                    ceiling.Some? && r.s.decision.value.targetReplicas == Min(wanted, ceiling.value))
  {
    hide Gather, Decide, Ceiling, ValidateFor, FinalTarget, ComputeCostCeiling, Estimate, BudgetAllows;
    GatherKeepsBundle(spec, lastScale, i);
    GatheredSafety(spec, lastScale, i);
    var g := Gather(spec, lastScale, i);
    if g.Continue? {
      SafetyDecides(cfg, spec, i, g.s);
      CeilingExists(cfg, spec, i, g.s, 0);
      var wanted := ClampToBounds(i.rollback.value.target, spec.constraints);
      if BudgetRefuses(cfg, spec, i, Current(g.s), wanted) {
        CeilingMeaning(cfg, spec, i, g.s);
        RefusedMeansCeiling(spec.cost.value, i.workloadCost.value, Current(g.s), wanted,
                            spec.constraints.minReplicas, cfg.outOfRange, 0);
      }
    }
  }
}
