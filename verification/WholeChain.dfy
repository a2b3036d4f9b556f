/** The whole chain from a cycle's inputs: when it plans at all, whose wish it follows, and what
    it decides. Nothing here is said through the steps themselves. */
module WholeChain {
  import opened Common
  import opened Policy
  import opened Validator
  import opened Precedence
  import opened Cost
  import opened Slo
  import opened Pipeline
  import opened PlanGuarantees
  import opened RuleVersusLLM

  /** Where a cycle's wish comes from. */
  datatype Source = FromRollback | FromOscillation | FromBreach | FromRule | FromAnswer | FromUnsure | FromKeda

  predicate KedaAsks(spec: Spec, i: Input)
    requires i.bundle.Some?
  {
    spec.kedaEnabled && i.bundle.value.kedaDesired > 0
  }

  /** The policy lets a fired rule silence the LLM, which is also the default. */
  predicate Overrides(spec: Spec) {
    spec.precedence != None ==> spec.precedence.value.reactiveRulesOverrideLLM
  }

  /** The policy puts breaches first, which is also the default. */
  predicate BreachesLead(spec: Spec) {
    spec.precedence != None ==> spec.precedence.value.sloAlwaysWins
  }

  /** The LLM is consulted and answers. */
  predicate Answered(spec: Spec, i: Input) {
    i.answer.Some? && !(i.reactive.Some? && Overrides(spec))
  }

  predicate SurelyAnswered(spec: Spec, i: Input) {
    Answered(spec, i)
    && (spec.constraints.minConfidence <= 0.0 || i.answer.value.decision.confidence >= spec.constraints.minConfidence)
  }

  /** A breach that the cycle gets to know of. */
  predicate KnownBreach(spec: Spec, i: Input)
    requires i.bundle.Some?
  {
    !(i.reactive.Some? && Overrides(spec)) && AnyBreached(Statuses(spec.slos, i.bundle.value))
  }

  /** Whose wish is followed: safety, breaches that lead, overriding rules, the LLM, other rules, the
      caution after an unsure answer nobody else steps in for, other breaches, and KEDA last. */
  function Decider(spec: Spec, i: Input): Source
    requires i.bundle.Some?
  {
    if i.rollback.Some? then FromRollback
    else if i.oscillating then FromOscillation
    else if KnownBreach(spec, i) && BreachesLead(spec) then FromBreach
    else if SurelyAnswered(spec, i) then FromAnswer
    else if i.reactive.Some? then FromRule
    else if Answered(spec, i) && !KedaAsks(spec, i) then FromUnsure
    else if KnownBreach(spec, i) then FromBreach
    else FromKeda
  }

  /** Somebody asks for something. */
  predicate SomebodyAsks(spec: Spec, i: Input)
    requires i.bundle.Some?
  {
    i.reactive.Some? || i.answer.Some? || KedaAsks(spec, i)
  }

  /** The count wished for. */
  function Wanted(spec: Spec, i: Input): int
    requires i.bundle.Some? && SomebodyAsks(spec, i)
  {
    var current := i.bundle.value.currentReplicas;
    match Decider(spec, i)
    case FromRollback => i.rollback.value.target
    case FromOscillation => current
    case FromBreach =>
      var rule := if i.reactive.Some? then Max(current, i.reactive.value.target) else current;
      var llm := if SurelyAnswered(spec, i) then Max(rule, i.answer.value.decision.targetReplicas) else rule;
      if KedaAsks(spec, i) then Max(llm, i.bundle.value.kedaDesired) else llm
    case FromRule => i.reactive.value.target
    case FromAnswer => i.answer.value.decision.targetReplicas
    case FromUnsure => current
    case FromKeda => i.bundle.value.kedaDesired
  }

  /** How sure the wish is. */
  function Sureness(spec: Spec, i: Input): real
    requires i.bundle.Some? && SomebodyAsks(spec, i)
  {
    if Decider(spec, i) in {FromAnswer, FromUnsure} then i.answer.value.decision.confidence else 1.0
  }

  /** Whom the decision is attributed to. */
  function Attribution(spec: Spec, i: Input): string
    requires i.bundle.Some? && SomebodyAsks(spec, i)
  {
    match Decider(spec, i)
    case FromRollback => "rollback"
    case FromOscillation => "safety"
    case FromBreach => "slo"
    case FromRule => "reactive-rule"
    case FromAnswer => if i.answer.value.provider == "" then "precedence" else i.answer.value.provider
    case FromUnsure => if i.answer.value.provider == "" then "precedence" else i.answer.value.provider
    case FromKeda => "keda"
  }

  /** What else the decision carries: the LLM's own additions if it is followed, KEDA's urgency, or
      nothing. */
  ghost predicate Carries(spec: Spec, i: Input, d: Decision)
    requires i.bundle.Some? && SomebodyAsks(spec, i)
  {
    match Decider(spec, i)
    case FromAnswer =>
      var a := i.answer.value.decision;
      d.urgency == a.urgency && d.reasonCodes == a.reasonCodes && d.verticalChanges == a.verticalChanges
    case FromKeda => d.urgency == "medium" && d.reasonCodes == [] && d.verticalChanges.None?
    case _ => CarriesNothing(d)
  }

  predicate CarriesNothing(d: Decision) {
    d.urgency == "" && d.reasonCodes == [] && d.verticalChanges.None?
  }

  /** Nothing ends the chain before the candidates are compared. */
  predicate Gathers(spec: Spec, lastScale: Option<Time>, i: Input) {
    && !i.deleting && !i.updateFails && ValidateSpec(spec)
    && (lastScale.Some? ==> i.now - lastScale.value >= spec.cooldown)
    && i.bundle.Some? && !i.frozen && SomebodyAsks(spec, i)
  }

  function LayerOf(source: Source): Layer {
    match source
    case FromRollback => SafetyLayer
    case FromOscillation => SafetyLayer
    case FromBreach => SloLayer
    case FromRule => ReactiveLayer
    case FromAnswer => LlmLayer
    case FromUnsure => LlmLayer
    case FromKeda => DeterministicLayer
  }

  // ----- gathering -----

  /** What the candidates are. */
  ghost predicate Candidates(spec: Spec, i: Input, s: State) {
    && i.bundle.Some? && s.bundle == i.bundle && Gathered(s)
    && var current := i.bundle.value.currentReplicas;
       && (i.reactive.Some? <==> s.reactiveDecision.Some?)
       && (i.reactive.Some? ==> s.reactiveDecision.value.targetReplicas == i.reactive.value.target
                                && s.reactiveDecision.value.confidence == 1.0
                                && CarriesNothing(s.reactiveDecision.value))
       && (KedaAsks(spec, i) <==> s.deterministicDecision.Some?)
       && (KedaAsks(spec, i) ==> s.deterministicDecision.value.targetReplicas == i.bundle.value.kedaDesired
                                 && s.deterministicDecision.value.confidence == 1.0
                                 && CarriesNothing(s.deterministicDecision.value.(urgency := ""))
                                 && s.deterministicDecision.value.urgency == "medium")
       && (SurelyAnswered(spec, i) ==> s.llmDecision == Some(i.answer.value.decision))
       && (!SurelyAnswered(spec, i) ==>
             (s.llmDecision.Some? <==> Answered(spec, i) && i.reactive.None? && !KedaAsks(spec, i)))
       && (!SurelyAnswered(spec, i) && s.llmDecision.Some? ==>
             s.llmDecision.value.targetReplicas == current
             && s.llmDecision.value.confidence == i.answer.value.decision.confidence
             && CarriesNothing(s.llmDecision.value))
       && (Answered(spec, i) ==> s.llmProvider == i.answer.value.provider)
       && (AnyBreached(s.currentSLOs) <==> KnownBreach(spec, i))
       && (s.safetyDecision.Some? <==> i.rollback.Some? || i.oscillating)
       && (i.rollback.Some? ==>
             s.safetyDecision.value.targetReplicas == i.rollback.value.target && s.safetySource == "rollback")
       && (i.rollback.None? && i.oscillating ==>
             s.safetyDecision.value.targetReplicas == current && s.safetySource == "safety")
       && (s.safetyDecision.Some? ==>
             s.safetyDecision.value.confidence == 1.0 && CarriesNothing(s.safetyDecision.value))
  }

  lemma FetchesExactly(spec: Spec, i: Input)
    requires i.bundle.Some?
    ensures var r := FetchDecision(spec, i, Fresh.(bundle := i.bundle));
            && (r.Continue? <==> SomebodyAsks(spec, i))
            && (r.Continue? ==> Candidates(spec, i.(oscillating := false, rollback := None), r.s))
  {
    hide Statuses, AnyBreached, Candidates, SomebodyAsks, AskLLM, KedaDecision, ReactiveDecision;
    NoStatusNoBreach();
    var s := Fresh.(bundle := i.bundle, deterministicDecision := KedaDecision(spec, i.bundle.value),
                    reactiveDecision := ReactiveDecision(i, i.bundle.value));
    if i.reactive.Some? && SkipsLLM(spec) {
      SilencedExactly(spec, i, s);
    } else {
      AskedExactly(spec, i, if spec.slos == [] then s else s.(currentSLOs := Statuses(spec.slos, i.bundle.value)));
    }
    assert i.reactive.Some? <==> ReactiveDecision(i, i.bundle.value).Some? by { RuleIsCandidate(i); }
  }

  lemma RuleIsCandidate(i: Input)
    requires i.bundle.Some?
    ensures i.reactive.Some? <==> ReactiveDecision(i, i.bundle.value).Some?
  {
  }

  /** The candidates before the LLM is asked. */
  ghost predicate Unasked(spec: Spec, i: Input, s: State) {
    && i.bundle.Some?
    && s == Fresh.(bundle := i.bundle, deterministicDecision := KedaDecision(spec, i.bundle.value),
                   reactiveDecision := ReactiveDecision(i, i.bundle.value), currentSLOs := s.currentSLOs)
    && (AnyBreached(s.currentSLOs) <==> KnownBreach(spec, i))
  }

  lemma SilencedExactly(spec: Spec, i: Input, s: State)
    requires Unasked(spec, i, s) && i.reactive.Some? && SkipsLLM(spec)
    ensures SomebodyAsks(spec, i) && Candidates(spec, i.(oscillating := false, rollback := None), s)
  {
    hide Statuses, AnyBreached;
  }

  lemma AskedExactly(spec: Spec, i: Input, s: State)
    requires Unasked(spec, i, s) && !(i.reactive.Some? && SkipsLLM(spec))
    ensures var r := AskLLM(spec, i, s);
            && (r.Continue? <==> SomebodyAsks(spec, i))
            && (r.Continue? ==> Candidates(spec, i.(oscillating := false, rollback := None), r.s))
  {
    hide Statuses, AnyBreached;
  }

  lemma HoldsAdded(spec: Spec, i: Input, s: State)
    requires Candidates(spec, i.(oscillating := false, rollback := None), s)
    ensures var o := CheckOscillation(i, s);
            o.Continue? && CheckRollback(i, o.s).Continue? && Candidates(spec, i, CheckRollback(i, o.s).s)
  {
    hide AnyBreached, Statuses;
  }

  /** The candidates are gathered exactly if nothing ends the chain before, and somebody asks. */
  lemma GathersExactly(spec: Spec, lastScale: Option<Time>, i: Input)
    ensures var r := Gather(spec, lastScale, i);
            && (r.Continue? <==> Gathers(spec, lastScale, i))
            && (r.Continue? ==> Candidates(spec, i, r.s))
  {
    hide FetchDecision, CheckOscillation, CheckRollback, Candidates, SomebodyAsks;
    EarlyKeeps(spec, lastScale, i);
    if i.bundle.Some? {
      FetchesExactly(spec, i);
      var f := FetchDecision(spec, i, Fresh.(bundle := i.bundle));
      if f.Continue? {
        HoldsAdded(spec, i, f.s);
      }
    }
  }

  // ----- who decides -----

  lemma DeciderWins(spec: Spec, i: Input, s: State)
    requires Candidates(spec, i, s) && SomebodyAsks(spec, i)
    ensures Wins(LayerOf(Decider(spec, i)), BuildPrecedenceInputs(spec, WithSlo(s), false, false))
    ensures !NoCandidate(WithSlo(s))
  {
    hide AnyBreached, Statuses;
    assert s.currentSLOs == [] ==> !AnyBreached(s.currentSLOs) by { NoStatusNoBreach(); }
  }

  lemma NoStatusNoBreach()
    ensures !AnyBreached([])
  {
  }

  lemma DeciderContributes(spec: Spec, i: Input, s: State)
    requires Candidates(spec, i, s) && SomebodyAsks(spec, i)
    ensures var (d, name) := DecisionForLayer(WithSlo(s), Some(LayerOf(Decider(spec, i))));
            && d.Some? && d.value.targetReplicas == Wanted(spec, i) && d.value.confidence == Sureness(spec, i)
            && (if name == "" then "precedence" else name) == Attribution(spec, i)
            && Carries(spec, i, d.value)
  {
    hide AnyBreached, Statuses;
    assert s.currentSLOs == [] ==> !AnyBreached(s.currentSLOs) by { NoStatusNoBreach(); }
  }

  // ----- what is decided -----

  /** One resolution makes the winning layer's decision its own. */
  lemma StageDecides(cfg: Config, spec: Spec, s: State, includeHuman: bool, includeCost: bool, winner: Layer)
    requires s.bundle.Some? && Wins(winner, BuildPrecedenceInputs(spec, WithSlo(s), includeHuman, includeCost))
    ensures var r := ResolveDecisionState(cfg, spec, s, includeHuman, includeCost);
            var (found, name) := DecisionForLayer(WithSlo(s), Some(winner));
            var capped := && includeCost && s.costCeiling.Some?
                          && found.Some? && found.value.targetReplicas > s.costCeiling.value;
            && found.Some? && r.s.decision.Some?
            && r.s.decision.value
               == found.value.(targetReplicas := r.s.decision.value.targetReplicas,
                               actionType := ActionTypeForTarget(r.s.decision.value.targetReplicas, Current(s)),
                               reasoning := r.s.decision.value.reasoning)
            && r.s.provider == (if capped then "cost-override" else if name == "" then "precedence" else name)
  {
    MaterializeKeepsLayer(spec, WithSlo(s), includeHuman, includeCost, winner);
    assert !NoCandidate(WithSlo(s)) by { WinnerIsCandidate(spec, WithSlo(s), includeHuman, includeCost, winner); }
    hide Materialize, Resolution, DecisionForLayer, NoCandidate, BuildSLODecision, Wins, RequestOf;
  }

  lemma WinnerIsCandidate(spec: Spec, s: State, includeHuman: bool, includeCost: bool, winner: Layer)
    requires s.bundle.Some? && Wins(winner, BuildPrecedenceInputs(spec, s, includeHuman, includeCost))
    ensures !NoCandidate(s)
  {
  }

  /** The second resolution, after cost and approval: the winner's decision, or the hold's. */
  lemma SecondDecides(cfg: Config, spec: Spec, s: State, s3: State, winner: Layer)
    requires Gathered(s) && Wins(winner, BuildPrecedenceInputs(spec, WithSlo(s), false, false))
    requires s3 == s.(sloDecision := s3.sloDecision, decision := s3.decision, provider := s3.provider,
                      precedence := s3.precedence,
                      workloadCost := s3.workloadCost, costEstimate := s3.costEstimate, costCeiling := s3.costCeiling,
                      costReason := s3.costReason, humanDecision := s3.humanDecision)
    ensures var r := ResolveDecisionState(cfg, spec, s3, true, true);
            var held := s3.humanDecision.Some? && s.safetyDecision.None?;
            var (own, name) := DecisionForLayer(WithSlo(s), Some(winner));
            && own.Some? && r.s.decision.Some?
            && var source := if held then s3.humanDecision.value else own.value;
               var capped := s3.costCeiling.Some? && source.targetReplicas > s3.costCeiling.value;
               && r.s.decision.value
                  == source.(targetReplicas := r.s.decision.value.targetReplicas,
                             actionType := ActionTypeForTarget(r.s.decision.value.targetReplicas, Current(s)),
                             reasoning := r.s.decision.value.reasoning)
               && r.s.provider == (if capped then "cost-override" else if held then "approval-hold"
                                   else if name == "" then "precedence" else name)
  {
    hide ResolveDecisionState, Wins, Ordered, Present;
    assert BuildSLODecision(s3) == BuildSLODecision(s);
    hide BuildSLODecision;
    var plain := BuildPrecedenceInputs(spec, WithSlo(s), false, false);
    var inputs := BuildPrecedenceInputs(spec, WithSlo(s3), true, true);
    assert inputs == plain.(human := inputs.human, costMax := inputs.costMax, costReason := inputs.costReason);
    assert RequestOf(winner, plain).Some? by { WinnerAsks(winner, plain); }
    if s3.humanDecision.Some? && s.safetyDecision.None? {
      HoldWins(plain, inputs);
      StageDecides(cfg, spec, s3, true, true, HumanLayer);
    } else {
      StillWins(plain, inputs, winner);
      StageDecides(cfg, spec, s3, true, true, winner);
    }
  }

  lemma WinnerAsks(winner: Layer, i: Inputs)
    requires Wins(winner, i)
    ensures RequestOf(winner, i).Some?
  {
  }

  /** From gathered candidates to the decision: its confidence, its fields and its attribution. */
  lemma DecidedAs(cfg: Config, spec: Spec, i: Input, s: State, winner: Layer)
    requires Gathered(s) && IsInt32(cfg.outOfRange)
    requires Wins(winner, BuildPrecedenceInputs(spec, WithSlo(s), false, false))
    ensures var r := Decide(cfg, spec, i, s);
            var held := Held(cfg, i) && s.safetyDecision.None?;
            var (own, name) := DecisionForLayer(WithSlo(s), Some(winner));
            r.Continue? ==>
              && own.Some? && r.s.decision.Some?
              && var d, c := r.s.decision.value, Ceiling(cfg, spec, i, s);
                 && d.confidence == own.value.confidence
                 && d.actionType == ActionTypeForTarget(d.targetReplicas, Current(s))
                 && (if held then CarriesNothing(d)
                     else d == own.value.(targetReplicas := d.targetReplicas, actionType := d.actionType,
                                          reasoning := d.reasoning))
                 && r.s.provider == (if c.Some? && (if held then Current(s) else own.value.targetReplicas) > c.value
                                     then "cost-override" else if held then "approval-hold"
                                     else if name == "" then "precedence" else name)
  {
    hide ResolveDecisionState, EstimateCost, Wins, ValidateFor, BuildPrecedenceInputs;
    hide DecisionForLayer, BuildSLODecision, FinalTarget, Ceiling;
    var r1 := ResolveDecisionState(cfg, spec, s, false, false);
    StageDecides(cfg, spec, s, false, false, winner);
    TentativeTarget(cfg, spec, s);
    EstimateStage(cfg, spec, i, s, r1.s);
    var s2 := EstimateCost(cfg, spec, i, r1.s).s;
    var s3 := CheckApproval(cfg, i, s2).s;
    SecondDecides(cfg, spec, s, s3, winner);
  }

  // ----- the whole chain -----

  /** Once somebody has asked, the chain fails exactly if costs are known and nothing is running. */
  lemma DecidesExactly(cfg: Config, spec: Spec, i: Input, s: State)
    requires Gathered(s) && IsInt32(cfg.outOfRange) && !NoCandidate(WithSlo(s))
    ensures Decide(cfg, spec, i, s).Continue? <==> (cfg.costEnabled && i.workloadCost.Some? ==> Current(s) >= 1)
  {
    if cfg.costEnabled && i.workloadCost.Some? && Current(s) <= 0 {
      NothingRunning(cfg, spec, i, s);
    } else {
      DecideContinues(cfg, spec, i, s);
    }
  }

  lemma NothingRunning(cfg: Config, spec: Spec, i: Input, s: State)
    requires Gathered(s) && IsInt32(cfg.outOfRange) && !NoCandidate(WithSlo(s))
    requires cfg.costEnabled && i.workloadCost.Some? && Current(s) <= 0
    ensures !Decide(cfg, spec, i, s).Continue?
  {
    hide ResolveDecisionState, EstimateCost, ValidateFor, BuildSLODecision, FinalTarget, Ceiling;
    TentativeTarget(cfg, spec, s);
    var s1 := ResolveDecisionState(cfg, spec, s, false, false).s;
    EstimateStage(cfg, spec, i, s, s1);
    var s3 := CheckApproval(cfg, i, EstimateCost(cfg, spec, i, s1).s).s;
    assert BuildSLODecision(s3) == BuildSLODecision(s) by { SameSlo(s, s3); }
    ResolveStage(cfg, spec, s3, true, true);
  }

  lemma SameSlo(s: State, t: State)
    requires s.bundle.Some? && t.bundle == s.bundle && t.currentSLOs == s.currentSLOs
    requires t.reactiveDecision == s.reactiveDecision && t.llmDecision == s.llmDecision
    requires t.deterministicDecision == s.deterministicDecision
    ensures BuildSLODecision(t) == BuildSLODecision(s)
  {
  }

  /** A cycle plans a count exactly if nothing ends the chain before the candidates are compared,
      somebody asks, and something is running if costs are known. */
  lemma PlansExactly(cfg: Config, spec: Spec, lastScale: Option<Time>, i: Input)
    requires IsInt32(cfg.outOfRange)
    ensures Plan(cfg, spec, lastScale, i).Continue?
            <==> Gathers(spec, lastScale, i)
                 && (cfg.costEnabled && i.workloadCost.Some? ==> i.bundle.value.currentReplicas >= 1)
  {
    GathersExactly(spec, lastScale, i);
    GatherKeepsBundle(spec, lastScale, i);
    hide Gather, Decide, SomebodyAsks;
    var g := Gather(spec, lastScale, i);
    if g.Continue? {
      DeciderWins(spec, i, g.s);
      DecidesExactly(cfg, spec, i, g.s);
    }
  }

  /** A policy to act on, past its cooldown. */
  predicate Due(spec: Spec, lastScale: Option<Time>, i: Input) {
    !i.deleting && ValidateSpec(spec) && (lastScale.Some? ==> i.now - lastScale.value >= spec.cooldown)
  }

  /** A cycle ends in an error exactly if the policy's own update fails, or it is due and nothing can
      be observed, nobody asks for anything, or costs are known and nothing is running. Every other
      cycle that plans nothing just stops. */
  lemma FailsExactly(cfg: Config, spec: Spec, lastScale: Option<Time>, i: Input)
    requires IsInt32(cfg.outOfRange)
    ensures Plan(cfg, spec, lastScale, i).Fail?
            <==> i.updateFails
                 || (Due(spec, lastScale, i)
                     && (i.bundle.None?
                         || (!i.frozen && !SomebodyAsks(spec, i))
                         || (!i.frozen && cfg.costEnabled && i.workloadCost.Some?
                             && i.bundle.value.currentReplicas <= 0)))
  {
    PlansExactly(cfg, spec, lastScale, i);
    GatherFails(spec, lastScale, i);
    GathersExactly(spec, lastScale, i);
    GatherKeepsBundle(spec, lastScale, i);
    hide Gather, Decide, SomebodyAsks, Candidates;
    var g := Gather(spec, lastScale, i);
    if g.Continue? {
      DecideOnlyFails(cfg, spec, i, g.s);
    }
  }

  lemma GatherFails(spec: Spec, lastScale: Option<Time>, i: Input)
    ensures Gather(spec, lastScale, i).Fail?
            <==> i.updateFails
                 || (Due(spec, lastScale, i) && (i.bundle.None? || (!i.frozen && !SomebodyAsks(spec, i))))
  {
    hide FetchDecision, CheckOscillation, CheckRollback, Candidates, SomebodyAsks;
    EarlyKeeps(spec, lastScale, i);
    if i.bundle.Some? {
      FetchesExactly(spec, i);
      FetchOnlyFails(spec, i, Fresh.(bundle := i.bundle));
      var f := FetchDecision(spec, i, Fresh.(bundle := i.bundle));
      if f.Continue? {
        HoldsAdded(spec, i, f.s);
      }
    }
  }

  lemma FetchOnlyFails(spec: Spec, i: Input, s: State)
    requires s.bundle.Some?
    ensures !FetchDecision(spec, i, s).Stop?
  {
    hide Statuses;
  }

  lemma DecideOnlyFails(cfg: Config, spec: Spec, i: Input, s: State)
    requires Gathered(s) && IsInt32(cfg.outOfRange)
    ensures !Decide(cfg, spec, i, s).Stop?
  {
    hide ResolveDecisionState, EstimateCost, ValidateFor, BuildSLODecision, FinalTarget, Ceiling;
    TentativeTarget(cfg, spec, s);
    var s1 := ResolveDecisionState(cfg, spec, s, false, false).s;
    EstimateStage(cfg, spec, i, s, s1);
    ResolveStage(cfg, spec, CheckApproval(cfg, i, EstimateCost(cfg, spec, i, s1).s).s, true, true);
  }

  /** Approval does not hold back a safety decision. */
  predicate HeldBack(cfg: Config, i: Input) {
    cfg.approvalEnabled && i.needsApproval && i.rollback.None? && !i.oscillating
  }

  /** What a cycle decides, from its inputs alone. The tentative count is the wish within the
      bounds; a hold puts the current count in its place; a hard budget that refuses the tentative
      count caps what is left at what the price allows. The decision is as sure as the wish,
      attributed to whoever it came from, to the hold or to the cap, and carries what its source
      added to it. */
  lemma CycleDecides(cfg: Config, spec: Spec, lastScale: Option<Time>, i: Input)
    requires Accepted(spec) && IsInt32(cfg.outOfRange) && Gathers(spec, lastScale, i)
    requires InBounds(i.bundle.value.currentReplicas, spec.constraints)
    ensures var p := Plan(cfg, spec, lastScale, i);
            var current := i.bundle.value.currentReplicas;
            var tentative := ClampToBounds(Wanted(spec, i), spec.constraints);
            var asked := if HeldBack(cfg, i) then current else tentative;
            var raw := if HeldBack(cfg, i) then current else Wanted(spec, i);
            var refused := BudgetRefuses(cfg, spec, i, current, tentative);
            var price := PriceCeiling(cfg, spec, i, current);
            && p.Continue? && p.s.decision.Some? && (refused ==> price.Some?)
            && var d := p.s.decision.value;
               && d.targetReplicas == (if refused then Min(asked, price.value) else asked)
               && d.confidence == Sureness(spec, i)
               && d.actionType == ActionTypeForTarget(d.targetReplicas, current)
               && p.s.validation == Some(ValidateFor(d, current, spec))
               && p.s.provider == (if refused && raw > price.value then "cost-override"
                                   else if HeldBack(cfg, i) then "approval-hold" else Attribution(spec, i))
               && (if HeldBack(cfg, i) then CarriesNothing(d) else Carries(spec, i, d))
  {
    hide Gather, Decide, Candidates, Gathers, SomebodyAsks, Decider, Wanted, Sureness, Attribution;
    hide Wish, NoCandidate, WithSlo, BuildPrecedenceInputs, Wins, DecisionForLayer, Ceiling, ValidateFor;
    hide ComputeCostCeiling, Estimate, BudgetAllows;
    PlansExactly(cfg, spec, lastScale, i);
    GathersExactly(spec, lastScale, i);
    GatherKeepsBundle(spec, lastScale, i);
    var g := Gather(spec, lastScale, i).s;
    FromCandidates(spec, lastScale, i, g);
    DecidesFinalTarget(cfg, spec, i, g);
    DecidedAs(cfg, spec, i, g, LayerOf(Decider(spec, i)));
    CeilingExists(cfg, spec, i, g, 0);
    var current, tentative := Current(g), ClampToBounds(Wanted(spec, i), spec.constraints);
    if BudgetRefuses(cfg, spec, i, current, tentative) {
      CeilingMeaning(cfg, spec, i, g);
      RefusedMeansCeiling(spec.cost.value, i.workloadCost.value, current, tentative,
                          spec.constraints.minReplicas, cfg.outOfRange, 0);
      PriceOnly(spec.cost, i.workloadCost.value, current, tentative, current, spec.constraints.minReplicas,
                cfg.outOfRange);
    }
  }

  lemma FromCandidates(spec: Spec, lastScale: Option<Time>, i: Input, s: State)
    requires Gathers(spec, lastScale, i) && Candidates(spec, i, s)
    ensures Gathered(s) && s.bundle == i.bundle && i.bundle.Some? && SomebodyAsks(spec, i) && !NoCandidate(WithSlo(s))
    ensures Wins(LayerOf(Decider(spec, i)), BuildPrecedenceInputs(spec, WithSlo(s), false, false))
    ensures Wish(spec, s) == Wanted(spec, i) && (s.safetyDecision.Some? <==> i.rollback.Some? || i.oscillating)
    ensures var (d, name) := DecisionForLayer(WithSlo(s), Some(LayerOf(Decider(spec, i))));
            && d.Some? && d.value.targetReplicas == Wanted(spec, i) && d.value.confidence == Sureness(spec, i)
            && (if name == "" then "precedence" else name) == Attribution(spec, i)
            && Carries(spec, i, d.value)
  {
    DeciderWins(spec, i, s);
    DeciderContributes(spec, i, s);
    hide Decider, Wanted, Sureness, Attribution, Wins, Statuses, AnyBreached, Ordered, Present, KnownBreach;
    WishOfWinner(spec, s, LayerOf(Decider(spec, i)));
  }

  lemma WishOfWinner(spec: Spec, s: State, winner: Layer)
    requires s.bundle.Some? && Wins(winner, BuildPrecedenceInputs(spec, WithSlo(s), false, false))
    ensures var d := DecisionForLayer(WithSlo(s), Some(winner)).0;
            d.Some? && Wish(spec, s) == d.value.targetReplicas
  {
    hide Ordered, Present;
    WinnerIsFirst(BuildPrecedenceInputs(spec, WithSlo(s), false, false), winner);
  }

  /** A decision that the policy's gate for its direction does not let through leaves the count
      where it is, whatever it asks for; only a gate can do that to a wish within the bounds. */
  lemma UnsureMovesNothing(cfg: Config, spec: Spec, lastScale: Option<Time>, i: Input)
    requires Accepted(spec) && IsInt32(cfg.outOfRange) && Gathers(spec, lastScale, i) && spec.safety.Some?
    requires spec.safety.value.scaleUp.Some? || spec.safety.value.scaleDown.Some?
    requires InBounds(i.bundle.value.currentReplicas, spec.constraints)
    ensures var p := Plan(cfg, spec, lastScale, i);
            var current := i.bundle.value.currentReplicas;
            && p.Continue? && p.s.decision.Some? && p.s.validation.Some?
            && var t := p.s.decision.value.targetReplicas;
               p.s.validation.value.validated != current
               <==> || (t > current && !GateShut(spec.safety.value.scaleUp, Sureness(spec, i)))
                    || (t < current && !GateShut(spec.safety.value.scaleDown, Sureness(spec, i)))
  {
    hide Plan, ValidateSpec, SomebodyAsks, Wanted, Sureness, Attribution, Decider, ValidateFor, ValidateAsymmetric;
    hide BudgetRefuses, PriceCeiling;
    CycleDecides(cfg, spec, lastScale, i);
    var p := Plan(cfg, spec, lastScale, i);
    WhichValidator(p.s.decision.value, i.bundle.value.currentReplicas, spec);
    DecidedInBounds(cfg, spec, lastScale, i);
    AsymmetricExactly(p.s.decision.value, i.bundle.value.currentReplicas, spec.constraints, spec.safety.value);
  }

  lemma DecidedInBounds(cfg: Config, spec: Spec, lastScale: Option<Time>, i: Input)
    requires Accepted(spec) && IsInt32(cfg.outOfRange) && Gathers(spec, lastScale, i)
    requires InBounds(i.bundle.value.currentReplicas, spec.constraints)
    ensures var p := Plan(cfg, spec, lastScale, i);
            p.Continue? ==> p.s.decision.Some? && InBounds(p.s.decision.value.targetReplicas, spec.constraints)
  {
    GatherKeepsBundle(spec, lastScale, i);
    hide Gather, Decide, FinalTarget, Ceiling, Held;
    var g := Gather(spec, lastScale, i);
    if g.Continue? {
      DecidesFinalTarget(cfg, spec, i, g.s);
      FinalTargetBounded(spec, g.s, Held(cfg, i), Ceiling(cfg, spec, i, g.s));
    }
  }
}
