/** A fired reactive rule and the LLM: which of them decides, and what the other can still do. */
module RuleVersusLLM {
  import opened Common
  import opened Policy
  import opened Validator
  import opened Precedence
  import opened Cost
  import opened Slo
  import opened Pipeline
  import opened PlanGuarantees

  /** Nothing stops the cycle before its candidates are compared. */
  ghost predicate Unhindered(spec: Spec, lastScale: Option<Time>, i: Input) {
    && !i.deleting && !i.updateFails && ValidateSpec(spec)
    && (lastScale.Some? ==> i.now - lastScale.value >= spec.cooldown)
    && i.bundle.Some? && !i.frozen && !i.oscillating && i.rollback.None?
  }

  lemma GatherUnhindered(spec: Spec, lastScale: Option<Time>, i: Input)
    requires Unhindered(spec, lastScale, i) && (i.reactive.Some? || i.answer.Some?)
    ensures Gather(spec, lastScale, i).Continue?
  {
    hide Statuses, KedaDecision;
  }

  /** Without cost data nothing after gathering can fail. */
  lemma DecideContinues(cfg: Config, spec: Spec, i: Input, s: State)
    requires Gathered(s) && IsInt32(cfg.outOfRange) && (cfg.costEnabled && i.workloadCost.Some? ==> Current(s) >= 1)
    ensures Decide(cfg, spec, i, s).Continue?
  {
    hide ResolveDecisionState, EstimateCost, ValidateFor;
    TentativeTarget(cfg, spec, s);
    var s1 := ResolveDecisionState(cfg, spec, s, false, false).s;
    var s2 := EstimateCost(cfg, spec, i, s1).s;
    var s3 := CheckApproval(cfg, i, s2).s;
    EstimateRemembers(cfg, spec, i, s1);
    ResolveContinues(cfg, spec, s3);
  }

  lemma EstimateRemembers(cfg: Config, spec: Spec, i: Input, s: State)
    requires s.bundle.Some? && s.workloadCost.None? && IsInt32(cfg.outOfRange)
    ensures EstimateCost(cfg, spec, i, s).s.workloadCost.Some? ==> i.workloadCost.Some?
  {
  }

  lemma ResolveContinues(cfg: Config, spec: Spec, s: State)
    requires s.bundle.Some?
    requires cfg.costEnabled && s.workloadCost.Some? ==> Current(s) >= 1
    ensures ResolveDecisionState(cfg, spec, s, true, true).Continue?
  {
    hide Resolution, BuildPrecedenceInputs, Materialize, NoCandidate, BuildSLODecision;
  }

  /** A rule that fires with the override in force is carried out, whatever the LLM, KEDA or the
      SLOs would say: the target is the rule's in the bounds, or the current count if held; if
      a hard budget refuses the rule's target, what the ceiling leaves of it. Its full
      confidence passes every gate up to 1. */
  lemma ReactiveCycle(cfg: Config, spec: Spec, lastScale: Option<Time>, i: Input)
    requires Accepted(spec) && IsInt32(cfg.outOfRange)
    requires Unhindered(spec, lastScale, i) && SkipsSlos(spec, i)
    requires InBounds(i.bundle.value.currentReplicas, spec.constraints)
    ensures var p := Plan(cfg, spec, lastScale, i);
            var current := i.bundle.value.currentReplicas;
            var wanted := ClampToBounds(i.reactive.value.target, spec.constraints);
            var asked := if Held(cfg, i) then current else wanted;
            && p.Continue? && p.s.bundle == i.bundle
            && p.s.decision.Some? && p.s.decision.value.confidence == 1.0
            && p.s.validation == Some(ValidateFor(p.s.decision.value, current, spec))
            && (!BudgetRefuses(cfg, spec, i, current, wanted) ==> p.s.decision.value.targetReplicas == asked)
            && (BudgetRefuses(cfg, spec, i, current, wanted) ==>
                  var e := Estimate(i.workloadCost.value, current, wanted).value;
                  var ceiling := ComputeCostCeiling(spec.cost, e, spec.constraints.minReplicas, cfg.outOfRange);
                  ceiling.Some? && p.s.decision.value.targetReplicas == Min(asked, ceiling.value))
  {
    hide Gather, Decide, Wish, NoCandidate, WithSlo, BuildPrecedenceInputs;
    hide Wins, DecisionForLayer, Ceiling, ValidateFor;
    hide Held, ComputeCostCeiling, Estimate, BudgetAllows;
    GatherUnhindered(spec, lastScale, i);
    GatherKeepsBundle(spec, lastScale, i);
    GatheredSlos(spec, lastScale, i);
    var g := Gather(spec, lastScale, i).s;
    ReactiveWish(spec, i, g);
    DecideContinues(cfg, spec, i, g);
    DecidesFinalTarget(cfg, spec, i, g);
    DecidedConfidence(cfg, spec, i, g, ReactiveLayer);
    CeilingExists(cfg, spec, i, g, 0);
    var wanted := ClampToBounds(i.reactive.value.target, spec.constraints);
    if BudgetRefuses(cfg, spec, i, Current(g), wanted) {
      CeilingMeaning(cfg, spec, i, g);
      RefusedMeansCeiling(spec.cost.value, i.workloadCost.value, Current(g), wanted,
                          spec.constraints.minReplicas, cfg.outOfRange, 0);
    }
  }

  /** With the override in force a fired rule makes the LLM's answer irrelevant to the whole
      plan: the cycle is the same for every answer, and for none. */
  lemma RuleSilencesLLM(cfg: Config, spec: Spec, lastScale: Option<Time>, i: Input, a: Option<LlmAnswer>)
    requires IsInt32(cfg.outOfRange) && SkipsSlos(spec, i)
    ensures Plan(cfg, spec, lastScale, i.(answer := a)) == Plan(cfg, spec, lastScale, i)
  {
    GatherSilent(spec, lastScale, i, a);
    GatherKeepsBundle(spec, lastScale, i);
    hide Gather, ResolveDecisionState, ValidateDecision;
    var g := Gather(spec, lastScale, i);
    if g.Continue? {
      DecideIgnoresAnswer(cfg, spec, i, a, g.s);
    }
  }

  lemma GatherSilent(spec: Spec, lastScale: Option<Time>, i: Input, a: Option<LlmAnswer>)
    requires SkipsSlos(spec, i)
    ensures Gather(spec, lastScale, i.(answer := a)) == Gather(spec, lastScale, i)
  {
    hide KedaDecision, Statuses, AskLLM;
  }

  lemma DecideIgnoresAnswer(cfg: Config, spec: Spec, i: Input, a: Option<LlmAnswer>, s: State)
    requires s.bundle.Some? && IsInt32(cfg.outOfRange)
    ensures Decide(cfg, spec, i.(answer := a), s) == Decide(cfg, spec, i, s)
  {
    hide ResolveDecisionState, EnforceBudget, Estimate, ValidateDecision;
    var r := ResolveDecisionState(cfg, spec, s, false, false);
    if r.Continue? {
      assert EstimateCost(cfg, spec, i.(answer := a), r.s) == EstimateCost(cfg, spec, i, r.s);
    }
  }

  /** Without the override the LLM's request outranks the rule's, so a fired rule can win only
      while the LLM asks for nothing. */
  lemma LLMOutranksRule(spec: Spec, s: State, includeHuman: bool, includeCost: bool)
    requires s.bundle.Some?
    ensures var inputs := BuildPrecedenceInputs(spec, s, includeHuman, includeCost);
            && (Rank(LlmLayer, inputs) < Rank(ReactiveLayer, inputs) <==> !SkipsLLM(spec))
            && (!SkipsLLM(spec) && Wins(ReactiveLayer, inputs) ==> s.llmDecision.None?)
  {
    var inputs := BuildPrecedenceInputs(spec, s, includeHuman, includeCost);
    assert RequestOf(LlmLayer, inputs) == AsRequest(s.llmDecision);
  }

  // ----- what the cycle decides, from its inputs -----

  /** Confident enough for the policy. */
  predicate Sure(spec: Spec, a: LlmAnswer) {
    !(spec.constraints.minConfidence > 0.0 && a.decision.confidence < spec.constraints.minConfidence)
  }

  function SureTarget(spec: Spec, i: Input): Option<int> {
    if i.answer.Some? && Sure(spec, i.answer.value) then Some(i.answer.value.decision.targetReplicas) else None
  }

  function MaxWith(n: int, o: Option<int>): int {
    if o.Some? then Max(n, o.value) else n
  }

  function TargetOf(d: Option<Decision>): Option<int> {
    if d.Some? then Some(d.value.targetReplicas) else None
  }

  /** A breached SLO outranks both the rule and the LLM. */
  predicate BreachFirst(spec: Spec, b: Bundle) {
    SloFirst(spec) && AnyBreached(Statuses(spec.slos, b))
  }

  /** What the layers make of a fired rule and an answer, before approval, cost and bounds. */
  function Asked(spec: Spec, i: Input): int
    requires i.bundle.Some? && i.reactive.Some?
  {
    var b, rule, llm := i.bundle.value, i.reactive.value.target, SureTarget(spec, i);
    if SkipsLLM(spec) then rule
    else if BreachFirst(spec, b)
      then MaxWith(MaxWith(Max(b.currentReplicas, rule), llm), TargetOf(KedaDecision(spec, b)))
    else if llm.Some? then llm.value else rule
  }

  /** The count up to which the price of the current replicas lets a hard budget go. */
  function PriceCeiling(cfg: Config, spec: Spec, i: Input, current: int): Option<int>
    requires IsInt32(cfg.outOfRange) && current >= 1
  {
    if i.workloadCost.None? then None
    else ComputeCostCeiling(spec.cost, Estimate(i.workloadCost.value, current, current).value,
                            spec.constraints.minReplicas, cfg.outOfRange)
  }

  /** What approval and cost make of a tentative target. */
  function Outcome(cfg: Config, spec: Spec, i: Input, current: int, tentative: int): int
    requires IsInt32(cfg.outOfRange) && current >= 1
  {
    var asked := if Held(cfg, i) then current else tentative;
    if BudgetRefuses(cfg, spec, i, current, tentative) then Capped(asked, PriceCeiling(cfg, spec, i, current))
      else asked
  }

  lemma GatheredRule(spec: Spec, lastScale: Option<Time>, i: Input)
    requires !i.oscillating && i.rollback.None? && i.reactive.Some?
    ensures var r := Gather(spec, lastScale, i);
            r.Continue? ==>
              && i.bundle.Some? && r.s.safetyDecision.None?
              && TargetOf(r.s.reactiveDecision) == Some(i.reactive.value.target)
              && r.s.deterministicDecision == KedaDecision(spec, i.bundle.value)
              && TargetOf(r.s.llmDecision) == (if SkipsLLM(spec) then None else SureTarget(spec, i))
  {
    hide EnsureFinalizer, KedaDecision, Statuses;
    EarlyKeeps(spec, lastScale, i);
  }

  lemma RuleWish(spec: Spec, s: State)
    requires Gathered(s) && s.safetyDecision.None? && s.reactiveDecision.Some? && !SkipsLLM(spec)
    requires !(SloFirst(spec) && AnyBreached(s.currentSLOs))
    ensures !NoCandidate(WithSlo(s))
    ensures Wish(spec, s)
            == if s.llmDecision.Some? then s.llmDecision.value.targetReplicas
               else s.reactiveDecision.value.targetReplicas
  {
    hide Ordered, Present;
    var i := BuildPrecedenceInputs(spec, WithSlo(s), false, false);
    assert i.safety.None? && i.human.None? && i.schedule.None? && i.reactive.Some?;
    if s.llmDecision.Some? {
      WinnerIsFirst(i, LlmLayer);
    } else {
      WinnerIsFirst(i, ReactiveLayer);
    }
  }

  lemma WishIsAsked(spec: Spec, lastScale: Option<Time>, i: Input)
    requires !i.oscillating && i.rollback.None? && i.reactive.Some?
    ensures var r := Gather(spec, lastScale, i);
            r.Continue? ==> i.bundle.Some? && r.s.bundle == i.bundle && Gathered(r.s) && r.s.safetyDecision.None?
                            && !NoCandidate(WithSlo(r.s)) && Wish(spec, r.s) == Asked(spec, i)
  {
    GatherKeepsBundle(spec, lastScale, i);
    GatheredSlos(spec, lastScale, i);
    GatheredRule(spec, lastScale, i);
    hide Gather, Wish, NoCandidate, WithSlo, BuildPrecedenceInputs, Wins, KedaDecision, Statuses, AnyBreached;
    var g := Gather(spec, lastScale, i);
    if g.Continue? {
      if SkipsLLM(spec) {
        ReactiveWish(spec, i, g.s);
      } else if BreachFirst(spec, i.bundle.value) {
        SloWish(spec, g.s);
        HighestWish(spec, g.s);
      } else {
        RuleWish(spec, g.s);
      }
    }
  }

  lemma HighestWish(spec: Spec, s: State)
    requires SloActive(spec, s) && s.reactiveDecision.Some?
    ensures Wish(spec, s)
            == MaxWith(MaxWith(Max(Current(s), s.reactiveDecision.value.targetReplicas), TargetOf(s.llmDecision)),
                       TargetOf(s.deterministicDecision))
  {
    SloWish(spec, s);
    hide Wish, BuildPrecedenceInputs, Wins;
    assert Asks(s.reactiveDecision, s.reactiveDecision.value.targetReplicas);
    if s.llmDecision.Some? { assert Asks(s.llmDecision, s.llmDecision.value.targetReplicas); }
    if s.deterministicDecision.Some? { assert Asks(s.deterministicDecision,
                                                   s.deterministicDecision.value.targetReplicas); }
  }

  lemma PriceOnly(cc: Option<CostConstraints>, w: WorkloadCost, current: int, m: int, n: int, minReplicas: int,
                  outOfRange: int)
    requires IsInt32(outOfRange) && current >= 1
    ensures ComputeCostCeiling(cc, Estimate(w, current, m).value, minReplicas, outOfRange)
            == ComputeCostCeiling(cc, Estimate(w, current, n).value, minReplicas, outOfRange)
  {
  }

  /** With a fired rule and nothing in the way, the cycle decides the outcome of what is asked. */
  lemma RuleCycle(cfg: Config, spec: Spec, lastScale: Option<Time>, i: Input)
    requires Accepted(spec) && IsInt32(cfg.outOfRange) && Unhindered(spec, lastScale, i) && i.reactive.Some?
    requires InBounds(i.bundle.value.currentReplicas, spec.constraints)
    ensures var p := Plan(cfg, spec, lastScale, i);
            && p.Continue? && p.s.decision.Some?
            && p.s.decision.value.targetReplicas
               == Outcome(cfg, spec, i, i.bundle.value.currentReplicas, ClampToBounds(Asked(spec, i), spec.constraints))
  {
    hide Gather, Decide, Wish, NoCandidate, WithSlo, Asked, Ceiling, ValidateFor;
    hide Held, ComputeCostCeiling, Estimate, BudgetAllows;
    GatherUnhindered(spec, lastScale, i);
    WishIsAsked(spec, lastScale, i);
    var g := Gather(spec, lastScale, i).s;
    DecideContinues(cfg, spec, i, g);
    DecidesFinalTarget(cfg, spec, i, g);
    CeilingExists(cfg, spec, i, g, 0);
    var current, tentative := Current(g), ClampToBounds(Asked(spec, i), spec.constraints);
    if BudgetRefuses(cfg, spec, i, current, tentative) {
      CeilingMeaning(cfg, spec, i, g);
      RefusedMeansCeiling(spec.cost.value, i.workloadCost.value, current, tentative,
                          spec.constraints.minReplicas, cfg.outOfRange, 0);
      PriceOnly(spec.cost, i.workloadCost.value, current, tentative, current, spec.constraints.minReplicas,
                cfg.outOfRange);
    }
  }

  // ----- the budget line -----

  /** If a hard budget refuses any count, it has a price ceiling of at least the minimum; above
      the minimum it then refuses exactly what lies above that ceiling. */
  lemma RefusalLine(cfg: Config, spec: Spec, i: Input, current: int, m: int, n: int)
    requires IsInt32(cfg.outOfRange) && current >= 1 && m >= 0 && n >= 0 && QuotientsFit(spec, i, current)
    requires BudgetRefuses(cfg, spec, i, current, m)
    ensures var c := PriceCeiling(cfg, spec, i, current);
            && c.Some? && c.value >= spec.constraints.minReplicas
            && (n > spec.constraints.minReplicas ==> (BudgetRefuses(cfg, spec, i, current, n) <==> n > c.value))
  {
    hide Check, ComputeCostCeiling;
    var c, w := spec.cost.value, i.workloadCost.value;
    var e := Estimate(w, current, current).value;
    RefusedHasPrice(c, w, current, m);
    RefusedMeansCeiling(c, w, current, m, spec.constraints.minReplicas, cfg.outOfRange, n);
    PriceOnly(spec.cost, w, current, m, current, spec.constraints.minReplicas, cfg.outOfRange);
    if n > spec.constraints.minReplicas {
      CheckMeansAffordable(c, w, current, m);
      CheckMeansAffordable(c, w, current, n);
      CeilingIsLargestAffordable(c, e, spec.constraints.minReplicas, cfg.outOfRange, n);
    }
  }

  lemma RefusedUpwards(cfg: Config, spec: Spec, i: Input, current: int, m: int, n: int)
    requires 0 <= m <= n && BudgetRefuses(cfg, spec, i, current, m)
    ensures BudgetRefuses(cfg, spec, i, current, n)
  {
    hide BudgetAllows;
    if BudgetAllows(spec.cost.value, i.workloadCost.value, current, n) {
      AllowedDownwards(spec.cost.value, i.workloadCost.value, current, m, n);
    }
  }

  /** Unheld, asking for more never yields less, and asking for the minimum yields it. */
  lemma OutcomeMonotone(cfg: Config, spec: Spec, i: Input, current: int, m: int, n: int)
    requires Accepted(spec) && IsInt32(cfg.outOfRange) && current >= 1 && QuotientsFit(spec, i, current)
    requires InBounds(m, spec.constraints) && InBounds(n, spec.constraints) && m <= n && !Held(cfg, i)
    ensures spec.constraints.minReplicas <= Outcome(cfg, spec, i, current, m) <= Outcome(cfg, spec, i, current, n)
    ensures Outcome(cfg, spec, i, current, spec.constraints.minReplicas) == spec.constraints.minReplicas
  {
    hide BudgetRefuses, PriceCeiling, QuotientsFit, Held;
    var lo := spec.constraints.minReplicas;
    if BudgetRefuses(cfg, spec, i, current, m) {
      RefusedUpwards(cfg, spec, i, current, m, n);
    }
    if BudgetRefuses(cfg, spec, i, current, n) {
      RefusalLine(cfg, spec, i, current, n, m);
    }
    if BudgetRefuses(cfg, spec, i, current, lo) {
      RefusalLine(cfg, spec, i, current, lo, lo);
    }
  }

  /** Held, the count stays unless it is over the budget and the budget refuses what was asked. */
  lemma HeldOutcome(cfg: Config, spec: Spec, i: Input, current: int, m: int)
    requires Accepted(spec) && IsInt32(cfg.outOfRange) && QuotientsFit(spec, i, current)
    requires InBounds(current, spec.constraints) && InBounds(m, spec.constraints) && Held(cfg, i)
    ensures var cut := OverBudget(cfg, spec, i, current) && BudgetRefuses(cfg, spec, i, current, m);
            && (!cut ==> Outcome(cfg, spec, i, current, m) == current)
            && (cut ==> PriceCeiling(cfg, spec, i, current).Some?
                        && Outcome(cfg, spec, i, current, m) == PriceCeiling(cfg, spec, i, current).value < current)
  {
    hide BudgetRefuses, PriceCeiling, QuotientsFit, Held;
    if BudgetRefuses(cfg, spec, i, current, m) {
      RefusalLine(cfg, spec, i, current, m, current);
    }
  }

  // ----- what an answer can change -----

  /** The decided target when the LLM says `a`, or nothing. */
  ghost function TargetWith(cfg: Config, spec: Spec, lastScale: Option<Time>, i: Input, a: Option<LlmAnswer>): int
    requires IsInt32(cfg.outOfRange)
  {
    var d := Plan(cfg, spec, lastScale, i.(answer := a)).s.decision;
    if d.Some? then d.value.targetReplicas else 0
  }

  /** No sure answer lowers the target below what the rule gets without an answer. */
  ghost predicate NeverWeakened(cfg: Config, spec: Spec, lastScale: Option<Time>, i: Input)
    requires IsInt32(cfg.outOfRange)
  {
    forall a: LlmAnswer :: Sure(spec, a) ==>
      TargetWith(cfg, spec, lastScale, i, Some(a)) >= TargetWith(cfg, spec, lastScale, i, None)
  }

  /** No sure answer raises it above. */
  ghost predicate NeverExceeded(cfg: Config, spec: Spec, lastScale: Option<Time>, i: Input)
    requires IsInt32(cfg.outOfRange)
  {
    forall a: LlmAnswer :: Sure(spec, a) ==>
      TargetWith(cfg, spec, lastScale, i, Some(a)) <= TargetWith(cfg, spec, lastScale, i, None)
  }

  /** What is asked with this answer, in the bounds. */
  function Tentative(spec: Spec, i: Input, a: Option<LlmAnswer>): int
    requires i.bundle.Some? && i.reactive.Some?
  {
    ClampToBounds(Asked(spec, i.(answer := a)), spec.constraints)
  }

  /** A cycle in which a rule fired and nothing keeps the layers from being compared. */
  ghost predicate RuleFired(cfg: Config, spec: Spec, lastScale: Option<Time>, i: Input) {
    && Accepted(spec) && IsInt32(cfg.outOfRange) && Unhindered(spec, lastScale, i)
    && i.reactive.Some? && i.bundle.Some?
    && InBounds(i.bundle.value.currentReplicas, spec.constraints)
  }

  lemma TargetIsOutcome(cfg: Config, spec: Spec, lastScale: Option<Time>, i: Input, a: Option<LlmAnswer>)
    requires RuleFired(cfg, spec, lastScale, i)
    ensures InBounds(Tentative(spec, i, a), spec.constraints)
    ensures TargetWith(cfg, spec, lastScale, i, a)
            == Outcome(cfg, spec, i, i.bundle.value.currentReplicas, Tentative(spec, i, a))
  {
    hide Plan, Asked;
    RuleCycle(cfg, spec, lastScale, i.(answer := a));
  }

  /** What a sure answer asks for. */
  lemma AnswerTentative(spec: Spec, i: Input, a: LlmAnswer)
    requires SchemaValid(spec.constraints) && ValidateConstraints(spec.constraints) && Sure(spec, a)
    requires i.bundle.Some? && i.reactive.Some? && InBounds(i.bundle.value.currentReplicas, spec.constraints)
    ensures var t0, t := Tentative(spec, i, None), Tentative(spec, i, Some(a));
            && (SkipsLLM(spec) ==> t == t0)
            && (!SkipsLLM(spec) && BreachFirst(spec, i.bundle.value) ==>
                  t >= t0 >= i.bundle.value.currentReplicas
                  && t >= ClampToBounds(a.decision.targetReplicas, spec.constraints))
            && (!SkipsLLM(spec) && !BreachFirst(spec, i.bundle.value) ==>
                  t == ClampToBounds(a.decision.targetReplicas, spec.constraints))
  {
    hide BreachFirst, SkipsLLM;
  }

  /** A sure answer asking for n. */
  function Answer(spec: Spec, n: int): (a: LlmAnswer)
    ensures Sure(spec, a)
  {
    var confidence := if spec.constraints.minConfidence > 0.0 then spec.constraints.minConfidence else 1.0;
    LlmAnswer(Plain(n, "", confidence, NoChange), "")
  }

  /** Approval and budget, once the cycle is held: the count is cut exactly when it is over the
      budget and the budget refuses what was asked. */
  predicate Cut(cfg: Config, spec: Spec, i: Input, current: int, m: int) {
    OverBudget(cfg, spec, i, current) && BudgetRefuses(cfg, spec, i, current, m)
  }

  /** How the outcome with a sure answer compares with the outcome without. */
  lemma AnswerCompared(cfg: Config, spec: Spec, lastScale: Option<Time>, i: Input, a: LlmAnswer)
    requires RuleFired(cfg, spec, lastScale, i) && QuotientsFit(spec, i, i.bundle.value.currentReplicas)
             && Sure(spec, a)
    ensures var current, t0, t := i.bundle.value.currentReplicas, Tentative(spec, i, None), Tentative(spec, i, Some(a));
            var x0, x := TargetWith(cfg, spec, lastScale, i, None), TargetWith(cfg, spec, lastScale, i, Some(a));
            && (t == t0 ==> x == x0)
            && (!Held(cfg, i) ==>
                  && x0 == Outcome(cfg, spec, i, current, t0) && x == Outcome(cfg, spec, i, current, t)
                  && (t >= t0 ==> x >= x0) && (t <= t0 ==> x <= x0)
                  && x0 >= spec.constraints.minReplicas && x >= spec.constraints.minReplicas
                  && (t == spec.constraints.minReplicas ==> x == t)
                  && x <= Outcome(cfg, spec, i, current, spec.constraints.maxReplicas))
            && (Held(cfg, i) ==>
                  && (x < x0 <==> Cut(cfg, spec, i, current, t) && !Cut(cfg, spec, i, current, t0))
                  && (x > x0 <==> !Cut(cfg, spec, i, current, t) && Cut(cfg, spec, i, current, t0)))
  {
    hide Plan, Outcome, Tentative, BudgetRefuses, OverBudget, QuotientsFit, Held, Sure, TargetWith, Unhindered;
    var current, t0, t := i.bundle.value.currentReplicas, Tentative(spec, i, None), Tentative(spec, i, Some(a));
    TargetIsOutcome(cfg, spec, lastScale, i, None);
    TargetIsOutcome(cfg, spec, lastScale, i, Some(a));
    if Held(cfg, i) {
      HeldOutcome(cfg, spec, i, current, t0);
      HeldOutcome(cfg, spec, i, current, t);
    } else {
      OutcomeMonotone(cfg, spec, i, current, Min(t, t0), Max(t, t0));
      OutcomeMonotone(cfg, spec, i, current, t, spec.constraints.maxReplicas);
      OutcomeMonotone(cfg, spec, i, current, t0, t0);
    }
  }

  /** What is over the budget is refused all the more. */
  lemma CutUpwards(cfg: Config, spec: Spec, i: Input, current: int, m: int)
    requires 0 <= current <= m
    ensures Cut(cfg, spec, i, current, m) <==> OverBudget(cfg, spec, i, current)
  {
    hide BudgetRefuses;
    if OverBudget(cfg, spec, i, current) {
      RefusedUpwards(cfg, spec, i, current, current, m);
    }
  }

  /** Exactly when the LLM cannot weaken a fired rule: with the override in force; while a breach
      that outranks both keeps the target up; if the rule's own outcome is already the minimum;
      and while the cycle is held, unless it is over the budget, which the rule's request passes
      and a larger one does not. */
  lemma WeakenedExactly(cfg: Config, spec: Spec, lastScale: Option<Time>, i: Input)
    requires RuleFired(cfg, spec, lastScale, i) && QuotientsFit(spec, i, i.bundle.value.currentReplicas)
    ensures var current, t0 := i.bundle.value.currentReplicas, Tentative(spec, i, None);
            NeverWeakened(cfg, spec, lastScale, i)
            <==> || SkipsLLM(spec)
                 || (if Held(cfg, i) then !OverBudget(cfg, spec, i, current) || BudgetRefuses(cfg, spec, i, current, t0)
                     else BreachFirst(spec, i.bundle.value)
                          || Outcome(cfg, spec, i, current, t0) == spec.constraints.minReplicas)
  {
    hide Plan, Outcome, Tentative, BudgetRefuses, OverBudget, QuotientsFit, Held, BreachFirst, SkipsLLM, Sure;
    hide TargetWith, Unhindered;
    var current, t0 := i.bundle.value.currentReplicas, Tentative(spec, i, None);
    forall a: LlmAnswer | Sure(spec, a)
      ensures SkipsLLM(spec)
              || (Held(cfg, i) && (!OverBudget(cfg, spec, i, current) || BudgetRefuses(cfg, spec, i, current, t0)))
              || (!Held(cfg, i) && (BreachFirst(spec, i.bundle.value)
                                    || Outcome(cfg, spec, i, current, t0) == spec.constraints.minReplicas))
              ==> TargetWith(cfg, spec, lastScale, i, Some(a)) >= TargetWith(cfg, spec, lastScale, i, None)
    {
      AnswerTentative(spec, i, a);
      AnswerCompared(cfg, spec, lastScale, i, a);
    }
    var lo, hi := Answer(spec, spec.constraints.minReplicas), Answer(spec, spec.constraints.maxReplicas);
    AnswerTentative(spec, i, lo);
    AnswerCompared(cfg, spec, lastScale, i, lo);
    AnswerTentative(spec, i, hi);
    AnswerCompared(cfg, spec, lastScale, i, hi);
    CutUpwards(cfg, spec, i, current, Max(Tentative(spec, i, Some(hi)), current));
    assert NeverWeakened(cfg, spec, lastScale, i) ==>
             && TargetWith(cfg, spec, lastScale, i, Some(lo)) >= TargetWith(cfg, spec, lastScale, i, None)
             && TargetWith(cfg, spec, lastScale, i, Some(hi)) >= TargetWith(cfg, spec, lastScale, i, None);
  }

  /** And exactly when it cannot ask for more: with the override in force; if the rule's own
      outcome is already what asking for the maximum yields; and while the cycle is held, unless
      it is over the budget, which refuses the rule's request but not the minimum. */
  lemma ExceededExactly(cfg: Config, spec: Spec, lastScale: Option<Time>, i: Input)
    requires RuleFired(cfg, spec, lastScale, i) && QuotientsFit(spec, i, i.bundle.value.currentReplicas)
    ensures var current, t0, c := i.bundle.value.currentReplicas, Tentative(spec, i, None), spec.constraints;
            NeverExceeded(cfg, spec, lastScale, i)
            <==> || SkipsLLM(spec)
                 || (if Held(cfg, i) then
                       || BreachFirst(spec, i.bundle.value) || !Cut(cfg, spec, i, current, t0)
                       || BudgetRefuses(cfg, spec, i, current, c.minReplicas)
                     else Outcome(cfg, spec, i, current, t0) == Outcome(cfg, spec, i, current, c.maxReplicas))
  {
    hide Plan, Outcome, Tentative, BudgetRefuses, OverBudget, QuotientsFit, Held, BreachFirst, SkipsLLM, Sure;
    hide TargetWith, Unhindered;
    var current, t0, c := i.bundle.value.currentReplicas, Tentative(spec, i, None), spec.constraints;
    TargetIsOutcome(cfg, spec, lastScale, i, None);
    CutUpwards(cfg, spec, i, current, Max(t0, current));
    forall a: LlmAnswer | Sure(spec, a)
      ensures SkipsLLM(spec)
              || (Held(cfg, i) && (BreachFirst(spec, i.bundle.value) || !Cut(cfg, spec, i, current, t0)
                                   || BudgetRefuses(cfg, spec, i, current, c.minReplicas)))
              || (!Held(cfg, i) && Outcome(cfg, spec, i, current, t0) == Outcome(cfg, spec, i, current, c.maxReplicas))
              ==> TargetWith(cfg, spec, lastScale, i, Some(a)) <= TargetWith(cfg, spec, lastScale, i, None)
    {
      var t := Tentative(spec, i, Some(a));
      AnswerTentative(spec, i, a);
      TargetIsOutcome(cfg, spec, lastScale, i, Some(a));
      AnswerCompared(cfg, spec, lastScale, i, a);
      CutUpwards(cfg, spec, i, current, Max(t, current));
      if BudgetRefuses(cfg, spec, i, current, c.minReplicas) {
        RefusedUpwards(cfg, spec, i, current, c.minReplicas, t);
      }
    }
    var lo, hi := Answer(spec, c.minReplicas), Answer(spec, c.maxReplicas);
    AnswerTentative(spec, i, lo);
    AnswerCompared(cfg, spec, lastScale, i, lo);
    AnswerTentative(spec, i, hi);
    AnswerCompared(cfg, spec, lastScale, i, hi);
    TargetIsOutcome(cfg, spec, lastScale, i, Some(hi));
    assert NeverExceeded(cfg, spec, lastScale, i) ==>
             && TargetWith(cfg, spec, lastScale, i, Some(lo)) <= TargetWith(cfg, spec, lastScale, i, None)
             && TargetWith(cfg, spec, lastScale, i, Some(hi)) <= TargetWith(cfg, spec, lastScale, i, None);
  }

  /** Without a hold, a breach or cost data: the LLM cannot weaken a fired rule exactly if the
      override is in force or the rule asks for the minimum anyway, and cannot ask for more
      exactly if the override is in force or the rule asks for the maximum anyway. */
  lemma PlainRule(cfg: Config, spec: Spec, lastScale: Option<Time>, i: Input)
    requires RuleFired(cfg, spec, lastScale, i) && !Held(cfg, i) && (i.workloadCost.None? || spec.cost.None?)
    requires !BreachFirst(spec, i.bundle.value)
    ensures var rule, c := ClampToBounds(i.reactive.value.target, spec.constraints), spec.constraints;
            && (NeverWeakened(cfg, spec, lastScale, i) <==> SkipsLLM(spec) || rule == c.minReplicas)
            && (NeverExceeded(cfg, spec, lastScale, i) <==> SkipsLLM(spec) || rule == c.maxReplicas)
  {
    hide NeverWeakened, NeverExceeded, BreachFirst, Unhindered, Held;
    WeakenedExactly(cfg, spec, lastScale, i);
    ExceededExactly(cfg, spec, lastScale, i);
  }
}
