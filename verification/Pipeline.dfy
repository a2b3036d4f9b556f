/** One reconcile cycle as functions on values: what each step leaves in the cycle's state.
    The environment (signals, LLM, clock, API outcomes) is an arbitrary input. */
module Pipeline {
  import opened Common
  import opened Policy
  import opened Validator
  import opened Precedence
  import opened Cost
  import opened Slo
  import opened Coordinator

  /** Which optional parts the reconciler was started with, the coordinator's limit, the unit
      to which stored timestamps are rounded down, and what an out-of-range conversion to
      int32 yields on its platform. */
  datatype Config = Config(
    maxConcurrent: int,
    timestampUnit: Time,
    costEnabled: bool,
    budgetEnabled: bool,
    approvalEnabled: bool,
    coordinated: bool,
    clusterMaxHourly: real,
    outOfRange: int)

  datatype LlmAnswer = LlmAnswer(decision: Decision, provider: string)

  datatype Write = Written | Conflicted | WriteFailed

  /** Everything the outside world contributes to one cycle. */
  datatype Input = Input(
    deleting: bool,
    updateFails: bool,
    now: Time,
    bundle: Option<Bundle>,
    frozen: bool,
    reactive: Option<Request>,
    answer: Option<LlmAnswer>,
    oscillating: bool,
    rollback: Option<Request>,
    workloadCost: Option<WorkloadCost>,
    needsApproval: bool,
    policies: Option<seq<GraphPolicy>>,
    othersHourly: real,
    checkedAt: Time,
    takenAt: Time,
    actuatedAt: Time,
    stampedAt: Time,
    restampedAt: Time,
    getFails: bool,
    patchFails: bool,
    verticalDecided: bool,
    verticalMutates: bool,
    verticalFails: bool,
    firstWrite: Write,
    secondWrite: Write)

  /** What one cycle carries from step to step. */
  datatype State = State(
    bundle: Option<Bundle>,
    decision: Option<Decision>,
    llmDecision: Option<Decision>,
    reactiveDecision: Option<Decision>,
    deterministicDecision: Option<Decision>,
    sloDecision: Option<Decision>,
    safetyDecision: Option<Decision>,
    humanDecision: Option<Decision>,
    provider: string,
    llmProvider: string,
    safetySource: string,
    validation: Option<ValidationResult>,
    precedence: Option<ResolvedDecision>,
    currentSLOs: seq<SLOStatus>,
    slotHeld: bool,
    slotWorkload: string,
    workloadCost: Option<WorkloadCost>,
    costEstimate: Option<CostEstimate>,
    costCeiling: Option<int>,
    costReason: string)

  const Fresh := State(None, None, None, None, None, None, None, None, "", "", "", None, None, [], false, "", None,
                       None, None, "")

  /** How a step ends: the chain goes on, is short-circuited, or fails. */
  datatype Flow = Continue(s: State) | Stop(s: State) | Fail(s: State) {
    predicate IsFailure() { !Continue? }
    function PropagateFailure(): Flow
      requires IsFailure()
    {
      this
    }
    function Extract(): State
      requires !IsFailure()
    {
      s
    }
  }

  // ----- gathering candidates -----

  function EnsureFinalizer(spec: Spec, i: Input, s: State): Flow {
    if i.deleting || !ValidateSpec(spec) then (if i.updateFails then Fail(s) else Stop(s))
    else if i.updateFails then Fail(s)
    else Continue(s)
  }

  function CheckCooldown(spec: Spec, lastScale: Option<Time>, i: Input, s: State): Flow {
    if lastScale.Some? && i.now - lastScale.value < spec.cooldown then Stop(s) else Continue(s)
  }

  function CollectSignals(i: Input, s: State): Flow {
    if i.bundle.None? then Fail(s)
    else
      var s1 := s.(bundle := i.bundle);
      if i.frozen then Stop(s1) else Continue(s1)
  }

  /** With the reactive override in force a fired rule ends the step: no SLO evaluation, no LLM. */
  function SkipsLLM(spec: Spec): bool {
    spec.precedence.None? || spec.precedence.value.reactiveRulesOverrideLLM
  }

  function KedaDecision(spec: Spec, b: Bundle): Option<Decision> {
    if spec.kedaEnabled && b.kedaDesired > 0 then
      Some(Plain(b.kedaDesired, "keda", 1.0,
                 ActionTypeForTarget(b.kedaDesired, b.currentReplicas)).(urgency := "medium"))
    else None
  }

  function ReactiveDecision(i: Input, b: Bundle): Option<Decision> {
    match i.reactive
    case None => None
    case Some(r) => Some(Plain(r.target, r.reason, 1.0, ActionTypeForTarget(r.target, b.currentReplicas)))
  }

  function FetchDecision(spec: Spec, i: Input, s: State): Flow
    requires s.bundle.Some?
  {
    var b := s.bundle.value;
    var s1 := s.(deterministicDecision := KedaDecision(spec, b), reactiveDecision := ReactiveDecision(i, b));
    if s1.reactiveDecision.Some? && SkipsLLM(spec) then Continue(s1)
    else
      var s2 := if spec.slos == [] then s1 else s1.(currentSLOs := Statuses(spec.slos, b));
      AskLLM(spec, i, s2)
  }

  /** Without an answer the other candidates must do; an unsure answer becomes a request to
      keep the count, and only if there is no other candidate. */
  function AskLLM(spec: Spec, i: Input, s: State): Flow
    requires s.bundle.Some?
  {
    var alone := s.reactiveDecision.None? && s.deterministicDecision.None?;
    match i.answer
    case None => if alone then Fail(s) else Continue(s)
    case Some(a) =>
      var s1 := s.(llmProvider := a.provider);
      var minConf := spec.constraints.minConfidence;
      if !(minConf > 0.0 && a.decision.confidence < minConf) then Continue(s1.(llmDecision := Some(a.decision)))
      else if alone then
        Continue(s1.(llmDecision := Some(Plain(s.bundle.value.currentReplicas, "low confidence", a.decision.confidence,
                                               NoChange))))
      else Continue(s1)
  }

  function CheckOscillation(i: Input, s: State): Flow
    requires s.bundle.Some?
  {
    if i.oscillating then
      Continue(s.(safetyDecision := Some(Plain(s.bundle.value.currentReplicas, "oscillation", 1.0, NoChange)),
                  safetySource := "safety"))
    else Continue(s)
  }

  /** A recommended rollback replaces an oscillation hold. */
  function CheckRollback(i: Input, s: State): Flow
    requires s.bundle.Some?
  {
    match i.rollback
    case None => Continue(s)
    case Some(r) =>
      Continue(s.(safetyDecision := Some(Plain(r.target, r.reason, 1.0,
                                               ActionTypeForTarget(r.target, s.bundle.value.currentReplicas))),
                  safetySource := "rollback"))
  }

  /** Everything before the first resolution. */
  function Gather(spec: Spec, lastScale: Option<Time>, i: Input): Flow {
    var s0 :- EnsureFinalizer(spec, i, Fresh);
    var s1 :- CheckCooldown(spec, lastScale, i, s0);
    var s2 :- CollectSignals(i, s1);
    var s3 :- FetchDecision(spec, i, s2);
    var s4 :- CheckOscillation(i, s3);
    CheckRollback(i, s4)
  }

  // ----- resolution -----

  function Raise(target: int, d: Option<Decision>): int {
    if d.Some? && d.value.targetReplicas > target then d.value.targetReplicas else target
  }

  /** While an SLO is breached: the largest of the current count and every candidate. */
  function BuildSLODecision(s: State): Option<Decision>
    requires s.bundle.Some?
  {
    if s.currentSLOs == [] || !AnyBreached(s.currentSLOs) then None
    else
      var current := s.bundle.value.currentReplicas;
      var target := Raise(Raise(Raise(current, s.reactiveDecision), s.llmDecision), s.deterministicDecision);
      Some(Plain(target, "slo", 1.0, ActionTypeForTarget(target, current)))
  }

  function AsRequest(d: Option<Decision>): Option<Request> {
    match d
    case None => None
    case Some(x) => Some(Request(x.targetReplicas, x.reasoning))
  }

  function PrecedenceFlag(p: Option<PrecedenceConfig>, f: PrecedenceConfig -> bool): Option<bool> {
    match p
    case None => None
    case Some(c) => Some(f(c))
  }

  /** The controller never fills in the schedule layer. */
  function BuildPrecedenceInputs(spec: Spec, s: State, includeHuman: bool, includeCost: bool): Inputs {
    Inputs(
      AsRequest(s.safetyDecision),
      if includeHuman then AsRequest(s.humanDecision) else None,
      None,
      AsRequest(s.sloDecision),
      AsRequest(s.reactiveDecision),
      AsRequest(s.llmDecision),
      AsRequest(s.deterministicDecision),
      if includeCost then s.costCeiling else None,
      if includeCost && s.costCeiling.Some? then s.costReason else "",
      spec.constraints.minReplicas,
      spec.constraints.maxReplicas,
      PrecedenceFlag(spec.precedence, (c: PrecedenceConfig) => c.scheduleOverridesLLM),
      PrecedenceFlag(spec.precedence, (c: PrecedenceConfig) => c.reactiveRulesOverrideLLM),
      PrecedenceFlag(spec.precedence, (c: PrecedenceConfig) => c.sloAlwaysWins))
  }

  /** The first applied entry that is not the cost cap, and the cap's reason if it applied. */
  function BaseLayer(layers: seq<AuditEntry>): Option<Layer> {
    if layers == [] then None
    else if layers[0].applied && layers[0].layer != CostLayer then Some(layers[0].layer)
    else BaseLayer(layers[1..])
  }

  function CostApplied(layers: seq<AuditEntry>): Option<string> {
    if layers == [] then None
    else if layers[|layers| - 1].applied && layers[|layers| - 1].layer == CostLayer
      then Some(layers[|layers| - 1].reason)
    else CostApplied(layers[..|layers| - 1])
  }

  function LayerReason(layers: seq<AuditEntry>, base: Option<Layer>): string {
    if layers == [] || base.None? then ""
    else if layers[0].layer == base.value then layers[0].reason
    else LayerReason(layers[1..], base)
  }

  /** The decision a layer contributed, and the provider it is attributed to. */
  function DecisionForLayer(s: State, layer: Option<Layer>): (Option<Decision>, string) {
    match layer
    case Some(SafetyLayer) =>
      if s.safetyDecision.Some? then (s.safetyDecision, if s.safetySource == "" then "safety" else s.safetySource)
        else (None, "")
    case Some(HumanLayer) => (s.humanDecision, "approval-hold")
    case Some(SloLayer) => (s.sloDecision, "slo")
    case Some(ReactiveLayer) => (s.reactiveDecision, "reactive-rule")
    case Some(LlmLayer) => (s.llmDecision, s.llmProvider)
    case Some(DeterministicLayer) => (s.deterministicDecision, "keda")
    case _ => (None, "")
  }

  /** The contributed decision, or a plain one, with the resolved target, attributed to the
      cost override if the cap applied. */
  function FinishDecision(found: Option<Decision>, provider: string, rd: ResolvedDecision, current: int)
    : (Decision, string)
  {
    var base := BaseLayer(rd.layers);
    var cost := CostApplied(rd.layers);
    var d := match found
      case Some(x) => x
      case None => Plain(rd.targetReplicas, "resolved scaling decision", 1.0, OtherAction(""));
    var reasoning := if d.reasoning == "" then LayerReason(rd.layers, base) else d.reasoning;
    (d.(targetReplicas := rd.targetReplicas,
        actionType := ActionTypeForTarget(rd.targetReplicas, current),
        reasoning := if cost.None? then reasoning else if reasoning == "" then cost.value
                     else if cost.value != "" then reasoning + "; " + cost.value else reasoning),
     if cost.Some? then "cost-override" else if provider == "" then "precedence" else provider)
  }

  function Materialize(s: State, rd: ResolvedDecision): (Decision, string)
    requires s.bundle.Some?
  {
    var (found, provider) := DecisionForLayer(s, BaseLayer(rd.layers));
    FinishDecision(found, provider, rd, s.bundle.value.currentReplicas)
  }

  predicate NoCandidate(s: State) {
    s.safetyDecision.None? && s.humanDecision.None? && s.reactiveDecision.None? && s.llmDecision.None?
    && s.deterministicDecision.None? && s.sloDecision.None?
  }

  /** The estimate of what was finally decided, if costs are known. */
  function Recalculate(cfg: Config, s: State): Flow
    requires s.bundle.Some? && s.decision.Some?
  {
    if s.workloadCost.Some? && cfg.costEnabled then
      var e := Estimate(s.workloadCost.value, s.bundle.value.currentReplicas, s.decision.value.targetReplicas);
      if e.None? then Fail(s) else Continue(s.(costEstimate := e))
    else Continue(s)
  }

  /** Without any candidate the current count is kept as it is, even outside the bounds. */
  function KeepCurrent(s: State): State
    requires s.bundle.Some?
  {
    s.(decision := Some(Plain(s.bundle.value.currentReplicas, "no applicable scaling inputs", 1.0, NoChange)),
       provider := "fallback", precedence := None)
  }

  function AdoptResolution(s: State, rd: ResolvedDecision): (r: State)
    requires s.bundle.Some?
    ensures r.bundle == s.bundle && r.decision.Some?
  {
    var (d, provider) := Materialize(s, rd);
    s.(precedence := Some(rd), decision := Some(d), provider := provider)
  }

  function ResolveDecisionState(cfg: Config, spec: Spec, s0: State, includeHuman: bool, includeCost: bool): (r: Flow)
    requires s0.bundle.Some?
    ensures r.s.bundle == s0.bundle
  {
    var s := s0.(sloDecision := BuildSLODecision(s0));
    if NoCandidate(s) then Continue(KeepCurrent(s))
    else
      var s1 := AdoptResolution(s, Resolution(BuildPrecedenceInputs(spec, s, includeHuman, includeCost)));
      if includeCost then Recalculate(cfg, s1) else Continue(s1)
  }

  // ----- cost, approval, validation -----

  /** A refused estimate leaves a ceiling: the affordable count, or the current one if none can
      be computed. */
  function EnforceBudget(cfg: Config, spec: Spec, e: CostEstimate, s: State): State
    requires s.bundle.Some? && spec.cost.Some? && IsInt32(cfg.outOfRange)
  {
    var c := spec.cost.value;
    if Check(c.maxHourly, c.maxMonthly, c.enforcement, e).allowed then s
    else
      var ceiling := ComputeCostCeiling(spec.cost, e, spec.constraints.minReplicas, cfg.outOfRange);
      s.(costCeiling := if ceiling.Some? then ceiling else Some(s.bundle.value.currentReplicas),
         costReason := if ceiling.Some? then "cost budget caps replicas" else "budget exceeded")
  }

  function EstimateCost(cfg: Config, spec: Spec, i: Input, s: State): (r: Flow)
    requires s.bundle.Some? && IsInt32(cfg.outOfRange)
    ensures r.Continue? && r.s.bundle == s.bundle
  {
    if !cfg.costEnabled || s.decision.None? || i.workloadCost.None? then Continue(s)
    else
      var s1 := s.(workloadCost := i.workloadCost);
      var current := s.bundle.value.currentReplicas;
      var e := Estimate(i.workloadCost.value, current, s.decision.value.targetReplicas);
      if e.None? then Continue(s1)
      else
        var s2 := s1.(costEstimate := e);
        Continue(if cfg.budgetEnabled && spec.cost.Some? then EnforceBudget(cfg, spec, e.value, s2) else s2)
  }

  /** A held decision becomes a human request for the current count. */
  function CheckApproval(cfg: Config, i: Input, s: State): (r: Flow)
    requires s.bundle.Some?
    ensures r.Continue? && r.s.bundle == s.bundle
  {
    if !cfg.approvalEnabled || s.decision.None? then Continue(s)
    else if i.needsApproval then
      Continue(s.(humanDecision := Some(Plain(s.bundle.value.currentReplicas, "awaiting human approval",
                                              s.decision.value.confidence, NoChange))))
    else Continue(s.(humanDecision := None))
  }

  function ValidateDecision(spec: Spec, s: State): Flow {
    if s.decision.None? || s.bundle.None? then Continue(s)
    else Continue(s.(validation := Some(ValidateFor(s.decision.value, s.bundle.value.currentReplicas, spec))))
  }

  /** From the candidates to the validated count. */
  function Decide(cfg: Config, spec: Spec, i: Input, s: State): Flow
    requires s.bundle.Some? && IsInt32(cfg.outOfRange)
  {
    var s1 :- ResolveDecisionState(cfg, spec, s, false, false);
    var s2 :- EstimateCost(cfg, spec, i, s1);
    var s3 :- CheckApproval(cfg, i, s2);
    var s4 :- ResolveDecisionState(cfg, spec, s3, true, true);
    ValidateDecision(spec, s4)
  }

  /** The chain up to and including validation. */
  function Plan(cfg: Config, spec: Spec, lastScale: Option<Time>, i: Input): Flow
    requires IsInt32(cfg.outOfRange)
  {
    GatherKeepsBundle(spec, lastScale, i);
    var s :- Gather(spec, lastScale, i);
    Decide(cfg, spec, i, s)
  }

  /** What gathering leaves untouched. */
  ghost predicate Gathered(s: State) {
    && s.bundle.Some? && s.humanDecision.None? && s.costCeiling.None? && s.costEstimate.None?
    && s.workloadCost.None? && s.validation.None? && !s.slotHeld
  }

  lemma GatherKeepsBundle(spec: Spec, lastScale: Option<Time>, i: Input)
    ensures Gather(spec, lastScale, i).Continue? ==>
              Gathered(Gather(spec, lastScale, i).s) && Gather(spec, lastScale, i).s.bundle == i.bundle
    ensures !Gather(spec, lastScale, i).Continue? ==>
              Gather(spec, lastScale, i).s.validation.None? && !Gather(spec, lastScale, i).s.slotHeld
  {
    hide EnsureFinalizer, CheckCooldown, FetchDecision, CheckOscillation, CheckRollback;
    var s0 := EnsureFinalizer(spec, i, Fresh);
    EarlyKeeps(spec, lastScale, i);
    if s0.Continue? && CheckCooldown(spec, lastScale, i, s0.s).Continue? {
      var s2 := CollectSignals(i, Fresh);
      if s2.Continue? {
        var s3 := FetchDecision(spec, i, s2.s);
        FetchKeeps(spec, i, s2.s);
        if s3.Continue? {
          HoldsKeep(i, s3.s);
        }
      }
    }
  }

  lemma EarlyKeeps(spec: Spec, lastScale: Option<Time>, i: Input)
    ensures EnsureFinalizer(spec, i, Fresh).s == Fresh && CheckCooldown(spec, lastScale, i, Fresh).s == Fresh
  {
  }

  lemma FetchKeeps(spec: Spec, i: Input, s: State)
    requires Gathered(s)
    ensures Gathered(FetchDecision(spec, i, s).s) && FetchDecision(spec, i, s).s.bundle == s.bundle
  {
    hide KedaDecision, ReactiveDecision, Statuses;
  }

  lemma HoldsKeep(i: Input, s: State)
    requires Gathered(s)
    ensures var r := CheckOscillation(i, s);
            && r.Continue? && Gathered(r.s) && r.s.bundle == s.bundle
            && CheckRollback(i, r.s).Continue? && Gathered(CheckRollback(i, r.s).s)
               && CheckRollback(i, r.s).s.bundle == s.bundle
  {
  }
}
