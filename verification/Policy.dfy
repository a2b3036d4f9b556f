/** The part of an AIScaler policy, and of the signals observed for it, that decides
    replica counts. */
module Policy {
  import opened Common

  datatype Constraints = Constraints(minReplicas: int, maxReplicas: int, maxScaleStep: int, minConfidence: real)

  datatype DirectionPolicy = DirectionPolicy(maxStep: int, requireConfidence: real)

  datatype Safety = Safety(scaleUp: Option<DirectionPolicy>, scaleDown: Option<DirectionPolicy>)

  datatype CostConstraints = CostConstraints(maxHourly: real, maxMonthly: real, enforcement: string)

  datatype PrecedenceConfig = PrecedenceConfig(scheduleOverridesLLM: bool, reactiveRulesOverrideLLM: bool,
                                               sloAlwaysWins: bool)

  datatype SLO = SLO(name: string, metric: string, target: real, priority: int)

  datatype Spec = Spec(
    name: string,
    targetName: string,
    llmPrimary: string,
    llmFallback: Option<string>,
    constraints: Constraints,
    cooldown: Time,
    dryRun: bool,
    safety: Option<Safety>,
    cost: Option<CostConstraints>,
    precedence: Option<PrecedenceConfig>,
    slos: seq<SLO>,
    kedaEnabled: bool)

  /** What the signal plugins observed this cycle. */
  datatype Bundle = Bundle(
    currentReplicas: int,
    kedaDesired: int,
    cpu: real,
    memory: real,
    p95Latency: real,
    errorRate: real,
    queueDepth: real,
    customSignals: map<string, real>)

  datatype VerticalProposal = VerticalProposal(cpuRequest: string, memoryRequest: string, cpuLimit: string,
                                               memoryLimit: string, strategy: string)

  datatype ActionType = ScaleUp | ScaleDown | NoChange | OtherAction(name: string)

  /** One candidate scaling decision, from the LLM or from a deterministic layer. */
  datatype Decision = Decision(
    targetReplicas: int,
    reasoning: string,
    confidence: real,
    actionType: ActionType,
    urgency: string,
    reasonCodes: seq<string>,
    verticalChanges: Option<VerticalProposal>)

  function ActionTypeForTarget(target: int, current: int): ActionType {
    if target > current then ScaleUp else if target < current then ScaleDown else NoChange
  }

  /** A decision of the deterministic layers, which fill in only these fields. */
  function Plain(target: int, reasoning: string, confidence: real, action: ActionType): Decision {
    Decision(target, reasoning, confidence, action, "", [], None)
  }

  /** The bounds that the API server's schema puts on every stored policy. */
  predicate SchemaValid(c: Constraints) {
    && 1 <= c.minReplicas && IsInt32(c.minReplicas)
    && 1 <= c.maxReplicas && IsInt32(c.maxReplicas)
    && 1 <= c.maxScaleStep && IsInt32(c.maxScaleStep)
  }

  predicate ValidateConstraints(c: Constraints) {
    c.minReplicas <= c.maxReplicas && c.maxScaleStep <= c.maxReplicas
  }

  /** The operator's own check of a policy. */
  predicate ValidateSpec(spec: Spec) {
    ValidateConstraints(spec.constraints) && spec.llmFallback != Some(spec.llmPrimary)
  }

  predicate InBounds(n: int, c: Constraints) {
    c.minReplicas <= n <= c.maxReplicas
  }

  /** A slot is keyed by the target's name alone, or by the policy's name if that is empty. */
  function CoordinationWorkloadName(spec: Spec): string {
    if spec.targetName != "" then spec.targetName else spec.name
  }
}
