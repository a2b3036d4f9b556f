/** Concrete runs that show where the guarantees end. */
module Witnesses {
  import opened Common
  import opened Policy
  import opened Validator
  import opened Precedence
  import opened Cost
  import opened Slo
  import opened Coordinator
  import opened Pipeline
  import opened PlanGuarantees
  import opened ReconcileCycle
  import opened RuleVersusLLM
  import opened Runs
  import opened ClusterBudget

  function ExampleSpec(): Spec {
    Spec("policy", "shop", "openai", None, Constraints(1, 10, 3, 0.0), 300_000_000_000, false, None, None, None, [],
         false)
  }

  function ExampleConfig(): Config {
    Config(1, 1, false, false, false, true, 0.0, 0)
  }

  /** A cycle at time t that observes `current` and in which a rule asks for `wanted`. */
  function ExampleInput(t: Time, current: int, wanted: int, write: Write): Input {
    Input(false, false, t, Some(Bundle(current, 0, 0.0, 0.0, 0.0, 0.0, 0.0, map[])), false,
          Some(Request(wanted, "rule")), None,
          false, None, None, false, Some([]), 0.0, t, t, t, t, t, false, false, false, false, false, write, write)
  }

  lemma ExamplePlan(lastScale: Option<Time>, t: Time, current: int, wanted: int, write: Write)
    requires 1 <= current <= 10 && 1 <= wanted <= 10 && current - 3 <= wanted <= current + 3
    requires lastScale.Some? ==> t - lastScale.value >= ExampleSpec().cooldown
    ensures var p := Plan(ExampleConfig(), ExampleSpec(), lastScale, ExampleInput(t, current, wanted, write));
            p.Continue? && p.s.bundle == ExampleInput(t, current, wanted, write).bundle
            && p.s.validation.Some? && p.s.validation.value.validated == wanted
  {
    hide Plan;
    ReactiveCycle(ExampleConfig(), ExampleSpec(), lastScale, ExampleInput(t, current, wanted, write));
    NoWrap(wanted, current, ExampleSpec().constraints.maxScaleStep);
  }

  lemma ExampleCoordination(t: Time, current: int, wanted: int, write: Write, s: State)
    ensures var c := CheckCoordination(ExampleConfig(), ExampleSpec(), ExampleInput(t, current, wanted, write), s,
                                       map[]).0;
            c.Continue? && c.s.validation == s.validation
  {
    assert Cleanup(map[], t) == map[];
  }

  /** A status write lost to a conflict forgets the scaling: the next change may come at once. */
  lemma LostWriteBreaksCooldown()
    ensures var events := [Reconcile(ExampleInput(0, 5, 6, Conflicted)), Reconcile(ExampleInput(0, 6, 7, Conflicted))];
            var start := World(5, None, map[]);
            && Clocked(events) && ExampleSpec().cooldown > 0
            && LiveChange(ExampleConfig(), ExampleSpec(), start, events, 0)
            && LiveChange(ExampleConfig(), ExampleSpec(), start, events, 1)
            && events[0].i.actuatedAt == events[1].i.actuatedAt
  {
    hide Cycle, Plan;
    ExampleCycle(None, 0, 5, 6, Conflicted);
    ExampleCycle(None, 0, 6, 7, Conflicted);
    TwoChanges(ExampleConfig(), ExampleSpec(), World(5, None, map[]), ExampleInput(0, 5, 6, Conflicted),
               ExampleInput(0, 6, 7, Conflicted));
  }

  /** The spacing is tight: when the writes are stored, changes can come exactly one cooldown apart. */
  lemma CooldownIsTight()
    ensures var cooldown := ExampleSpec().cooldown;
            var events := [Reconcile(ExampleInput(0, 5, 6, Written)), Reconcile(ExampleInput(cooldown, 6, 7, Written))];
            var start := World(5, None, map[]);
            && Clocked(events)
            && LiveChange(ExampleConfig(), ExampleSpec(), start, events, 0)
            && LiveChange(ExampleConfig(), ExampleSpec(), start, events, 1)
            && events[1].i.actuatedAt - events[0].i.actuatedAt == cooldown
  {
    hide Cycle, Plan;
    var cooldown := ExampleSpec().cooldown;
    ExampleCycle(None, 0, 5, 6, Written);
    ExampleCycle(Some(0), cooldown, 6, 7, Written);
    TwoChanges(ExampleConfig(), ExampleSpec(), World(5, None, map[]), ExampleInput(0, 5, 6, Written),
               ExampleInput(cooldown, 6, 7, Written));
  }

  lemma TwoChanges(cfg: Config, spec: Spec, w: World, first: Input, second: Input)
    requires IsInt32(cfg.outOfRange)
    requires Changes(cfg, spec, w, first) && Changes(cfg, spec, Cycle(cfg, spec, w, first), second)
    ensures var events := [Reconcile(first), Reconcile(second)];
            LiveChange(cfg, spec, w, events, 0) && LiveChange(cfg, spec, w, events, 1)
  {
    hide Cycle, Changes;
    var events := [Reconcile(first), Reconcile(second)];
    assert events[..0] == [];
    Unfold(cfg, spec, w, events, 0);
  }

  lemma ExampleCycle(lastScale: Option<Time>, t: Time, current: int, wanted: int, write: Write)
    requires 1 <= current <= 10 && 1 <= wanted <= 10 && current - 3 <= wanted <= current + 3 && current != wanted
    requires lastScale.Some? ==> t - lastScale.value >= ExampleSpec().cooldown
    ensures Cycle(ExampleConfig(), ExampleSpec(), World(current, lastScale, map[]),
                  ExampleInput(t, current, wanted, write))
            == World(wanted, if write.Written? then Some(t) else lastScale, map[])
  {
    hide Plan;
    var w, i := World(current, lastScale, map[]), ExampleInput(t, current, wanted, write);
    ExamplePlan(lastScale, t, current, wanted, write);
    var p := Plan(ExampleConfig(), ExampleSpec(), lastScale, i);
    ExampleCoordination(t, current, wanted, write, p.s);
    SlotReturned(ExampleConfig(), ExampleSpec(), w, i);
    hide CheckCoordination;
  }

  /** On a stale observation a cycle that means to keep the count undoes somebody else's
      scaling, without a slot and without starting the cooldown. */
  lemma StaleObservationUndoesScaling()
    ensures var w, i := World(5, None, map[]), ExampleInput(0, 3, 3, Written);
            && Cycle(ExampleConfig(), ExampleSpec(), w, i) == World(3, None, map[])
            && !NeedsLiveCoordination(ExampleSpec(), i, Plan(ExampleConfig(), ExampleSpec(), None, i).s)
  {
    hide Plan;
    ExamplePlan(None, 0, 3, 3, Written);
  }

  /** A Get that fails leaves the count alone and starts the cooldown all the same. */
  lemma FailedGetIsStamped()
    ensures Cycle(ExampleConfig(), ExampleSpec(), World(5, None, map[]),
                  ExampleInput(0, 5, 6, Written).(getFails := true))
            == World(5, Some(0), map[])
  {
    hide Plan;
    var cfg, spec, w := ExampleConfig(), ExampleSpec(), World(5, None, map[]);
    var i := ExampleInput(0, 5, 6, Written).(getFails := true);
    ReactiveCycle(cfg, spec, None, i);
    NoWrap(6, 5, spec.constraints.maxScaleStep);
    DeferredIsStamped(cfg, spec, w, i);
    SlotReturned(cfg, spec, w, i);
    hide Cycle;
  }

  /** Without the override, an answer asking for two outdoes a rule asking for eight. */
  lemma LLMWeakensRule()
    ensures var spec := ExampleSpec().(precedence := Some(PrecedenceConfig(true, false, true)));
            var i := ExampleInput(0, 5, 8,
                                  Written).(answer := Some(LlmAnswer(Plain(2, "quiet", 0.9, ScaleDown), "openai")));
            TargetWith(ExampleConfig(), spec, None, i, i.answer) == 2
              && TargetWith(ExampleConfig(), spec, None, i, None) == 8
  {
    hide Plan;
    var spec := ExampleSpec().(precedence := Some(PrecedenceConfig(true, false, true)));
    var i := ExampleInput(0, 5, 8, Written).(answer := Some(LlmAnswer(Plain(2, "quiet", 0.9, ScaleDown), "openai")));
    RuleCycle(ExampleConfig(), spec, None, i);
    RuleCycle(ExampleConfig(), spec, None, i.(answer := None));
    assert i.(answer := i.answer) == i;
  }

  function BreachSpec(): Spec {
    ExampleSpec().(slos := [SLO("errors", "error_rate", 1.0, 1)], cost := Some(CostConstraints(5.0, 0.0, HARD)))
  }

  function BreachConfig(): Config {
    ExampleConfig().(costEnabled := true, budgetEnabled := true)
  }

  /** Five replicas at two dollars each with twice the tolerated error rate; the LLM wants six. */
  function BreachInput(): Input {
    ExampleInput(0, 5, 5, Written).(bundle := Some(Bundle(5, 0, 0.0, 0.0, 0.0, 2.0, 0.0, map[])), reactive := None,
                                    workloadCost := Some(WorkloadCost(10.0, 0.0)),
                                    answer := Some(LlmAnswer(Plain(6, "busy", 0.9, ScaleUp), "openai")))
  }

  /** The roadmap says SLO violations trump cost limits; a hard budget scales down a workload
      that is breaching its SLO all the same. */
  lemma CostTrumpsSlo()
    ensures var p := Plan(BreachConfig(), BreachSpec(), None, BreachInput());
            && SloFirst(BreachSpec()) && AnyBreached(Statuses(BreachSpec().slos, BreachInput().bundle.value))
            && p.Continue? && p.s.validation.Some? && p.s.validation.value.validated < 5
  {
    hide Plan, Statuses;
    BreachIsBreach();
    var cfg, spec, i := BreachConfig(), BreachSpec(), BreachInput();
    BreachContinues(cfg, spec, i);
    SloProtectionExact(cfg, spec, None, i);
    assert Estimate(WorkloadCost(10.0, 0.0), 5, 5).value.proposedHourly == 10.0;
    assert OverBudget(cfg, spec, i, 5);
  }

  lemma BreachIsBreach()
    ensures AnyBreached(Statuses(BreachSpec().slos, BreachInput().bundle.value))
  {
    assert Statuses(BreachSpec().slos, BreachInput().bundle.value)[0].breached;
  }

  lemma BreachContinues(cfg: Config, spec: Spec, i: Input)
    requires IsInt32(cfg.outOfRange) && Unhindered(spec, None, i) && i.answer.Some?
             && i.bundle.value.currentReplicas >= 1
    ensures Plan(cfg, spec, None, i).Continue?
  {
    hide Gather, Decide;
    GatherUnhindered(spec, None, i);
    GatherKeepsBundle(spec, None, i);
    DecideContinues(cfg, spec, i, Gather(spec, None, i).s);
  }

  /** Five replicas fit both budgets and the sixth that the LLM wants does not fit the month;
      the hourly budget is so large that its quotient is no int32. */
  function OverflowSpec(): Spec {
    BreachSpec().(cost := Some(CostConstraints(10_000_000_000.0, 7_920.0, HARD)))
  }

  /** Without the quotients fitting, SLO protection can fail for a workload that is within its
      budget: the overflowed conversion becomes the ceiling. */
  lemma OverflowCutsAffordable()
    ensures var cfg, spec, i := BreachConfig(), OverflowSpec(), BreachInput();
            var p := Plan(cfg, spec, None, i);
            && SloFirst(spec) && AnyBreached(Statuses(spec.slos, i.bundle.value))
            && !QuotientsFit(spec, i, 5) && !OverBudget(cfg, spec, i, 5)
            && p.Continue? && p.s.validation.Some? && p.s.validation.value.validated < 5
  {
    var cfg, spec, i := BreachConfig(), OverflowSpec(), BreachInput();
    assert !QuotientsFit(spec, i, 5) by {
      assert 10.0 / 5 as real == 2.0;
      assert (10_000_000_000.0 / 2.0).Floor == 5_000_000_000;
    }
    assert !OverBudget(cfg, spec, i, 5) by {
      assert Estimate(WorkloadCost(10.0, 0.0), 5, 5).value.proposedHourly == 10.0;
    }
    BreachIsBreach();
    hide QuotientsFit, OverBudget;
    BreachContinues(cfg, spec, i);
    OverflowCuts(cfg, spec, i);
  }

  lemma OverflowCuts(cfg: Config, spec: Spec, i: Input)
    requires cfg == BreachConfig() && spec == OverflowSpec() && i == BreachInput()
    requires Plan(cfg, spec, None, i).Continue? && AnyBreached(Statuses(spec.slos, i.bundle.value))
    ensures var p := Plan(cfg, spec, None, i);
            p.s.validation.Some? && p.s.validation.value.validated < 5
  {
    hide Gather, Decide, AnyBreached, Statuses, Wish, Ceiling, NoCandidate, WithSlo, Wins, BuildPrecedenceInputs;
    GatherKeepsBundle(spec, None, i);
    GatheredSlos(spec, None, i);
    var g := Gather(spec, None, i).s;
    assert g.llmDecision == Some(Plain(6, "busy", 0.9, ScaleUp)) && g.reactiveDecision.None?
           && g.deterministicDecision.None? by {
      BreachCandidates(spec, i);
    }
    SloWish(spec, g);
    assert Asks(g.llmDecision, 6);
    OverflowCeiling(cfg, spec, i, g);
    SloMoves(cfg, spec, i, g);
  }

  lemma BreachCandidates(spec: Spec, i: Input)
    requires spec == OverflowSpec() && i == BreachInput()
    ensures var g := Gather(spec, None, i).s;
            g.llmDecision == Some(Plain(6, "busy", 0.9, ScaleUp)) && g.reactiveDecision.None?
              && g.deterministicDecision.None?
  {
    hide Statuses;
  }

  lemma OverflowCeiling(cfg: Config, spec: Spec, i: Input, s: State)
    requires cfg == BreachConfig() && spec == OverflowSpec() && i == BreachInput()
    requires s.bundle == i.bundle && FinalTarget(spec, s, false, None) == 6
    ensures Ceiling(cfg, spec, i, s) == Some(1)
  {
    hide FinalTarget;
    var e := Estimate(i.workloadCost.value, 5, 6).value;
    assert e.perReplica == 2.0;
    assert e.proposedHourly == 12.0;
    assert (10_000_000_000.0 / e.perReplica).Floor == 5_000_000_000;
    assert ((7_920.0 / (24.0 * 30.0)) / e.perReplica).Floor == 5;
  }

  // ----- the cluster limit -----

  /** A limit of 25 an hour for everybody, and one slot. */
  function LimitedConfig(): Config {
    ExampleConfig().(costEnabled := true, clusterMaxHourly := 25.0)
  }

  function OtherSpec(): Spec {
    ExampleSpec().(name := "other", targetName := "pay")
  }

  /** Five replicas cost 10 an hour, as do the other workload's, and a rule asks for seven. */
  function PricedInput(): Input {
    ExampleInput(0, 5, 7, Written).(workloadCost := Some(WorkloadCost(10.0, 0.0)), othersHourly := 10.0)
  }

  /** The limit is checked before the slot is taken, so even one slot does not keep two cycles from
      exceeding it together: the second asks, the first runs from start to end, and the second then
      gets its slot, for a cost that its check did not see. */
  lemma TogetherOverLimit()
    ensures var cfg, first, second, i := LimitedConfig(), ExampleSpec(), OtherSpec(), PricedInput();
            var p := Plan(cfg, second, None, i);
            var (asked, live) := AskDependencies(cfg, second, i, p.s, map[]);
            var w := Cycle(cfg, first, World(5, None, live), i);
            && p.Continue? && asked.Continue? && w.specReplicas == 7
            && AskSlot(cfg, second, i, p.s, w.table).0.Continue?
            && p.s.validation.Some? && p.s.validation.value.validated == 7
            && HourlyCost(i, 5) == i.othersHourly && HourlyCost(i, 5) + HourlyCost(i, 5) <= cfg.clusterMaxHourly
            && HourlyCost(i, 7) + HourlyCost(i, 7) > cfg.clusterMaxHourly
  {
    hide Plan, Cycle;
    PricedPlan(ExampleSpec());
    PricedPlan(OtherSpec());
    PricedChange();
    assert Cleanup(map[], 0) == map[];
  }

  lemma PricedPlan(spec: Spec)
    requires spec == ExampleSpec() || spec == OtherSpec()
    ensures var i := PricedInput();
            var p := Plan(LimitedConfig(), spec, None, i);
            && p.Continue? && p.s.bundle == i.bundle && p.s.validation.Some? && p.s.validation.value.validated == 7
            && !ExceedsClusterBudget(LimitedConfig(), i, p.s)
            && HourlyCost(i, 5) == 10.0 && HourlyCost(i, 7) == 14.0
  {
    hide Plan, ExceedsClusterBudget;
    ReactiveCycle(LimitedConfig(), spec, None, PricedInput());
    NoWrap(7, 5, spec.constraints.maxScaleStep);
    ExceedsExactly(LimitedConfig(), spec, None, PricedInput());
    assert 10.0 / 5 as real == 2.0;
  }

  lemma PricedChange()
    ensures var w := Cycle(LimitedConfig(), ExampleSpec(), World(5, None, map[]), PricedInput());
            w.specReplicas == 7 && w.table == map[]
  {
    hide Plan, ExceedsClusterBudget;
    var cfg, spec, i := LimitedConfig(), ExampleSpec(), PricedInput();
    PricedPlan(spec);
    SlotReturned(cfg, spec, World(5, None, map[]), i);
    assert Cleanup(map[], 0) == map[];
    ChangesExactly(cfg, spec, World(5, None, map[]), i);
    ChangeIsPlannedIf(cfg, spec, World(5, None, map[]), i);
  }

  lemma ChangeIsPlannedIf(cfg: Config, spec: Spec, w: World, i: Input)
    requires IsInt32(cfg.outOfRange)
    ensures Changes(cfg, spec, w, i) ==>
              Plan(cfg, spec, w.lastScale, i).s.validation.Some?
              && Cycle(cfg, spec, w, i).specReplicas == Plan(cfg, spec, w.lastScale, i).s.validation.value.validated
  {
    hide Plan, Cycle, Changes, CheckCoordination;
    if Changes(cfg, spec, w, i) { ChangeIsPlanned(cfg, spec, w, i); }
  }
}
