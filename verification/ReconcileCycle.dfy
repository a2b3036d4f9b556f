/** A whole reconcile cycle: plan, coordinate, patch the workload, write the status, give the
    slot back. */
module ReconcileCycle {
  import opened Common
  import opened Policy
  import opened Validator
  import opened Cost
  import opened Coordinator
  import opened Pipeline
  import opened PlanGuarantees

  /** What a cycle can change: the workload's desired count, the policy's stored time of the
      last scaling, and the slot table. */
  datatype World = World(specReplicas: int, lastScale: Option<Time>, table: Table)

  predicate MovesObserved(s: State) {
    s.bundle.Some? && s.validation.Some? && s.validation.value.validated != s.bundle.value.currentReplicas
  }

  predicate NeedsLiveCoordination(spec: Spec, i: Input, s: State) {
    s.bundle.Some? && !spec.dryRun && (MovesObserved(s) || (i.verticalDecided && i.verticalMutates))
  }

  predicate ExceedsClusterBudget(cfg: Config, i: Input, s: State) {
    && cfg.clusterMaxHourly > 0.0 && s.costEstimate.Some? && s.costEstimate.value.deltaHourly > 0.0
    && i.othersHourly + s.costEstimate.value.currentHourly + s.costEstimate.value.deltaHourly > cfg.clusterMaxHourly
  }

  /** The first of the two critical sections: defer to a dependency that is scaling, or to the
      cluster budget. */
  function AskDependencies(cfg: Config, spec: Spec, i: Input, s: State, table: Table): (Flow, Table)
    requires i.policies.Some?
  {
    var name := CoordinationWorkloadName(spec);
    var live := Cleanup(table, i.checkedAt);
    var stop := Defers(GraphOf(i.policies.value), name, live.Keys - {name}) || ExceedsClusterBudget(cfg, i, s);
    (if stop then Stop(s) else Continue(s), live)
  }

  /** The second: take a slot, or give way to a full table. */
  function AskSlot(cfg: Config, spec: Spec, i: Input, s: State, table: Table): (Flow, Table) {
    var name := CoordinationWorkloadName(spec);
    var (taken, ok) := Acquire(table, cfg.maxConcurrent, name, i.takenAt);
    (if ok then Continue(s.(slotHeld := true, slotWorkload := name)) else Stop(s), taken)
  }

  function CheckCoordination(cfg: Config, spec: Spec, i: Input, s: State, table: Table): (Flow, Table) {
    if !cfg.coordinated || !NeedsLiveCoordination(spec, i, s) then (Continue(s), table)
    else if i.policies.None? then (Fail(s), table)
    else
      var (asked, live) := AskDependencies(cfg, spec, i, s, table);
      if !asked.Continue? then (asked, live) else AskSlot(cfg, spec, i, s, live)
  }

  /** The patch compares with the desired count, the rest of the cycle with the observed one. */
  function Apply(spec: Spec, i: Input, validated: int, replicas: int): Option<int> {
    if i.getFails then None
    else if replicas == validated then Some(replicas)
    else if i.patchFails then None
    else Some(if spec.dryRun then replicas else validated)
  }

  /** A vertical change that fails comes after the replicas were patched. */
  function Actuate(spec: Spec, i: Input, s: State, replicas: int): (Flow, int) {
    if s.validation.None? && !i.verticalDecided then (Continue(s), replicas)
    else
      var applied := if s.validation.Some? then Apply(spec, i, s.validation.value.validated, replicas)
        else Some(replicas);
      if applied.None? then (Fail(s), replicas)
      else (if i.verticalDecided && i.verticalFails then Fail(s) else Continue(s), applied.value)
  }

  /** Timestamps are stored in whole units, rounded down. */
  function StoredTime(cfg: Config, t: Time): Time {
    if cfg.timestampUnit <= 1 then t else t - t % cfg.timestampUnit
  }

  /** What is stored is the last whole unit not after the reading. */
  lemma StoredExactly(cfg: Config, t: Time, stored: Time, units: int)
    requires stored == units * Max(cfg.timestampUnit, 1)
    ensures StoredTime(cfg, t) == stored <==> stored <= t < stored + Max(cfg.timestampUnit, 1)
  {
    var unit := Max(cfg.timestampUnit, 1);
    assert t == unit * (t / unit) + t % unit;
    SameUnit(unit, t / unit, units, t);
  }

  lemma SameUnit(unit: int, q: int, k: int, t: Time)
    requires unit >= 1 && unit * q <= t < unit * q + unit
    ensures k * unit <= t < k * unit + unit ==> k == q
  {
    if k < q {
      assert k * unit + unit == (k + 1) * unit <= q * unit by { Steeper(unit, k + 1, q); }
    } else if k > q {
      assert q * unit + unit == (q + 1) * unit <= k * unit by { Steeper(unit, q + 1, k); }
    }
  }

  lemma Steeper(unit: int, a: int, b: int)
    requires unit >= 0 && a <= b
    ensures a * unit <= b * unit
  {
  }

  /** The clock reading in the status that reaches the API server, if one does. A completed
      chain whose write fails is an error like any other, so the status is written again; a
      chain that stopped or failed earlier writes it once. */
  function StatusWritten(i: Input, completed: bool): Option<Time> {
    if i.firstWrite.Written? then Some(i.stampedAt)
    else if completed && i.firstWrite.WriteFailed? && i.secondWrite.Written? then Some(i.restampedAt)
    else None
  }

  function PersistStatus(cfg: Config, spec: Spec, i: Input, s: State, lastScale: Option<Time>,
                         completed: bool): Option<Time> {
    var written := StatusWritten(i, completed);
    if MovesObserved(s) && !spec.dryRun && written.Some? then Some(StoredTime(cfg, written.value)) else lastScale
  }

  function ReleaseCoordination(s: State, table: Table): Table {
    if s.slotHeld && s.slotWorkload != "" then Release(table, s.slotWorkload) else table
  }

  /** Coordination and actuation of a planned state: how they end, the desired count and the
      table just before the slot is given back. */
  function Execute(cfg: Config, spec: Spec, i: Input, s: State, w: World): (Flow, int, Table) {
    var (c, table) := CheckCoordination(cfg, spec, i, s, w.table);
    if !c.Continue? then (c, w.specReplicas, table)
    else
      var (a, replicas) := Actuate(spec, i, c.s, w.specReplicas);
      (a, replicas, table)
  }

  /** A cycle that does not get as far as a validated count leaves the world as it is. */
  function Cycle(cfg: Config, spec: Spec, w: World, i: Input): World
    requires IsInt32(cfg.outOfRange)
  {
    var p := Plan(cfg, spec, w.lastScale, i);
    if !p.Continue? then w
    else
      var (a, replicas, table) := Execute(cfg, spec, i, p.s, w);
      World(replicas, PersistStatus(cfg, spec, i, p.s, w.lastScale, a.Continue?), ReleaseCoordination(a.s, table))
  }

  // ----- what one cycle does to the world -----

  ghost predicate Changes(cfg: Config, spec: Spec, w: World, i: Input)
    requires IsInt32(cfg.outOfRange)
  {
    Cycle(cfg, spec, w, i).specReplicas != w.specReplicas
  }

  /** The observed count is the desired one. */
  ghost predicate Settled(w: World, i: Input) {
    i.bundle.Some? ==> i.bundle.value.currentReplicas == w.specReplicas
  }

  /** The cycle's status reached the API server. */
  ghost predicate Lands(cfg: Config, spec: Spec, w: World, i: Input)
    requires IsInt32(cfg.outOfRange)
  {
    var p := Plan(cfg, spec, w.lastScale, i);
    p.Continue? ==> StatusWritten(i, Execute(cfg, spec, i, p.s, w).0.Continue?).Some?
  }

  /** The same from the inputs of a cycle that changes the count: the first write lands, or it
      fails after the whole chain went through and the second one lands. */
  predicate StatusStored(i: Input) {
    i.firstWrite.Written?
    || (i.firstWrite.WriteFailed? && i.secondWrite.Written? && !(i.verticalDecided && i.verticalFails))
  }

  lemma LandsExactly(cfg: Config, spec: Spec, w: World, i: Input)
    requires IsInt32(cfg.outOfRange) && Changes(cfg, spec, w, i)
    ensures Lands(cfg, spec, w, i) <==> StatusStored(i)
  {
    ChangeIsPlanned(cfg, spec, w, i);
    hide Plan, CheckCoordination;
  }

  /** What planning establishes for the rest of the cycle. */
  lemma Planned(cfg: Config, spec: Spec, lastScale: Option<Time>, i: Input)
    requires IsInt32(cfg.outOfRange)
    ensures var p := Plan(cfg, spec, lastScale, i);
            p.Continue? ==>
              && p.s.bundle == i.bundle && i.bundle.Some? && p.s.validation.Some? && !p.s.slotHeld
              && ValidateSpec(spec) && !i.deleting && !i.updateFails && !i.frozen
              && (lastScale.Some? ==> i.now - lastScale.value >= spec.cooldown)
  {
    hide Decide, FetchDecision, CheckOscillation, CheckRollback;
    GatherKeepsBundle(spec, lastScale, i);
    var g := Gather(spec, lastScale, i);
    if g.Continue? {
      DecidesFinalTarget(cfg, spec, i, g.s);
      DecideTakesNoSlot(cfg, spec, i, g.s);
    }
  }

  lemma DecideTakesNoSlot(cfg: Config, spec: Spec, i: Input, s: State)
    requires Gathered(s) && IsInt32(cfg.outOfRange)
    ensures !Decide(cfg, spec, i, s).s.slotHeld
  {
    hide EstimateCost, ResolveDecisionState;
    var r1 := ResolveDecisionState(cfg, spec, s, false, false);
    ResolveStage(cfg, spec, s, false, false);
    if r1.Continue? {
      var s2 := EstimateCost(cfg, spec, i, r1.s).s;
      assert s2.slotHeld == r1.s.slotHeld by { EstimateTakesNoSlot(cfg, spec, i, r1.s); }
      var s3 := CheckApproval(cfg, i, s2).s;
      ResolveStage(cfg, spec, s3, true, true);
    }
  }

  lemma EstimateTakesNoSlot(cfg: Config, spec: Spec, i: Input, s: State)
    requires s.bundle.Some? && IsInt32(cfg.outOfRange)
    ensures EstimateCost(cfg, spec, i, s).s.slotHeld == s.slotHeld
  {
  }

  /** A dry run changes neither the workload, nor the stored time, nor the slot table. */
  lemma DryRunChangesNothing(cfg: Config, spec: Spec, w: World, i: Input)
    requires IsInt32(cfg.outOfRange) && spec.dryRun
    ensures Cycle(cfg, spec, w, i) == w
  {
    hide Plan;
    Planned(cfg, spec, w.lastScale, i);
  }

  /** A change is to the validated count of a plan, made after coordination let it pass. */
  lemma ChangeIsPlanned(cfg: Config, spec: Spec, w: World, i: Input)
    requires IsInt32(cfg.outOfRange) && Changes(cfg, spec, w, i)
    ensures var p := Plan(cfg, spec, w.lastScale, i);
            && p.Continue? && p.s.bundle == i.bundle && i.bundle.Some? && p.s.validation.Some? && !spec.dryRun
            && Cycle(cfg, spec, w, i).specReplicas == p.s.validation.value.validated
            && CheckCoordination(cfg, spec, i, p.s, w.table).0.Continue?
  {
    hide Plan, CheckCoordination;
    Planned(cfg, spec, w.lastScale, i);
    var p := Plan(cfg, spec, w.lastScale, i);
    var c := CheckCoordination(cfg, spec, i, p.s, w.table).0;
    assert c.Continue? ==> c.s.validation == p.s.validation by { CoordinationKeepsPlan(cfg, spec, i, p.s, w.table); }
  }

  lemma CoordinationKeepsPlan(cfg: Config, spec: Spec, i: Input, s: State, table: Table)
    ensures var c := CheckCoordination(cfg, spec, i, s, table).0;
            c.s.validation == s.validation && c.s.bundle == s.bundle
  {
    hide Cleanup, Acquire, Defers, GraphOf;
  }

  /** Every change whose status lands is stamped with that status's time, provided the
      observed count was the desired one. */
  lemma AppliedIsStamped(cfg: Config, spec: Spec, w: World, i: Input)
    requires IsInt32(cfg.outOfRange) && Changes(cfg, spec, w, i) && Settled(w, i) && StatusStored(i)
    ensures Cycle(cfg, spec, w, i).lastScale
            == Some(StoredTime(cfg, if i.firstWrite.Written? then i.stampedAt else i.restampedAt))
  {
    ChangeIsPlanned(cfg, spec, w, i);
    LandsExactly(cfg, spec, w, i);
    hide Plan, Execute, StoredTime;
  }

  /** In general a change is stamped exactly when its status lands and the plan differs from
      what was observed. */
  lemma StampedExactly(cfg: Config, spec: Spec, w: World, i: Input)
    requires IsInt32(cfg.outOfRange) && Changes(cfg, spec, w, i)
    requires w.lastScale.Some? ==>
               w.lastScale.value < StoredTime(cfg, i.stampedAt) && w.lastScale.value < StoredTime(cfg, i.restampedAt)
    ensures i.bundle.Some?
            && (Cycle(cfg, spec, w, i).lastScale != w.lastScale
                <==> StatusStored(i) && Cycle(cfg, spec, w, i).specReplicas != i.bundle.value.currentReplicas)
  {
    ChangeIsPlanned(cfg, spec, w, i);
    LandsExactly(cfg, spec, w, i);
    hide Plan, Execute, StoredTime;
  }

  /** The converse of stamping fails for every deferral and every failed patch: a planned move
      that coordination stops or refuses, or whose Get or Patch fails, leaves the count alone
      and starts the cooldown all the same. */
  lemma DeferredIsStamped(cfg: Config, spec: Spec, w: World, i: Input)
    requires IsInt32(cfg.outOfRange) && i.firstWrite.Written? && !spec.dryRun
    requires var p := Plan(cfg, spec, w.lastScale, i);
             && p.Continue? && MovesObserved(p.s)
             && (!CheckCoordination(cfg, spec, i, p.s, w.table).0.Continue? || i.getFails || i.patchFails)
    ensures var w' := Cycle(cfg, spec, w, i);
            w'.specReplicas == w.specReplicas && w'.lastScale == Some(StoredTime(cfg, i.stampedAt))
  {
    hide Plan, StoredTime, CheckCoordination;
  }

  /** When a planned cycle moves the stored time, and to what: it means to move the observed count,
      outside dry run, and a status write is stored. That is the first one, or, if it failed and the
      rest of the cycle went through, the second. */
  lemma StampsExactly(cfg: Config, spec: Spec, w: World, i: Input)
    requires IsInt32(cfg.outOfRange) && Plan(cfg, spec, w.lastScale, i).Continue?
    ensures var p := Plan(cfg, spec, w.lastScale, i);
            && i.bundle.Some? && p.s.validation.Some?
            && var v := p.s.validation.value.validated;
               var through := && CheckCoordination(cfg, spec, i, p.s, w.table).0.Continue?
                              && !i.getFails && (v == w.specReplicas || !i.patchFails)
                              && !(i.verticalDecided && i.verticalFails);
               var again := through && i.firstWrite.WriteFailed? && i.secondWrite.Written?;
               Cycle(cfg, spec, w, i).lastScale
               == if v == i.bundle.value.currentReplicas || spec.dryRun || !(i.firstWrite.Written? || again)
                  then w.lastScale
                  else Some(StoredTime(cfg, if i.firstWrite.Written? then i.stampedAt else i.restampedAt))
  {
    hide Plan, CheckCoordination, StoredTime;
    Planned(cfg, spec, w.lastScale, i);
    CoordinationKeepsPlan(cfg, spec, i, Plan(cfg, spec, w.lastScale, i).s, w.table);
  }

  /** What a stamp means: a cycle that moves the stored time has scaled the workload, unless
      coordination stopped it, the Get or the Patch failed, or the desired count was already
      the validated one. */
  lemma StampMeansScaling(cfg: Config, spec: Spec, w: World, i: Input)
    requires IsInt32(cfg.outOfRange) && Cycle(cfg, spec, w, i).lastScale != w.lastScale
    ensures var p := Plan(cfg, spec, w.lastScale, i);
            && p.Continue? && p.s.validation.Some?
            && (Cycle(cfg, spec, w, i).specReplicas == w.specReplicas
                <==> || !CheckCoordination(cfg, spec, i, p.s, w.table).0.Continue?
                     || i.getFails || i.patchFails || p.s.validation.value.validated == w.specReplicas)
  {
    hide Plan, CheckCoordination, StoredTime;
    Planned(cfg, spec, w.lastScale, i);
    CoordinationKeepsPlan(cfg, spec, i, Plan(cfg, spec, w.lastScale, i).s, w.table);
  }

  /** With a coordinator, a change is made under a slot exactly when the plan differs from what
      was observed or a vertical change needs the slot anyway; the table then lists the
      workload's slot, taken in this cycle. */
  lemma ChangeUnderSlot(cfg: Config, spec: Spec, w: World, i: Input)
    requires IsInt32(cfg.outOfRange) && cfg.coordinated && Changes(cfg, spec, w, i)
    ensures var p := Plan(cfg, spec, w.lastScale, i);
            var (a, replicas, table) := Execute(cfg, spec, i, p.s, w);
            var name := CoordinationWorkloadName(spec);
            && i.bundle.Some?
            && (a.s.slotHeld <==>
                  Cycle(cfg, spec, w, i).specReplicas != i.bundle.value.currentReplicas
                    || (i.verticalDecided && i.verticalMutates))
            && (a.s.slotHeld ==> a.s.slotWorkload == name && name in table && table[name] == i.takenAt)
  {
    hide Plan, CheckCoordination;
    ChangeIsPlanned(cfg, spec, w, i);
    var s := Plan(cfg, spec, w.lastScale, i).s;
    Planned(cfg, spec, w.lastScale, i);
    if NeedsLiveCoordination(spec, i, s) {
      CoordinationTakesSlot(cfg, spec, i, s, w.table);
    } else {
      assert CheckCoordination(cfg, spec, i, s, w.table) == (Continue(s), w.table) by {
        NoCoordination(cfg, spec, i, s, w.table);
      }
    }
  }

  lemma NoCoordination(cfg: Config, spec: Spec, i: Input, s: State, table: Table)
    requires !cfg.coordinated || !NeedsLiveCoordination(spec, i, s)
    ensures CheckCoordination(cfg, spec, i, s, table) == (Continue(s), table)
  {
  }

  lemma CoordinationTakesSlot(cfg: Config, spec: Spec, i: Input, s: State, table: Table)
    requires cfg.coordinated && NeedsLiveCoordination(spec, i, s)
    ensures var (c, taken) := CheckCoordination(cfg, spec, i, s, table);
            var name := CoordinationWorkloadName(spec);
            c.Continue? ==> c.s.slotHeld && c.s.slotWorkload == name && name in taken && taken[name] == i.takenAt
  {
    hide Cleanup, Defers, GraphOf, ExceedsClusterBudget;
  }

  /** What coordination does to the table: expired entries may go, and only the cycle's own
      may come, which it then holds. */
  lemma CoordinationTable(cfg: Config, spec: Spec, i: Input, s: State, table: Table)
    requires !s.slotHeld
    ensures var (c, after) := CheckCoordination(cfg, spec, i, s, table);
            var name := CoordinationWorkloadName(spec);
            && (c.s.slotHeld ==> c.s.slotWorkload == name)
            && (forall n :: n in after && (n != name || !c.s.slotHeld) ==> n in table && after[n] == table[n])
            && (forall n :: n in table && table[n] >= Max(i.checkedAt, i.takenAt) - SLOT_TTL ==> n in after)
  {
    hide Defers, GraphOf, ExceedsClusterBudget;
  }

  /** However the cycle ends, the table then lists nothing it did not list before: no entry is
      added or refreshed, and at most expired ones and the cycle's own are gone. */
  lemma SlotReturned(cfg: Config, spec: Spec, w: World, i: Input)
    requires IsInt32(cfg.outOfRange) && CoordinationWorkloadName(spec) != ""
    ensures forall n :: n in Cycle(cfg, spec, w, i).table ==>
              n in w.table && Cycle(cfg, spec, w, i).table[n] == w.table[n]
    ensures forall n :: n in w.table && n != CoordinationWorkloadName(spec)
                        && w.table[n] >= Max(i.checkedAt, i.takenAt) - SLOT_TTL ==>
              n in Cycle(cfg, spec, w, i).table
  {
    hide Plan, CheckCoordination, CoordinationWorkloadName;
    Planned(cfg, spec, w.lastScale, i);
    var p := Plan(cfg, spec, w.lastScale, i);
    if p.Continue? {
      CoordinationTable(cfg, spec, i, p.s, w.table);
    }
  }

  /** Every change is a safe move from the observed count, and affordable if it goes up. */
  ghost predicate SafeChange(cfg: Config, spec: Spec, i: Input, target: int, after: int) {
    && i.bundle.Some?
    && var current := i.bundle.value.currentReplicas;
       && SafeMove(after, target, current, spec)
       && (cfg.costEnabled && cfg.budgetEnabled && i.workloadCost.Some? && spec.cost.Some?
             && after > current && after != spec.constraints.minReplicas ==>
             current >= 1 && BudgetAllows(spec.cost.value, i.workloadCost.value, current, after))
  }

  lemma ChangeIsSafe(cfg: Config, spec: Spec, w: World, i: Input)
    requires IsInt32(cfg.outOfRange) && Accepted(spec) && Changes(cfg, spec, w, i)
    requires i.bundle.Some? ==> 0 <= i.bundle.value.currentReplicas && IsInt32(i.bundle.value.currentReplicas)
    ensures var p := Plan(cfg, spec, w.lastScale, i);
            p.s.decision.Some? && SafeChange(cfg, spec, i, p.s.decision.value.targetReplicas,
                                             Cycle(cfg, spec, w, i).specReplicas)
  {
    ChangeIsPlanned(cfg, spec, w, i);
    GatherKeepsBundle(spec, w.lastScale, i);
    hide Cycle, Changes, Gather, Decide, SafeMove, BudgetAllows, Accepted, CheckCoordination, ValidateFor;
    var g := Gather(spec, w.lastScale, i).s;
    CycleSafety(cfg, spec, i, g);
    if cfg.costEnabled && cfg.budgetEnabled && i.workloadCost.Some? && spec.cost.Some? {
      HardBudget(cfg, spec, i, g);
    }
  }
}
