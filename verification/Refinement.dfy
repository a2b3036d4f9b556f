/** The reconciler's calls on the coordinator are the steps of the interleaving model, so what
    is proved of every interleaving holds of the cycles. */
module Refinement {
  import opened Common
  import opened Policy
  import opened Coordinator
  import opened Pipeline
  import opened ReconcileCycle
  import P = Protocol

  /** Reconcile p of the interleaving model is this policy's, under this coordinator. */
  ghost predicate Matches(c: P.Config, p: nat, cfg: Config, spec: Spec, i: Input) {
    && p in c.names && c.names[p] == CoordinationWorkloadName(spec) && c.names[p] != ""
    && c.maxConcurrent == cfg.maxConcurrent && (i.policies.Some? ==> c.graph == GraphOf(i.policies.value))
  }

  /** The steps applied one after the other. */
  function ApplyAll(c: P.Config, s: P.State, steps: seq<P.Step>): P.State
    decreases |steps|
  {
    if steps == [] then s else ApplyAll(c, P.Apply(c, s, steps[0]), steps[1..])
  }

  lemma {:induction false} RunThenApply(c: P.Config, steps: seq<P.Step>, more: seq<P.Step>)
    ensures P.Run(c, steps + more) == ApplyAll(c, P.Run(c, steps), more)
    decreases |more|
  {
    hide P.Apply;
    if more == [] {
      assert steps + more == steps;
    } else {
      P.Unroll(c, steps, more[0]);
      RunThenApply(c, steps + [more[0]], more[1..]);
      assert steps + more == steps + [more[0]] + more[1..];
    }
  }

  // ----- one call, one step, whatever others have done to the table in between -----

  /** Snapshot, dependency check and cluster budget are one Check, after which a cycle that was
      told to wait leaves. */
  lemma AskDependenciesIsCheck(c: P.Config, p: nat, cfg: Config, spec: Spec, i: Input, planned: State, s: P.State)
    requires Matches(c, p, cfg, spec, i) && i.policies.Some?
    requires p in s.phases && s.phases[p].Deciding? && s.clock == i.checkedAt
    ensures var (asked, live) := AskDependencies(cfg, spec, i, planned, s.table);
            if asked.Continue? then P.Apply(c, s, P.Check(p)) == P.MoveTo(s.(table := live), p, P.Cleared)
            else ApplyAll(c, s, [P.Check(p), P.Finish(p)]) == P.MoveTo(s.(table := live), p, P.Idle)
  {
    hide Cleanup, GraphOf, ExceedsClusterBudget;
    var (asked, live) := AskDependencies(cfg, spec, i, planned, s.table);
    if !asked.Continue? {
      var s1 := P.Apply(c, s, P.Check(p));
      TwoSteps(c, s, P.Check(p), P.Finish(p));
      assert P.Apply(c, s1, P.Finish(p)).phases == s.phases[p := P.Idle];
    }
  }

  lemma OneStep(c: P.Config, s: P.State, a: P.Step)
    ensures ApplyAll(c, s, [a]) == P.Apply(c, s, a)
  {
    hide P.Apply;
    assert ApplyAll(c, P.Apply(c, s, a), []) == P.Apply(c, s, a);
  }

  lemma TwoSteps(c: P.Config, s: P.State, a: P.Step, b: P.Step)
    ensures ApplyAll(c, s, [a, b]) == P.Apply(c, P.Apply(c, s, a), b)
  {
    hide P.Apply;
    assert [a, b][1..] == [b];
    OneStep(c, P.Apply(c, s, a), b);
  }

  lemma {:induction false} ApplyConcat(c: P.Config, s: P.State, a: seq<P.Step>, b: seq<P.Step>)
    ensures ApplyAll(c, s, a + b) == ApplyAll(c, ApplyAll(c, s, a), b)
    decreases |a|
  {
    hide P.Apply;
    if a == [] {
      assert a + b == b;
    } else {
      assert (a + b)[1..] == a[1..] + b;
      ApplyConcat(c, P.Apply(c, s, a[0]), a[1..], b);
    }
  }

  /** Asking for the slot is one Take. */
  lemma AskSlotIsTake(c: P.Config, p: nat, cfg: Config, spec: Spec, i: Input, planned: State, s: P.State)
    requires Matches(c, p, cfg, spec, i) && p in s.phases && s.phases[p].Cleared? && s.clock == i.takenAt
    ensures var (asked, taken) := AskSlot(cfg, spec, i, planned, s.table);
            && P.Apply(c, s, P.Take(p))
               == P.MoveTo(s.(table := taken), p, if asked.Continue? then P.Holding(i.takenAt) else P.Idle)
            && (asked.Continue? ==> asked.s.slotHeld && asked.s.slotWorkload == c.names[p])
  {
    hide Cleanup, GraphOf;
  }

  /** The deferred release is one Finish. */
  lemma ReleaseIsFinish(c: P.Config, p: nat, held: State, s: P.State)
    requires p in c.names && c.names[p] != "" && held.slotHeld && held.slotWorkload == c.names[p]
    requires p in s.phases && s.phases[p].Holding?
    ensures P.Apply(c, s, P.Finish(p)) == P.MoveTo(s.(table := ReleaseCoordination(held, s.table)), p, P.Idle)
  {
  }

  // ----- a whole cycle -----

  /** Waiting until `at`, and then one or more steps. */
  function WaitAnd(clock: Time, at: Time, steps: seq<P.Step>): seq<P.Step>
    requires clock <= at
  {
    [P.Tick(at - clock)] + steps
  }

  lemma WaitThenApply(c: P.Config, s: P.State, at: Time, steps: seq<P.Step>)
    requires s.clock <= at
    ensures ApplyAll(c, s, WaitAnd(s.clock, at, steps)) == ApplyAll(c, s.(clock := at), steps)
  {
    hide P.Apply, ApplyAll;
    var tick := P.Tick(at - s.clock);
    TickSetsClock(c, s, at);
    ApplyConcat(c, s, [tick], steps);
    OneStep(c, s, tick);
  }

  lemma TickSetsClock(c: P.Config, s: P.State, at: Time)
    requires s.clock <= at
    ensures P.Apply(c, s, P.Tick(at - s.clock)) == s.(clock := at)
  {
  }

  /** The cycle gets as far as asking the coordinator. */
  predicate Asks(spec: Spec, i: Input, plan: Flow) {
    plan.Continue? && NeedsLiveCoordination(spec, i, plan.s) && i.policies.Some?
  }

  /** From the slot to the end. */
  function HeldSteps(i: Input, p: nat, changes: bool): seq<P.Step>
    requires i.takenAt <= i.actuatedAt
  {
    WaitAnd(i.takenAt, i.actuatedAt, if changes then [P.Actuate(p), P.Finish(p)] else [P.Finish(p)])
  }

  /** From the dependency check to the end. */
  function AskingSteps(cfg: Config, spec: Spec, w: World, i: Input, p: nat): seq<P.Step>
    requires IsInt32(cfg.outOfRange) && i.checkedAt <= i.takenAt <= i.actuatedAt && i.policies.Some?
  {
    var plan := Plan(cfg, spec, w.lastScale, i);
    if AskDependencies(cfg, spec, i, plan.s, w.table).0.Continue? then
      [P.Check(p)]
      + WaitAnd(i.checkedAt, i.takenAt, [P.Take(p)]
                + HeldSteps(i, p, Cycle(cfg, spec, w, i).specReplicas != w.specReplicas))
    else [P.Check(p), P.Finish(p)]
  }

  /** The steps of one cycle: it starts, waits for its clock readings, asks, patches and leaves. */
  function CycleSteps(cfg: Config, spec: Spec, w: World, i: Input, p: nat, clock: Time): seq<P.Step>
    requires IsInt32(cfg.outOfRange) && clock <= i.checkedAt <= i.takenAt <= i.actuatedAt
  {
    [P.Start(p)]
    + (if Asks(spec, i, Plan(cfg, spec, w.lastScale, i))
       then WaitAnd(clock, i.checkedAt, AskingSteps(cfg, spec, w, i, p))
       else [P.Finish(p)])
  }

  /** What the cycle contributes to the log of changes: its change, under the slot taken in this
      cycle and listed, if it made one under a slot. */
  ghost function Logged(cfg: Config, spec: Spec, w: World, i: Input, p: nat): seq<P.Change>
    requires IsInt32(cfg.outOfRange)
  {
    var plan := Plan(cfg, spec, w.lastScale, i);
    if plan.Continue? && Execute(cfg, spec, i, plan.s, w).0.s.slotHeld && Changes(cfg, spec, w, i)
    then [P.Change(p, i.actuatedAt, i.takenAt, true)] else []
  }

  /** From any state of the interleaving model in which the policy is idle, its cycle is a run of
      the model's steps: they leave the table that the cycle leaves and everybody where they
      were, and they log the cycle's change exactly if it made one under a slot. */
  lemma CycleIsProtocolRun(c: P.Config, p: nat, cfg: Config, spec: Spec, w: World, i: Input, s: P.State)
    requires IsInt32(cfg.outOfRange) && cfg.coordinated && Matches(c, p, cfg, spec, i)
    requires s.clock <= i.checkedAt <= i.takenAt <= i.actuatedAt
    requires p in s.phases && s.phases[p].Idle? && s.table == w.table
    ensures var s' := ApplyAll(c, s, CycleSteps(cfg, spec, w, i, p, s.clock));
            && s'.table == Cycle(cfg, spec, w, i).table && s'.phases == s.phases
            && s'.changes == s.changes + Logged(cfg, spec, w, i, p)
  {
    hide Plan, Cycle, AskingSteps, Logged, NeedsLiveCoordination, ApplyAll, P.Apply, WaitAnd;
    var plan := Plan(cfg, spec, w.lastScale, i);
    StartAndLeave(c, p, s);
    var s1 := P.MoveTo(s, p, P.Deciding);
    OneStep(c, s, P.Start(p));
    if Asks(spec, i, plan) {
      ApplyConcat(c, s, [P.Start(p)], WaitAnd(s.clock, i.checkedAt, AskingSteps(cfg, spec, w, i, p)));
      WaitThenApply(c, s1, i.checkedAt, AskingSteps(cfg, spec, w, i, p));
      AskingIsProtocolRun(c, p, cfg, spec, w, i, s1.(clock := i.checkedAt));
      assert s.phases[p := P.Deciding][p := P.Idle] == s.phases;
    } else {
      TwoSteps(c, s, P.Start(p), P.Finish(p));
      assert [P.Start(p)] + [P.Finish(p)] == [P.Start(p), P.Finish(p)];
      NotAsking(cfg, spec, w, i, p);
    }
  }

  lemma StartAndLeave(c: P.Config, p: nat, s: P.State)
    requires p in c.names && p in s.phases && s.phases[p].Idle?
    ensures P.Apply(c, s, P.Start(p)) == P.MoveTo(s, p, P.Deciding)
    ensures P.Apply(c, P.MoveTo(s, p, P.Deciding), P.Finish(p)) == s
  {
    assert s.phases[p := P.Deciding][p := P.Idle] == s.phases;
  }

  /** A cycle that asks for nothing leaves the table alone and makes no change under a slot. */
  lemma NotAsking(cfg: Config, spec: Spec, w: World, i: Input, p: nat)
    requires IsInt32(cfg.outOfRange) && cfg.coordinated && !Asks(spec, i, Plan(cfg, spec, w.lastScale, i))
    ensures Cycle(cfg, spec, w, i).table == w.table && Logged(cfg, spec, w, i, p) == []
  {
    hide Plan;
    Planned(cfg, spec, w.lastScale, i);
  }

  lemma AskingIsProtocolRun(c: P.Config, p: nat, cfg: Config, spec: Spec, w: World, i: Input, s: P.State)
    requires IsInt32(cfg.outOfRange) && cfg.coordinated && Matches(c, p, cfg, spec, i)
    requires Asks(spec, i, Plan(cfg, spec, w.lastScale, i))
    requires s.clock == i.checkedAt <= i.takenAt <= i.actuatedAt
    requires p in s.phases && s.phases[p].Deciding? && s.table == w.table
    ensures var s' := ApplyAll(c, s, AskingSteps(cfg, spec, w, i, p));
            && s'.table == Cycle(cfg, spec, w, i).table && s'.phases == s.phases[p := P.Idle]
            && s'.changes == s.changes + Logged(cfg, spec, w, i, p)
  {
    hide Plan, Cycle, Logged, AskDependencies, NeedsLiveCoordination, ApplyAll, P.Apply, WaitAnd, HeldSteps;
    hide ReleaseCoordination;
    var plan := Plan(cfg, spec, w.lastScale, i).s;
    var (asked, live) := AskDependencies(cfg, spec, i, plan, w.table);
    AskDependenciesIsCheck(c, p, cfg, spec, i, plan, s);
    if asked.Continue? {
      var rest := [P.Take(p)] + HeldSteps(i, p, Cycle(cfg, spec, w, i).specReplicas != w.specReplicas);
      var s1 := P.MoveTo(s.(table := live), p, P.Cleared);
      OneStep(c, s, P.Check(p));
      ApplyConcat(c, s, [P.Check(p)], WaitAnd(i.checkedAt, i.takenAt, rest));
      WaitThenApply(c, s1, i.takenAt, rest);
      TakingIsProtocolRun(c, p, cfg, spec, w, i, s1.(clock := i.takenAt));
      assert s.phases[p := P.Cleared][p := P.Idle] == s.phases[p := P.Idle];
    } else {
      Stopped(cfg, spec, w, i, p);
    }
  }

  /** A cycle that is told to wait leaves the expired entries out and makes no change. */
  lemma Stopped(cfg: Config, spec: Spec, w: World, i: Input, p: nat)
    requires IsInt32(cfg.outOfRange) && cfg.coordinated && Asks(spec, i, Plan(cfg, spec, w.lastScale, i))
    requires !AskDependencies(cfg, spec, i, Plan(cfg, spec, w.lastScale, i).s, w.table).0.Continue?
    ensures Cycle(cfg, spec, w, i).table == AskDependencies(cfg, spec, i, Plan(cfg, spec, w.lastScale, i).s, w.table).1
    ensures Logged(cfg, spec, w, i, p) == []
  {
    Planned(cfg, spec, w.lastScale, i);
    hide Plan, Cleanup, Defers, GraphOf, ExceedsClusterBudget, StatusWritten, Acquire;
  }

  /** From asking for the slot to the end, once the check has let the cycle pass. */
  lemma TakingIsProtocolRun(c: P.Config, p: nat, cfg: Config, spec: Spec, w: World, i: Input, s: P.State)
    requires IsInt32(cfg.outOfRange) && cfg.coordinated && Matches(c, p, cfg, spec, i)
    requires Asks(spec, i, Plan(cfg, spec, w.lastScale, i))
    requires AskDependencies(cfg, spec, i, Plan(cfg, spec, w.lastScale, i).s, w.table).0.Continue?
    requires s.table == AskDependencies(cfg, spec, i, Plan(cfg, spec, w.lastScale, i).s, w.table).1
    requires s.clock == i.takenAt <= i.actuatedAt && p in s.phases && s.phases[p].Cleared?
    ensures var changes := Cycle(cfg, spec, w, i).specReplicas != w.specReplicas;
            var s' := ApplyAll(c, s, [P.Take(p)] + HeldSteps(i, p, changes));
            && s'.table == Cycle(cfg, spec, w, i).table && s'.phases == s.phases[p := P.Idle]
            && s'.changes == s.changes + Logged(cfg, spec, w, i, p)
  {
    hide Plan, Cycle, Logged, AskDependencies, AskSlot, NeedsLiveCoordination, ApplyAll, P.Apply, WaitAnd;
    hide ReleaseCoordination;
    var plan := Plan(cfg, spec, w.lastScale, i).s;
    var (asked, taken) := AskSlot(cfg, spec, i, plan, s.table);
    AskSlotIsTake(c, p, cfg, spec, i, plan, s);
    SlotOutcome(cfg, spec, w, i);
    ExecutedCycle(cfg, spec, w, i, p, asked, taken);
    var changes := Cycle(cfg, spec, w, i).specReplicas != w.specReplicas;
    var tail := if changes then [P.Actuate(p), P.Finish(p)] else [P.Finish(p)];
    var s1 := P.Apply(c, s, P.Take(p));
    OneStep(c, s, P.Take(p));
    ApplyConcat(c, s, [P.Take(p)], HeldSteps(i, p, changes));
    WaitThenApply(c, s1, i.actuatedAt, tail);
    var s2 := s1.(clock := i.actuatedAt);
    if asked.Continue? {
      HoldingIsProtocolRun(c, p, asked.s, s2, changes);
      assert s.phases[p := P.Holding(i.takenAt)][p := P.Idle] == s.phases[p := P.Idle];
    } else {
      OneStep(c, s2, P.Finish(p));
      IdleStays(c, p, s2);
      NoSlotNothingReleased(asked.s, taken);
    }
  }

  lemma IdleStays(c: P.Config, p: nat, s: P.State)
    requires p in c.names && p in s.phases && s.phases[p].Idle?
    ensures P.Apply(c, s, P.Finish(p)) == s
  {
  }

  lemma NoSlotNothingReleased(s: State, table: Table)
    requires !s.slotHeld
    ensures ReleaseCoordination(s, table) == table
  {
  }

  /** Once the check has let the cycle pass, coordination ends as asking for the slot does. */
  lemma SlotOutcome(cfg: Config, spec: Spec, w: World, i: Input)
    requires IsInt32(cfg.outOfRange) && cfg.coordinated && Asks(spec, i, Plan(cfg, spec, w.lastScale, i))
    requires AskDependencies(cfg, spec, i, Plan(cfg, spec, w.lastScale, i).s, w.table).0.Continue?
    ensures var plan := Plan(cfg, spec, w.lastScale, i).s;
            var (asked, taken) := AskSlot(cfg, spec, i, plan, AskDependencies(cfg, spec, i, plan, w.table).1);
            && CheckCoordination(cfg, spec, i, plan, w.table) == (asked, taken)
            && (if asked.Continue? then asked.s.slotHeld && CoordinationWorkloadName(spec) in taken
                else !asked.s.slotHeld)
  {
    Planned(cfg, spec, w.lastScale, i);
    hide Plan, Cleanup, Defers, GraphOf, ExceedsClusterBudget;
  }

  /** The cycle's table and log, from how coordination ended. */
  lemma ExecutedCycle(cfg: Config, spec: Spec, w: World, i: Input, p: nat, asked: Flow, taken: Table)
    requires IsInt32(cfg.outOfRange) && Plan(cfg, spec, w.lastScale, i).Continue?
    requires CheckCoordination(cfg, spec, i, Plan(cfg, spec, w.lastScale, i).s, w.table) == (asked, taken)
    requires if asked.Continue? then asked.s.slotHeld else !asked.s.slotHeld
    ensures Cycle(cfg, spec, w, i).table == ReleaseCoordination(asked.s, taken)
    ensures !asked.Continue? ==> Cycle(cfg, spec, w, i).specReplicas == w.specReplicas
    ensures Logged(cfg, spec, w, i, p)
            == if asked.Continue? && Changes(cfg, spec, w, i) then [P.Change(p, i.actuatedAt, i.takenAt, true)] else []
  {
    hide Plan, CheckCoordination, StatusWritten;
  }

  /** The patch, if there is one, and the release. */
  lemma HoldingIsProtocolRun(c: P.Config, p: nat, held: State, s: P.State, changes: bool)
    requires p in c.names && c.names[p] != "" && held.slotHeld && held.slotWorkload == c.names[p]
    requires p in s.phases && s.phases[p].Holding? && c.names[p] in s.table
    ensures var s' := ApplyAll(c, s, if changes then [P.Actuate(p), P.Finish(p)] else [P.Finish(p)]);
            && s'.table == ReleaseCoordination(held, s.table) && s'.phases == s.phases[p := P.Idle]
            && s'.changes == s.changes + (if changes then [P.Change(p, s.clock, s.phases[p].since, true)] else [])
  {
    if changes {
      var s1 := s.(changes := s.changes + [P.Change(p, s.clock, s.phases[p].since, true)]);
      assert P.Apply(c, s, P.Actuate(p)) == s1;
      TwoSteps(c, s, P.Actuate(p), P.Finish(p));
      ReleaseIsFinish(c, p, held, s1);
    } else {
      OneStep(c, s, P.Finish(p));
      ReleaseIsFinish(c, p, held, s);
    }
  }

  /** So a cycle on the table of any reachable state of any interleaving leaves the table of
      another reachable state, to which every theorem about the interleaving model applies. */
  lemma CycleStaysReachable(c: P.Config, p: nat, cfg: Config, spec: Spec, w: World, i: Input, steps: seq<P.Step>)
    requires IsInt32(cfg.outOfRange) && cfg.coordinated && Matches(c, p, cfg, spec, i) && P.DistinctNames(c)
    requires P.Run(c, steps).clock <= i.checkedAt <= i.takenAt <= i.actuatedAt
    requires p in P.Run(c, steps).phases && P.Run(c, steps).phases[p].Idle? && P.Run(c, steps).table == w.table
    ensures exists more :: P.Run(c, steps + more).table == Cycle(cfg, spec, w, i).table
    ensures cfg.maxConcurrent > 0 ==> |Cycle(cfg, spec, w, i).table| <= cfg.maxConcurrent
  {
    hide P.Apply, Cycle, Plan, CycleSteps, Logged;
    var s := P.Run(c, steps);
    var more := CycleSteps(cfg, spec, w, i, p, s.clock);
    CycleIsProtocolRun(c, p, cfg, spec, w, i, s);
    RunThenApply(c, steps, more);
    P.SlotSafety(c, steps + more);
  }
}
