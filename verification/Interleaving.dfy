/** Several policies' cycles on one coordinator, their calls interleaved in any order and with
    any plans: every such execution is a run of the interleaving model. */
module Interleaving {
  import opened Common
  import opened Policy
  import opened Coordinator
  import opened Pipeline
  import opened ReconcileCycle
  import opened Refinement
  import P = Protocol

  /** The policies of one operator, by reconcile, and the policies it lists. */
  datatype System = System(cfg: Config, specs: map<nat, Spec>, listed: seq<GraphPolicy>)

  /** Where a cycle stands between its calls on the coordinator. */
  datatype Stage =
    | Out
    | Planned(i: Input, s: State)
    | Passed(i: Input, s: State)
    | Holding(i: Input, s: State, since: Time)

  datatype Cluster = Cluster(table: Table, clock: Time, stages: map<nat, Stage>, changes: seq<P.Change>)

  /** One call, or time passing. Plans and the desired counts found are arbitrary. */
  datatype Call =
    | Wait(elapsed: nat)
    | Begin(pid: nat, i: Input, s: State)      // everything up to a plan that needs a slot
    | Ask(pid: nat)                            // ActiveWorkloads, ShouldDefer, cluster budget
    | Slot(pid: nat)                           // AcquireScalingSlot
    | Patch(pid: nat, replicas: int)           // Actuate, on the desired count it finds
    | Leave(pid: nat)                          // every way out, with the deferred release

  function Start(sys: System): Cluster {
    Cluster(map[], 0, map p | p in sys.specs :: Out, [])
  }

  function At(w: Cluster, p: nat, stage: Stage): Cluster {
    w.(stages := w.stages[p := stage])
  }

  /** One call does what the reconciler's step does on the table as it is then; a call that its
      cycle is not ready for changes nothing. */
  function Do(sys: System, w: Cluster, call: Call): Cluster {
    if call.Wait? then w.(clock := w.clock + call.elapsed)
    else if call.pid !in w.stages || call.pid !in sys.specs then w
    else
      var p, spec := call.pid, sys.specs[call.pid];
      match (call, w.stages[p])
      case (Begin(_, i, s), Out) =>
        if !s.slotHeld && NeedsLiveCoordination(spec, i, s) then At(w, p, Planned(i.(policies := Some(sys.listed)), s))
          else w
      case (Ask(_), Planned(i, s)) =>
        if i.policies.None? then w
        else
          var now := i.(checkedAt := w.clock);
          var (asked, live) := AskDependencies(sys.cfg, spec, now, s, w.table);
          At(w.(table := live), p, if asked.Continue? then Passed(now, s) else Out)
      case (Slot(_), Passed(i, s)) =>
        var now := i.(takenAt := w.clock);
        var (asked, taken) := AskSlot(sys.cfg, spec, now, s, w.table);
        At(w.(table := taken), p, if asked.Continue? then Holding(now, asked.s, w.clock) else Out)
      case (Patch(_, replicas), Holding(i, s, since)) =>
        if Actuate(spec, i, s, replicas).1 == replicas then w
        else w.(changes := w.changes + [P.Change(p, w.clock, since, CoordinationWorkloadName(spec) in w.table)])
      case (Leave(_), Planned(_, _)) => At(w, p, Out)
      case (Leave(_), Passed(_, _)) => At(w, p, Out)
      case (Leave(_), Holding(_, s, _)) => At(w.(table := ReleaseCoordination(s, w.table)), p, Out)
      case _ => w
  }

  function After(sys: System, calls: seq<Call>): Cluster {
    if calls == [] then Start(sys)
    else Do(sys, After(sys, calls[..|calls| - 1]), calls[|calls| - 1])
  }

  // ----- as a run of the interleaving model -----

  function ModelOf(sys: System): P.Config {
    P.Config(map p | p in sys.specs :: CoordinationWorkloadName(sys.specs[p]), sys.cfg.maxConcurrent,
             GraphOf(sys.listed))
  }

  function PhaseOf(stage: Stage): P.Phase {
    match stage
    case Out => P.Idle
    case Planned(_, _) => P.Deciding
    case Passed(_, _) => P.Cleared
    case Holding(_, _, since) => P.Holding(since)
  }

  function StateOf(w: Cluster): P.State {
    P.State(w.table, w.clock, map p | p in w.stages :: PhaseOf(w.stages[p]), w.changes)
  }

  /** The steps of the model that one call is. */
  function StepsOf(sys: System, w: Cluster, call: Call): seq<P.Step> {
    if call.Wait? then [P.Tick(call.elapsed)]
    else
      match call
      case Begin(p, _, _) => if Do(sys, w, call) == w then [] else [P.Start(p)]
      case Ask(p) =>
        if p in w.stages && w.stages[p].Planned? && p in sys.specs then
          if Do(sys, w, call).stages[p].Out? then [P.Check(p), P.Finish(p)] else [P.Check(p)]
        else []
      case Slot(p) => [P.Take(p)]
      case Patch(p, _) => if Do(sys, w, call) == w then [] else [P.Actuate(p)]
      case Leave(p) => [P.Finish(p)]
  }

  function AllSteps(sys: System, calls: seq<Call>): seq<P.Step> {
    if calls == [] then []
    else
      var front := calls[..|calls| - 1];
      AllSteps(sys, front) + StepsOf(sys, After(sys, front), calls[|calls| - 1])
  }

  /** Every workload has a name. */
  ghost predicate Named(sys: System) {
    forall p :: p in sys.specs ==> CoordinationWorkloadName(sys.specs[p]) != ""
  }

  /** What the stages promise: a cycle before its slot holds none, and one with a slot holds it
      under its own name. */
  ghost predicate Sound(sys: System, w: Cluster) {
    && w.stages.Keys == sys.specs.Keys
    && forall p :: p in w.stages ==> StageSound(sys, w.stages[p], p)
  }

  ghost predicate StageSound(sys: System, stage: Stage, p: nat)
    requires p in sys.specs
  {
    match stage
    case Out => true
    case Planned(i, s) => !s.slotHeld && i.policies == Some(sys.listed)
    case Passed(i, s) => !s.slotHeld && i.policies == Some(sys.listed)
    case Holding(i, s, _) => s.slotHeld && s.slotWorkload == CoordinationWorkloadName(sys.specs[p])
  }

  lemma {:induction false} AlwaysSound(sys: System, calls: seq<Call>)
    ensures Sound(sys, After(sys, calls))
  {
    if calls != [] {
      AlwaysSound(sys, calls[..|calls| - 1]);
      SoundStep(sys, After(sys, calls[..|calls| - 1]), calls[|calls| - 1]);
    }
  }

  lemma SoundStep(sys: System, w: Cluster, call: Call)
    requires Sound(sys, w)
    ensures Sound(sys, Do(sys, w, call))
  {
    hide AskDependencies, Acquire, Actuate, ReleaseCoordination, NeedsLiveCoordination;
  }

  lemma StageMoves(w: Cluster, p: nat, stage: Stage)
    ensures StateOf(At(w, p, stage)) == P.MoveTo(StateOf(w), p, PhaseOf(stage))
  {
  }

  /** Each call is that many steps of the model, whatever the others have done to the table. */
  lemma CallIsSteps(sys: System, w: Cluster, call: Call)
    requires Sound(sys, w) && Named(sys)
    ensures ApplyAll(ModelOf(sys), StateOf(w), StepsOf(sys, w, call)) == StateOf(Do(sys, w, call))
  {
    match call {
      case Wait(elapsed) => OneStep(ModelOf(sys), StateOf(w), P.Tick(elapsed));
      case Begin(p, i, s) => BeginIsStart(sys, w, p, i, s);
      case Ask(p) => AskIsCheck(sys, w, p);
      case Slot(p) => SlotIsTake(sys, w, p);
      case Patch(p, replicas) => PatchIsActuate(sys, w, p, replicas);
      case Leave(p) => LeaveIsFinish(sys, w, p);
    }
  }

  lemma BeginIsStart(sys: System, w: Cluster, p: nat, i: Input, s: State)
    requires Sound(sys, w)
    ensures var call := Begin(p, i, s);
            ApplyAll(ModelOf(sys), StateOf(w), StepsOf(sys, w, call)) == StateOf(Do(sys, w, call))
  {
    var call := Begin(p, i, s);
    if Do(sys, w, call) != w {
      StageMoves(w, p, Planned(i.(policies := Some(sys.listed)), s));
      OneStep(ModelOf(sys), StateOf(w), P.Start(p));
      hide ApplyAll, GraphOf, NeedsLiveCoordination;
    }
  }

  lemma AskIsCheck(sys: System, w: Cluster, p: nat)
    requires Sound(sys, w) && Named(sys)
    ensures ApplyAll(ModelOf(sys), StateOf(w), StepsOf(sys, w, Ask(p))) == StateOf(Do(sys, w, Ask(p)))
  {
    hide ApplyAll, GraphOf, AskDependencies, P.Apply;
    if p in w.stages && w.stages[p].Planned? && p in sys.specs {
      var c, now, s := ModelOf(sys), w.stages[p].i.(checkedAt := w.clock), w.stages[p].s;
      assert StageSound(sys, w.stages[p], p);
      AskDependenciesIsCheck(c, p, sys.cfg, sys.specs[p], now, s, StateOf(w));
      var (asked, live) := AskDependencies(sys.cfg, sys.specs[p], now, s, w.table);
      StageMoves(w.(table := live), p, if asked.Continue? then Passed(now, s) else Out);
      OneStep(c, StateOf(w), P.Check(p));
    } else {
      Nothing(sys, w);
    }
  }

  lemma Nothing(sys: System, w: Cluster)
    ensures ApplyAll(ModelOf(sys), StateOf(w), []) == StateOf(w)
  {
  }

  lemma SlotIsTake(sys: System, w: Cluster, p: nat)
    requires Sound(sys, w) && Named(sys)
    ensures ApplyAll(ModelOf(sys), StateOf(w), StepsOf(sys, w, Slot(p))) == StateOf(Do(sys, w, Slot(p)))
  {
    hide ApplyAll, GraphOf, AskSlot;
    OneStep(ModelOf(sys), StateOf(w), P.Take(p));
    if p in w.stages && w.stages[p].Passed? && p in sys.specs {
      var c, now, s := ModelOf(sys), w.stages[p].i.(takenAt := w.clock), w.stages[p].s;
      assert StageSound(sys, w.stages[p], p);
      AskSlotIsTake(c, p, sys.cfg, sys.specs[p], now, s, StateOf(w));
      var (asked, taken) := AskSlot(sys.cfg, sys.specs[p], now, s, w.table);
      StageMoves(w.(table := taken), p, if asked.Continue? then Holding(now, asked.s, w.clock) else Out);
      hide P.Apply;
    }
  }

  lemma PatchIsActuate(sys: System, w: Cluster, p: nat, replicas: int)
    requires Sound(sys, w)
    ensures var call := Patch(p, replicas);
            ApplyAll(ModelOf(sys), StateOf(w), StepsOf(sys, w, call)) == StateOf(Do(sys, w, call))
  {
    hide Actuate, GraphOf;
    if Do(sys, w, Patch(p, replicas)) != w {
      OneStep(ModelOf(sys), StateOf(w), P.Actuate(p));
      hide ApplyAll;
    }
  }

  lemma LeaveIsFinish(sys: System, w: Cluster, p: nat)
    requires Sound(sys, w) && Named(sys)
    ensures ApplyAll(ModelOf(sys), StateOf(w), StepsOf(sys, w, Leave(p))) == StateOf(Do(sys, w, Leave(p)))
  {
    hide ApplyAll, GraphOf;
    OneStep(ModelOf(sys), StateOf(w), P.Finish(p));
    if p in w.stages && p in sys.specs {
      StageMoves(w, p, Out);
      if w.stages[p].Holding? {
        assert StageSound(sys, w.stages[p], p);
        var s := w.stages[p].s;
        ReleaseIsFinish(ModelOf(sys), p, s, StateOf(w));
        StageMoves(w.(table := ReleaseCoordination(s, w.table)), p, Out);
        hide P.Apply;
      }
    }
  }

  /** Any interleaving of any policies' calls is a run of the interleaving model. */
  lemma {:induction false} InterleavingIsProtocolRun(sys: System, calls: seq<Call>)
    requires Named(sys)
    ensures P.Run(ModelOf(sys), AllSteps(sys, calls)) == StateOf(After(sys, calls))
  {
    if calls == [] {
      assert StateOf(Start(sys)) == P.Initial(ModelOf(sys));
    } else {
      var front, last := calls[..|calls| - 1], calls[|calls| - 1];
      InterleavingIsProtocolRun(sys, front);
      AlwaysSound(sys, front);
      CallIsSteps(sys, After(sys, front), last);
      RunThenApply(ModelOf(sys), AllSteps(sys, front), StepsOf(sys, After(sys, front), last));
    }
  }

  /** Policy p holds a slot that has not outlived its time to live. */
  ghost predicate HoldsFresh(sys: System, w: Cluster, p: nat) {
    p in w.stages && p in sys.specs && w.stages[p].Holding? && w.stages[p].since >= w.clock - SLOT_TTL
  }

  /** So the slot table of real cycles is safe in every interleaving: within its limit, empty once
      everybody has left, listing every unexpired slot, and every change made under a slot was
      made by a reconcile that had been granted it and still held it. */
  lemma InterleavedCyclesAreSafe(sys: System, calls: seq<Call>)
    requires Named(sys) && P.DistinctNames(ModelOf(sys))
    ensures var w := After(sys, calls);
            && (sys.cfg.maxConcurrent > 0 ==> |w.table| <= sys.cfg.maxConcurrent)
            && ((forall p :: p in w.stages ==> !w.stages[p].Holding?) ==> w.table == map[])
            && (forall p :: HoldsFresh(sys, w, p) ==> CoordinationWorkloadName(sys.specs[p]) in w.table)
            && (forall k :: 0 <= k < |w.changes| ==>
                  P.MadeUnderSomeSlot(ModelOf(sys), AllSteps(sys, calls), w.changes[k]))
  {
    var c, steps, w := ModelOf(sys), AllSteps(sys, calls), After(sys, calls);
    InterleavingIsProtocolRun(sys, calls);
    P.SlotSafety(c, steps);
    P.ChangesAreCovered(c, steps);
    hide P.Run, AllSteps, After, P.MadeUnderSomeSlot, P.DistinctNames, CoordinationWorkloadName;
    hide ModelOf, StateOf, PhaseOf, HoldsFresh, P.HoldsFresh;
    FieldsOf(w);
    forall p | HoldsFresh(sys, w, p) ensures CoordinationWorkloadName(sys.specs[p]) in w.table {
      SameHolder(sys, w, p);
    }
    if forall p :: p in w.stages ==> !w.stages[p].Holding? {
      SamePhases(w);
    }
    assert c.maxConcurrent == sys.cfg.maxConcurrent by { LimitOf(sys); }
  }

  lemma LimitOf(sys: System)
    ensures ModelOf(sys).maxConcurrent == sys.cfg.maxConcurrent
  {
  }

  lemma FieldsOf(w: Cluster)
    ensures StateOf(w).table == w.table && StateOf(w).changes == w.changes
  {
  }

  lemma SameHolder(sys: System, w: Cluster, p: nat)
    requires HoldsFresh(sys, w, p)
    ensures P.HoldsFresh(StateOf(w), p)
    ensures p in ModelOf(sys).names && ModelOf(sys).names[p] == CoordinationWorkloadName(sys.specs[p])
  {
    hide CoordinationWorkloadName, GraphOf;
  }

  lemma SamePhases(w: Cluster)
    requires forall p :: p in w.stages ==> !w.stages[p].Holding?
    ensures forall p :: p in StateOf(w).phases ==> !StateOf(w).phases[p].Holding?
  {
  }
}
