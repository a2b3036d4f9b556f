/** Whole runs of one policy: any number of cycles, with anything the environment can do in
    between and during them. */
module Runs {
  import opened Common
  import opened Policy
  import opened Validator
  import opened Coordinator
  import opened Pipeline
  import opened PlanGuarantees
  import opened ReconcileCycle

  /** A cycle, somebody else scaling the workload, or other workloads' slots coming and going. */
  datatype Event = Reconcile(i: Input) | ExternalScale(n: int) | OtherSlots(table: Table)

  function Step(cfg: Config, spec: Spec, w: World, e: Event): World
    requires IsInt32(cfg.outOfRange)
  {
    match e
    case Reconcile(i) => Cycle(cfg, spec, w, i)
    case ExternalScale(n) => w.(specReplicas := n)
    case OtherSlots(table) => w.(table := table)
  }

  function After(cfg: Config, spec: Spec, start: World, events: seq<Event>): World
    requires IsInt32(cfg.outOfRange)
  {
    if events == [] then start
    else Step(cfg, spec, After(cfg, spec, start, events[..|events| - 1]), events[|events| - 1])
  }

  /** The world in which event k happens. */
  function Before(cfg: Config, spec: Spec, start: World, events: seq<Event>, k: nat): World
    requires IsInt32(cfg.outOfRange) && k <= |events|
  {
    After(cfg, spec, start, events[..k])
  }

  lemma Unfold(cfg: Config, spec: Spec, start: World, events: seq<Event>, k: nat)
    requires IsInt32(cfg.outOfRange) && k < |events|
    ensures Before(cfg, spec, start, events, k + 1) == Step(cfg, spec, Before(cfg, spec, start, events, k), events[k])
  {
    assert events[..k + 1][..k] == events[..k];
  }

  /** Event k is a cycle of this policy that changes the workload's desired count. */
  ghost predicate LiveChange(cfg: Config, spec: Spec, start: World, events: seq<Event>, k: nat)
    requires IsInt32(cfg.outOfRange) && k < |events|
  {
    events[k].Reconcile? && Changes(cfg, spec, Before(cfg, spec, start, events, k), events[k].i)
  }

  /** The clock readings of one cycle, in the order they are taken. */
  ghost predicate InOrder(i: Input) {
    i.now <= i.checkedAt <= i.takenAt <= i.actuatedAt <= i.stampedAt <= i.restampedAt
  }

  /** Cycles of one policy do not overlap and the clock never goes back. */
  ghost predicate Clocked(events: seq<Event>) {
    && (forall k :: 0 <= k < |events| && events[k].Reconcile? ==> InOrder(events[k].i))
    && (forall j, k :: 0 <= j < k < |events| && events[j].Reconcile? && events[k].Reconcile? ==>
          events[j].i.restampedAt <= events[k].i.now)
  }

  // ----- cooldown -----

  /** The stored time lies after t, up to what rounding takes away. */
  ghost predicate StoredSince(cfg: Config, w: World, t: Time) {
    w.lastScale.Some? && w.lastScale.value > t - Max(cfg.timestampUnit, 1)
  }

  lemma RoundingBound(cfg: Config, t: Time)
    ensures t - Max(cfg.timestampUnit, 1) < StoredTime(cfg, t) <= t
  {
  }

  /** A cycle never moves the stored time back before something it already covers. */
  lemma StoredSinceKept(cfg: Config, spec: Spec, w: World, e: Event, t: Time)
    requires IsInt32(cfg.outOfRange) && StoredSince(cfg, w, t)
    requires e.Reconcile? ==> t <= e.i.stampedAt && t <= e.i.restampedAt
    ensures StoredSince(cfg, Step(cfg, spec, w, e), t)
  {
    hide Plan, Execute, StoredTime;
    if e.Reconcile? {
      RoundingBound(cfg, e.i.stampedAt);
      RoundingBound(cfg, e.i.restampedAt);
    }
  }

  /** From the change on, the stored time covers it. */
  lemma {:induction false} ChangeStaysCovered(cfg: Config, spec: Spec, start: World, events: seq<Event>, a: nat, k: nat)
    requires IsInt32(cfg.outOfRange) && a < k <= |events| && Clocked(events)
    requires LiveChange(cfg, spec, start, events, a) && Settled(Before(cfg, spec, start, events, a), events[a].i)
    requires StatusStored(events[a].i)
    ensures StoredSince(cfg, Before(cfg, spec, start, events, k), events[a].i.actuatedAt)
  {
    hide Changes, StatusStored, Cycle, StoredTime;
    Unfold(cfg, spec, start, events, k - 1);
    if k == a + 1 {
      AppliedIsStamped(cfg, spec, Before(cfg, spec, start, events, a), events[a].i);
      RoundingBound(cfg, events[a].i.stampedAt);
      RoundingBound(cfg, events[a].i.restampedAt);
    } else {
      ChangeStaysCovered(cfg, spec, start, events, a, k - 1);
      StoredSinceKept(cfg, spec, Before(cfg, spec, start, events, k - 1), events[k - 1], events[a].i.actuatedAt);
    }
  }

  lemma ChangeAfterCooldown(cfg: Config, spec: Spec, w: World, i: Input)
    requires IsInt32(cfg.outOfRange) && Changes(cfg, spec, w, i)
    ensures w.lastScale.Some? ==> i.now - w.lastScale.value >= spec.cooldown
  {
    ChangeIsPlanned(cfg, spec, w, i);
    Planned(cfg, spec, w.lastScale, i);
  }

  /** Whatever happens in between, a change comes at least a cooldown after every earlier one
      whose status was stored, less what rounding the stored time takes away: nothing when
      times are stored exactly. */
  lemma CooldownSpacing(cfg: Config, spec: Spec, start: World, events: seq<Event>, a: nat, b: nat)
    requires IsInt32(cfg.outOfRange) && Clocked(events) && a < b < |events|
    requires LiveChange(cfg, spec, start, events, a) && LiveChange(cfg, spec, start, events, b)
    requires Settled(Before(cfg, spec, start, events, a), events[a].i)
    requires StatusStored(events[a].i)
    ensures events[b].i.actuatedAt - events[a].i.actuatedAt > spec.cooldown - Max(cfg.timestampUnit, 1)
    ensures cfg.timestampUnit <= 1 ==> events[b].i.actuatedAt - events[a].i.actuatedAt >= spec.cooldown
  {
    hide Changes, StatusStored, Settled;
    ChangeStaysCovered(cfg, spec, start, events, a, b);
    ChangeAfterCooldown(cfg, spec, Before(cfg, spec, start, events, b), events[b].i);
  }

  // ----- bounds -----

  /** External scaling stays inside the policy's bounds. */
  ghost predicate Courteous(spec: Spec, events: seq<Event>) {
    forall k :: 0 <= k < |events| && events[k].ExternalScale? ==> InBounds(events[k].n, spec.constraints)
  }

  ghost predicate RealCounts(events: seq<Event>) {
    forall k :: 0 <= k < |events| && events[k].Reconcile? && events[k].i.bundle.Some? ==>
                  0 <= events[k].i.bundle.value.currentReplicas && IsInt32(events[k].i.bundle.value.currentReplicas)
  }

  /** Once inside the bounds, always inside: no cycle leaves them, even on stale observations. */
  lemma {:induction false} StaysInside(cfg: Config, spec: Spec, start: World, events: seq<Event>)
    requires IsInt32(cfg.outOfRange) && Accepted(spec) && RealCounts(events) && Courteous(spec, events)
    requires InBounds(start.specReplicas, spec.constraints)
    ensures InBounds(After(cfg, spec, start, events).specReplicas, spec.constraints)
  {
    if events != [] {
      var k := |events| - 1;
      StaysInside(cfg, spec, start, events[..k]);
      var w := After(cfg, spec, start, events[..k]);
      if events[k].Reconcile? && Changes(cfg, spec, w, events[k].i) {
        hide Plan, Cycle;
        ChangeIsSafe(cfg, spec, w, events[k].i);
      }
    }
  }

  /** Every change of every run lands inside the bounds, and with faithful observations it goes
      from the count before it towards the decided target without passing it, by at most the
      applicable step if that count was inside; going up above the minimum it is affordable. */
  lemma EveryChangeSafe(cfg: Config, spec: Spec, start: World, events: seq<Event>, k: nat)
    requires IsInt32(cfg.outOfRange) && Accepted(spec) && RealCounts(events) && k < |events|
    requires LiveChange(cfg, spec, start, events, k)
    ensures var w, w' := Before(cfg, spec, start, events, k), Before(cfg, spec, start, events, k + 1);
            var d := Plan(cfg, spec, w.lastScale, events[k].i).s.decision;
            && d.Some? && SafeChange(cfg, spec, events[k].i, d.value.targetReplicas, w'.specReplicas)
            && InBounds(w'.specReplicas, spec.constraints)
            && (Settled(w, events[k].i) ==> SafeMove(w'.specReplicas, d.value.targetReplicas, w.specReplicas, spec))
  {
    hide Plan, Cycle, BudgetAllows, ApplicableStep;
    Unfold(cfg, spec, start, events, k);
    ChangeIsSafe(cfg, spec, Before(cfg, spec, start, events, k), events[k].i);
  }

  // ----- dry run -----

  /** A policy in dry run never changes anything, however many cycles it runs. */
  lemma {:induction false} DryRunForever(cfg: Config, spec: Spec, start: World, events: seq<Event>)
    requires IsInt32(cfg.outOfRange) && spec.dryRun
    requires forall k :: 0 <= k < |events| ==> events[k].Reconcile?
    ensures After(cfg, spec, start, events) == start
  {
    if events != [] {
      DryRunForever(cfg, spec, start, events[..|events| - 1]);
      DryRunChangesNothing(cfg, spec, start, events[|events| - 1].i);
    }
  }

  // ----- slots -----

  /** However many cycles run, the policy alone never leaves an entry behind. */
  lemma {:induction false} NoSlotLeaks(cfg: Config, spec: Spec, start: World, events: seq<Event>)
    requires IsInt32(cfg.outOfRange) && CoordinationWorkloadName(spec) != ""
    requires forall k :: 0 <= k < |events| ==> !events[k].OtherSlots?
    ensures var table := After(cfg, spec, start, events).table;
            forall n :: n in table ==> n in start.table && table[n] == start.table[n]
  {
    if events != [] {
      var k := |events| - 1;
      NoSlotLeaks(cfg, spec, start, events[..k]);
      if events[k].Reconcile? {
        hide Cycle;
        SlotReturned(cfg, spec, After(cfg, spec, start, events[..k]), events[k].i);
      }
    }
  }
}
