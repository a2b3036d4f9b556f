/** Many reconciles interleaving on one slot table. Each mutex-protected call of the
    coordinator is one atomic step; between them anything else may run. */
module Protocol {
  import opened Common
  import opened Coordinator

  /** Where a reconcile is: Deciding is everything before the dependency check, Cleared is
      between that check and asking for a slot, Holding is from the slot to the end. */
  datatype Phase = Idle | Deciding | Cleared | Holding(since: Time)

  /** A replica change made under a slot: who, when, under a slot taken when, and whether the table then
      showed that slot. */
  datatype Change = Change(pid: nat, at: Time, since: Time, listed: bool)

  datatype Config = Config(names: map<nat, string>, maxConcurrent: int, graph: Graph)

  datatype State = State(table: Table, clock: Time, phases: map<nat, Phase>, changes: seq<Change>)

  datatype Step =
    | Tick(elapsed: nat)
    | Start(pid: nat)
    | Check(pid: nat)      // ActiveWorkloads and ShouldDefer
    | Take(pid: nat)       // AcquireScalingSlot
    | Actuate(pid: nat)
    | Finish(pid: nat)     // every way out: error, short circuit or completion

  function Initial(c: Config): State {
    State(map[], 0, map p | p in c.names :: Idle, [])
  }

  function MoveTo(s: State, p: nat, phase: Phase): State {
    s.(phases := s.phases[p := phase])
  }

  /** One atomic step; a step that its reconcile is not ready for changes nothing. */
  function Apply(c: Config, s: State, step: Step): State {
    if step.Tick? then s.(clock := s.clock + step.elapsed)
    else if step.pid !in s.phases || step.pid !in c.names then s
    else
      var p := step.pid;
      var name := c.names[p];
      match (step, s.phases[p])
      case (Start(_), Idle) => MoveTo(s, p, Deciding)
      case (Check(_), Deciding) =>
        var table := Cleanup(s.table, s.clock);
        MoveTo(s.(table := table), p, if Defers(c.graph, name, table.Keys - {name}) then Idle else Cleared)
      case (Take(_), Cleared) =>
        var (table, ok) := Acquire(s.table, c.maxConcurrent, name, s.clock);
        MoveTo(s.(table := table), p, if ok then Holding(s.clock) else Idle)
      case (Actuate(_), Holding(since)) =>
        s.(changes := s.changes + [Change(p, s.clock, since, name in s.table)])
      case (Finish(_), Deciding) => MoveTo(s, p, Idle)
      case (Finish(_), Cleared) => MoveTo(s, p, Idle)
      case (Finish(_), Holding(_)) => MoveTo(s.(table := Release(s.table, name)), p, Idle)
      case _ => s
  }

  function Run(c: Config, steps: seq<Step>): State {
    if steps == [] then Initial(c)
    else Apply(c, Run(c, steps[..|steps| - 1]), steps[|steps| - 1])
  }

  predicate Holds(s: State, p: nat) {
    p in s.phases && s.phases[p].Holding?
  }

  /** Holds a slot that has not outlived its time to live. */
  predicate HoldsFresh(s: State, p: nat) {
    Holds(s, p) && s.phases[p].since >= s.clock - SLOT_TTL
  }

  ghost predicate DistinctNames(c: Config) {
    forall p, q :: p in c.names && q in c.names && p != q ==> c.names[p] != c.names[q]
  }

  // ----- what every step keeps -----

  /** Every slot in the table belongs to a reconcile that holds it, since the time the table
      says; every slot held and not listed has outlived its time to live. */
  ghost predicate Inv(c: Config, s: State) {
    && s.phases.Keys == c.names.Keys
    && (c.maxConcurrent > 0 ==> |s.table| <= c.maxConcurrent)
    && (forall w :: w in s.table ==> Owned(c, s, w))
    && (forall p :: SlotRight(c, s, p))
    && (forall k :: 0 <= k < |s.changes| ==> s.changes[k].at - s.changes[k].since <= SLOT_TTL ==> s.changes[k].listed)
  }

  ghost predicate Owns(c: Config, s: State, p: nat, w: string) {
    p in c.names && Holds(s, p) && c.names[p] == w
  }

  ghost predicate Owned(c: Config, s: State, w: string) {
    exists p :: Owns(c, s, p, w)
  }

  /** The table is right about reconcile p, if it holds a slot. */
  ghost predicate SlotRight(c: Config, s: State, p: nat) {
    Holds(s, p) ==>
      && p in c.names
      && s.phases[p].since <= s.clock
      && (if c.names[p] in s.table then s.table[c.names[p]] == s.phases[p].since
          else s.phases[p].since < s.clock - SLOT_TTL)
  }

  /** Owners stay owners when the reconciles that hold slots only grow. */
  lemma OwnedStays(c: Config, s: State, s': State, w: string)
    requires Owned(c, s, w) && forall p :: Holds(s, p) ==> Holds(s', p)
    ensures Owned(c, s', w)
  {
    var p :| Owns(c, s, p, w);
    assert Owns(c, s', p, w);
  }

  /** Owners of other names stay owners when only p gives its slot up. */
  lemma OwnerStays(c: Config, s: State, s': State, p: nat, w: string)
    requires Owned(c, s, w) && p in c.names && w != c.names[p] && forall q :: Holds(s, q) && q != p ==> Holds(s', q)
    ensures Owned(c, s', w)
  {
    var q :| Owns(c, s, q, w);
    assert Owns(c, s', q, w);
  }

  lemma TimePassesKeepsInv(c: Config, s: State, elapsed: nat)
    requires Inv(c, s)
    ensures Inv(c, s.(clock := s.clock + elapsed))
  {
    var s' := s.(clock := s.clock + elapsed);
    forall p ensures SlotRight(c, s', p) { assert SlotRight(c, s, p); }
    forall w | w in s'.table ensures Owned(c, s', w) { OwnedStays(c, s, s', w); }
  }

  /** Expired entries go; what is left is still right. */
  lemma CleanupKeepsInv(c: Config, s: State)
    requires Inv(c, s)
    ensures Inv(c, s.(table := Cleanup(s.table, s.clock)))
  {
    var s' := s.(table := Cleanup(s.table, s.clock));
    SubtableSmaller(s'.table, s.table);
    forall p ensures SlotRight(c, s', p) { assert SlotRight(c, s, p); }
    forall w | w in s'.table ensures Owned(c, s', w) { OwnedStays(c, s, s', w); }
  }

  /** A reconcile that neither had nor gets a slot moves on. */
  lemma MoveKeepsInv(c: Config, s: State, p: nat, phase: Phase)
    requires Inv(c, s) && p in s.phases && !Holds(s, p) && !phase.Holding?
    ensures Inv(c, MoveTo(s, p, phase))
  {
    var s' := MoveTo(s, p, phase);
    forall q ensures SlotRight(c, s', q) { assert SlotRight(c, s, q); }
    forall w | w in s'.table ensures Owned(c, s', w) { OwnedStays(c, s, s', w); }
  }

  lemma OtherName(c: Config, p: nat, q: nat)
    requires DistinctNames(c) && p in c.names
    ensures q in c.names && q != p ==> c.names[q] != c.names[p]
  {
  }

  /** A reconcile gets a slot now. */
  lemma TakeKeepsInv(c: Config, s: State, p: nat)
    requires DistinctNames(c) && Inv(c, s) && p in c.names && !Holds(s, p)
    requires c.maxConcurrent > 0 ==> |s.table[c.names[p] := s.clock]| <= c.maxConcurrent
    ensures Inv(c, MoveTo(s.(table := s.table[c.names[p] := s.clock]), p, Holding(s.clock)))
  {
    var name := c.names[p];
    var s' := MoveTo(s.(table := s.table[name := s.clock]), p, Holding(s.clock));
    hide DistinctNames;
    forall q ensures SlotRight(c, s', q) {
      OtherName(c, p, q);
      assert SlotRight(c, s, q);
    }
    forall w | w in s'.table ensures Owned(c, s', w) {
      if w == name {
        assert Owns(c, s', p, name);
      } else {
        OwnedStays(c, s, s', w);
      }
    }
  }

  lemma ReleaseSmaller(t: Table, w: string)
    ensures |Release(t, w)| <= |t| && Release(t, w).Keys == t.Keys - {w}
  {
    SubtableSmaller(Release(t, w), t);
  }

  lemma ReleaseSlotRight(c: Config, s: State, p: nat, q: nat)
    requires p in c.names && Holds(s, p) && SlotRight(c, s, q)
    requires q in c.names && q != p ==> c.names[q] != c.names[p]
    ensures SlotRight(c, MoveTo(s.(table := Release(s.table, c.names[p])), p, Idle), q)
  {
  }

  lemma ReleaseKeepsSlots(c: Config, s: State, p: nat)
    requires DistinctNames(c) && (forall q :: SlotRight(c, s, q)) && p in c.names && Holds(s, p)
    ensures forall q :: SlotRight(c, MoveTo(s.(table := Release(s.table, c.names[p])), p, Idle), q)
  {
    forall q ensures SlotRight(c, MoveTo(s.(table := Release(s.table, c.names[p])), p, Idle), q) {
      hide DistinctNames, SlotRight, Release;
      OtherName(c, p, q);
      ReleaseSlotRight(c, s, p, q);
    }
  }

  lemma ReleaseKeepsOwners(c: Config, s: State, p: nat)
    requires (forall w :: w in s.table ==> Owned(c, s, w)) && p in c.names && Holds(s, p)
    ensures var s' := MoveTo(s.(table := Release(s.table, c.names[p])), p, Idle);
            forall w :: w in s'.table ==> Owned(c, s', w)
  {
    var s' := MoveTo(s.(table := Release(s.table, c.names[p])), p, Idle);
    hide Owned;
    forall w | w in s'.table ensures Owned(c, s', w) { OwnerStays(c, s, s', p, w); }
  }

  /** A reconcile with a slot leaves. */
  lemma ReleaseKeepsInv(c: Config, s: State, p: nat)
    requires DistinctNames(c) && Inv(c, s) && p in c.names && Holds(s, p)
    ensures Inv(c, MoveTo(s.(table := Release(s.table, c.names[p])), p, Idle))
  {
    hide DistinctNames, SlotRight, Owned, Release;
    ReleaseSmaller(s.table, c.names[p]);
    ReleaseKeepsSlots(c, s, p);
    ReleaseKeepsOwners(c, s, p);
  }

  lemma ActuateKeepsInv(c: Config, s: State, p: nat)
    requires Inv(c, s) && p in c.names && Holds(s, p)
    ensures Inv(c, s.(changes := s.changes + [Change(p, s.clock, s.phases[p].since, c.names[p] in s.table)]))
  {
    var s' := s.(changes := s.changes + [Change(p, s.clock, s.phases[p].since, c.names[p] in s.table)]);
    assert SlotRight(c, s, p);
    forall q ensures SlotRight(c, s', q) { assert SlotRight(c, s, q); }
    forall w | w in s'.table ensures Owned(c, s', w) { OwnedStays(c, s, s', w); }
  }

  lemma InvFacts(c: Config, s: State)
    requires Inv(c, s)
    ensures s.phases.Keys == c.names.Keys
    ensures c.maxConcurrent > 0 ==> |s.table| <= c.maxConcurrent
  {
  }

  lemma StepKeepsInv(c: Config, s: State, step: Step)
    requires DistinctNames(c) && Inv(c, s)
    ensures Inv(c, Apply(c, s, step))
  {
    hide Inv, DistinctNames, Cleanup, Defers, Release;
    InvFacts(c, s);
    if step.Tick? {
      TimePassesKeepsInv(c, s, step.elapsed);
    } else if step.pid in s.phases {
      var p := step.pid;
      match (step, s.phases[p]) {
        case (Start(_), Idle) => MoveKeepsInv(c, s, p, Deciding);
        case (Check(_), Deciding) =>
          var table := Cleanup(s.table, s.clock);
          CleanupKeepsInv(c, s);
          var defers := Defers(c.graph, c.names[p], table.Keys - {c.names[p]});
          MoveKeepsInv(c, s.(table := table), p, if defers then Idle else Cleared);
        case (Take(_), Cleared) => TakeStepKeepsInv(c, s, p);
        case (Actuate(_), Holding(_)) => ActuateKeepsInv(c, s, p);
        case (Finish(_), Holding(_)) => ReleaseKeepsInv(c, s, p);
        case (Finish(_), Deciding) => MoveKeepsInv(c, s, p, Idle);
        case (Finish(_), Cleared) => MoveKeepsInv(c, s, p, Idle);
        case _ =>
      }
    }
  }

  lemma TakeStepKeepsInv(c: Config, s: State, p: nat)
    requires DistinctNames(c) && Inv(c, s) && p in c.names && p in s.phases && s.phases[p].Cleared?
    ensures Inv(c, Apply(c, s, Take(p)))
  {
    hide Inv, DistinctNames, Cleanup;
    CleanupKeepsInv(c, s);
    var cleaned := s.(table := Cleanup(s.table, s.clock));
    InvFacts(c, cleaned);
    if Acquire(s.table, c.maxConcurrent, c.names[p], s.clock).1 {
      TakeKeepsInv(c, cleaned, p);
    } else {
      MoveKeepsInv(c, cleaned, p, Idle);
    }
  }

  lemma {:induction false} RunKeepsInv(c: Config, steps: seq<Step>)
    requires DistinctNames(c)
    ensures Inv(c, Run(c, steps))
  {
    if steps != [] {
      hide Inv, DistinctNames, Apply;
      RunKeepsInv(c, steps[..|steps| - 1]);
      StepKeepsInv(c, Run(c, steps[..|steps| - 1]), steps[|steps| - 1]);
    }
  }

  // ----- slot safety -----

  ghost function FreshHolders(s: State): set<nat> {
    set p | p in s.phases && HoldsFresh(s, p)
  }

  ghost function HolderNames(c: Config, s: State): set<string> {
    set p | p in c.names && Holds(s, p) :: c.names[p]
  }

  /** In every reachable state of every interleaving: the table is within its limit; it lists
      only slots really held; it lists every slot held that is not expired; so at most
      maxConcurrent reconciles hold an unexpired slot, and the table is exactly the holders
      whenever none has expired. */
  lemma SlotSafety(c: Config, steps: seq<Step>)
    requires DistinctNames(c)
    ensures var s := Run(c, steps);
            && (c.maxConcurrent > 0 ==> |s.table| <= c.maxConcurrent && |FreshHolders(s)| <= c.maxConcurrent)
            && s.table.Keys <= HolderNames(c, s)
            && (forall p :: HoldsFresh(s, p) ==> p in c.names && c.names[p] in s.table)
            && ((forall p :: Holds(s, p) ==> HoldsFresh(s, p)) ==> s.table.Keys == HolderNames(c, s))
  {
    RunKeepsInv(c, steps);
    var s := Run(c, steps);
    hide Run, DistinctNames;
    forall w | w in s.table ensures w in HolderNames(c, s) {
      assert Owned(c, s, w);
      var p :| Owns(c, s, p, w);
    }
    forall p | HoldsFresh(s, p) ensures p in c.names && c.names[p] in s.table {
      assert SlotRight(c, s, p);
    }
    var current := FreshHolders(s);
    NamesOf(c, current, s.table.Keys);
    assert |s.table.Keys| == |s.table|;
  }

  /** Distinct names: as many reconciles as slots. */
  lemma {:induction false} NamesOf(c: Config, pids: set<nat>, listed: set<string>)
    requires DistinctNames(c) && pids <= c.names.Keys
    requires forall p :: p in pids ==> c.names[p] in listed
    ensures |pids| <= |listed|
    decreases |pids|
  {
    if pids != {} {
      var p :| p in pids;
      NamesOf(c, pids - {p}, listed - {c.names[p]});
    }
  }

  /** Reconcile p was holding, since this time, after each of the steps from m to n. */
  ghost predicate HeldThroughout(c: Config, steps: seq<Step>, p: nat, since: Time, m: nat, n: nat) {
    forall j :: m < j <= n <= |steps| ==> HoldingAfter(c, steps, p, since, j)
  }

  ghost predicate HoldingAfter(c: Config, steps: seq<Step>, p: nat, since: Time, j: nat)
    requires j <= |steps|
  {
    var s := Run(c, steps[..j]);
    p in s.phases && s.phases[p] == Holding(since)
  }

  /** Step m is a request for a slot that reconcile p was granted at this time. */
  ghost predicate Granted(c: Config, steps: seq<Step>, p: nat, since: Time, m: nat) {
    && m < |steps| && steps[m] == Take(p) && p in c.names
    && var s := Run(c, steps[..m]);
       s.clock == since && Acquire(s.table, c.maxConcurrent, c.names[p], since).1
  }

  /** The slot was granted at step m and has been held ever since. */
  ghost predicate HoldsFrom(c: Config, steps: seq<Step>, p: nat, since: Time, m: nat) {
    Granted(c, steps, p, since, m) && HeldThroughout(c, steps, p, since, m, |steps|)
  }

  /** The change was made at step n, by its reconcile, under a slot granted at step m and held
      ever since; the change records whether the table then listed the slot. */
  ghost predicate MadeUnderSlot(c: Config, steps: seq<Step>, ch: Change, m: nat, n: nat) {
    && m < n < |steps| && steps[n] == Actuate(ch.pid)
    && Granted(c, steps, ch.pid, ch.since, m) && HeldThroughout(c, steps, ch.pid, ch.since, m, n)
    && Run(c, steps[..n]).clock == ch.at && (ch.listed <==> c.names[ch.pid] in Run(c, steps[..n]).table)
  }

  ghost predicate MadeUnderSomeSlot(c: Config, steps: seq<Step>, ch: Change) {
    exists m, n :: MadeUnderSlot(c, steps, ch, m, n)
  }

  /** Every holder was granted its slot at the time it says, and has held it since. */
  lemma {:induction false} HolderWasGranted(c: Config, steps: seq<Step>, p: nat) returns (m: nat)
    requires Holds(Run(c, steps), p)
    ensures HoldsFrom(c, steps, p, Run(c, steps).phases[p].since, m)
  {
    var front, last := steps[..|steps| - 1], steps[|steps| - 1];
    var before, after := Run(c, front), Run(c, steps);
    if Holds(before, p) && before.phases[p] == after.phases[p] && !(last == Take(p) && before.phases[p].Cleared?) {
      m := HolderWasGranted(c, front, p);
      assert front[..m] == steps[..m];
      forall j | m < j <= |steps| ensures HoldingAfter(c, steps, p, after.phases[p].since, j) {
        if j < |steps| {
          assert front[..j] == steps[..j];
          assert HoldingAfter(c, front, p, after.phases[p].since, j);
        } else {
          assert steps[..j] == steps;
        }
      }
    } else {
      m := |steps| - 1;
      assert steps[..|steps|] == steps;
    }
  }

  lemma {:induction false} ChangeMadeUnderSlot(c: Config, steps: seq<Step>, k: nat) returns (m: nat, n: nat)
    requires k < |Run(c, steps).changes|
    ensures MadeUnderSlot(c, steps, Run(c, steps).changes[k], m, n)
  {
    var front, last := steps[..|steps| - 1], steps[|steps| - 1];
    var before := Run(c, front);
    if k < |before.changes| {
      m, n := ChangeMadeUnderSlot(c, front, k);
      assert front[..m] == steps[..m] && front[..n] == steps[..n];
      var ch := before.changes[k];
      forall j | m < j <= n ensures HoldingAfter(c, steps, ch.pid, ch.since, j) {
        assert front[..j] == steps[..j];
        assert HoldingAfter(c, front, ch.pid, ch.since, j);
      }
    } else {
      m := HolderWasGranted(c, front, last.pid);
      n := |steps| - 1;
      assert front[..m] == steps[..m];
      var ch := Run(c, steps).changes[k];
      forall j | m < j <= n ensures HoldingAfter(c, steps, ch.pid, ch.since, j) {
        assert front[..j] == steps[..j];
        assert HoldingAfter(c, front, ch.pid, ch.since, j);
      }
    }
  }

  /** Every replica change of this model, that is every change made under a slot, is made by a
      reconcile that was granted the slot and has held it since, and the table shows that slot
      unless it has expired; and when every reconcile has left, no slot remains, however each of
      them left. */
  lemma ChangesAreCovered(c: Config, steps: seq<Step>)
    requires DistinctNames(c)
    ensures var s := Run(c, steps);
            && (forall k :: 0 <= k < |s.changes| ==> MadeUnderSomeSlot(c, steps, s.changes[k]))
            && (forall k :: 0 <= k < |s.changes| && s.changes[k].at - s.changes[k].since <= SLOT_TTL ==>
                  s.changes[k].listed)
            && ((forall p :: p in s.phases ==> !s.phases[p].Holding?) ==> s.table == map[])
  {
    RunKeepsInv(c, steps);
    QuietMeansEmpty(c, Run(c, steps));
    var s := Run(c, steps);
    forall k | 0 <= k < |s.changes| ensures MadeUnderSomeSlot(c, steps, s.changes[k]) {
      var m, n := ChangeMadeUnderSlot(c, steps, k);
      assert MadeUnderSlot(c, steps, s.changes[k], m, n);
    }
  }

  lemma QuietMeansEmpty(c: Config, s: State)
    requires Inv(c, s)
    ensures (forall p :: p in s.phases ==> !s.phases[p].Holding?) ==> s.table == map[]
  {
    forall w | w in s.table ensures exists p :: p in s.phases && s.phases[p].Holding? {
      assert Owned(c, s, w);
      var p :| Owns(c, s, p, w);
      assert p in s.phases && s.phases[p].Holding?;
    }
    if s.table != map[] {
      var w :| w in s.table;
    }
  }

  // ----- why distinct names matter -----

  /** The table lists every unexpired slot held. */
  ghost predicate Covers(c: Config, s: State) {
    forall p :: HoldsFresh(s, p) && p in c.names ==> c.names[p] in s.table
  }

  function CollidingSteps(p: nat, q: nat): seq<Step> {
    [Start(p), Start(q), Check(p), Check(q), Take(p), Take(q), Finish(p)]
  }

  /** Slots are keyed by target name without namespace. If two reconciles share a name, the
      first to finish releases the slot the other still works under. */
  lemma SharedNameLosesSlot(c: Config, p: nat, q: nat)
    requires p in c.names && q in c.names && p != q && c.names[p] == c.names[q]
    ensures !Covers(c, Run(c, CollidingSteps(p, q)))
  {
    var w := c.names[p];
    var s0 := Initial(c);
    var s2 := MoveTo(MoveTo(s0, p, Deciding), q, Deciding);
    var s4 := MoveTo(MoveTo(s2, p, Cleared), q, Cleared);
    var s5 := MoveTo(s4.(table := map[w := 0]), p, Holding(0));
    var s6 := MoveTo(s5, q, Holding(0));
    EmptyTable();
    assert Cleanup(map[w := 0], 0) == map[w := 0];
    assert Apply(c, s4, Take(p)) == s5;
    assert Apply(c, s5, Take(q)) == s6;
    BothCleared(c, p, q);
    var checked := [Start(p), Start(q), Check(p), Check(q)];
    hide Run;
    RunTwo(c, checked, Take(p), Take(q), s4, s5, s6);
    assert CollidingSteps(p, q) == checked + [Take(p), Take(q)] + [Finish(p)];
    Unroll(c, checked + [Take(p), Take(q)], Finish(p));
    var s7 := Run(c, CollidingSteps(p, q));
    assert s7 == MoveTo(s6.(table := Release(s6.table, w)), p, Idle);
    assert HoldsFresh(s7, q) && c.names[q] !in s7.table;
  }

  /** Two reconciles can both pass the check before either asks for a slot. */
  lemma BothCleared(c: Config, p: nat, q: nat)
    requires p in c.names && q in c.names && p != q
    ensures Run(c, [Start(p), Start(q), Check(p), Check(q)])
            == MoveTo(MoveTo(MoveTo(MoveTo(Initial(c), p, Deciding), q, Deciding), p, Cleared), q, Cleared)
  {
    var s0 := Initial(c);
    var s2 := MoveTo(MoveTo(s0, p, Deciding), q, Deciding);
    var s4 := MoveTo(MoveTo(s2, p, Cleared), q, Cleared);
    EmptyTable();
    RunTwo(c, [], Start(p), Start(q), s0, MoveTo(s0, p, Deciding), s2);
    assert [] + [Start(p), Start(q)] == [Start(p), Start(q)];
    RunTwo(c, [Start(p), Start(q)], Check(p), Check(q), s2, MoveTo(s2, p, Cleared), s4);
    assert [Start(p), Start(q)] + [Check(p), Check(q)] == [Start(p), Start(q), Check(p), Check(q)];
  }

  lemma EmptyTable()
    ensures Cleanup(map[], 0) == map[]
  {
  }

  /** Two more steps of a run, each with its result. */
  lemma RunTwo(c: Config, steps: seq<Step>, a: Step, b: Step, s: State, s1: State, s2: State)
    requires Run(c, steps) == s && Apply(c, s, a) == s1 && Apply(c, s1, b) == s2
    ensures Run(c, steps + [a, b]) == s2
  {
    hide *;
    Unroll(c, steps, a);
    Unroll(c, steps + [a], b);
    assert steps + [a, b] == steps + [a] + [b];
  }

  lemma Unroll(c: Config, steps: seq<Step>, step: Step)
    ensures Run(c, steps + [step]) == Apply(c, Run(c, steps), step)
  {
    assert (steps + [step])[..|steps|] == steps;
  }

  /** So the table covers every unexpired slot in every run exactly when no two reconciles
      share a name. */
  lemma CoverageIffDistinctNames(c: Config)
    ensures (forall steps :: Covers(c, Run(c, steps))) <==> DistinctNames(c)
  {
    if DistinctNames(c) {
      forall steps ensures Covers(c, Run(c, steps)) {
        RunKeepsInv(c, steps);
        forall p | HoldsFresh(Run(c, steps), p) && p in c.names ensures c.names[p] in Run(c, steps).table {
          assert SlotRight(c, Run(c, steps), p);
        }
      }
    } else {
      var p, q :| p in c.names && q in c.names && p != q && c.names[p] == c.names[q];
      SharedNameLosesSlot(c, p, q);
    }
  }
}
