/** Whether two workloads that depend on each other can scale at the same time. */
module Exclusion {
  import opened Common
  import opened Coordinator
  import opened Protocol

  /** No two names in the set depend on each other. */
  ghost predicate Independent(g: Graph, names: set<string>) {
    forall v, w :: v in names && w in names && v != w ==> !DependsOn(g, v, w)
  }

  /** No two reconciles with unexpired slots depend on each other. */
  ghost predicate Excluded(c: Config, s: State) {
    forall p, q :: HoldsFresh(s, p) && HoldsFresh(s, q) && p != q && p in c.names && q in c.names ==> !Conflict(c, p, q)
  }

  predicate Conflict(c: Config, p: nat, q: nat)
    requires p in c.names && q in c.names
  {
    DependsOn(c.graph, c.names[p], c.names[q])
  }

  /** Dependencies between the running policies are declared on both sides. */
  ghost predicate Symmetric(c: Config) {
    forall p, q :: p in c.names && q in c.names && p != q && Conflict(c, p, q) ==> Conflict(c, q, p)
  }

  /** Runs in which nothing comes between the dependency check and asking for the slot. */
  datatype Macro = Plain(step: Step) | CheckAndTake(pid: nat)

  function ExpandOne(m: Macro): seq<Step> {
    match m
    case Plain(step) => if step.Check? || step.Take? then [] else [step]
    case CheckAndTake(p) => [Check(p), Take(p)]
  }

  function Expand(ms: seq<Macro>): seq<Step> {
    if ms == [] then [] else Expand(ms[..|ms| - 1]) + ExpandOne(ms[|ms| - 1])
  }

  lemma ExpandSnoc(ms: seq<Macro>, m: Macro)
    ensures Expand(ms + [m]) == Expand(ms) + ExpandOne(m)
  {
    assert (ms + [m])[..|ms|] == ms;
  }

  // ----- what atomic runs keep -----

  ghost predicate Named(c: Config, w: string) {
    exists p :: p in c.names && c.names[p] == w
  }

  /** The names in the table are workloads of the policies, and independent. */
  ghost predicate TableIndependent(c: Config, t: set<string>) {
    Independent(c.graph, t) && forall w :: w in t ==> Named(c, w)
  }

  /** Between atomic steps nobody is left between the check and the slot. */
  ghost predicate AtomicInv(c: Config, s: State) {
    TableIndependent(c, s.table.Keys) && forall p :: p in s.phases ==> !s.phases[p].Cleared?
  }

  lemma OtherStepsKeepAtomicInv(c: Config, s: State, step: Step)
    requires AtomicInv(c, s) && !step.Take? && !step.Check?
    ensures AtomicInv(c, Apply(c, s, step))
  {
    assert Apply(c, s, step).table.Keys <= s.table.Keys;
  }

  /** The check looks at every name that the slot would join. */
  lemma CheckAndTakeKeepsAtomicInv(c: Config, s: State, p: nat)
    requires Symmetric(c) && AtomicInv(c, s)
    ensures AtomicInv(c, Apply(c, Apply(c, s, Check(p)), Take(p)))
  {
    hide Symmetric, Independent, DependsOn;
    if p in s.phases && p in c.names && s.phases[p].Deciding? {
      var live := Cleanup(s.table, s.clock);
      SubsetIndependent(c, live.Keys, s.table.Keys);
      if !Defers(c.graph, c.names[p], live.Keys - {c.names[p]}) {
        NothingConflicts(c, live.Keys, p);
        CleanupTwice(s.table, s.clock);
        assert Apply(c, Apply(c, s, Check(p)), Take(p)).table.Keys <= live.Keys + {c.names[p]};
        SubsetIndependent(c, Apply(c, Apply(c, s, Check(p)), Take(p)).table.Keys, live.Keys + {c.names[p]});
      }
    }
  }

  lemma CleanupTwice(t: Table, now: Time)
    ensures Cleanup(Cleanup(t, now), now) == Cleanup(t, now)
  {
  }

  lemma SubsetIndependent(c: Config, a: set<string>, b: set<string>)
    requires a <= b && TableIndependent(c, b)
    ensures TableIndependent(c, a)
  {
  }

  /** A name that conflicts with none in the table is, by symmetry, conflicted with by none. */
  lemma NothingConflicts(c: Config, t: set<string>, p: nat)
    requires p in c.names && Symmetric(c) && !Defers(c.graph, c.names[p], t - {c.names[p]})
    requires TableIndependent(c, t)
    ensures TableIndependent(c, t + {c.names[p]})
  {
    var name := c.names[p];
    assert Named(c, name);
    forall w | w in t && w != name ensures !DependsOn(c.graph, name, w) && !DependsOn(c.graph, w, name) {
      assert w in t - {name};
      assert Named(c, w);
      var q :| q in c.names && c.names[q] == w;
      assert Conflict(c, q, p) ==> Conflict(c, p, q);
    }
  }

  lemma {:induction false} AtomicRunKeepsInv(c: Config, ms: seq<Macro>)
    requires Symmetric(c)
    ensures AtomicInv(c, Run(c, Expand(ms)))
  {
    hide AtomicInv, Symmetric, Apply;
    if ms == [] {
      NothingYet(c);
    } else {
      var front, m := ms[..|ms| - 1], ms[|ms| - 1];
      AtomicRunKeepsInv(c, front);
      var steps := Expand(front);
      match m {
        case Plain(step) =>
          if step.Check? || step.Take? {
            assert Expand(ms) == steps;
          } else {
            Unroll(c, steps, step);
            OtherStepsKeepAtomicInv(c, Run(c, steps), step);
          }
        case CheckAndTake(p) =>
          var s := Run(c, steps);
          RunTwo(c, steps, Check(p), Take(p), s, Apply(c, s, Check(p)), Apply(c, Apply(c, s, Check(p)), Take(p)));
          CheckAndTakeKeepsAtomicInv(c, s, p);
      }
    }
  }

  lemma NothingYet(c: Config)
    ensures AtomicInv(c, Initial(c))
  {
  }

  /** Check and slot as one step, dependencies declared on both sides: in every reachable
      state the names in the slot table are independent, and so are the workloads of any two
      reconciles whose slots have not expired. */
  lemma AtomicExclusion(c: Config, ms: seq<Macro>)
    requires DistinctNames(c) && Symmetric(c)
    ensures Independent(c.graph, Run(c, Expand(ms)).table.Keys)
    ensures Excluded(c, Run(c, Expand(ms)))
  {
    AtomicRunKeepsInv(c, ms);
    SlotSafety(c, Expand(ms));
    var s := Run(c, Expand(ms));
    hide Run, Expand;
    forall p, q | HoldsFresh(s, p) && HoldsFresh(s, q) && p != q && p in c.names && q in c.names
      ensures !Conflict(c, p, q)
    {
      assert c.names[p] in s.table && c.names[q] in s.table && c.names[p] != c.names[q];
    }
  }

  // ----- why both conditions matter -----

  /** Both reconciles get a slot when neither has been told to wait. */
  lemma BothTake(c: Config, s: State, p: nat, q: nat, sp: State, sq: State)
    requires DistinctNames(c) && p in c.names && q in c.names && p != q && c.maxConcurrent != 1
    requires s.phases.Keys == c.names.Keys && s.table == map[] && s.phases[p].Cleared? && s.phases[q].Cleared?
    requires sp == Apply(c, s, Take(p)) && sq == Apply(c, sp, Take(q))
    ensures HoldsFresh(sq, p) && HoldsFresh(sq, q)
  {
    EmptyTable();
    var w := c.names[p];
    assert Cleanup(map[w := s.clock], s.clock) == map[w := s.clock];
    assert sp == MoveTo(s.(table := map[w := s.clock]), p, Holding(s.clock));
    assert |map[w := s.clock]| == 1;
  }

  /** As written, the check and the slot are separate critical sections: any two reconciles
      can both hold a slot, whatever they declare. */
  lemma SeparateStepsLetBothIn(c: Config, p: nat, q: nat)
    requires DistinctNames(c) && p in c.names && q in c.names && p != q && c.maxConcurrent != 1
    ensures var s := Run(c, [Start(p), Start(q), Check(p), Check(q)] + [Take(p), Take(q)]);
            HoldsFresh(s, p) && HoldsFresh(s, q)
  {
    BothCleared(c, p, q);
    var checked := [Start(p), Start(q), Check(p), Check(q)];
    var s := Run(c, checked);
    var sp := Apply(c, s, Take(p));
    var sq := Apply(c, sp, Take(q));
    hide Run;
    RunTwo(c, checked, Take(p), Take(q), s, sp, sq);
    BothTake(c, s, p, q, sp, sq);
  }

  /** A limit of one slot keeps everybody apart. */
  lemma SingleSlotExcludes(c: Config, steps: seq<Step>)
    requires DistinctNames(c) && c.maxConcurrent == 1
    ensures Excluded(c, Run(c, steps))
  {
    SlotSafety(c, steps);
    var s := Run(c, steps);
    hide Run, HoldsFresh, Conflict;
    forall p, q | HoldsFresh(s, p) && HoldsFresh(s, q) ensures p == q {
      OnlyEntry(s.table, c.names[p], c.names[q]);
    }
  }

  lemma OnlyEntry(t: Table, v: string, w: string)
    requires v in t && w in t && |t| <= 1
    ensures v == w
  {
    assert |t.Keys| == |t|;
    assert |t.Keys - {v}| == |t.Keys| - |{v}|;
  }

  /** So, taken as the code takes them, dependencies are respected in every run only when
      there are none between the running policies, or only one slot. */
  lemma SeparateStepsExclude(c: Config)
    requires DistinctNames(c)
    ensures (forall steps :: Excluded(c, Run(c, steps)))
            <==> c.maxConcurrent == 1 || (forall p, q :: p in c.names && q in c.names && p != q ==> !Conflict(c, p, q))
  {
    hide Run, HoldsFresh;
    if c.maxConcurrent == 1 {
      forall steps ensures Excluded(c, Run(c, steps)) {
        SingleSlotExcludes(c, steps);
      }
    } else if forall p, q :: p in c.names && q in c.names && p != q ==> !Conflict(c, p, q) {
      forall steps ensures Excluded(c, Run(c, steps)) {
      }
    } else {
      var p, q :| p in c.names && q in c.names && p != q && Conflict(c, p, q);
      SeparateStepsLetBothIn(c, p, q);
      assert !Excluded(c, Run(c, [Start(p), Start(q), Check(p), Check(q)] + [Take(p), Take(q)]));
    }
  }

  function OneSidedRun(p: nat, q: nat): seq<Macro> {
    [Plain(Start(p)), Plain(Start(q)), CheckAndTake(p), CheckAndTake(q)]
  }

  lemma OneSidedSteps(p: nat, q: nat)
    ensures Expand(OneSidedRun(p, q)) == [Start(p), Start(q)] + [Check(p), Take(p)] + [Check(q), Take(q)]
  {
    var ms := OneSidedRun(p, q);
    assert ms[..0] == [] && ms[..1] == ms[..0] + [ms[0]] && ms[..2] == ms[..1] + [ms[1]]
           && ms[..3] == ms[..2] + [ms[2]] && ms == ms[..3] + [ms[3]];
    ExpandSnoc(ms[..0], ms[0]);
    ExpandSnoc(ms[..1], ms[1]);
    ExpandSnoc(ms[..2], ms[2]);
    ExpandSnoc(ms[..3], ms[3]);
  }

  /** If only p declares the dependency and p goes first, q is let in beside it. */
  lemma OneSidedLetsBothIn(c: Config, p: nat, q: nat)
    requires DistinctNames(c) && p in c.names && q in c.names && p != q && c.maxConcurrent != 1
    requires !Conflict(c, q, p)
    ensures var s := Run(c, Expand(OneSidedRun(p, q)));
            HoldsFresh(s, p) && HoldsFresh(s, q)
  {
    var s2 := MoveTo(MoveTo(Initial(c), p, Deciding), q, Deciding);
    BothStarted(c, p, q);
    var s4 := TakesFirst(c, s2, p);
    var s6 := TakesSecond(c, s4, p, q);
    OneSidedSteps(p, q);
    hide Run;
    RunTwo(c, [Start(p), Start(q)], Check(p), Take(p), s2, Apply(c, s2, Check(p)), s4);
    RunTwo(c, [Start(p), Start(q)] + [Check(p), Take(p)], Check(q), Take(q), s4, Apply(c, s4, Check(q)), s6);
  }

  lemma BothStarted(c: Config, p: nat, q: nat)
    requires p in c.names && q in c.names && p != q
    ensures Run(c, [Start(p), Start(q)]) == MoveTo(MoveTo(Initial(c), p, Deciding), q, Deciding)
  {
    var s0 := Initial(c);
    RunTwo(c, [], Start(p), Start(q), s0, MoveTo(s0, p, Deciding), MoveTo(MoveTo(s0, p, Deciding), q, Deciding));
    assert [] + [Start(p), Start(q)] == [Start(p), Start(q)];
  }

  /** With an empty table the first to check is let in. */
  lemma TakesFirst(c: Config, s: State, p: nat) returns (s': State)
    requires p in c.names && p in s.phases && s.phases[p].Deciding? && s.table == map[]
    ensures s' == Apply(c, Apply(c, s, Check(p)), Take(p))
    ensures s' == MoveTo(s.(table := map[c.names[p] := s.clock]), p, Holding(s.clock))
  {
    EmptyTable();
    assert Apply(c, s, Check(p)) == MoveTo(s, p, Cleared);
    s' := Apply(c, Apply(c, s, Check(p)), Take(p));
  }

  /** A reconcile that names none of the workloads in the table is let in beside one of them. */
  lemma TakesSecond(c: Config, s: State, p: nat, q: nat) returns (s': State)
    requires p in c.names && q in c.names && p != q && c.names[p] != c.names[q] && c.maxConcurrent != 1
    requires q in s.phases && s.phases[q].Deciding? && HoldsFresh(s, p) && s.table == map[c.names[p] := s.clock]
    requires !Conflict(c, q, p)
    ensures s' == Apply(c, Apply(c, s, Check(q)), Take(q))
    ensures HoldsFresh(s', p) && HoldsFresh(s', q)
  {
    var w := c.names[p];
    assert Cleanup(s.table, s.clock) == s.table;
    assert s.table.Keys - {c.names[q]} == {w};
    assert Apply(c, s, Check(q)) == MoveTo(s, q, Cleared);
    assert |s.table| == 1;
    s' := Apply(c, Apply(c, s, Check(q)), Take(q));
  }

  /** Even with check and slot as one step, dependencies are respected in every run exactly
      when they are declared on both sides, or there is only one slot. */
  lemma AtomicStepsExclude(c: Config)
    requires DistinctNames(c)
    ensures (forall ms :: Excluded(c, Run(c, Expand(ms)))) <==> c.maxConcurrent == 1 || Symmetric(c)
  {
    hide Run, HoldsFresh, Expand;
    if c.maxConcurrent == 1 {
      forall ms ensures Excluded(c, Run(c, Expand(ms))) {
        SingleSlotExcludes(c, Expand(ms));
      }
    } else if Symmetric(c) {
      forall ms ensures Excluded(c, Run(c, Expand(ms))) {
        AtomicExclusion(c, ms);
      }
    } else {
      var p, q :| p in c.names && q in c.names && p != q && Conflict(c, p, q) && !Conflict(c, q, p);
      OneSidedLetsBothIn(c, p, q);
      assert !Excluded(c, Run(c, Expand(OneSidedRun(p, q))));
    }
  }
}
