/** The cluster coordinator's slot table and the dependency graph it is consulted with. */
module Coordinator {
  import opened Common

  /** Workload name to the time its slot was taken or last refreshed. */
  type Table = map<string, Time>

  const SLOT_TTL: Time := 300_000_000_000

  function Cleanup(t: Table, now: Time): Table {
    map w | w in t && t[w] >= now - SLOT_TTL :: t[w]
  }

  /** The table after asking for a slot, and whether one was given. */
  function Acquire(t: Table, maxConcurrent: int, workload: string, now: Time): (Table, bool) {
    var live := Cleanup(t, now);
    if workload in live then (live[workload := now], true)
    else if maxConcurrent > 0 && |live| >= maxConcurrent then (live, false)
    else (live[workload := now], true)
  }

  function Release(t: Table, workload: string): Table {
    t - {workload}
  }

  lemma SubtableSmaller(a: Table, b: Table)
    requires a.Keys <= b.Keys
    ensures |a| <= |b|
  {
    assert |b.Keys - a.Keys| == |b.Keys| - |a.Keys|;
    assert |a.Keys| == |a| && |b.Keys| == |b|;
  }

  /** However often slots are asked for, the table never outgrows its limit. */
  lemma AcquireBounded(t: Table, maxConcurrent: int, workload: string, now: Time)
    requires maxConcurrent > 0 ==> |t| <= maxConcurrent
    ensures maxConcurrent > 0 ==> |Acquire(t, maxConcurrent, workload, now).0| <= maxConcurrent
  {
    var live := Cleanup(t, now);
    SubtableSmaller(live, t);
    assert workload in live ==> live[workload := now].Keys == live.Keys;
    if workload in live {
      SubtableSmaller(live[workload := now], live);
    }
  }

  class ClusterCoordinator {
    const maxConcurrent: int
    var activeOps: Table

    constructor (maxConcurrent: int)
      ensures this.maxConcurrent == maxConcurrent && activeOps == map[]
    {
      this.maxConcurrent := maxConcurrent;
      activeOps := map[];
    }

    method AcquireScalingSlot(workload: string, now: Time) returns (ok: bool)
      modifies this
      ensures (activeOps, ok) == Acquire(old(activeOps), maxConcurrent, workload, now)
    {
      CleanupLocked(now);
      if workload in activeOps {
        activeOps := activeOps[workload := now];
        return true;
      }
      if maxConcurrent > 0 && |activeOps| >= maxConcurrent {
        return false;
      }
      activeOps := activeOps[workload := now];
      return true;
    }

    method ReleaseScalingSlot(workload: string)
      modifies this
      ensures activeOps == Release(old(activeOps), workload)
    {
      activeOps := activeOps - {workload};
    }

    method ActiveOperations(now: Time) returns (n: nat)
      modifies this
      ensures activeOps == Cleanup(old(activeOps), now) && n == |activeOps|
    {
      CleanupLocked(now);
      n := |activeOps|;
    }

    /** A snapshot of the workloads whose slot has not expired. */
    method ActiveWorkloads(now: Time) returns (active: set<string>)
      modifies this
      ensures activeOps == Cleanup(old(activeOps), now) && active == activeOps.Keys
    {
      CleanupLocked(now);
      active := activeOps.Keys;
    }

    method CleanupLocked(now: Time)
      modifies this
      ensures activeOps == Cleanup(old(activeOps), now)
    {
      var cutoff := now - SLOT_TTL;
      var all := activeOps;
      var left := all.Keys;
      while left != {}
        invariant left <= all.Keys
        invariant activeOps == map w | w in all && (w in left || all[w] >= cutoff) :: all[w]
        decreases left
      {
        var w :| w in left;
        if activeOps[w] < cutoff {
          activeOps := activeOps - {w};
        }
        left := left - {w};
      }
    }
  }

  // ----- dependencies -----

  datatype CoscaleEntry = CoscaleEntry(workload: string, ratio: real)

  datatype WorkloadNode = WorkloadNode(name: string, upstream: seq<string>, downstream: seq<string>,
                                       coscales: seq<CoscaleEntry>)

  datatype Dependencies = Dependencies(upstreamOf: seq<string>, downstreamOf: seq<string>,
                                       coscalesWith: seq<CoscaleEntry>)

  /** The part of a policy the graph is built from. */
  datatype GraphPolicy = GraphPolicy(name: string, targetName: string, dependencies: Option<Dependencies>)

  type Graph = map<string, WorkloadNode>

  function WorkloadName(p: GraphPolicy): string {
    if p.targetName == "" then p.name else p.targetName
  }

  function NodeOf(p: GraphPolicy): WorkloadNode {
    match p.dependencies
    case None => WorkloadNode(WorkloadName(p), [], [], [])
    case Some(d) => WorkloadNode(WorkloadName(p), d.upstreamOf, d.downstreamOf, d.coscalesWith)
  }

  /** One node per workload name; of several policies with the same name, the last counts. */
  function GraphOf(policies: seq<GraphPolicy>): Graph {
    if policies == [] then map[]
    else
      var last := policies[|policies| - 1];
      GraphOf(policies[..|policies| - 1])[WorkloadName(last) := NodeOf(last)]
  }

  /** v names w as one of its dependencies, in either direction. */
  predicate DependsOn(g: Graph, v: string, w: string) {
    v in g && (w in g[v].upstream || w in g[v].downstream)
  }

  predicate Defers(g: Graph, workload: string, active: set<string>) {
    exists w :: w in active && DependsOn(g, workload, w)
  }

  class DependencyGraph {
    var graph: Graph

    constructor ()
      ensures graph == map[]
    {
      graph := map[];
    }

    method BuildFromPolicies(policies: seq<GraphPolicy>)
      modifies this
      ensures graph == GraphOf(policies)
    {
      graph := map[];
      for n := 0 to |policies|
        invariant graph == GraphOf(policies[..n])
      {
        var p := policies[n];
        assert policies[..n + 1][..n] == policies[..n];
        var name := p.targetName;
        if name == "" {
          name := p.name;
        }
        var node := WorkloadNode(name, [], [], []);
        if p.dependencies.Some? {
          var d := p.dependencies.value;
          for i := 0 to |d.upstreamOf|
            invariant node == WorkloadNode(name, d.upstreamOf[..i], [], [])
          {
            node := node.(upstream := node.upstream + [d.upstreamOf[i]]);
          }
          for i := 0 to |d.downstreamOf|
            invariant node == WorkloadNode(name, d.upstreamOf, d.downstreamOf[..i], [])
          {
            node := node.(downstream := node.downstream + [d.downstreamOf[i]]);
          }
          for i := 0 to |d.coscalesWith|
            invariant node == WorkloadNode(name, d.upstreamOf, d.downstreamOf, d.coscalesWith[..i])
          {
            node := node.(coscales := node.coscales + [d.coscalesWith[i]]);
          }
        }
        assert node == NodeOf(p);
        graph := graph[name := node];
      }
      assert policies[..|policies|] == policies;
    }

    method ShouldDefer(workload: string, activeScaling: set<string>) returns (b: bool)
      ensures b <==> Defers(graph, workload, activeScaling)
    {
      if workload !in graph {
        return false;
      }
      var node := graph[workload];
      for i := 0 to |node.upstream|
        invariant forall k :: 0 <= k < i ==> node.upstream[k] !in activeScaling
      {
        if node.upstream[i] in activeScaling {
          assert DependsOn(graph, workload, node.upstream[i]);
          return true;
        }
      }
      for i := 0 to |node.downstream|
        invariant forall k :: 0 <= k < i ==> node.downstream[k] !in activeScaling
      {
        if node.downstream[i] in activeScaling {
          assert DependsOn(graph, workload, node.downstream[i]);
          return true;
        }
      }
      return false;
    }
  }

  /** The graph declares exactly what the policies do: for a workload name what the last policy of
      that name declares, in either direction. */
  lemma {:induction false} GraphDeclares(policies: seq<GraphPolicy>, k: nat, w: string)
    requires k < |policies|
    requires forall j :: k < j < |policies| ==> WorkloadName(policies[j]) != WorkloadName(policies[k])
    ensures DependsOn(GraphOf(policies), WorkloadName(policies[k]), w)
            <==> policies[k].dependencies.Some?
                 && (w in policies[k].dependencies.value.upstreamOf || w in policies[k].dependencies.value.downstreamOf)
  {
    if k < |policies| - 1 {
      GraphDeclares(policies[..|policies| - 1], k, w);
    }
  }

  /** A workload that no policy names depends on nothing. */
  lemma {:induction false} UnnamedDependsOnNothing(policies: seq<GraphPolicy>, v: string, w: string)
    requires forall k :: 0 <= k < |policies| ==> WorkloadName(policies[k]) != v
    ensures !DependsOn(GraphOf(policies), v, w)
  {
    if policies != [] {
      UnnamedDependsOnNothing(policies[..|policies| - 1], v, w);
    }
  }

  /** The workloads whose slot was taken or refreshed in the last five minutes. */
  function Unexpired(t: Table, now: Time): set<string> {
    set w | w in t && now - t[w] <= 5 * 60 * 1_000_000_000
  }

  /** Looking at the table drops exactly the slots older than five minutes. */
  lemma CleanupExactly(t: Table, now: Time)
    ensures Cleanup(t, now).Keys == Unexpired(t, now)
    ensures forall w :: w in Cleanup(t, now) ==> Cleanup(t, now)[w] == t[w]
  {
  }

  /** A slot is given exactly if the workload still has one, if there is no limit, or if fewer
      unexpired slots than the limit are out; it is then dated now, and nobody else's slot is
      touched, except that expired ones are gone. */
  lemma AcquireExactly(t: Table, maxConcurrent: int, workload: string, now: Time)
    ensures var (after, ok) := Acquire(t, maxConcurrent, workload, now);
            && (ok <==> workload in Unexpired(t, now) || maxConcurrent <= 0 || |Unexpired(t, now)| < maxConcurrent)
            && after.Keys == Unexpired(t, now) + (if ok then {workload} else {})
            && (ok ==> after[workload] == now)
            && (forall w :: w in after && w != workload ==> after[w] == t[w])
  {
    CleanupExactly(t, now);
    assert |Cleanup(t, now).Keys| == |Cleanup(t, now)|;
  }
}
