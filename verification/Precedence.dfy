/** The layered precedence resolver: which of the competing requests wins, and the
    audit trail that says so. */
module Precedence {
  import opened Common

  datatype Layer =
    | SafetyLayer | HumanLayer | ScheduleLayer | SloLayer
    | ReactiveLayer | LlmLayer | DeterministicLayer | CostLayer

  datatype Request = Request(target: int, reason: string)

  datatype Inputs = Inputs(
    safety: Option<Request>,
    human: Option<Request>,
    schedule: Option<Request>,
    slo: Option<Request>,
    reactive: Option<Request>,
    llm: Option<Request>,
    deterministic: Option<Request>,
    costMax: Option<int>,
    costReason: string,
    minReplicas: int,
    maxReplicas: int,
    scheduleOverridesLLM: Option<bool>,
    reactiveRulesOverrideLLM: Option<bool>,
    sloAlwaysWins: Option<bool>)

  datatype Claim = Claim(layer: Layer, request: Option<Request>)

  datatype AuditEntry = AuditEntry(layer: Layer, target: int, reason: string, applied: bool)

  datatype Conflict = Overridden(layer: Layer, wanted: int, overriddenBy: Layer) | CostCapped

  datatype ResolvedDecision = ResolvedDecision(targetReplicas: int, layers: seq<AuditEntry>, conflicts: seq<Conflict>)

  function FlagOrDefault(flag: Option<bool>, default: bool): bool {
    match flag
    case None => default
    case Some(b) => b
  }

  /** Appends a layer if the flag says this is its place. */
  function AddLayer(layers: seq<Claim>, here: bool, c: Claim): seq<Claim> {
    if here then layers + [c] else layers
  }

  /** The layers that come before the LLM. */
  function BeforeLLM(i: Inputs): seq<Claim> {
    var scheduleFirst := FlagOrDefault(i.scheduleOverridesLLM, true);
    var reactiveFirst := FlagOrDefault(i.reactiveRulesOverrideLLM, true);
    var sloFirst := FlagOrDefault(i.sloAlwaysWins, true);
    var a1 := AddLayer([], true, Claim(SafetyLayer, i.safety));
    var a2 := AddLayer(a1, true, Claim(HumanLayer, i.human));
    var a3 := AddLayer(a2, scheduleFirst, Claim(ScheduleLayer, i.schedule));
    var a4 := AddLayer(a3, sloFirst, Claim(SloLayer, i.slo));
    AddLayer(a4, reactiveFirst, Claim(ReactiveLayer, i.reactive))
  }

  /** The layers in the order they are consulted. */
  function Ordered(i: Inputs): seq<Claim> {
    var scheduleFirst := FlagOrDefault(i.scheduleOverridesLLM, true);
    var reactiveFirst := FlagOrDefault(i.reactiveRulesOverrideLLM, true);
    var sloFirst := FlagOrDefault(i.sloAlwaysWins, true);
    var a6 := AddLayer(BeforeLLM(i), true, Claim(LlmLayer, i.llm));
    var a7 := AddLayer(a6, !reactiveFirst, Claim(ReactiveLayer, i.reactive));
    var a8 := AddLayer(a7, !sloFirst, Claim(SloLayer, i.slo));
    var a9 := AddLayer(a8, !scheduleFirst, Claim(ScheduleLayer, i.schedule));
    AddLayer(a9, true, Claim(DeterministicLayer, i.deterministic))
  }

  /** The claims that actually ask for something, in order. */
  function Present(claims: seq<Claim>): (r: seq<Claim>)
    ensures forall c :: c in r <==> c in claims && c.request.Some?
  {
    if claims == [] then []
    else if claims[0].request.Some? then [claims[0]] + Present(claims[1..])
    else Present(claims[1..])
  }

  /** One audit entry per present claim; only the first is applied. */
  function Entries(present: seq<Claim>): (r: seq<AuditEntry>)
    requires forall c :: c in present ==> c.request.Some?
    ensures |r| == |present|
  {
    seq(|present|, k requires 0 <= k < |present| =>
      AuditEntry(present[k].layer, present[k].request.value.target, present[k].request.value.reason, k == 0))
  }

  /** The later claims that disagree with the first. */
  function Disagreements(winner: Claim, rest: seq<Claim>): seq<Conflict>
    requires winner.request.Some? && forall c :: c in rest ==> c.request.Some?
  {
    if rest == [] then []
    else
      var tail := Disagreements(winner, rest[1..]);
      var wanted := rest[0].request.value.target;
      if wanted != winner.request.value.target then [Overridden(rest[0].layer, wanted, winner.layer)] + tail else tail
  }

  function BoundTo(target: int, minReplicas: int, maxReplicas: int): int {
    var t := if target < minReplicas then minReplicas else target;
    if maxReplicas > 0 && t > maxReplicas then maxReplicas else t
  }

  function BaseTarget(present: seq<Claim>): int
    requires forall c :: c in present ==> c.request.Some?
  {
    if present == [] then 0 else present[0].request.value.target
  }

  /** What Resolve computes. */
  function Resolution(i: Inputs): ResolvedDecision {
    var present := Present(Ordered(i));
    var base := BaseTarget(present);
    var capped := i.costMax.Some? && base > i.costMax.value;
    ResolvedDecision(
      BoundTo(if capped then i.costMax.value else base, i.minReplicas, i.maxReplicas),
      Entries(present) + (if capped then [AuditEntry(CostLayer, i.costMax.value, i.costReason, true)] else []),
      (if present == [] then [] else Disagreements(present[0], present[1..])) + (if capped then [CostCapped] else []))
  }

  class PrecedenceResolver {
    constructor () {}

    /** The resolver: consult the layers, then the cost cap, then the bounds. */
    method Resolve(inputs: Inputs) returns (rd: ResolvedDecision)
      ensures rd == Resolution(inputs)
    {
      hide Ordered, Present, Entries, Disagreements, BaseTarget;
      var layers := BuildLayers(inputs);
      var target, entries, conflicts := Consult(layers);
      if inputs.costMax.Some? && target > inputs.costMax.value {
        conflicts := conflicts + [CostCapped];
        target := inputs.costMax.value;
        entries := entries + [AuditEntry(CostLayer, inputs.costMax.value, inputs.costReason, true)];
      }
      if target < inputs.minReplicas {
        target := inputs.minReplicas;
      }
      if inputs.maxReplicas > 0 && target > inputs.maxReplicas {
        target := inputs.maxReplicas;
      }
      rd := ResolvedDecision(target, entries, conflicts);
    }

    /** The loop over the layers: the first present one wins. */
    method Consult(layers: seq<Claim>) returns (target: int, entries: seq<AuditEntry>, conflicts: seq<Conflict>)
      ensures var p := Present(layers);
              target == BaseTarget(p) && entries == Entries(p)
              && conflicts == if p == [] then [] else Disagreements(p[0], p[1..])
    {
      var winner: Option<Claim> := None;
      target, entries, conflicts := 0, [], [];
      ghost var seen := [];
      for n := 0 to |layers|
        invariant seen == Present(layers[..n]) && entries == Entries(seen)
        invariant winner.None? <==> seen == []
        invariant winner.Some? ==> winner.value == seen[0] && conflicts == Disagreements(seen[0], seen[1..])
        invariant winner.None? ==> conflicts == []
      {
        var layer := layers[n];
        PresentSnoc(layers[..n], layer);
        assert layers[..n + 1] == layers[..n] + [layer];
        if layer.request.Some? {
          var entry := AuditEntry(layer.layer, layer.request.value.target, layer.request.value.reason, false);
          if winner.None? {
            winner := Some(layer);
            entry := entry.(applied := true);
          } else {
            DisagreementsSnoc(seen[0], seen[1..], layer);
            assert (seen + [layer])[1..] == seen[1..] + [layer];
            if layer.request.value.target != winner.value.request.value.target {
              conflicts := conflicts + [Overridden(layer.layer, layer.request.value.target, winner.value.layer)];
            }
          }
          EntriesSnoc(seen, layer);
          entries := entries + [entry];
          seen := seen + [layer];
        }
      }
      assert layers[..|layers|] == layers;
      if winner.Some? {
        target := winner.value.request.value.target;
      }
    }

    method BuildLayers(inputs: Inputs) returns (layers: seq<Claim>)
      ensures layers == Ordered(inputs)
    {
      hide BeforeLLM;
      var scheduleFirst := FlagOrDefault(inputs.scheduleOverridesLLM, true);
      var reactiveFirst := FlagOrDefault(inputs.reactiveRulesOverrideLLM, true);
      var sloFirst := FlagOrDefault(inputs.sloAlwaysWins, true);
      layers := BuildBeforeLLM(inputs, scheduleFirst, sloFirst, reactiveFirst);
      layers := layers + [Claim(LlmLayer, inputs.llm)];
      if !reactiveFirst { layers := layers + [Claim(ReactiveLayer, inputs.reactive)]; }
      if !sloFirst { layers := layers + [Claim(SloLayer, inputs.slo)]; }
      if !scheduleFirst { layers := layers + [Claim(ScheduleLayer, inputs.schedule)]; }
      layers := layers + [Claim(DeterministicLayer, inputs.deterministic)];
    }

    method BuildBeforeLLM(inputs: Inputs, scheduleFirst: bool, sloFirst: bool,
                          reactiveFirst: bool) returns (layers: seq<Claim>)
      requires scheduleFirst == FlagOrDefault(inputs.scheduleOverridesLLM, true)
      requires reactiveFirst == FlagOrDefault(inputs.reactiveRulesOverrideLLM, true)
      requires sloFirst == FlagOrDefault(inputs.sloAlwaysWins, true)
      ensures layers == BeforeLLM(inputs)
    {
      layers := [Claim(SafetyLayer, inputs.safety)];
      layers := layers + [Claim(HumanLayer, inputs.human)];
      if scheduleFirst { layers := layers + [Claim(ScheduleLayer, inputs.schedule)]; }
      if sloFirst { layers := layers + [Claim(SloLayer, inputs.slo)]; }
      if reactiveFirst { layers := layers + [Claim(ReactiveLayer, inputs.reactive)]; }
    }
  }

  lemma {:induction false} PresentSnoc(s: seq<Claim>, c: Claim)
    ensures Present(s + [c]) == Present(s) + (if c.request.Some? then [c] else [])
  {
    if s == [] {
      assert s + [c] == [c];
    } else {
      PresentSnoc(s[1..], c);
      assert (s + [c])[1..] == s[1..] + [c];
    }
  }

  lemma EntriesSnoc(s: seq<Claim>, c: Claim)
    requires c.request.Some? && forall d :: d in s ==> d.request.Some?
    ensures Entries(s + [c])
            == Entries(s) + [AuditEntry(c.layer, c.request.value.target, c.request.value.reason, s == [])]
  {
  }

  lemma {:induction false} DisagreementsSnoc(w: Claim, s: seq<Claim>, c: Claim)
    requires w.request.Some? && c.request.Some? && forall d :: d in s ==> d.request.Some?
    ensures Disagreements(w, s + [c])
            == Disagreements(w, s)
               + (if c.request.value.target != w.request.value.target
                  then [Overridden(c.layer, c.request.value.target, w.layer)] else [])
  {
    if s == [] {
      assert s + [c] == [c];
    } else {
      DisagreementsSnoc(w, s[1..], c);
      assert (s + [c])[1..] == s[1..] + [c];
    }
  }

  // ----- who wins -----

  /** The published priority of a layer, smaller first. The three flags move schedule,
      SLO and reactive rules from before the LLM to after it. */
  function Rank(l: Layer, i: Inputs): int {
    match l
    case SafetyLayer => 1
    case HumanLayer => 2
    case ScheduleLayer => if FlagOrDefault(i.scheduleOverridesLLM, true) then 3 else 9
    case SloLayer => if FlagOrDefault(i.sloAlwaysWins, true) then 4 else 8
    case ReactiveLayer => if FlagOrDefault(i.reactiveRulesOverrideLLM, true) then 5 else 7
    case LlmLayer => 6
    case DeterministicLayer => 10
    case CostLayer => 11
  }

  function RequestOf(l: Layer, i: Inputs): Option<Request> {
    match l
    case SafetyLayer => i.safety
    case HumanLayer => i.human
    case ScheduleLayer => i.schedule
    case SloLayer => i.slo
    case ReactiveLayer => i.reactive
    case LlmLayer => i.llm
    case DeterministicLayer => i.deterministic
    case CostLayer => None
  }

  ghost predicate Ranked(s: seq<Claim>, i: Inputs) {
    forall a, b :: 0 <= a < b < |s| ==> Rank(s[a].layer, i) < Rank(s[b].layer, i)
  }

  /** Ranked, with every rank below r, and holding only what the inputs say. */
  ghost predicate RankedBelow(s: seq<Claim>, i: Inputs, r: int) {
    && Ranked(s, i)
    && forall c :: c in s ==> Rank(c.layer, i) < r && c.request == RequestOf(c.layer, i) && c.layer != CostLayer
  }

  lemma AddLayerRanked(s: seq<Claim>, here: bool, c: Claim, i: Inputs, r: int)
    requires RankedBelow(s, i, r) && c.request == RequestOf(c.layer, i) && c.layer != CostLayer
    requires here ==> Rank(c.layer, i) == r
    ensures RankedBelow(AddLayer(s, here, c), i, r + 1)
    ensures forall d :: d in AddLayer(s, here, c) <==> d in s || (here && d == c)
  {
    var t := AddLayer(s, here, c);
    forall a, b | 0 <= a < b < |t| ensures Rank(t[a].layer, i) < Rank(t[b].layer, i) {
      assert t[a] in s;
    }
  }

  lemma OrderedByRank(i: Inputs)
    ensures RankedBelow(Ordered(i), i, 11)
    ensures forall l: Layer :: l != CostLayer ==> Claim(l, RequestOf(l, i)) in Ordered(i)
  {
    var s := FlagOrDefault(i.scheduleOverridesLLM, true);
    var r := FlagOrDefault(i.reactiveRulesOverrideLLM, true);
    var o := FlagOrDefault(i.sloAlwaysWins, true);
    var a0: seq<Claim> := [];
    var a1 := AddLayer(a0, true, Claim(SafetyLayer, i.safety));
    AddLayerRanked(a0, true, Claim(SafetyLayer, i.safety), i, 1);
    var a2 := AddLayer(a1, true, Claim(HumanLayer, i.human));
    AddLayerRanked(a1, true, Claim(HumanLayer, i.human), i, 2);
    var a3 := AddLayer(a2, s, Claim(ScheduleLayer, i.schedule));
    AddLayerRanked(a2, s, Claim(ScheduleLayer, i.schedule), i, 3);
    var a4 := AddLayer(a3, o, Claim(SloLayer, i.slo));
    AddLayerRanked(a3, o, Claim(SloLayer, i.slo), i, 4);
    var a5 := AddLayer(a4, r, Claim(ReactiveLayer, i.reactive));
    AddLayerRanked(a4, r, Claim(ReactiveLayer, i.reactive), i, 5);
    var a6 := AddLayer(a5, true, Claim(LlmLayer, i.llm));
    AddLayerRanked(a5, true, Claim(LlmLayer, i.llm), i, 6);
    var a7 := AddLayer(a6, !r, Claim(ReactiveLayer, i.reactive));
    AddLayerRanked(a6, !r, Claim(ReactiveLayer, i.reactive), i, 7);
    var a8 := AddLayer(a7, !o, Claim(SloLayer, i.slo));
    AddLayerRanked(a7, !o, Claim(SloLayer, i.slo), i, 8);
    var a9 := AddLayer(a8, !s, Claim(ScheduleLayer, i.schedule));
    AddLayerRanked(a8, !s, Claim(ScheduleLayer, i.schedule), i, 9);
    AddLayerRanked(a9, true, Claim(DeterministicLayer, i.deterministic), i, 10);
  }

  lemma {:induction false} PresentKeepsOrder(claims: seq<Claim>, i: Inputs)
    requires Ranked(claims, i)
    ensures Ranked(Present(claims), i)
  {
    if claims != [] {
      assert Ranked(claims[1..], i);
      PresentKeepsOrder(claims[1..], i);
      var p := Present(claims[1..]);
      forall k | 0 <= k < |p| ensures Rank(claims[0].layer, i) < Rank(p[k].layer, i) {
        assert p[k] in claims[1..];
        var n :| 0 <= n < |claims[1..]| && claims[1..][n] == p[k];
        assert claims[n + 1] == p[k];
      }
    }
  }

  /** The present claims, with everything known about them. */
  lemma PresentRanked(i: Inputs)
    ensures var p := Present(Ordered(i));
            && Ranked(p, i)
            && (forall c :: c in p ==> c.request.Some? && c.request == RequestOf(c.layer, i) && c.layer != CostLayer)
            && (forall l: Layer :: RequestOf(l, i).Some? ==> Claim(l, RequestOf(l, i)) in p)
  {
    OrderedByRank(i);
    PresentKeepsOrder(Ordered(i), i);
  }

  /** The entries before a cost cap are the layers that asked, in rank order, and exactly
      the best-ranked one of them is applied. */
  lemma AppliedLayerOutranksAll(i: Inputs)
    ensures var layers := Resolution(i).layers;
            var n := |Present(Ordered(i))|;
            && n <= |layers| <= n + 1
            && (forall k :: 0 <= k < n ==>
                  && RequestOf(layers[k].layer, i) == Some(Request(layers[k].target, layers[k].reason))
                  && (layers[k].applied <==> k == 0))
            && (forall l: Layer :: RequestOf(l, i).Some? ==> exists k :: 0 <= k < n && layers[k].layer == l)
            && (forall a, b :: 0 <= a < b < n ==> Rank(layers[a].layer, i) < Rank(layers[b].layer, i))
            && (|layers| == n + 1 ==> layers[n].layer == CostLayer && layers[n].applied)
  {
    PresentRanked(i);
    var p := Present(Ordered(i));
    EntriesExact(p, i);
    var entries := Entries(p);
    forall k | 0 <= k < |p| ensures Resolution(i).layers[k] == entries[k] {
    }
  }

  lemma EntriesExact(p: seq<Claim>, i: Inputs)
    requires Ranked(p, i)
    requires forall c :: c in p ==> c.request.Some? && c.request == RequestOf(c.layer, i)
    requires forall l: Layer :: RequestOf(l, i).Some? ==> Claim(l, RequestOf(l, i)) in p
    ensures var e := Entries(p);
            && (forall k :: 0 <= k < |p| ==>
                  RequestOf(e[k].layer, i) == Some(Request(e[k].target, e[k].reason)) && (e[k].applied <==> k == 0))
            && (forall l: Layer :: RequestOf(l, i).Some? ==> exists k :: 0 <= k < |p| && e[k].layer == l)
            && (forall a, b :: 0 <= a < b < |p| ==> Rank(e[a].layer, i) < Rank(e[b].layer, i))
  {
    var e := Entries(p);
    forall k | 0 <= k < |p|
      ensures RequestOf(e[k].layer, i) == Some(Request(e[k].target, e[k].reason)) && (e[k].applied <==> k == 0)
    {
      assert p[k] in p;
    }
    forall l: Layer | RequestOf(l, i).Some? ensures exists k :: 0 <= k < |p| && e[k].layer == l {
      var k :| 0 <= k < |p| && p[k] == Claim(l, RequestOf(l, i));
      assert e[k].layer == l;
    }
  }

  // ----- the audit trail -----

  /** Recomputes the outcome from the audit trail alone. */
  function Replay(layers: seq<AuditEntry>, minReplicas: int, maxReplicas: int): int {
    BoundTo(ReplayRaw(layers, 0), minReplicas, maxReplicas)
  }

  function ReplayRaw(layers: seq<AuditEntry>, acc: int): int {
    if layers == [] then acc
    else ReplayRaw(layers[1..], if layers[0].applied then layers[0].target else acc)
  }

  lemma {:induction false} ReplaySkips(layers: seq<AuditEntry>, acc: int)
    requires forall k :: 0 <= k < |layers| - 1 ==> !layers[k].applied
    ensures ReplayRaw(layers, acc)
            == if layers != [] && layers[|layers| - 1].applied then layers[|layers| - 1].target else acc
  {
    if layers != [] {
      ReplaySkips(layers[1..], if layers[0].applied then layers[0].target else acc);
    }
  }

  /** Replaying the applied entries and the bounds gives the decision. */
  lemma AuditTrailReplays(i: Inputs)
    ensures Replay(Resolution(i).layers, i.minReplicas, i.maxReplicas) == Resolution(i).targetReplicas
  {
    var rd := Resolution(i);
    var p := Present(Ordered(i));
    if p != [] {
      assert rd.layers[0] == Entries(p)[0];
      ReplaySkips(rd.layers[1..], rd.layers[0].target);
    } else {
      ReplaySkips(rd.layers, 0);
    }
  }

  lemma {:induction false} DisagreementsExact(w: Claim, rest: seq<Claim>)
    requires w.request.Some? && forall c :: c in rest ==> c.request.Some?
    ensures forall x :: x in Disagreements(w, rest) <==>
              exists c :: c in rest && c.request.value.target != w.request.value.target
                && x == Overridden(c.layer, c.request.value.target, w.layer)
  {
    if rest != [] {
      DisagreementsExact(w, rest[1..]);
      forall x | x in Disagreements(w, rest[1..])
        ensures exists c :: c in rest && c.request.value.target != w.request.value.target
                  && x == Overridden(c.layer, c.request.value.target, w.layer)
      {
        var c :| c in rest[1..] && c.request.value.target != w.request.value.target
                 && x == Overridden(c.layer, c.request.value.target, w.layer);
        assert c in rest;
      }
      forall c | c in rest && c.request.value.target != w.request.value.target
        ensures Overridden(c.layer, c.request.value.target, w.layer) in Disagreements(w, rest)
      {
        if c != rest[0] {
          assert c in rest[1..];
        }
      }
    }
  }

  /** The conflicts are exactly the asking layers below the winner that wanted something
      else, and the cost cap if it lowered the winner. */
  lemma ConflictsExact(i: Inputs, winner: Layer)
    requires RequestOf(winner, i).Some?
    requires forall l: Layer :: RequestOf(l, i).Some? ==> Rank(winner, i) <= Rank(l, i)
    ensures var rd := Resolution(i);
            forall x :: x in rd.conflicts <==>
              || (x.CostCapped? && i.costMax.Some? && RequestOf(winner, i).value.target > i.costMax.value)
              || (x.Overridden? && x.overriddenBy == winner && RequestOf(x.layer, i).Some?
                  && RequestOf(x.layer, i).value.target == x.wanted && x.wanted != RequestOf(winner, i).value.target)
  {
    PresentRanked(i);
    var p := Present(Ordered(i));
    WinnerIsFirst(i, winner);
    DisagreementsExact(p[0], p[1..]);
    var rd := Resolution(i);
    forall x: Conflict | x.Overridden? && x.overriddenBy == winner && RequestOf(x.layer, i).Some?
                && RequestOf(x.layer, i).value.target == x.wanted && x.wanted != RequestOf(winner, i).value.target
      ensures x in rd.conflicts
    {
      var c := Claim(x.layer, RequestOf(x.layer, i));
      assert c in p;
      assert c != p[0];
      assert c in p[1..];
    }
    forall x | x in Disagreements(p[0], p[1..])
      ensures x.Overridden? && x.overriddenBy == winner && RequestOf(x.layer, i).Some?
              && RequestOf(x.layer, i).value.target == x.wanted && x.wanted != RequestOf(winner, i).value.target
    {
      var c :| c in p[1..] && c.request.value.target != p[0].request.value.target
               && x == Overridden(c.layer, c.request.value.target, p[0].layer);
      assert c in p;
    }
  }

  /** Conflicts are listed in rank order, each layer at most once, and the cost cap last. */
  ghost predicate InRankOrder(conflicts: seq<Conflict>, i: Inputs) {
    forall a, b :: 0 <= a < b < |conflicts| ==>
      conflicts[a].Overridden?
      && (conflicts[b].Overridden? ==> Rank(conflicts[a].layer, i) < Rank(conflicts[b].layer, i))
  }

  lemma {:induction false} DisagreementsInOrder(w: Claim, rest: seq<Claim>, i: Inputs)
    requires w.request.Some? && Ranked(rest, i) && forall c :: c in rest ==> c.request.Some?
    ensures InRankOrder(Disagreements(w, rest), i)
    ensures forall x :: x in Disagreements(w, rest) ==> x.Overridden?
  {
    if rest != [] {
      DisagreementsInOrder(w, rest[1..], i);
      DisagreementsExact(w, rest[1..]);
      var tail := Disagreements(w, rest[1..]);
      forall b | 0 <= b < |tail| ensures tail[b].Overridden? && Rank(rest[0].layer, i) < Rank(tail[b].layer, i) {
        assert tail[b] in tail;
        var c :| c in rest[1..] && c.request.value.target != w.request.value.target
                 && tail[b] == Overridden(c.layer, c.request.value.target, w.layer);
        var n :| 0 <= n < |rest[1..]| && rest[1..][n] == c;
        assert rest[n + 1] == c;
      }
    }
  }

  lemma ConflictsInOrder(i: Inputs)
    ensures InRankOrder(Resolution(i).conflicts, i)
  {
    PresentRanked(i);
    var p := Present(Ordered(i));
    hide Ordered, Rank, Present, Entries, Disagreements, RequestOf, InRankOrder;
    if p != [] {
      assert p[0] in p && forall c :: c in p[1..] ==> c in p;
      DisagreementsInOrder(p[0], p[1..], i);
      CapLast(Disagreements(p[0], p[1..]), i);
    } else {
      NothingInOrder(i);
      CapLast([], i);
    }
  }

  lemma NothingInOrder(i: Inputs)
    ensures InRankOrder([], i)
  {
  }

  lemma CapLast(conflicts: seq<Conflict>, i: Inputs)
    requires InRankOrder(conflicts, i) && forall x :: x in conflicts ==> x.Overridden?
    ensures InRankOrder(conflicts + [CostCapped], i) && InRankOrder(conflicts + [], i)
  {
    hide Rank;
    assert conflicts + [] == conflicts;
  }

  /** The best-ranked asking layer is the one consulted first. */
  lemma WinnerIsFirst(i: Inputs, winner: Layer)
    requires RequestOf(winner, i).Some?
    requires forall l: Layer :: RequestOf(l, i).Some? ==> Rank(winner, i) <= Rank(l, i)
    ensures var p := Present(Ordered(i)); p != [] && p[0] == Claim(winner, RequestOf(winner, i))
  {
    PresentRanked(i);
    var p := Present(Ordered(i));
    assert Claim(winner, RequestOf(winner, i)) in p;
    assert p[0] in p;
    var k :| 0 <= k < |p| && p[k] == Claim(winner, RequestOf(winner, i));
    assert Rank(p[0].layer, i) >= Rank(p[k].layer, i);
  }

  /** The value decided for a known winner. */
  lemma ResolutionOfWinner(i: Inputs, winner: Layer)
    requires RequestOf(winner, i).Some?
    requires forall l: Layer :: RequestOf(l, i).Some? ==> Rank(winner, i) <= Rank(l, i)
    ensures Resolution(i).targetReplicas
            == BoundTo(if i.costMax.Some? then Min(RequestOf(winner, i).value.target, i.costMax.value)
                       else RequestOf(winner, i).value.target,
                       i.minReplicas, i.maxReplicas)
  {
    WinnerIsFirst(i, winner);
  }

  /** Whatever the layers ask, the decision is within the bounds, and a cost ceiling that
      is itself at least the minimum is never exceeded, not even by safety or a human. */
  lemma ResolutionBounded(i: Inputs)
    requires 0 < i.maxReplicas && i.minReplicas <= i.maxReplicas
    ensures i.minReplicas <= Resolution(i).targetReplicas <= i.maxReplicas
    ensures i.costMax.Some? && i.costMax.value >= i.minReplicas ==> Resolution(i).targetReplicas <= i.costMax.value
  {
  }
}
