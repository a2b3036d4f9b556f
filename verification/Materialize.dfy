/** Turning a resolved precedence into the decision to act on, on the heap: candidate decisions
    may be shared with the response cache, so the result must be a copy. */
module Materialize {
  import opened Common
  import opened Policy
  import opened Precedence
  import opened Pipeline

  class VerticalRecommendation {
    var cpuRequest: string
    var memoryRequest: string
    var cpuLimit: string
    var memoryLimit: string
    var strategy: string

    constructor (cpuRequest: string, memoryRequest: string, cpuLimit: string, memoryLimit: string, strategy: string)
      ensures Value() == VerticalProposal(cpuRequest, memoryRequest, cpuLimit, memoryLimit, strategy)
    {
      this.cpuRequest, this.memoryRequest := cpuRequest, memoryRequest;
      this.cpuLimit, this.memoryLimit, this.strategy := cpuLimit, memoryLimit, strategy;
    }

    function Value(): VerticalProposal
      reads this
    {
      VerticalProposal(cpuRequest, memoryRequest, cpuLimit, memoryLimit, strategy)
    }
  }

  class ScalingDecision {
    var targetReplicas: int
    var reasoning: string
    var confidence: real
    var actionType: ActionType
    var urgency: string
    var reasonCodes: array?<string>
    var verticalChanges: VerticalRecommendation?

    /** A decision with only the fields that the deterministic layers fill in. */
    constructor (targetReplicas: int, reasoning: string, confidence: real, actionType: ActionType)
      ensures Value() == Plain(targetReplicas, reasoning, confidence, actionType)
      ensures reasonCodes == null && verticalChanges == null
    {
      this.targetReplicas, this.reasoning := targetReplicas, reasoning;
      this.confidence, this.actionType, this.urgency := confidence, actionType, "";
      this.reasonCodes, this.verticalChanges := null, null;
    }

    function Value(): Decision
      reads this, reasonCodes, verticalChanges
    {
      Decision(targetReplicas, reasoning, confidence, actionType, urgency,
               if reasonCodes == null then [] else reasonCodes[..],
               if verticalChanges == null then None else Some(verticalChanges.Value()))
    }

    /** Everything reachable from the decision. */
    ghost function Repr(): set<object?>
      reads this
    {
      {this, reasonCodes, verticalChanges} - {null}
    }

    /** A copy that shares nothing with the original. */
    method Clone() returns (clone: ScalingDecision)
      ensures clone.Value() == Value() && fresh(clone.Repr())
    {
      clone := new ScalingDecision(targetReplicas, reasoning, confidence, actionType);
      clone.urgency := urgency;
      if reasonCodes != null {
        var source := reasonCodes[..];
        var codes := new string[|source|](k requires 0 <= k < |source| => source[k]);
        assert codes[..] == source;
        clone.reasonCodes := codes;
      }
      if verticalChanges != null {
        clone.verticalChanges := new VerticalRecommendation(
          verticalChanges.cpuRequest, verticalChanges.memoryRequest, verticalChanges.cpuLimit,
          verticalChanges.memoryLimit, verticalChanges.strategy);
      }
    }
  }

  function ValueOf(d: ScalingDecision?): Option<Decision>
    reads d, if d == null then {} else {d.reasonCodes, d.verticalChanges}
  {
    if d == null then None else Some(d.Value())
  }

  lemma {:induction false} BaseLayerSnoc(layers: seq<AuditEntry>, e: AuditEntry)
    ensures BaseLayer(layers + [e])
            == if BaseLayer(layers).Some? then BaseLayer(layers)
               else if e.applied && e.layer != CostLayer then Some(e.layer) else None
  {
    if layers == [] {
      assert layers + [e] == [e];
    } else {
      assert (layers + [e])[1..] == layers[1..] + [e];
      BaseLayerSnoc(layers[1..], e);
    }
  }

  /** The scan of the audit trail for its base layer and for the cost cap. */
  method ScanLayers(layers: seq<AuditEntry>) returns (base: Option<Layer>, cost: Option<string>)
    ensures base == BaseLayer(layers) && cost == CostApplied(layers)
  {
    base, cost := None, None;
    for n := 0 to |layers|
      invariant base == BaseLayer(layers[..n]) && cost == CostApplied(layers[..n])
    {
      var e := layers[n];
      assert layers[..n + 1] == layers[..n] + [e];
      BaseLayerSnoc(layers[..n], e);
      if e.applied {
        if e.layer == CostLayer {
          cost := Some(e.reason);
        } else if base.None? {
          base := Some(e.layer);
        }
      }
    }
    assert layers[..|layers|] == layers;
  }

  method AppliedLayerReason(layers: seq<AuditEntry>, base: Option<Layer>) returns (reason: string)
    ensures reason == LayerReason(layers, base)
  {
    if base.None? {
      return "";
    }
    for n := 0 to |layers|
      invariant LayerReason(layers, base) == LayerReason(layers[n..], base)
    {
      if layers[n].layer == base.value {
        return layers[n].reason;
      }
    }
    return "";
  }

  /** The candidates of one cycle, by reference. */
  class Candidates {
    var safety: ScalingDecision?
    var human: ScalingDecision?
    var slo: ScalingDecision?
    var reactive: ScalingDecision?
    var llm: ScalingDecision?
    var deterministic: ScalingDecision?
    var safetySource: string
    var llmProvider: string

    /** The candidates as values, in an otherwise fresh state. */
    ghost function View(b: Bundle): State
      reads *
    {
      Fresh.(bundle := Some(b), safetyDecision := ValueOf(safety), humanDecision := ValueOf(human),
             sloDecision := ValueOf(slo),
             reactiveDecision := ValueOf(reactive), llmDecision := ValueOf(llm),
             deterministicDecision := ValueOf(deterministic),
             safetySource := safetySource, llmProvider := llmProvider)
    }

    /** The decision object a layer contributed, itself and not a copy. */
    method DecisionForLayer(layer: Option<Layer>, ghost b: Bundle) returns (d: ScalingDecision?, provider: string)
      ensures (ValueOf(d), provider) == Pipeline.DecisionForLayer(View(b), layer)
    {
      match layer {
      case Some(SafetyLayer) =>
        if safety != null {
          return safety, if safetySource == "" then "safety" else safetySource;
        }
      case Some(HumanLayer) => return human, "approval-hold";
      case Some(SloLayer) => return slo, "slo";
      case Some(ReactiveLayer) => return reactive, "reactive-rule";
      case Some(LlmLayer) => return llm, llmProvider;
      case Some(DeterministicLayer) => return deterministic, "keda";
      case _ =>
      }
      return null, "";
    }

    /** The decision to act on is a deep copy with the resolved target: nothing that existed
        before is written, so a cached decision never changes, and nothing later done to the
        result can reach one. */
    method MaterializeResolvedDecision(rd: ResolvedDecision, b: Bundle) returns (d: ScalingDecision, provider: string)
      ensures fresh(d.Repr())
      ensures (d.Value(), provider) == Materialize(View(b), rd)
    {
      var base, cost := ScanLayers(rd.layers);
      var found, name := DecisionForLayer(base, b);
      d, provider := Finish(found, name, base, cost, rd, b.currentReplicas);
    }

    /** The second half: copy, then overwrite the copy. */
    static method Finish(found: ScalingDecision?, name: string, base: Option<Layer>, cost: Option<string>,
                         rd: ResolvedDecision, current: int)
      returns (d: ScalingDecision, provider: string)
      requires base == BaseLayer(rd.layers) && cost == CostApplied(rd.layers)
      ensures fresh(d.Repr())
      ensures (d.Value(), provider) == FinishDecision(ValueOf(found), name, rd, current)
    {
      hide BaseLayer, CostApplied, LayerReason;
      if found == null {
        d := new ScalingDecision(rd.targetReplicas, "resolved scaling decision", 1.0, OtherAction(""));
      } else {
        d := found.Clone();
      }
      assert d in d.Repr();
      ghost var copied := d.Value();
      d.targetReplicas := rd.targetReplicas;
      d.actionType := ActionTypeForTarget(rd.targetReplicas, current);
      var reasoning := d.reasoning;
      if reasoning == "" {
        reasoning := AppliedLayerReason(rd.layers, base);
      }
      if cost.Some? {
        if reasoning == "" {
          reasoning := cost.value;
        } else if cost.value != "" {
          reasoning := reasoning + "; " + cost.value;
        }
      }
      d.reasoning := reasoning;
      assert d.Value() == copied.(targetReplicas := d.targetReplicas, actionType := d.actionType,
                                  reasoning := reasoning);
      provider := if cost.Some? then "cost-override" else if name == "" then "precedence" else name;
    }
  }
}
