/** Service level objectives: margins and breaches. */
module Slo {
  import opened Common
  import opened Policy

  datatype SLOStatus = SLOStatus(name: string, metric: string, target: real, actual: real, breached: bool, margin: real,
                                 priority: int)

  function ResolveMetric(metric: string, b: Bundle): real {
    if metric == "p95_latency" || metric == "p99_latency" then b.p95Latency
    else if metric == "error_rate" then b.errorRate
    else if metric == "cpu_utilization" then b.cpu
    else if metric == "memory_utilization" then b.memory
    else if metric == "queue_depth" then b.queueDepth
    else if metric in b.customSignals then b.customSignals[metric]
    else 0.0
  }

  function ComputeMargin(metric: string, target: real, actual: real): real {
    if target == 0.0 then (if actual == 0.0 then 100.0 else -100.0)
    else if metric == "availability" then (actual - target) / target * 100.0
    else (target - actual) / target * 100.0
  }

  function StatusOf(slo: SLO, b: Bundle): SLOStatus {
    var actual := ResolveMetric(slo.metric, b);
    var margin := ComputeMargin(slo.metric, slo.target, actual);
    SLOStatus(slo.name, slo.metric, slo.target, actual, margin < 0.0, margin, slo.priority)
  }

  function Statuses(slos: seq<SLO>, b: Bundle): (r: seq<SLOStatus>)
    ensures |r| == |slos|
  {
    seq(|slos|, k requires 0 <= k < |slos| => StatusOf(slos[k], b))
  }

  method EvaluateSLOs(slos: seq<SLO>, b: Bundle) returns (results: seq<SLOStatus>)
    ensures results == Statuses(slos, b)
  {
    results := [];
    for n := 0 to |slos|
      invariant results == Statuses(slos, b)[..n]
    {
      var actual := ResolveMetric(slos[n].metric, b);
      var margin := ComputeMargin(slos[n].metric, slos[n].target, actual);
      var breached := margin < 0.0;
      results := results + [SLOStatus(slos[n].name, slos[n].metric, slos[n].target, actual, breached, margin,
                                      slos[n].priority)];
    }
  }

  predicate AnyBreached(statuses: seq<SLOStatus>) {
    exists k :: 0 <= k < |statuses| && statuses[k].breached
  }

  method AnyBreachedLoop(statuses: seq<SLOStatus>) returns (any: bool)
    ensures any <==> AnyBreached(statuses)
  {
    for n := 0 to |statuses|
      invariant forall k :: 0 <= k < n ==> !statuses[k].breached
    {
      if statuses[n].breached {
        return true;
      }
    }
    return false;
  }

  /** What a breach means: for a positive target, the metric is on the wrong side of it; a
      zero target is breached by any other value; a negative target turns the comparison round. */
  lemma BreachMeaning(slo: SLO, b: Bundle)
    ensures var s := StatusOf(slo, b);
            s.breached <==>
              if slo.target == 0.0 then s.actual != 0.0
              else if (slo.metric == "availability") == (slo.target > 0.0) then s.actual < slo.target
              else s.actual > slo.target
  {
    var a := ResolveMetric(slo.metric, b);
    if slo.target != 0.0 {
      QuotientSign(a - slo.target, slo.target);
      QuotientSign(slo.target - a, slo.target);
    }
  }

  /** The margin is the distance from the target on the good side, in per cent of the target; a zero
      target leaves a margin of 100 or of -100. */
  lemma MarginMeaning(slo: SLO, b: Bundle)
    ensures var s := StatusOf(slo, b);
            if slo.target == 0.0 then s.margin == if s.actual == 0.0 then 100.0 else -100.0
            else if slo.metric == "availability" then s.margin * slo.target == 100.0 * (s.actual - slo.target)
            else s.margin * slo.target == 100.0 * (slo.target - s.actual)
  {
    if slo.target != 0.0 {
      var a := ResolveMetric(slo.metric, b);
      Percent(a - slo.target, slo.target);
      Percent(slo.target - a, slo.target);
    }
  }

  lemma Percent(x: real, y: real)
    requires y != 0.0
    ensures x / y * 100.0 * y == 100.0 * x
  {
    assert x / y * y == x;
  }

  lemma QuotientSign(x: real, y: real)
    requires y != 0.0
    ensures x / y * 100.0 < 0.0 <==> (x < 0.0 && y > 0.0) || (x > 0.0 && y < 0.0)
  {
    var q := x / y;
    assert q * y == x;
  }

  /** The field of the observation that a metric names. */
  ghost predicate Observes(metric: string, b: Bundle, x: real) {
    || ((metric == "p95_latency" || metric == "p99_latency") && x == b.p95Latency)
    || (metric == "error_rate" && x == b.errorRate)
    || (metric == "cpu_utilization" && x == b.cpu)
    || (metric == "memory_utilization" && x == b.memory)
    || (metric == "queue_depth" && x == b.queueDepth)
    || (metric !in {"p95_latency", "p99_latency", "error_rate", "cpu_utilization", "memory_utilization", "queue_depth"}
        && x == if metric in b.customSignals then b.customSignals[metric] else 0.0)
  }

  /** In terms of what was observed: a positive objective on a lower-is-better metric is breached
      exactly when the observation is above it, one on availability exactly when it is below. */
  lemma BreachObserved(slo: SLO, b: Bundle, x: real)
    requires slo.target > 0.0 && Observes(slo.metric, b, x)
    ensures StatusOf(slo, b).actual == x
    ensures StatusOf(slo, b).breached <==> if slo.metric == "availability" then x < slo.target else x > slo.target
  {
    BreachMeaning(slo, b);
  }
}
