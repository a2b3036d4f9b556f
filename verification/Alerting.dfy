/** Alert rules with a hold time, against the history of evaluations. */
module Alerting {
  import opened Common
  import opened Policy

  /** A rule's condition after its three fields have been parsed. */
  datatype Condition = Malformed | Compare(metric: string, operator: string, threshold: real)

  datatype AlertRule = AlertRule(name: string, severity: string, condition: Condition, hold: Time)

  datatype FiredAlert = FiredAlert(name: string, severity: string, value: real, firedAt: Time)

  datatype Evaluation = Evaluation(bundle: Bundle, at: Time)

  function MetricValue(metric: string, b: Bundle): real {
    if metric == "error_rate" then b.errorRate * 100.0
    else if metric == "p95_latency" then b.p95Latency
    else if metric == "cpu" then b.cpu
    else if metric == "memory" then b.memory
    else if metric == "queue_depth" then b.queueDepth
    else if metric in b.customSignals then b.customSignals[metric]
    else 0.0
  }

  function EvaluateCondition(c: Condition, b: Bundle): (real, bool) {
    match c
    case Malformed => (0.0, false)
    case Compare(metric, op, threshold) =>
      var v := MetricValue(metric, b);
      (v, if op == ">" then v > threshold
          else if op == ">=" then v >= threshold
          else if op == "<" then v < threshold
          else if op == "<=" then v <= threshold
          else if op == "==" then v == threshold
          else false)
  }

  /** A comparison compares the observation with the threshold as its operator says; error_rate
      is a share and is compared in per cent. A malformed condition or an unknown operator never
      breaches. */
  lemma ConditionMeaning(metric: string, op: string, threshold: real, b: Bundle, x: real)
    requires x == if metric == "error_rate" then 100.0 * b.errorRate
                  else if metric == "p95_latency" then b.p95Latency
                  else if metric == "cpu" then b.cpu
                  else if metric == "memory" then b.memory
                  else if metric == "queue_depth" then b.queueDepth
                  else if metric in b.customSignals then b.customSignals[metric] else 0.0
    ensures var (v, breached) := EvaluateCondition(Compare(metric, op, threshold), b);
            && v == x
            && (breached <==> || (x > threshold && op in {">", ">="})
                              || (x == threshold && op in {">=", "<=", "=="})
                              || (x < threshold && op in {"<", "<="}))
    ensures !EvaluateCondition(Malformed, b).1
  {
  }

  predicate Breached(r: AlertRule, e: Evaluation) {
    EvaluateCondition(r.condition, e.bundle).1
  }

  /** The start of the unbroken run of breaches that ends with the last evaluation. */
  function RunStart(h: seq<Evaluation>, r: AlertRule): (s: nat)
    requires h != [] && Breached(r, h[|h| - 1])
    ensures s < |h|
  {
    if |h| >= 2 && Breached(r, h[|h| - 2]) then RunStart(h[..|h| - 1], r) else |h| - 1
  }

  /** The rule has been breached without a break for at least its hold time. */
  predicate Fires(h: seq<Evaluation>, r: AlertRule) {
    h != [] && Breached(r, h[|h| - 1]) && h[|h| - 1].at - h[RunStart(h, r)].at >= r.hold
  }

  /** RunStart is the beginning of the maximal unbroken run of breaches. */
  lemma {:induction false} RunStartIsMaximal(h: seq<Evaluation>, r: AlertRule)
    requires h != [] && Breached(r, h[|h| - 1])
    ensures var s := RunStart(h, r);
            && (forall k :: s <= k < |h| ==> Breached(r, h[k]))
            && (s > 0 ==> !Breached(r, h[s - 1]))
  {
    if |h| >= 2 && Breached(r, h[|h| - 2]) {
      var front := h[..|h| - 1];
      RunStartIsMaximal(front, r);
      forall k | RunStart(h, r) <= k < |h| ensures Breached(r, h[k]) {
        if k < |front| {
          assert Breached(r, front[k]);
        }
      }
    }
  }

  // ----- one evaluator for every policy -----

  /** One rule's turn in one evaluation, as the first-seen table sees it: by name alone. */
  datatype Check = Check(name: string, breached: bool, at: Time)

  /** When the unbroken streak of breached checks of this name began, if it is unbroken now. */
  function StreakStart(h: seq<Check>, name: string): Option<Time> {
    if h == [] then None
    else
      var last, before := h[|h| - 1], StreakStart(h[..|h| - 1], name);
      if last.name != name then before
      else if !last.breached then None
      else if before.Some? then before else Some(last.at)
  }

  predicate LastsFor(start: Option<Time>, now: Time, hold: Time) {
    start.Some? && now - start.value >= hold
  }

  function Checks(b: Bundle, rules: seq<AlertRule>, now: Time): (r: seq<Check>)
    ensures |r| == |rules|
  {
    seq(|rules|, k requires 0 <= k < |rules| => Check(rules[k].name, EvaluateCondition(rules[k].condition, b).1, now))
  }

  /** The alerts fired by the first n rules of an evaluation after history h. */
  function Fired(h: seq<Check>, b: Bundle, rules: seq<AlertRule>, now: Time, n: nat): seq<FiredAlert>
    requires n <= |rules|
  {
    if n == 0 then []
    else
      var r := rules[n - 1];
      Fired(h, b, rules, now, n - 1)
      + (if LastsFor(StreakStart(h + Checks(b, rules, now)[..n], r.name), now, r.hold)
         then [FiredAlert(r.name, r.severity, EvaluateCondition(r.condition, b).0, now)] else [])
  }

  /** Rule k is due after its turn, and this is what its alert says. */
  ghost predicate Sounds(h: seq<Check>, b: Bundle, rules: seq<AlertRule>, now: Time, k: nat, x: FiredAlert)
    requires k < |rules|
  {
    && LastsFor(StreakStart(h + Checks(b, rules, now)[..k + 1], rules[k].name), now, rules[k].hold)
    && x.name == rules[k].name && x.severity == rules[k].severity && x.firedAt == now
    && x.value == EvaluateCondition(rules[k].condition, b).0
  }

  /** Exactly the due rules sound, each under its own name and severity, with the value observed and
      the time of the evaluation. */
  lemma {:induction false} FiredExactly(h: seq<Check>, b: Bundle, rules: seq<AlertRule>, now: Time, n: nat,
                                        x: FiredAlert)
    requires n <= |rules|
    ensures x in Fired(h, b, rules, now, n) <==> exists k: nat :: k < n && Sounds(h, b, rules, now, k, x)
  {
    hide StreakStart, EvaluateCondition, LastsFor;
    if n > 0 {
      FiredExactly(h, b, rules, now, n - 1, x);
      assert x in Fired(h, b, rules, now, n)
             <==> x in Fired(h, b, rules, now, n - 1) || Sounds(h, b, rules, now, n - 1, x);
    }
  }

  /** The table is right about one name. */
  ghost predicate Tracked(active: map<string, Time>, h: seq<Check>, name: string) {
    StreakStart(h, name) == if name in active then Some(active[name]) else None
  }

  lemma StreakStep(h: seq<Check>, check: Check, name: string)
    ensures StreakStart(h + [check], name)
            == if check.name != name then StreakStart(h, name)
               else if !check.breached then None
               else if StreakStart(h, name).Some? then StreakStart(h, name) else Some(check.at)
  {
    assert (h + [check])[..|h|] == h;
  }

  class Evaluator {
    var activeAlerts: map<string, Time>
    ghost var history: seq<Check>

    /** The first-seen table holds exactly the unbroken streaks. */
    ghost predicate Valid()
      reads this
    {
      forall name :: Tracked(activeAlerts, history, name)
    }

    constructor ()
      ensures Valid() && history == []
    {
      activeAlerts := map[];
      history := [];
    }

    /** For any sequence of rule lists, of however many policies and with whatever names: fires
        exactly the rules whose name has an unbroken streak of their hold time. */
    method Evaluate(bundle: Bundle, rules: seq<AlertRule>, now: Time) returns (fired: seq<FiredAlert>)
      requires Valid()
      modifies this
      ensures Valid() && history == old(history) + Checks(bundle, rules, now)
      ensures fired == Fired(old(history), bundle, rules, now, |rules|)
    {
      hide StreakStart;
      fired := [];
      ghost var all := Checks(bundle, rules, now);
      for n := 0 to |rules|
        invariant Valid() && history == old(history) + all[..n]
        invariant fired == Fired(old(history), bundle, rules, now, n)
      {
        var rule := rules[n];
        var (val, breached) := EvaluateCondition(rule.condition, bundle);
        ghost var check := Check(rule.name, breached, now);
        ghost var before := activeAlerts;
        assert all[..n + 1] == all[..n] + [check];
        assert old(history) + all[..n + 1] == history + [check];
        assert Tracked(before, history, rule.name);
        StreakStep(history, check, rule.name);
        if breached {
          if rule.name !in activeAlerts {
            activeAlerts := activeAlerts[rule.name := now];
          }
          var elapsed := now - activeAlerts[rule.name];
          if elapsed >= rule.hold {
            fired := fired + [FiredAlert(rule.name, rule.severity, val, now)];
          }
        } else {
          activeAlerts := activeAlerts - {rule.name};
        }
        forall name ensures Tracked(activeAlerts, history + [check], name) {
          assert Tracked(before, history, name);
          StreakStep(history, check, name);
        }
        history := history + [check];
      }
      assert all[..|rules|] == all;
    }
  }
}
