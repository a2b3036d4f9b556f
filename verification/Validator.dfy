/** The last guardrail before actuation: step size, then bounds, in int32 arithmetic. */
module Validator {
  import opened Common
  import opened Policy

  datatype ClampReason =
    | NotClamped
    | StepExceeded(original: int, size: int, validated: int)
    | BelowMin(original: int, validated: int)
    | AboveMax(original: int, validated: int)
    | Other(original: int, validated: int)
    | Asymmetric(direction: Direction, original: int, validated: int)

  datatype ValidationResult = ValidationResult(original: int, validated: int, clamped: bool, reason: ClampReason)

  datatype Direction = Up | Down | Still

  function DirectionOf(target: int, current: int): Direction {
    if target > current then Up else if target < current then Down else Still
  }

  function ClampToBounds(n: int, c: Constraints): int {
    if n < c.minReplicas then c.minReplicas else if n > c.maxReplicas then c.maxReplicas else n
  }

  /** Moves at most `step` from current towards target; every operation is 32 bits wide. */
  function LimitStep(target: int, current: int, step: int): int {
    var delta := Wrap32(target - current);
    if delta > step then Wrap32(current + step)
    else if delta < Wrap32(-step) then Wrap32(current - step)
    else target
  }

  function BuildClampReason(original: int, validated: int, current: int, c: Constraints): ClampReason {
    var delta := Wrap32(original - current);
    if delta > c.maxScaleStep then StepExceeded(original, delta, validated)
    else if delta < Wrap32(-c.maxScaleStep) then StepExceeded(original, Wrap32(-delta), validated)
    else if original < c.minReplicas then BelowMin(original, validated)
    else if original > c.maxReplicas then AboveMax(original, validated)
    else Other(original, validated)
  }

  function Validate(d: Decision, current: int, c: Constraints): ValidationResult {
    var original := d.targetReplicas;
    var target := ClampToBounds(LimitStep(original, current, c.maxScaleStep), c);
    var clamped := target != original;
    ValidationResult(original, target, clamped, if clamped then BuildClampReason(original, target, current, c)
                     else NotClamped)
  }

  /** The direction policy that applies to a move from current to target, if any. */
  function DirectionPolicyFor(s: Safety, target: int, current: int): Option<DirectionPolicy> {
    match DirectionOf(target, current)
    case Up => s.scaleUp
    case Down => s.scaleDown
    case Still => None
  }

  function ValidateAsymmetric(d: Decision, current: int, c: Constraints, safety: Option<Safety>): ValidationResult {
    match safety
    case None => Validate(d, current, c)
    case Some(s) =>
      var original := d.targetReplicas;
      var moved :=
        match DirectionPolicyFor(s, original, current)
        case None => original
        case Some(dp) =>
          var stepped := if dp.maxStep > 0 then LimitStep(original, current, dp.maxStep) else original;
          if dp.requireConfidence > 0.0 && d.confidence < dp.requireConfidence then current else stepped;
      var target := ClampToBounds(moved, c);
      var clamped := target != original;
      ValidationResult(original, target, clamped,
                       if clamped then Asymmetric(DirectionOf(original, current), original, target) else NotClamped)
  }

  /** Which validator a policy's decisions go through. */
  function ValidateFor(d: Decision, current: int, spec: Spec): ValidationResult {
    if spec.safety.Some? && (spec.safety.value.scaleUp.Some? || spec.safety.value.scaleDown.Some?)
    then ValidateAsymmetric(d, current, spec.constraints, spec.safety)
    else Validate(d, current, spec.constraints)
  }

  /** The step limit that ValidateFor applies to a move, or None when it applies none. */
  function ApplicableStep(spec: Spec, target: int, current: int): Option<int> {
    if spec.safety.Some? && (spec.safety.value.scaleUp.Some? || spec.safety.value.scaleDown.Some?) then
      var dp := if target > current then spec.safety.value.scaleUp
                else if target < current then spec.safety.value.scaleDown else None;
      if dp.Some? && dp.value.maxStep > 0 then Some(dp.value.maxStep) else None
    else Some(spec.constraints.maxScaleStep)
  }

  // ----- 32-bit arithmetic -----

  /** For an in-bounds target and a real replica count, no operation of either
      validator, nor of the clamp message, leaves the int32 range. */
  lemma NoWrap(target: int, current: int, step: int)
    requires 1 <= target && IsInt32(target)
    requires 0 <= current && IsInt32(current)
    requires 1 <= step && IsInt32(step)
    ensures Wrap32(target - current) == target - current
    ensures Wrap32(-step) == -step
    ensures Wrap32(-(target - current)) == current - target
    ensures LimitStep(target, current, step)
            == if target > current then Min(target, current + step) else Max(target, current - step)
  {
  }

  /** The clamp message reports the true distance. */
  lemma ClampMessageDistance(d: Decision, current: int, c: Constraints)
    requires SchemaValid(c) && InBounds(d.targetReplicas, c)
    requires 0 <= current && IsInt32(current)
    ensures var r := Validate(d, current, c);
            r.clamped ==> (r.reason.StepExceeded?
                           <==> (d.targetReplicas - current > c.maxScaleStep
                                 || current - d.targetReplicas > c.maxScaleStep))
    ensures var r := Validate(d, current, c);
            r.reason.StepExceeded? ==> r.reason.size == Max(d.targetReplicas - current, current - d.targetReplicas)
  {
    NoWrap(d.targetReplicas, current, c.maxScaleStep);
  }

  /** For any int32 target and any real count, the subtraction is exact unless the true
      distance is below the int32 range. */
  lemma SubtractionExact(target: int, current: int)
    requires IsInt32(target) && 0 <= current && IsInt32(current)
    ensures Wrap32(target - current) == target - current <==> target - current >= INT32_MIN
  {
  }

  /** Without the clamp that precedes it, a request for fewer replicas can become a scale-up:
      exactly if the distance wraps, the wrapped one exceeds the step, the step itself does not
      wrap and there is room below the maximum. */
  lemma RawTargetReverses(d: Decision, current: int, c: Constraints)
    requires SchemaValid(c) && ValidateConstraints(c) && InBounds(current, c)
    requires IsInt32(d.targetReplicas) && d.targetReplicas < current
    ensures Validate(d, current, c).validated > current
            <==> && d.targetReplicas - current < INT32_MIN
                 && d.targetReplicas - current + 0x1_0000_0000 > c.maxScaleStep
                 && current + c.maxScaleStep <= INT32_MAX && current < c.maxReplicas
  {
    var distance := d.targetReplicas - current;
    if distance < INT32_MIN { WrapBelow(distance); }
    if current + c.maxScaleStep > INT32_MAX { WrapAbove(current + c.maxScaleStep); }
  }

  lemma WrapBelow(x: int)
    requires 2 * INT32_MIN <= x < INT32_MIN
    ensures Wrap32(x) == x + 0x1_0000_0000
  {
  }

  lemma WrapAbove(x: int)
    requires INT32_MAX < x <= 2 * INT32_MAX
    ensures Wrap32(x) == x - 0x1_0000_0000
  {
  }

  /** Such a request exists. */
  lemma RawTargetCanWrap()
    ensures var c := Constraints(1, 10, 3, 0.0);
            var d := Plain(INT32_MIN, "", 1.0, NoChange);
            SchemaValid(c) && ValidateConstraints(c) && d.targetReplicas < 1 && Validate(d, 1, c).validated == 4
  {
    assert Wrap32(INT32_MIN - 1) == INT32_MAX by {
      assert (INT32_MIN - 1 + 0x8000_0000) % 0x1_0000_0000 == 0xFFFF_FFFF;
    }
  }

  // ----- one validation -----

  /** Neither validator overshoots the target or moves away from it; both stay in bounds,
      and from inside the bounds they move at most the applicable step. */
  lemma ValidatedIsBetween(d: Decision, current: int, spec: Spec)
    requires SchemaValid(spec.constraints) && ValidateConstraints(spec.constraints)
    requires InBounds(d.targetReplicas, spec.constraints)
    requires 0 <= current && IsInt32(current)
    requires spec.safety.Some? && spec.safety.value.scaleUp.Some? ==> IsInt32(spec.safety.value.scaleUp.value.maxStep)
    requires spec.safety.Some? && spec.safety.value.scaleDown.Some? ==>
               IsInt32(spec.safety.value.scaleDown.value.maxStep)
    ensures var v := ValidateFor(d, current, spec).validated;
            && Between(v, current, d.targetReplicas)
            && InBounds(v, spec.constraints)
    ensures var v := ValidateFor(d, current, spec).validated;
            var step := ApplicableStep(spec, d.targetReplicas, current);
            InBounds(current, spec.constraints) && step.Some? ==> current - step.value <= v <= current + step.value
  {
    NoWrap(d.targetReplicas, current, spec.constraints.maxScaleStep);
    if spec.safety.Some? {
      var dp := DirectionPolicyFor(spec.safety.value, d.targetReplicas, current);
      if dp.Some? && dp.value.maxStep > 0 {
        NoWrap(d.targetReplicas, current, dp.value.maxStep);
      }
    }
  }

  /** A direction's policy does not let a decision of this confidence through. */
  predicate GateShut(dp: Option<DirectionPolicy>, confidence: real) {
    dp.Some? && dp.value.requireConfidence > 0.0 && confidence < dp.value.requireConfidence
  }

  /** At most as many replicas as the direction's policy allows in one step, if it sets a limit. */
  predicate WithinStep(dp: Option<DirectionPolicy>, distance: int) {
    dp.Some? && dp.value.maxStep > 0 ==> distance <= dp.value.maxStep
  }

  ghost predicate StepsFit(s: Safety) {
    && (s.scaleUp.Some? ==> IsInt32(s.scaleUp.value.maxStep))
    && (s.scaleDown.Some? ==> IsInt32(s.scaleDown.value.maxStep))
  }

  /** A decision that its direction's gate does not let through changes nothing but the bounds. */
  lemma ShutGateHolds(d: Decision, current: int, c: Constraints, s: Safety)
    requires SchemaValid(c) && ValidateConstraints(c)
    requires (d.targetReplicas > current && GateShut(s.scaleUp, d.confidence))
             || (d.targetReplicas < current && GateShut(s.scaleDown, d.confidence))
    ensures ValidateAsymmetric(d, current, c, Some(s)).validated == ClampToBounds(current, c)
  {
  }

  /** From inside the bounds: the count moves if and only if it is asked to and the direction's gate
      lets it; it then goes all the way if the direction's step allows, and one full step if not. */
  lemma AsymmetricExactly(d: Decision, current: int, c: Constraints, s: Safety)
    requires SchemaValid(c) && ValidateConstraints(c) && StepsFit(s)
    requires InBounds(d.targetReplicas, c) && InBounds(current, c)
    ensures var v, t := ValidateAsymmetric(d, current, c, Some(s)).validated, d.targetReplicas;
            && (v != current <==> || (t > current && !GateShut(s.scaleUp, d.confidence))
                                  || (t < current && !GateShut(s.scaleDown, d.confidence)))
            && (v > current ==>
                  v == if WithinStep(s.scaleUp, t - current) then t else current + s.scaleUp.value.maxStep)
            && (v < current ==>
                  v == if WithinStep(s.scaleDown, current - t) then t else current - s.scaleDown.value.maxStep)
  {
    if s.scaleUp.Some? && s.scaleUp.value.maxStep > 0 {
      NoWrap(d.targetReplicas, current, s.scaleUp.value.maxStep);
    }
    if s.scaleDown.Some? && s.scaleDown.value.maxStep > 0 {
      NoWrap(d.targetReplicas, current, s.scaleDown.value.maxStep);
    }
  }

  /** The plain validator, whatever the confidence: all the way if the step allows, else one full
      step; and the bounds last. */
  lemma PlainExactly(d: Decision, current: int, c: Constraints)
    requires SchemaValid(c) && ValidateConstraints(c) && InBounds(d.targetReplicas, c)
    requires 0 <= current && IsInt32(current)
    ensures var v, t := Validate(d, current, c).validated, d.targetReplicas;
            && (t - c.maxScaleStep <= current <= t + c.maxScaleStep ==> v == t)
            && (current < t - c.maxScaleStep ==> v == Max(current + c.maxScaleStep, c.minReplicas))
            && (current > t + c.maxScaleStep ==> v == Min(current - c.maxScaleStep, c.maxReplicas))
  {
    NoWrap(d.targetReplicas, current, c.maxScaleStep);
  }

  /** What is reported of a validation: what was asked, that it was changed exactly if it was, and of
      an asymmetric change the direction that was asked for. */
  lemma ReportsExactly(d: Decision, current: int, spec: Spec)
    ensures var r := ValidateFor(d, current, spec);
            && r.original == d.targetReplicas
            && (r.clamped <==> r.validated != d.targetReplicas)
            && (r.clamped <==> r.reason != NotClamped)
            && (r.clamped ==> r.reason.original == d.targetReplicas && r.reason.validated == r.validated)
            && (r.reason.Asymmetric? ==>
                  && (r.reason.direction == Up <==> d.targetReplicas > current)
                  && (r.reason.direction == Down <==> d.targetReplicas < current))
    ensures spec.safety.Some? && (spec.safety.value.scaleUp.Some? || spec.safety.value.scaleDown.Some?) ==>
              (ValidateFor(d, current, spec).clamped <==> ValidateFor(d, current, spec).reason.Asymmetric?)
  {
  }

  /** A policy with a direction policy goes through the asymmetric validator, any other through the
      plain one. */
  lemma WhichValidator(d: Decision, current: int, spec: Spec)
    ensures spec.safety.Some? && (spec.safety.value.scaleUp.Some? || spec.safety.value.scaleDown.Some?) ==>
              ValidateFor(d, current, spec) == ValidateAsymmetric(d, current, spec.constraints, spec.safety)
    ensures spec.safety.None? || (spec.safety.value.scaleUp.None? && spec.safety.value.scaleDown.None?) ==>
              ValidateFor(d, current, spec) == Validate(d, current, spec.constraints)
  {
  }

  /** Validating the validated count again changes nothing. */
  lemma ValidateIdempotent(d: Decision, current: int, c: Constraints)
    requires SchemaValid(c) && ValidateConstraints(c) && InBounds(d.targetReplicas, c)
    requires 0 <= current && IsInt32(current)
    ensures var v := Validate(d, current, c).validated;
            Validate(d.(targetReplicas := v), current, c) == ValidationResult(v, v, false, NotClamped)
  {
    NoWrap(d.targetReplicas, current, c.maxScaleStep);
    NoWrap(Validate(d, current, c).validated, current, c.maxScaleStep);
  }

  // ----- repeated validation towards a fixed target -----

  /** The replica count after k cycles that all decide d. */
  function Iterate(d: Decision, start: int, spec: Spec, k: nat): int {
    if k == 0 then start else ValidateFor(d, Iterate(d, start, spec, k - 1), spec).validated
  }

  /** A policy that lets d through at a pace of s replicas per cycle in the direction it needs. */
  ghost predicate Paced(d: Decision, start: int, spec: Spec, s: int) {
    && 1 <= s && IsInt32(s)
    && SchemaValid(spec.constraints) && ValidateConstraints(spec.constraints)
    && InBounds(d.targetReplicas, spec.constraints) && InBounds(start, spec.constraints)
    && if spec.safety.Some? && (spec.safety.value.scaleUp.Some? || spec.safety.value.scaleDown.Some?) then
         d.targetReplicas != start ==>
           var dp := if d.targetReplicas > start then spec.safety.value.scaleUp else spec.safety.value.scaleDown;
           dp.Some? && dp.value.maxStep == s
             && (dp.value.requireConfidence <= 0.0 || d.confidence >= dp.value.requireConfidence)
       else s == spec.constraints.maxScaleStep
  }

  /** The count n replicas' worth of steps from start towards the target. */
  function Along(target: int, start: int, n: nat): int {
    if target >= start then Min(target, start + n) else Max(target, start - n)
  }

  lemma OneCycle(d: Decision, start: int, n: nat, spec: Spec, s: int)
    requires Paced(d, start, spec, s)
    ensures ValidateFor(d, Along(d.targetReplicas, start, n), spec).validated == Along(d.targetReplicas, start, n + s)
  {
    var c := Along(d.targetReplicas, start, n);
    NoWrap(d.targetReplicas, c, s);
    NoWrap(d.targetReplicas, c, spec.constraints.maxScaleStep);
  }

  /** The exact path: s replicas a cycle, stopping at the target. */
  lemma {:induction false} IteratePath(d: Decision, start: int, spec: Spec, s: int, k: nat)
    requires Paced(d, start, spec, s)
    ensures Iterate(d, start, spec, k) == Along(d.targetReplicas, start, k * s)
  {
    if k > 0 {
      var n := (k - 1) * s;
      assert n >= 0 && k * s == n + s;
      IteratePath(d, start, spec, s, k - 1);
      OneCycle(d, start, n, spec, s);
      var before := Iterate(d, start, spec, k - 1);
      assert before == Along(d.targetReplicas, start, n);
      assert Iterate(d, start, spec, k) == ValidateFor(d, before, spec).validated;
    }
  }

  /** The target is reached at cycle ceil(|target - start| / s), not before, and kept. */
  lemma ConvergesExactly(d: Decision, start: int, spec: Spec, s: int, k: nat)
    requires Paced(d, start, spec, s)
    ensures var distance := Max(d.targetReplicas - start, start - d.targetReplicas);
            Iterate(d, start, spec, k) == d.targetReplicas <==> k >= CeilDiv(distance, s)
  {
    IteratePath(d, start, spec, s, k);
    var distance := Max(d.targetReplicas - start, start - d.targetReplicas);
    var q := CeilDiv(distance, s);
    if k >= q {
      assert s * k >= s * q >= distance by { MulMonotone(s, q, k); }
    } else {
      assert s * k <= s * (q - 1) < distance by { MulMonotone(s, k, q - 1); }
    }
    assert k * s == s * k;
  }

  lemma MulMonotone(s: int, a: int, b: int)
    requires s >= 0 && a <= b
    ensures s * a <= s * b
  {
  }
}
