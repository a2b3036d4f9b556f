/** Cost estimates, budget checks and the replica ceiling a hard budget implies. */
module Cost {
  import opened Common
  import opened Policy

  datatype WorkloadCost = WorkloadCost(totalCost: real, totalEfficiency: real)

  datatype CostEstimate = CostEstimate(
    currentHourly: real, proposedHourly: real, deltaHourly: real, deltaMonthly: real, perReplica: real,
    wasteReduction: real)

  datatype BudgetCheck = BudgetCheck(allowed: bool, warned: bool, remaining: real)

  const HARD := "hard"

  /** None when the current replica count is not positive. */
  function Estimate(w: WorkloadCost, current: int, proposed: int): Option<CostEstimate> {
    if current <= 0 then None
    else
      var perReplica := w.totalCost / current as real;
      var proposedHourly := perReplica * proposed as real;
      var delta := proposedHourly - w.totalCost;
      var waste := if w.totalEfficiency > 0.0 && proposed < current
                   then (1.0 - w.totalEfficiency) * (current - proposed) as real / current as real * 100.0 else 0.0;
      Some(CostEstimate(w.totalCost, proposedHourly, delta, delta * 24.0 * 30.0, perReplica, waste))
  }

  function Check(maxHourly: real, maxMonthly: real, enforcement: string, e: CostEstimate): BudgetCheck {
    if maxHourly > 0.0 && e.proposedHourly > maxHourly then
      BudgetCheck(enforcement != HARD, true, maxHourly - e.proposedHourly)
    else if maxMonthly > 0.0 && e.proposedHourly * 24.0 * 30.0 > maxMonthly then
      BudgetCheck(enforcement != HARD, true, maxMonthly - e.proposedHourly * 24.0 * 30.0)
    else BudgetCheck(true, false, maxHourly - e.proposedHourly)
  }

  /** Go's int32(x): truncation towards zero; out of range, some int32 the platform chooses. */
  function ToInt32(x: real, outOfRange: int): (r: int)
    requires IsInt32(outOfRange)
    ensures IsInt32(r)
  {
    var t := if x >= 0.0 then x.Floor else -((-x).Floor);
    if IsInt32(t) then t else outOfRange
  }

  function HourlyCap(c: CostConstraints, perReplica: real, outOfRange: int): Option<int>
    requires IsInt32(outOfRange) && perReplica > 0.0
  {
    if c.maxHourly > 0.0 then Some(ToInt32(c.maxHourly / perReplica, outOfRange)) else None
  }

  function MonthlyCap(c: CostConstraints, perReplica: real, outOfRange: int): Option<int>
    requires IsInt32(outOfRange) && perReplica > 0.0
  {
    if c.maxMonthly > 0.0 then Some(ToInt32((c.maxMonthly / (24.0 * 30.0)) / perReplica, outOfRange)) else None
  }

  /** None when there is no limit to enforce or the cost per replica is not positive. */
  function ComputeCostCeiling(cc: Option<CostConstraints>, e: CostEstimate, minReplicas: int,
                              outOfRange: int): (r: Option<int>)
    requires IsInt32(outOfRange)
  {
    if cc.None? || e.perReplica <= 0.0 then None
    else
      var hourlyCap := HourlyCap(cc.value, e.perReplica, outOfRange);
      var monthlyCap := MonthlyCap(cc.value, e.perReplica, outOfRange);
      var affordable :=
        if monthlyCap.Some? && (hourlyCap.None? || monthlyCap.value < hourlyCap.value) then monthlyCap else hourlyCap;
      if affordable.None? then None else Some(Max(affordable.value, minReplicas))
  }

  /** n replicas at this price are within both budgets. */
  ghost predicate Affordable(c: CostConstraints, perReplica: real, n: int) {
    && (c.maxHourly > 0.0 ==> perReplica * n as real <= c.maxHourly)
    && (c.maxMonthly > 0.0 ==> perReplica * n as real * 24.0 * 30.0 <= c.maxMonthly)
  }

  /** What an estimate says: nothing if nothing is running; else every count costs its share of what
      is spent now, a change costs the difference, a month has 720 hours, and giving up replicas
      saves the wasted part of their share, in per cent. */
  lemma EstimateMeaning(w: WorkloadCost, current: int, n: int)
    ensures Estimate(w, current, n).Some? <==> current >= 1
    ensures current >= 1 ==>
              var e := Estimate(w, current, n).value;
              && e.currentHourly == w.totalCost
              && e.perReplica * current as real == w.totalCost
              && e.proposedHourly * current as real == w.totalCost * n as real
              && e.deltaHourly * current as real == w.totalCost * (n - current) as real
              && e.deltaMonthly == e.deltaHourly * 720.0
              && e.wasteReduction * current as real
                 == (if w.totalEfficiency > 0.0 && n < current
                     then (1.0 - w.totalEfficiency) * (current - n) as real * 100.0 else 0.0)
  {
    if current >= 1 {
      var e := Estimate(w, current, n).value;
      var c, k := current as real, n as real;
      assert w.totalCost / c * c == w.totalCost;
      Shares(w.totalCost, w.totalCost / c, c, k);
      var saved := (1.0 - w.totalEfficiency) * (current - n) as real;
      assert saved / c * c == saved;
      Shares(saved, saved / c, c, 100.0);
    }
  }

  lemma Shares(total: real, share: real, c: real, k: real)
    requires share * c == total
    ensures share * k * c == total * k
    ensures (share * k - total) * c == total * (k - c)
  {
    assert share * k * c == share * c * k;
  }

  /** A hard check allows a count exactly when it is affordable; a soft one always allows. */
  lemma CheckMeansAffordable(c: CostConstraints, w: WorkloadCost, current: int, n: int)
    requires current >= 1
    ensures var e := Estimate(w, current, n).value;
            Check(c.maxHourly, c.maxMonthly, c.enforcement, e).allowed
            <==> c.enforcement != HARD || Affordable(c, w.totalCost / current as real, n)
  {
  }

  /** A check warns exactly if a budget is exceeded, soft or hard, refuses exactly if a hard one is,
      and reports what is left of the first budget exceeded, or else of the hourly one. */
  lemma CheckExactly(c: CostConstraints, w: WorkloadCost, current: int, n: int)
    requires current >= 1
    ensures var r := Check(c.maxHourly, c.maxMonthly, c.enforcement, Estimate(w, current, n).value);
            var cost := w.totalCost / current as real * n as real;
            var overHour := c.maxHourly > 0.0 && cost > c.maxHourly;
            var overMonth := c.maxMonthly > 0.0 && cost * 720.0 > c.maxMonthly;
            && (r.warned <==> overHour || overMonth)
            && (r.allowed <==> !(r.warned && c.enforcement == "hard"))
            && r.remaining == (if !overHour && overMonth then c.maxMonthly - cost * 720.0 else c.maxHourly - cost)
  {
    var cost := w.totalCost / current as real * n as real;
    assert cost * 24.0 * 30.0 == cost * 720.0;
  }

  lemma FloorQuotient(limit: real, price: real, n: int)
    requires price > 0.0
    ensures price * n as real <= limit <==> n <= (limit / price).Floor
  {
    var q := limit / price;
    assert q * price == limit;
    if n <= q.Floor {
      assert n as real <= q;
      assert price * n as real <= price * q;
    } else {
      assert n as real > q;
      assert price * n as real > price * q;
    }
  }

  /** The monthly budget is an hourly one divided by the 720 hours the code counts. */
  lemma MonthlyQuotient(limit: real, price: real, n: int)
    requires price > 0.0
    ensures price * n as real * 24.0 * 30.0 <= limit <==> n <= ((limit / (24.0 * 30.0)) / price).Floor
  {
    var x := price * n as real;
    assert x * 24.0 * 30.0 == x * 720.0;
    FloorQuotient(limit / 720.0, price, n);
  }

  /** Go's conversion of a positive quotient is at most the true quotient, even when it
      overflows: whatever int32 it leaves is then below the true quotient. */
  lemma ConvertedAtMost(x: real, outOfRange: int)
    requires x > 0.0 && IsInt32(outOfRange)
    ensures ToInt32(x, outOfRange) <= x.Floor
    ensures IsInt32(x.Floor) ==> ToInt32(x, outOfRange) == x.Floor
  {
  }

  /** A count within the hourly cap is affordable by the hour; exactly those, if nothing overflowed. */
  lemma HourlyCapMeaning(c: CostConstraints, price: real, outOfRange: int, n: int)
    requires IsInt32(outOfRange) && price > 0.0 && c.maxHourly > 0.0
    ensures n <= HourlyCap(c, price, outOfRange).value ==> price * n as real <= c.maxHourly
    ensures IsInt32((c.maxHourly / price).Floor) ==>
              (price * n as real <= c.maxHourly <==> n <= HourlyCap(c, price, outOfRange).value)
  {
    assert c.maxHourly / price > 0.0;
    ConvertedAtMost(c.maxHourly / price, outOfRange);
    FloorQuotient(c.maxHourly, price, n);
  }

  lemma MonthlyCapMeaning(c: CostConstraints, price: real, outOfRange: int, n: int)
    requires IsInt32(outOfRange) && price > 0.0 && c.maxMonthly > 0.0
    ensures n <= MonthlyCap(c, price, outOfRange).value ==> price * n as real * 24.0 * 30.0 <= c.maxMonthly
    ensures IsInt32(((c.maxMonthly / (24.0 * 30.0)) / price).Floor) ==>
              (price * n as real * 24.0 * 30.0 <= c.maxMonthly <==> n <= MonthlyCap(c, price, outOfRange).value)
  {
    var limit := c.maxMonthly / (24.0 * 30.0);
    assert limit > 0.0;
    assert limit / price > 0.0;
    ConvertedAtMost(limit / price, outOfRange);
    MonthlyQuotient(c.maxMonthly, price, n);
  }

  /** The ceiling, when there is one, is at least Min, and every count above Min up to it
      is affordable, whether or not the conversions overflowed. */
  lemma CeilingAffordable(c: CostConstraints, e: CostEstimate, minReplicas: int, outOfRange: int, n: int)
    requires IsInt32(outOfRange) && e.perReplica > 0.0
    ensures var ceiling := ComputeCostCeiling(Some(c), e, minReplicas, outOfRange);
            && (ceiling.None? <==> c.maxHourly <= 0.0 && c.maxMonthly <= 0.0)
            && (ceiling.Some? ==> ceiling.value >= minReplicas)
            && (ceiling.Some? && minReplicas < n <= ceiling.value ==> Affordable(c, e.perReplica, n))
  {
    hide ToInt32;
    if c.maxHourly > 0.0 { HourlyCapMeaning(c, e.perReplica, outOfRange, n); }
    if c.maxMonthly > 0.0 { MonthlyCapMeaning(c, e.perReplica, outOfRange, n); }
  }

  /** When the quotients fit an int32, the ceiling is the largest affordable count, or Min:
      above Min, a count is affordable exactly when it is at most the ceiling. */
  lemma CeilingIsLargestAffordable(c: CostConstraints, e: CostEstimate, minReplicas: int, outOfRange: int, n: int)
    requires IsInt32(outOfRange) && e.perReplica > 0.0 && n > minReplicas
    requires c.maxHourly > 0.0 || c.maxMonthly > 0.0
    requires c.maxHourly > 0.0 ==> IsInt32((c.maxHourly / e.perReplica).Floor)
    requires c.maxMonthly > 0.0 ==> IsInt32(((c.maxMonthly / (24.0 * 30.0)) / e.perReplica).Floor)
    ensures var ceiling := ComputeCostCeiling(Some(c), e, minReplicas, outOfRange);
            ceiling.Some? && (Affordable(c, e.perReplica, n) <==> n <= ceiling.value)
  {
    hide ToInt32;
    if c.maxHourly > 0.0 { HourlyCapMeaning(c, e.perReplica, outOfRange, n); }
    if c.maxMonthly > 0.0 { MonthlyCapMeaning(c, e.perReplica, outOfRange, n); }
  }

  /** Fewer replicas at the same price are affordable too. */
  lemma AffordableDownwards(c: CostConstraints, perReplica: real, m: int, n: int)
    requires perReplica >= 0.0 && m <= n && Affordable(c, perReplica, n)
    ensures Affordable(c, perReplica, m)
  {
    assert perReplica * m as real <= perReplica * n as real;
  }
}
