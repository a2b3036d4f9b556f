/** The LLM call limiter: fixed minute and hour windows and a concurrency cap, kept as
    counters, against the log of every call admitted. */
module RateLimiter {
  import opened Common

  const MINUTE: Time := 60_000_000_000
  const HOUR: Time := 3_600_000_000_000

  /** How one window's counter relates to the log of admissions. `windows[k]` is the reset
      that was in force when call k was admitted; the last `used` calls belong to the
      window that started at lastReset. */
  ghost predicate Bucketed(log: seq<Time>, windows: seq<Time>, used: nat, lastReset: Time, period: Time, limit: int,
                           born: Time, now: Time) {
    && |windows| == |log| && used <= |log| && used <= limit && period > 0
    && born <= lastReset <= now
    && (forall k :: |log| - used <= k < |log| ==> windows[k] == lastReset)
    && (forall k :: 0 <= k < |log| - used ==> windows[k] + period <= lastReset)
    && (forall k :: 0 <= k < |log| ==> born <= windows[k] <= log[k] < windows[k] + period && log[k] <= now)
    && (forall a, b :: 0 <= a <= b < |log| ==> log[a] <= log[b])
    && (forall k :: 0 <= k ==> Spread(windows, period, limit, k))
  }

  /** Admissions k and k + limit were charged to windows at least a period apart. */
  ghost predicate Spread(windows: seq<Time>, period: Time, limit: int, k: nat) {
    0 <= limit && k + limit < |windows| ==> windows[k] + period <= windows[k + limit]
  }

  /** A window opened at `reset` has nothing charged to it yet. */
  lemma BucketReset(log: seq<Time>, windows: seq<Time>, used: nat, lastReset: Time, period: Time, limit: int,
                    born: Time, now: Time, reset: Time)
    requires Bucketed(log, windows, used, lastReset, period, limit, born, now)
    requires now <= reset && reset - lastReset >= period > 0
    ensures Bucketed(log, windows, 0, reset, period, limit, born, reset)
  {
  }

  /** Time passes. */
  lemma BucketLater(log: seq<Time>, windows: seq<Time>, used: nat, lastReset: Time, period: Time, limit: int,
                    born: Time, now: Time, later: Time)
    requires Bucketed(log, windows, used, lastReset, period, limit, born, now) && now <= later
    ensures Bucketed(log, windows, used, lastReset, period, limit, born, later)
  {
  }

  /** One more admission, charged to the current window. */
  lemma BucketAdmit(log: seq<Time>, windows: seq<Time>, used: nat, lastReset: Time, period: Time, limit: int,
                    born: Time, now: Time, at: Time)
    requires Bucketed(log, windows, used, lastReset, period, limit, born, now)
    requires now <= at < lastReset + period && used < limit
    ensures Bucketed(log + [at], windows + [lastReset], used + 1, lastReset, period, limit, born, at)
  {
    var log', windows' := log + [at], windows + [lastReset];
    forall k: nat ensures Spread(windows', period, limit, k) {
      assert Spread(windows, period, limit, k);
    }
  }

  /** When the window began that a clock reading falls into: a window runs from the reading that
      opened it, and the first reading a full period later opens the next. `readings` are the clock
      readings of all calls so far, admitted or not. */
  ghost function WindowStart(readings: seq<Time>, born: Time, period: Time): Time {
    if readings == [] then born
    else
      var before, now := WindowStart(readings[..|readings| - 1], born, period), readings[|readings| - 1];
      if now - before >= period then now else before
  }

  lemma NextReading(readings: seq<Time>, at: Time, born: Time, period: Time)
    ensures WindowStart(readings + [at], born, period)
            == (var before := WindowStart(readings, born, period); if at - before >= period then at else before)
  {
    assert (readings + [at])[..|readings|] == readings;
  }

  /** How many calls were admitted since then. */
  ghost function AdmittedSince(log: seq<Time>, start: Time): nat {
    if log == [] then 0
    else AdmittedSince(log[..|log| - 1], start) + (if log[|log| - 1] >= start then 1 else 0)
  }

  lemma {:induction false} CountsSuffix(log: seq<Time>, used: nat, start: Time)
    requires used <= |log|
    requires forall k :: |log| - used <= k < |log| ==> log[k] >= start
    requires forall k :: 0 <= k < |log| - used ==> log[k] < start
    ensures AdmittedSince(log, start) == used
  {
    if log != [] {
      CountsSuffix(log[..|log| - 1], if used > 0 then used - 1 else 0, start);
    }
  }

  /** The calls charged to the current window are the ones admitted since it began. */
  lemma UsedIsAdmitted(log: seq<Time>, windows: seq<Time>, used: nat, lastReset: Time, period: Time, limit: int,
                       born: Time, now: Time)
    requires Bucketed(log, windows, used, lastReset, period, limit, born, now)
    ensures AdmittedSince(log, lastReset) == used
  {
    CountsSuffix(log, used, lastReset);
  }

  class RateLimiter {
    const maxPerMinute: int
    const maxPerHour: int
    const maxConcurrent: int
    var minuteTokens: int
    var hourTokens: int
    var concurrent: int
    var lastMinuteReset: Time
    var lastHourReset: Time

    ghost const born: Time
    ghost var now: Time               // the latest clock reading
    ghost var readings: seq<Time>     // the clock readings of every Allow
    ghost var log: seq<Time>          // every admission
    ghost var released: nat           // releases that ended an admitted call
    ghost var minuteWindows: seq<Time>
    ghost var hourWindows: seq<Time>

    ghost predicate Valid()
      reads this
    {
      && concurrent == |log| - released && 0 <= concurrent
      && (maxConcurrent > 0 ==> concurrent <= maxConcurrent)
      && lastMinuteReset <= now && lastHourReset <= now
      && lastMinuteReset == WindowStart(readings, born, MINUTE) && lastHourReset == WindowStart(readings, born, HOUR)
      && (maxPerMinute > 0 ==>
            && 0 <= minuteTokens <= maxPerMinute
            && Bucketed(log, minuteWindows, maxPerMinute - minuteTokens, lastMinuteReset, MINUTE, maxPerMinute, born,
                        now))
      && (maxPerHour > 0 ==>
            && 0 <= hourTokens <= maxPerHour
            && Bucketed(log, hourWindows, maxPerHour - hourTokens, lastHourReset, HOUR, maxPerHour, born, now))
    }

    constructor (maxPerMinute: int, maxPerHour: int, maxConcurrent: int, at: Time)
      ensures Valid() && log == [] && released == 0 && readings == [] && born == at && now == at
      ensures this.maxPerMinute == maxPerMinute && this.maxPerHour == maxPerHour && this.maxConcurrent == maxConcurrent
    {
      this.maxPerMinute, this.maxPerHour, this.maxConcurrent := maxPerMinute, maxPerHour, maxConcurrent;
      minuteTokens, hourTokens, concurrent := maxPerMinute, maxPerHour, 0;
      lastMinuteReset, lastHourReset := at, at;
      born, now, readings, log, released := at, at, [], [], 0;
      minuteWindows, hourWindows := [], [];
    }

    /** Admitted exactly when a concurrent call is free and each enabled window, the one this
        reading falls into, has had fewer calls than its limit. */
    method Allow(at: Time) returns (ok: bool)
      requires Valid() && now <= at
      modifies this
      ensures Valid() && now == at && released == old(released) && readings == old(readings) + [at]
      ensures log == if ok then old(log) + [at] else old(log)
      ensures ok <==>
              && (maxConcurrent > 0 ==> |old(log)| - old(released) < maxConcurrent)
              && (maxPerMinute > 0 ==> AdmittedSince(old(log), WindowStart(readings, born, MINUTE)) < maxPerMinute)
              && (maxPerHour > 0 ==> AdmittedSince(old(log), WindowStart(readings, born, HOUR)) < maxPerHour)
    {
      RefreshWindows(at);
      CountUsed();
      if maxConcurrent > 0 && concurrent >= maxConcurrent {
        return false;
      }
      if maxPerMinute > 0 && minuteTokens <= 0 {
        return false;
      }
      if maxPerHour > 0 && hourTokens <= 0 {
        return false;
      }
      Consume(at);
      return true;
    }

    /** What the counters say about the log. */
    lemma CountUsed()
      requires Valid()
      ensures maxPerMinute > 0 ==> minuteTokens == maxPerMinute - AdmittedSince(log, lastMinuteReset)
      ensures maxPerHour > 0 ==> hourTokens == maxPerHour - AdmittedSince(log, lastHourReset)
    {
      hide Bucketed, AdmittedSince;
      if maxPerMinute > 0 {
        UsedIsAdmitted(log, minuteWindows, maxPerMinute - minuteTokens, lastMinuteReset, MINUTE, maxPerMinute, born,
                       now);
      }
      if maxPerHour > 0 {
        UsedIsAdmitted(log, hourWindows, maxPerHour - hourTokens, lastHourReset, HOUR, maxPerHour, born, now);
      }
    }

    /** The last lines of Allow: charge the admitted call. */
    method Consume(at: Time)
      requires Valid() && now == at
      requires at - lastMinuteReset < MINUTE && at - lastHourReset < HOUR
      requires maxConcurrent > 0 ==> concurrent < maxConcurrent
      requires maxPerMinute > 0 ==> minuteTokens > 0
      requires maxPerHour > 0 ==> hourTokens > 0
      modifies `minuteTokens, `hourTokens, `concurrent, `log, `minuteWindows, `hourWindows
      ensures Valid() && log == old(log) + [at]
      ensures minuteTokens == old(minuteTokens) - (if maxPerMinute > 0 then 1 else 0)
      ensures hourTokens == old(hourTokens) - (if maxPerHour > 0 then 1 else 0)
      ensures concurrent == old(concurrent) + 1
    {
      hide Bucketed, WindowStart;
      if maxPerMinute > 0 {
        BucketAdmit(log, minuteWindows, maxPerMinute - minuteTokens, lastMinuteReset, MINUTE, maxPerMinute, born, now,
                    at);
        minuteTokens := minuteTokens - 1;
      }
      if maxPerHour > 0 {
        BucketAdmit(log, hourWindows, maxPerHour - hourTokens, lastHourReset, HOUR, maxPerHour, born, now, at);
        hourTokens := hourTokens - 1;
      }
      concurrent := concurrent + 1;
      log := log + [at];
      minuteWindows, hourWindows := minuteWindows + [lastMinuteReset], hourWindows + [lastHourReset];
    }

    /** The two resets at the top of Allow. */
    method RefreshWindows(at: Time)
      requires Valid() && now <= at
      modifies `minuteTokens, `hourTokens, `lastMinuteReset, `lastHourReset, `now, `readings
      ensures Valid() && now == at && readings == old(readings) + [at]
      ensures at - lastMinuteReset < MINUTE && at - lastHourReset < HOUR
      ensures minuteTokens == if at - old(lastMinuteReset) >= MINUTE then maxPerMinute else old(minuteTokens)
      ensures hourTokens == if at - old(lastHourReset) >= HOUR then maxPerHour else old(hourTokens)
    {
      hide Bucketed, WindowStart;
      NextReading(readings, at, born, MINUTE);
      NextReading(readings, at, born, HOUR);
      if maxPerMinute > 0 {
        BucketLater(log, minuteWindows, maxPerMinute - minuteTokens, lastMinuteReset, MINUTE, maxPerMinute, born, now,
                    at);
      }
      if maxPerHour > 0 {
        BucketLater(log, hourWindows, maxPerHour - hourTokens, lastHourReset, HOUR, maxPerHour, born, now, at);
      }
      if at - lastMinuteReset >= MINUTE {
        if maxPerMinute > 0 {
          BucketReset(log, minuteWindows, maxPerMinute - minuteTokens, lastMinuteReset, MINUTE, maxPerMinute, born, now,
                      at);
        }
        minuteTokens := maxPerMinute;
        lastMinuteReset := at;
      }
      if at - lastHourReset >= HOUR {
        if maxPerHour > 0 {
          BucketReset(log, hourWindows, maxPerHour - hourTokens, lastHourReset, HOUR, maxPerHour, born, now, at);
        }
        hourTokens := maxPerHour;
        lastHourReset := at;
      }
      now, readings := at, readings + [at];
    }

    /** A release with nothing running is ignored. */
    method Release()
      requires Valid()
      modifies `concurrent, `released
      ensures Valid()
      ensures concurrent == Max(old(concurrent) - 1, 0)
      ensures released == old(released) + (if old(concurrent) > 0 then 1 else 0)
    {
      if concurrent > 0 {
        concurrent := concurrent - 1;
        released := released + 1;
      }
    }

    /** What callers may rely on, at any moment of any run: in every interval of length
        `span`, and from construction on, both windows bound the admissions at once. */
    lemma WindowBounds(from: Time, span: nat, a: nat, b: nat)
      requires Valid() && a <= b < |log|
      requires from <= log[a] && log[b] <= from + span
      ensures maxPerMinute > 0 ==>
                b - a + 1 <= maxPerMinute * (CeilDiv(span, MINUTE) + 1) <= maxPerMinute * (span / MINUTE + 2)
      ensures maxPerHour > 0 ==> b - a + 1 <= maxPerHour * (CeilDiv(span, HOUR) + 1) <= maxPerHour * (span / HOUR + 2)
      ensures maxPerMinute > 0 && from == born && a == 0 ==> b + 1 <= maxPerMinute * (span / MINUTE + 1)
      ensures maxPerHour > 0 && from == born && a == 0 ==> b + 1 <= maxPerHour * (span / HOUR + 1)
    {
      hide Bucketed, CeilDiv;
      if maxPerMinute > 0 {
        IntervalBound(log, minuteWindows, maxPerMinute - minuteTokens, lastMinuteReset, MINUTE, maxPerMinute, born, now,
                      span, a, b);
        if from == born && a == 0 {
          BirthBound(log, minuteWindows, maxPerMinute - minuteTokens, lastMinuteReset, MINUTE, maxPerMinute, born, now,
                     span, b);
        }
      }
      if maxPerHour > 0 {
        IntervalBound(log, hourWindows, maxPerHour - hourTokens, lastHourReset, HOUR, maxPerHour, born, now, span, a,
                      b);
        if from == born && a == 0 {
          BirthBound(log, hourWindows, maxPerHour - hourTokens, lastHourReset, HOUR, maxPerHour, born, now, span, b);
        }
      }
    }
  }

  /** Every `limit` further admissions put at least one more period between the windows. */
  lemma {:induction false} WindowsSpread(log: seq<Time>, windows: seq<Time>, used: nat, lastReset: Time, period: Time,
                                         limit: int, born: Time, now: Time, a: nat, n: nat)
    requires Bucketed(log, windows, used, lastReset, period, limit, born, now)
    requires limit > 0 && period > 0 && a + n * limit < |log|
    ensures a + n * limit >= a
    ensures windows[a + n * limit] >= windows[a] + n * period
  {
    if n > 0 {
      assert n * limit == (n - 1) * limit + limit && (n - 1) * limit >= 0;
      assert n * period == (n - 1) * period + period;
      WindowsSpread(log, windows, used, lastReset, period, limit, born, now, a, n - 1);
      var k := a + (n - 1) * limit;
      assert Spread(windows, period, limit, k);
    }
  }

  lemma IntervalBound(log: seq<Time>, windows: seq<Time>, used: nat, lastReset: Time, period: Time, limit: int,
                      born: Time, now: Time,
                      span: nat, a: nat, b: nat)
    requires Bucketed(log, windows, used, lastReset, period, limit, born, now)
    requires limit > 0 && period > 0 && a <= b < |log| && log[b] - log[a] <= span
    ensures b - a + 1 <= limit * (CeilDiv(span, period) + 1) <= limit * (span / period + 2)
  {
    var n := CeilDiv(span, period) + 1;
    assert n * period == period * (n - 1) + period;
    if b - a >= n * limit {
      WindowsSpread(log, windows, used, lastReset, period, limit, born, now, a, n);
      assert false;
    }
    assert limit * n == n * limit;
    CeilAtMost(span, period);
    Scale(limit, n, span / period + 2);
  }

  lemma BirthBound(log: seq<Time>, windows: seq<Time>, used: nat, lastReset: Time, period: Time, limit: int, born: Time,
                   now: Time,
                   span: nat, b: nat)
    requires Bucketed(log, windows, used, lastReset, period, limit, born, now)
    requires limit > 0 && period > 0 && b < |log| && log[b] - born <= span
    ensures b + 1 <= limit * (span / period + 1)
  {
    var n := span / period + 1;
    assert n * period > span by { assert span == period * (span / period) + span % period; }
    if b >= n * limit {
      WindowsSpread(log, windows, used, lastReset, period, limit, born, now, 0, n);
      assert false;
    }
    assert limit * n == n * limit;
  }

  lemma CeilAtMost(n: nat, d: int)
    requires d >= 1
    ensures CeilDiv(n, d) <= n / d + 1
  {
    if n > 0 {
      var x, y := (n - 1) / d, n / d;
      assert n - 1 == d * x + (n - 1) % d && n == d * y + n % d;
      if x > y {
        Scale(d, y + 1, x);
      }
    }
  }

  lemma Scale(m: int, x: int, y: int)
    requires m >= 0 && x <= y
    ensures m * x <= m * y
  {
  }
}
