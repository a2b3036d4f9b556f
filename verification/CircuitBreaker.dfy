/** The per-provider circuit breaker against the history of call outcomes. */
module CircuitBreaker {
  import opened Common

  datatype Outcome = Success | Failure(at: Time)

  datatype BreakerState = Closed | Open | HalfOpen

  /** Failures since the last success. */
  function ConsecutiveFailures(log: seq<Outcome>): nat {
    if log == [] || log[|log| - 1].Success? then 0 else 1 + ConsecutiveFailures(log[..|log| - 1])
  }

  lemma OneMoreOutcome(log: seq<Outcome>, o: Outcome)
    ensures ConsecutiveFailures(log + [o]) == if o.Success? then 0 else 1 + ConsecutiveFailures(log)
  {
    assert (log + [o])[..|log|] == log;
  }

  /** The history alone says the provider has been failing. */
  predicate Tripped(log: seq<Outcome>, threshold: int) {
    ConsecutiveFailures(log) >= Max(threshold, 1)
  }

  /** The history says to refuse a call at this moment. */
  predicate Refuses(log: seq<Outcome>, threshold: int, resetTimeout: Time, now: Time) {
    Tripped(log, threshold) && now - log[|log| - 1].at <= resetTimeout
  }

  class CircuitBreaker {
    const threshold: int
    const resetTimeout: Time
    var failureCount: int
    var lastFailure: Time
    var state: BreakerState

    ghost var log: seq<Outcome>   // every outcome recorded
    ghost var seen: Time          // the latest clock reading

    /** The three fields agree with the history. */
    ghost predicate Valid()
      reads this
    {
      && failureCount == ConsecutiveFailures(log)
      && (failureCount > 0 ==> lastFailure == log[|log| - 1].at)
      && (state == Closed <==> !Tripped(log, threshold))
      && (state == HalfOpen ==> seen - lastFailure > resetTimeout)
    }

    constructor (threshold: int, resetTimeout: Time)
      ensures Valid() && log == [] && seen == 0
      ensures this.threshold == threshold && this.resetTimeout == resetTimeout
    {
      this.threshold, this.resetTimeout := threshold, resetTimeout;
      failureCount, lastFailure, state := 0, 0, Closed;
      log, seen := [], 0;
    }

    method Allow(now: Time) returns (ok: bool)
      requires Valid() && seen <= now
      modifies `state, `seen
      ensures Valid() && seen == now
      ensures ok <==> !Refuses(log, threshold, resetTimeout, now)
    {
      seen := now;
      match state {
        case Closed => return true;
        case Open =>
          if now - lastFailure > resetTimeout {
            state := HalfOpen;
            return true;
          }
          return false;
        case HalfOpen => return true;
      }
    }

    method RecordSuccess()
      requires Valid()
      modifies `failureCount, `state, `log
      ensures Valid() && log == old(log) + [Success]
    {
      hide ConsecutiveFailures;
      OneMoreOutcome(log, Success);
      failureCount := 0;
      state := Closed;
      log := log + [Success];
    }

    method RecordFailure(now: Time)
      requires Valid() && seen <= now
      modifies this
      ensures Valid() && seen == now && log == old(log) + [Failure(now)]
    {
      hide ConsecutiveFailures;
      OneMoreOutcome(log, Failure(now));
      failureCount := failureCount + 1;
      lastFailure := now;
      if failureCount >= threshold {
        state := Open;
      }
      log, seen := log + [Failure(now)], now;
    }

    /** Reading the state, as the metrics do, leaves the history and so every later answer alone. */
    method State(now: Time) returns (s: BreakerState)
      requires Valid() && seen <= now
      modifies `state, `seen
      ensures Valid() && seen == now
      ensures s == if Refuses(log, threshold, resetTimeout, now) then Open
                   else if Tripped(log, threshold) then HalfOpen else Closed
    {
      seen := now;
      if state == Open && now - lastFailure > resetTimeout {
        state := HalfOpen;
      }
      return state;
    }
  }

  /** What the trailing count means: the last n outcomes failed and the one before did not. */
  lemma {:induction false} ConsecutiveFailuresMeaning(log: seq<Outcome>, n: nat)
    ensures ConsecutiveFailures(log) <= |log|
    ensures n == ConsecutiveFailures(log) <==>
            && n <= |log|
            && (forall k :: |log| - n <= k < |log| ==> log[k].Failure?)
            && (n < |log| ==> log[|log| - n - 1].Success?)
  {
    if log != [] && log[|log| - 1].Failure? {
      var front := log[..|log| - 1];
      if n > 0 {
        ConsecutiveFailuresMeaning(front, n - 1);
        assert forall k :: 0 <= k < |front| ==> front[k] == log[k];
      } else {
        ConsecutiveFailuresMeaning(front, 0);
      }
    }
  }

  /** Refusal in terms of the history alone: as many of the latest outcomes as the threshold, and
      at least one, are failures, and the last of them is no older than the reset timeout. */
  lemma RefusesExactly(log: seq<Outcome>, threshold: int, resetTimeout: Time, now: Time)
    ensures Refuses(log, threshold, resetTimeout, now)
            <==> exists n: nat :: Suffix(log, n) && n >= 1 && n >= threshold && now - log[|log| - 1].at <= resetTimeout
  {
    var n := ConsecutiveFailures(log);
    ConsecutiveFailuresMeaning(log, n);
    forall m: nat | Suffix(log, m) ensures m <= n {
      SuffixCounted(log, m);
    }
    if Refuses(log, threshold, resetTimeout, now) {
      assert Suffix(log, n);
    }
  }

  /** The last n outcomes are failures. */
  ghost predicate Suffix(log: seq<Outcome>, n: nat) {
    n <= |log| && forall k :: |log| - n <= k < |log| ==> log[k].Failure?
  }

  lemma {:induction false} SuffixCounted(log: seq<Outcome>, n: nat)
    requires Suffix(log, n)
    ensures n <= ConsecutiveFailures(log)
  {
    if n > 0 {
      SuffixCounted(log[..|log| - 1], n - 1);
    }
  }
}
