/** Provider selection: cache, then primary, then fallback, each behind its breaker. */
module Router {
  import opened Common
  import opened Policy
  import opened Cache
  import opened CircuitBreaker

  /** The clock readings of one attempt: at the gate, at the outcome, at the metric. */
  datatype Attempt = Attempt(answer: Option<Decision>, gate: Time, done: Time, metric: Time) {
    predicate Ordered(from: Time) {
      from <= gate <= done <= metric
    }
  }

  /** The history of a provider's breaker after an attempt that reached the gate. */
  function HistoryAfter(log: seq<Outcome>, threshold: int, resetTimeout: Time, a: Attempt): seq<Outcome> {
    if Refuses(log, threshold, resetTimeout, a.gate) then log
    else log + [if a.answer.Some? then Success else Failure(a.done)]
  }

  /** The history after several attempts, one after the other. */
  function Played(log: seq<Outcome>, threshold: int, resetTimeout: Time, attempts: seq<Attempt>): seq<Outcome> {
    if attempts == [] then log
    else
      var before := Played(log, threshold, resetTimeout, attempts[..|attempts| - 1]);
      HistoryAfter(before, threshold, resetTimeout, attempts[|attempts| - 1])
  }

  /** Each of these attempts found the breaker willing, called the provider and got no answer. */
  ghost predicate CalledInVain(log: seq<Outcome>, threshold: int, resetTimeout: Time, attempts: seq<Attempt>) {
    forall n :: 0 <= n < |attempts| ==>
      && attempts[n].answer.None?
      && !Refuses(Played(log, threshold, resetTimeout, attempts[..n]), threshold, resetTimeout, attempts[n].gate)
  }

  lemma {:induction false} VainCallsCount(log: seq<Outcome>, threshold: int, resetTimeout: Time, attempts: seq<Attempt>)
    requires CalledInVain(log, threshold, resetTimeout, attempts)
    ensures var after := Played(log, threshold, resetTimeout, attempts);
            && ConsecutiveFailures(after) == ConsecutiveFailures(log) + |attempts|
            && (attempts != [] ==> after != [] && after[|after| - 1] == Failure(attempts[|attempts| - 1].done))
  {
    if attempts != [] {
      var front := attempts[..|attempts| - 1];
      forall n | 0 <= n < |front|
        ensures front[n].answer.None?
                && !Refuses(Played(log, threshold, resetTimeout, front[..n]), threshold, resetTimeout, front[n].gate)
      {
        assert front[..n] == attempts[..n];
      }
      VainCallsCount(log, threshold, resetTimeout, front);
      assert attempts[..|attempts| - 1] == front;
      OneMoreOutcome(Played(log, threshold, resetTimeout, front), Failure(attempts[|attempts| - 1].done));
      hide Refuses, ConsecutiveFailures;
    }
  }

  /** After calls in a row without an answer, the next attempt is refused exactly if there were as
      many of them as the threshold, counting those before, and it comes within the reset timeout
      of the last. */
  lemma VainCallsShutOut(log: seq<Outcome>, threshold: int, resetTimeout: Time, attempts: seq<Attempt>, next: Time)
    requires attempts != [] && CalledInVain(log, threshold, resetTimeout, attempts)
    ensures Refuses(Played(log, threshold, resetTimeout, attempts), threshold, resetTimeout, next)
            <==> && ConsecutiveFailures(log) + |attempts| >= threshold
                 && next - attempts[|attempts| - 1].done <= resetTimeout
  {
    VainCallsCount(log, threshold, resetTimeout, attempts);
    hide Played;
  }

  /** After a call that was answered, the next attempt calls the provider, whenever it comes. */
  lemma AnswerLetsIn(log: seq<Outcome>, threshold: int, resetTimeout: Time, a: Attempt, next: Time)
    requires a.answer.Some? && !Refuses(log, threshold, resetTimeout, a.gate)
    ensures !Refuses(Played(log, threshold, resetTimeout, [a]), threshold, resetTimeout, next)
  {
    assert [a][..0] == [];
    assert Played(log, threshold, resetTimeout, [a]) == HistoryAfter(log, threshold, resetTimeout, a);
    OneMoreOutcome(log, Success);
  }

  /** Whatever came before, an attempt later than the reset timeout after the last outcome calls
      the provider. */
  lemma TimeLetsIn(log: seq<Outcome>, threshold: int, resetTimeout: Time, next: Time)
    requires log != [] && log[|log| - 1].Failure? && next - log[|log| - 1].at > resetTimeout
    ensures !Refuses(log, threshold, resetTimeout, next)
  {
  }

  class Router {
    var cache: Cache?
    var breakers: map<string, CircuitBreaker>

    ghost predicate Valid()
      reads this, cache, breakers.Values
    {
      && (cache != null ==> cache.Valid())
      && (forall p :: p in breakers ==> breakers[p].Valid())
      && (forall p, q :: p in breakers && q in breakers && p != q ==> breakers[p] != breakers[q])
    }

    /** The breaker, if there is one, lets a call to this provider through now. */
    ghost predicate Admits(provider: string, now: Time)
      reads this, breakers.Values
    {
      provider in breakers ==>
        !Refuses(breakers[provider].log, breakers[provider].threshold, breakers[provider].resetTimeout, now)
    }

    constructor (cache: Cache?, breakers: map<string, CircuitBreaker>)
      ensures this.cache == cache && this.breakers == breakers
    {
      this.cache, this.breakers := cache, breakers;
    }

    /** The provider is called exactly when its breaker admits the call, and each call made
        leaves exactly one outcome in that breaker's history and in no other. */
    method CallProviderWithCB(provider: string, a: Attempt) returns (r: Option<Decision>, ghost called: bool)
      requires Valid()
      requires provider in breakers ==> a.Ordered(breakers[provider].seen)
      modifies breakers.Values
      ensures Valid()
      ensures called <==> old(Admits(provider, a.gate))
      ensures r == if called then a.answer else None
      ensures provider in breakers ==>
                breakers[provider].log
                == old(breakers[provider].log)
                   + (if !called then [] else if r.Some? then [Success] else [Failure(a.done)])
      ensures provider in breakers ==>
                && breakers[provider].log
                   == HistoryAfter(old(breakers[provider].log), breakers[provider].threshold,
                                   breakers[provider].resetTimeout, a)
                && breakers[provider].seen == a.metric
      ensures forall p :: p in breakers && p != provider ==>
                breakers[p].log == old(breakers[p].log) && breakers[p].seen == old(breakers[p].seen)
    {
      if provider in breakers {
        var cb := breakers[provider];
        var ok := cb.Allow(a.gate);
        if !ok {
          var s := cb.State(a.metric);
          return None, false;
        }
        if a.answer.None? {
          cb.RecordFailure(a.done);
        } else {
          cb.RecordSuccess();
        }
        var s := cb.State(a.metric);
      }
      return a.answer, true;
    }

    /** A fresh cached decision short-circuits everything. Otherwise the primary answers, and
        only if it cannot, the fallback; whichever answers is what the cache then holds. */
    method Decide(key: string, primary: string, fallback: Option<string>, asked: Time, first: Attempt, second: Attempt,
                  stored: Time)
      returns (r: Option<(Decision, string)>)
      requires Valid() && fallback != Some(primary)
      requires cache != null ==> cache.seen <= asked <= stored
      requires primary in breakers ==> first.Ordered(breakers[primary].seen)
      requires fallback.Some? && fallback.value in breakers ==> second.Ordered(breakers[fallback.value].seen)
      modifies cache, breakers.Values
      ensures Valid()
      ensures var hit := if cache == null then None else old(Lookup(cache.log, cache.ttl, key, asked));
              && r == (if hit.Some? then hit else old(Asked(primary, fallback, first, second)))
              && (cache != null ==>
                    cache.log == old(cache.log)
                                 + if hit.None? && r.Some? then [Stored(key, Entry(r.value.0, r.value.1, stored))]
                                   else [])
              && (forall p :: p in breakers ==>
                    breakers[p].log == if hit.Some? then old(breakers[p].log)
                      else old(BreakerLog(p, primary, fallback, first, second)))
      ensures var hit := if cache == null then None else old(Lookup(cache.log, cache.ttl, key, asked));
              var answered := old(Admits(primary, first.gate)) && first.answer.Some?;
              && (hit.None? && answered ==> r == Some((first.answer.value, primary)))
              && (hit.None? && !answered && r.Some? ==>
                    fallback.Some? && old(Admits(fallback.value, second.gate)) && second.answer.Some?
                    && r == Some((second.answer.value, fallback.value)))
              && (hit.None? && !answered && r.None? && fallback.Some? ==>
                    !old(Admits(fallback.value, second.gate)) || second.answer.None?)
              && (hit.Some? || answered ==>
                    forall p :: p in breakers && fallback == Some(p) ==> breakers[p].log == old(breakers[p].log))
    {
      hide Lookup, HistoryAfter, Refuses;
      if cache != null {
        r := cache.Get(key, asked);
        if r.Some? {
          return;
        }
      }
      r := AskProviders(primary, fallback, first, second);
      if r.Some? {
        CacheResult(key, r.value.0, r.value.1, stored);
      }
    }

    /** What the two attempts yield. */
    ghost function Asked(primary: string, fallback: Option<string>, first: Attempt, second: Attempt)
      : Option<(Decision, string)>
      reads this, breakers.Values
    {
      if Admits(primary, first.gate) && first.answer.Some? then Some((first.answer.value, primary))
      else if fallback.Some? && Admits(fallback.value, second.gate) && second.answer.Some?
        then Some((second.answer.value, fallback.value))
      else None
    }

    /** What the two attempts leave in provider p's history. */
    ghost function BreakerLog(p: string, primary: string, fallback: Option<string>, first: Attempt,
                              second: Attempt): seq<Outcome>
      requires p in breakers
      reads this, breakers.Values
    {
      var cb := breakers[p];
      if p == primary then HistoryAfter(cb.log, cb.threshold, cb.resetTimeout, first)
      else if fallback == Some(p) && !(Admits(primary, first.gate) && first.answer.Some?) then
        HistoryAfter(cb.log, cb.threshold, cb.resetTimeout, second)
      else cb.log
    }

    /** The primary, then the fallback. */
    method AskProviders(primary: string, fallback: Option<string>, first: Attempt, second: Attempt)
      returns (r: Option<(Decision, string)>)
      requires Valid() && fallback != Some(primary)
      requires primary in breakers ==> first.Ordered(breakers[primary].seen)
      requires fallback.Some? && fallback.value in breakers ==> second.Ordered(breakers[fallback.value].seen)
      modifies breakers.Values
      ensures Valid()
      ensures r == old(Asked(primary, fallback, first, second))
      ensures forall p :: p in breakers ==> breakers[p].log == old(BreakerLog(p, primary, fallback, first, second))
    {
      hide HistoryAfter, Refuses;
      var answer, called := CallProviderWithCB(primary, first);
      if answer.Some? {
        return Some((answer.value, primary));
      }
      if fallback.None? {
        return None;
      }
      answer, called := CallProviderWithCB(fallback.value, second);
      if answer.None? {
        return None;
      }
      return Some((answer.value, fallback.value));
    }

    method CacheResult(key: string, decision: Decision, provider: string, now: Time)
      requires Valid() && (cache != null ==> cache.seen <= now)
      modifies cache
      ensures Valid()
      ensures cache != null ==> cache.log == old(cache.log) + [Stored(key, Entry(decision, provider, now))]
    {
      if cache != null {
        cache.Set(key, decision, provider, now);
      }
    }
  }
}
