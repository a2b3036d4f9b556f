/** The TTL response cache against the log of everything ever stored in it. */
module Cache {
  import opened Common
  import opened Policy

  datatype Entry = Entry(decision: Decision, provider: string, createdAt: Time)

  datatype Stored = Stored(key: string, entry: Entry)

  /** The last thing stored under key. */
  function LastFor(log: seq<Stored>, key: string): Option<Entry> {
    if log == [] then None
    else if log[|log| - 1].key == key then Some(log[|log| - 1].entry)
    else LastFor(log[..|log| - 1], key)
  }

  /** Looking up in a cache that never evicts. */
  function Lookup(log: seq<Stored>, ttl: Time, key: string, now: Time): Option<(Decision, string)> {
    match LastFor(log, key)
    case None => None
    case Some(e) => if now - e.createdAt > ttl then None else Some((e.decision, e.provider))
  }

  /** The table may only have forgotten what was already stale at `seen`. */
  ghost predicate Agrees(entries: map<string, Entry>, log: seq<Stored>, ttl: Time, seen: Time, key: string) {
    if key in entries then LastFor(log, key) == Some(entries[key])
    else LastFor(log, key).Some? ==> seen - LastFor(log, key).value.createdAt > ttl
  }

  class Cache {
    const ttl: Time
    var entries: map<string, Entry>
    ghost var log: seq<Stored>
    ghost var seen: Time          // the latest clock reading of a Set

    ghost predicate Valid()
      reads this
    {
      forall key :: Agrees(entries, log, ttl, seen, key)
    }

    constructor (ttl: Time)
      ensures Valid() && this.ttl == ttl && log == []
    {
      this.ttl := ttl;
      entries, log, seen := map[], [], 0;
    }

    /** Eviction is invisible: a hit is the last decision stored for the key, if fresh. */
    method Get(key: string, now: Time) returns (r: Option<(Decision, string)>)
      requires Valid() && seen <= now
      ensures r == Lookup(log, ttl, key, now)
    {
      assert Agrees(entries, log, ttl, seen, key);
      if key !in entries {
        return None;
      }
      var entry := entries[key];
      if now - entry.createdAt > ttl {
        return None;
      }
      return Some((entry.decision, entry.provider));
    }

    method Set(key: string, decision: Decision, provider: string, now: Time)
      requires Valid() && (log != [] ==> seen <= now)
      modifies this
      ensures Valid() && seen == now && log == old(log) + [Stored(key, Entry(decision, provider, now))]
    {
      ghost var before := seen;
      if |entries| > 100 {
        EvictExpired(now);
      }
      var entry := Entry(decision, provider, now);
      entries := entries[key := entry];
      log, seen := log + [Stored(key, entry)], now;
      forall k ensures Agrees(entries, log, ttl, seen, k) {
        assert Agrees(old(entries), old(log), ttl, old(seen), k);
        assert log[..|log| - 1] == old(log);
      }
    }

    /** Drops exactly the entries that are stale now. */
    method EvictExpired(now: Time)
      modifies `entries
      ensures entries == map k | k in old(entries) && now - old(entries)[k].createdAt <= ttl :: old(entries)[k]
    {
      var all := entries;
      var left := entries.Keys;
      while left != {}
        invariant left <= all.Keys
        invariant entries == map k | k in all && (k in left || now - all[k].createdAt <= ttl) :: all[k]
        decreases left
      {
        var k :| k in left;
        if now - entries[k].createdAt > ttl {
          entries := entries - {k};
        }
        left := left - {k};
      }
    }
  }

  /** Store k is the last one for the key. */
  ghost predicate Newest(log: seq<Stored>, key: string, k: nat) {
    k < |log| && log[k].key == key && forall j :: k < j < |log| ==> log[j].key != key
  }

  /** A hit is the newest store for its key and no older than the TTL; everything else is a miss. */
  lemma {:induction false} LookupIsNewest(log: seq<Stored>, ttl: Time, key: string, now: Time)
    ensures Lookup(log, ttl, key, now).Some?
            <==> exists k: nat :: Newest(log, key, k) && now - log[k].entry.createdAt <= ttl
    ensures forall k: nat :: Newest(log, key, k) ==>
              Lookup(log, ttl, key, now)
              == if now - log[k].entry.createdAt > ttl then None
                 else Some((log[k].entry.decision, log[k].entry.provider))
  {
    if log != [] {
      var n := |log| - 1;
      if log[n].key == key {
        assert Newest(log, key, n);
      } else {
        var front := log[..n];
        LookupIsNewest(front, ttl, key, now);
        assert forall k: nat :: Newest(log, key, k) <==> Newest(front, key, k);
      }
    }
  }
}
