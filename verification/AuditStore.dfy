/** The bounded audit store, one map of records per workload, against the unbounded
    history of everything stored. */
module AuditStore {
  import opened Common

  datatype Record = Record(id: string, timestamp: Time, workload: string, previousReplicas: int, newReplicas: int,
                           applied: bool, dryRun: bool)

  /** A value of the ConfigMap: either it decodes to a record or it does not. */
  datatype Cell = Json(rec: Record) | Corrupt

  type Data = map<string, Cell>

  datatype KeyedRecord = KeyedRecord(key: string, rec: Record)

  /** The outcomes of the API calls that one Store makes, and of encoding the record. */
  datatype Api = Api(getFails: bool, createFails: bool, marshalFails: bool, updateFails: bool)

  /** The decodable part of a map. */
  function Live(d: Data): Data {
    map k | k in d && d[k].Json? :: d[k]
  }

  function KeySet(s: seq<KeyedRecord>): set<string> {
    set e | e in s :: e.key
  }

  /** The entries are the decodable cells, each once. */
  ghost predicate Lists(s: seq<KeyedRecord>, d: Data) {
    && (forall e :: e in s ==> e.key in d && d[e.key] == Json(e.rec))
    && KeySet(s) == Live(d).Keys
    && |KeySet(s)| == |s|
  }

  lemma KeySetSnoc(s: seq<KeyedRecord>, e: KeyedRecord)
    ensures KeySet(s + [e]) == KeySet(s) + {e.key}
  {
    assert forall x :: x in s + [e] <==> x in s || x == e;
  }

  lemma KeySetSplit(s: seq<KeyedRecord>, n: nat)
    requires n <= |s|
    ensures KeySet(s) == KeySet(s[..n]) + KeySet(s[n..])
  {
    assert s == s[..n] + s[n..];
    assert forall x :: x in s <==> x in s[..n] || x in s[n..];
  }

  lemma {:induction false} KeySetSize(s: seq<KeyedRecord>)
    ensures |KeySet(s)| <= |s|
  {
    if s != [] {
      KeySetSize(s[..|s| - 1]);
      KeySetSnoc(s[..|s| - 1], s[|s| - 1]);
      assert s == s[..|s| - 1] + [s[|s| - 1]];
    }
  }

  /** With distinct keys, the two ends of a list share none. */
  lemma DistinctSplit(s: seq<KeyedRecord>, n: nat)
    requires n <= |s| && |KeySet(s)| == |s|
    ensures |KeySet(s[..n])| == n && KeySet(s[..n]) * KeySet(s[n..]) == {}
  {
    var a, b := KeySet(s[..n]), KeySet(s[n..]);
    KeySetSplit(s, n);
    KeySetSize(s[..n]);
    KeySetSize(s[n..]);
    assert |a + b| == |a| + |b| - |a * b|;
    assert |a * b| == 0;
  }

  // ----- the library sort, oldest first -----

  predicate OldestFirst(s: seq<KeyedRecord>) {
    forall i, j :: 0 <= i < j < |s| ==> s[i].rec.timestamp <= s[j].rec.timestamp
  }

  /** Places e after the entries that are not newer. */
  function InsertEntry(s: seq<KeyedRecord>, e: KeyedRecord): (r: seq<KeyedRecord>)
    ensures |r| == |s| + 1 && forall x :: x in r <==> x in s || x == e
  {
    if s == [] || s[|s| - 1].rec.timestamp <= e.rec.timestamp then s + [e]
    else
      assert s == s[..|s| - 1] + [s[|s| - 1]];
      InsertEntry(s[..|s| - 1], e) + [s[|s| - 1]]
  }

  lemma {:induction false} InsertEntrySorted(s: seq<KeyedRecord>, e: KeyedRecord)
    requires OldestFirst(s)
    ensures OldestFirst(InsertEntry(s, e))
  {
    if s != [] && s[|s| - 1].rec.timestamp > e.rec.timestamp {
      var front, last := s[..|s| - 1], s[|s| - 1];
      InsertEntrySorted(front, e);
      var r := InsertEntry(front, e);
      forall i | 0 <= i < |r| ensures r[i].rec.timestamp <= last.rec.timestamp {
        assert r[i] in front || r[i] == e;
      }
    }
  }

  /** Stands for the library sort: the same entries, oldest first. Nothing is promised about
      the order of equal timestamps. */
  method SortOldestFirst(entries: seq<KeyedRecord>) returns (s: seq<KeyedRecord>)
    ensures OldestFirst(s) && |s| == |entries| && forall x :: x in s <==> x in entries
  {
    s := [];
    for n := 0 to |entries|
      invariant |s| == n && OldestFirst(s) && forall x :: x in s <==> x in entries[..n]
    {
      InsertEntrySorted(s, entries[n]);
      s := InsertEntry(s, entries[n]);
      assert entries[..n + 1] == entries[..n] + [entries[n]];
    }
    assert entries[..|entries|] == entries;
  }

  lemma SameEntries(a: seq<KeyedRecord>, b: seq<KeyedRecord>, d: Data)
    requires Lists(a, d) && |a| == |b| && forall x :: x in b <==> x in a
    ensures Lists(b, d)
  {
    assert KeySet(a) == KeySet(b);
  }

  // ----- pruning -----

  /** What pruning may do: corrupt cells go; of the decodable ones, the `limit` newest stay. */
  ghost predicate Pruned(full: Data, kept: Data, limit: nat) {
    && kept.Keys <= Live(full).Keys
    && (forall k :: k in kept ==> kept[k] == full[k])
    && |kept| == Min(limit, |Live(full)|)
    && (forall k, j :: k in Live(full) && k !in kept && j in kept ==> full[k].rec.timestamp <= kept[j].rec.timestamp)
  }

  /** What the ConfigMap may hold after a store. */
  ghost predicate Bounded(full: Data, kept: Data, limit: nat) {
    if |full| > limit then Pruned(full, kept, limit) else kept == full
  }

  /** Removing the oldest n, as many as exceed the limit, is a legal pruning. */
  lemma RemoveOldestPrunes(d: Data, sorted: seq<KeyedRecord>, n: nat, limit: nat)
    requires Lists(sorted, d) && OldestFirst(sorted) && n <= |sorted| && n == Max(|sorted| - limit, 0)
    ensures Pruned(d, Live(d) - KeySet(sorted[..n]), limit)
  {
    RemoveOldestSize(d, sorted, n);
    hide Lists, KeySet, OldestFirst;
    var kept := Live(d) - KeySet(sorted[..n]);
    forall k, j | k in Live(d) && k !in kept && j in kept ensures d[k].rec.timestamp <= kept[j].rec.timestamp {
      OlderThanKept(d, sorted, n, k, j);
    }
  }

  lemma RemoveOldestSize(d: Data, sorted: seq<KeyedRecord>, n: nat)
    requires Lists(sorted, d) && n <= |sorted|
    ensures |Live(d) - KeySet(sorted[..n])| == |sorted| - n && |Live(d)| == |sorted|
  {
    var kept := Live(d) - KeySet(sorted[..n]);
    DistinctSplit(sorted, n);
    KeySetSplit(sorted, n);
    assert |Live(d).Keys| == |Live(d)| && |kept.Keys| == |kept|;
    assert kept.Keys == Live(d).Keys - KeySet(sorted[..n]);
    assert |kept.Keys| == |Live(d).Keys| - n;
  }

  lemma OlderThanKept(d: Data, sorted: seq<KeyedRecord>, n: nat, k: string, j: string)
    requires Lists(sorted, d) && OldestFirst(sorted) && n <= |sorted|
    requires k in KeySet(sorted[..n]) && j in Live(d) && j !in KeySet(sorted[..n])
    ensures k in Live(d) && d[k].rec.timestamp <= d[j].rec.timestamp
  {
    KeySetSplit(sorted, n);
    var a :| a in sorted[..n] && a.key == k;
    var b :| b in sorted[n..] && b.key == j;
    OldBeforeNew(sorted, n, a, b);
  }

  lemma OldBeforeNew(sorted: seq<KeyedRecord>, n: nat, a: KeyedRecord, b: KeyedRecord)
    requires OldestFirst(sorted) && n <= |sorted| && a in sorted[..n] && b in sorted[n..]
    ensures a in sorted && b in sorted && a.rec.timestamp <= b.rec.timestamp
  {
    var i :| 0 <= i < n && sorted[..n][i] == a;
    var j :| 0 <= j < |sorted[n..]| && sorted[n..][j] == b;
    assert sorted[i] == a && sorted[n + j] == b;
  }

  lemma RemoveNext(m: Data, sorted: seq<KeyedRecord>, i: nat)
    requires i < |sorted|
    ensures (m - KeySet(sorted[..i])) - {sorted[i].key} == m - KeySet(sorted[..i + 1])
  {
    KeySetSnoc(sorted[..i], sorted[i]);
    assert sorted[..i + 1] == sorted[..i] + [sorted[i]];
  }

  method PruneOldest(data: Data, limit: nat) returns (kept: Data)
    ensures Pruned(data, kept, limit)
  {
    hide Lists, KeySet, OldestFirst, Pruned, Live;
    var entries: seq<KeyedRecord>;
    kept, entries := DropCorrupt(data);
    var sorted := SortOldestFirst(entries);
    SameEntries(entries, sorted, data);
    var toRemove := |sorted| - limit;
    var i := 0;
    assert kept == kept - KeySet(sorted[..0]) by { KeySetEmpty(); assert sorted[..0] == []; }
    while i < toRemove
      invariant 0 <= i <= Max(toRemove, 0)
      invariant kept == Live(data) - KeySet(sorted[..i])
    {
      RemoveNext(Live(data), sorted, i);
      kept := kept - {sorted[i].key};
      i := i + 1;
    }
    RemoveOldestPrunes(data, sorted, i, limit);
  }

  lemma KeySetEmpty()
    ensures KeySet([]) == {}
  {
  }

  /** How far the collecting loop has got: everything outside `left` has been looked at. */
  ghost predicate Collected(data: Data, left: set<string>, kept: Data, entries: seq<KeyedRecord>) {
    && left <= data.Keys
    && kept == (map k | k in data && (k in left || data[k].Json?) :: data[k])
    && (forall e :: e in entries ==> e.key in data && data[e.key] == Json(e.rec))
    && KeySet(entries) == Live(data).Keys - left
    && |KeySet(entries)| == |entries|
  }

  lemma CollectStart(data: Data)
    ensures Collected(data, data.Keys, data, [])
  {
  }

  lemma CollectCorrupt(data: Data, left: set<string>, kept: Data, entries: seq<KeyedRecord>, k: string)
    requires Collected(data, left, kept, entries) && k in left && data[k].Corrupt?
    ensures Collected(data, left - {k}, kept - {k}, entries)
  {
  }

  lemma CollectJson(data: Data, left: set<string>, kept: Data, entries: seq<KeyedRecord>, k: string)
    requires Collected(data, left, kept, entries) && k in left && data[k].Json?
    ensures Collected(data, left - {k}, kept, entries + [KeyedRecord(k, data[k].rec)])
  {
    KeySetSnoc(entries, KeyedRecord(k, data[k].rec));
  }

  lemma CollectDone(data: Data, kept: Data, entries: seq<KeyedRecord>)
    requires Collected(data, {}, kept, entries)
    ensures Lists(entries, data) && kept == Live(data)
  {
  }

  lemma CollectingKeys(data: Data, left: set<string>, kept: Data, entries: seq<KeyedRecord>)
    requires Collected(data, left, kept, entries)
    ensures left <= data.Keys
  {
  }

  /** Collects the decodable cells and deletes the others. */
  method DropCorrupt(data: Data) returns (kept: Data, entries: seq<KeyedRecord>)
    ensures Lists(entries, data) && kept == Live(data)
  {
    hide *;
    kept, entries := data, [];
    var left := data.Keys;
    CollectStart(data);
    while left != {}
      invariant Collected(data, left, kept, entries)
      decreases left
    {
      var k :| k in left;
      CollectingKeys(data, left, kept, entries);
      if data[k].Corrupt? {
        CollectCorrupt(data, left, kept, entries, k);
        kept := kept - {k};
      } else {
        CollectJson(data, left, kept, entries, k);
        entries := entries + [KeyedRecord(k, data[k].rec)];
      }
      left := left - {k};
    }
    CollectDone(data, kept, entries);
  }

  // ----- histories -----

  /** Fresh identifiers and strictly increasing timestamps. */
  ghost predicate Chronological(h: seq<Record>) {
    forall i, j :: 0 <= i < j < |h| ==> h[i].timestamp < h[j].timestamp && h[i].id != h[j].id
  }

  function NewestFirst(h: seq<Record>): seq<Record> {
    seq(|h|, i requires 0 <= i < |h| => h[|h| - 1 - i])
  }

  /** The map holds these records, each under its identifier, and nothing else. */
  ghost predicate Holds(d: Data, h: seq<Record>) {
    && (forall r :: r in h ==> r.id in d && d[r.id] == Json(r))
    && (forall k :: k in d ==> d[k].Json? && d[k].rec in h && d[k].rec.id == k)
  }

  function Ids(h: seq<Record>): set<string> {
    set r | r in h :: r.id
  }

  lemma IdsSnoc(h: seq<Record>, r: Record)
    ensures Ids(h + [r]) == Ids(h) + {r.id}
  {
    assert forall x :: x in h + [r] <==> x in h || x == r;
  }

  lemma LastIsFresh(h: seq<Record>, r: Record)
    requires Chronological(h + [r])
    ensures Chronological(h) && forall x :: x in h ==> x.id != r.id
  {
    assert forall i :: 0 <= i < |h| ==> (h + [r])[i] == h[i];
    forall x | x in h ensures x.id != r.id {
      var i :| 0 <= i < |h| && h[i] == x;
      assert (h + [r])[i].id != (h + [r])[|h|].id;
    }
  }

  lemma {:induction false} IdsSize(h: seq<Record>)
    requires Chronological(h)
    ensures |Ids(h)| == |h|
  {
    if h != [] {
      var front, last := h[..|h| - 1], h[|h| - 1];
      assert h == front + [last];
      hide Chronological;
      LastIsFresh(front, last);
      IdsSize(front);
      IdsSnoc(front, last);
    }
  }

  lemma HoldsSize(d: Data, h: seq<Record>)
    requires Chronological(h) && Holds(d, h)
    ensures |d| == |h|
  {
    IdsSize(h);
    assert d.Keys == Ids(h);
    assert |d.Keys| == |d|;
  }

  lemma HoldsExtend(d: Data, h: seq<Record>, r: Record)
    requires Holds(d, h) && Chronological(h + [r])
    ensures Holds(d[r.id := Json(r)], h + [r])
  {
    hide Chronological;
    LastIsFresh(h, r);
  }

  lemma WindowChronological(h: seq<Record>, r: Record, limit: nat)
    requires limit >= 1 && Chronological(h + [r])
    ensures Chronological(LastN(h, limit) + [r])
    ensures LastN(h + [r], limit) == if |h| < limit then LastN(h, limit) + [r] else (LastN(h, limit) + [r])[1..]
  {
    hide Chronological;
    var longer := LastN(h, limit) + [r];
    var offset := |h| + 1 - |longer|;
    assert longer == (h + [r])[offset..];
    SuffixChronological(h + [r], offset);
  }

  lemma SuffixChronological(h: seq<Record>, n: nat)
    requires n <= |h| && Chronological(h)
    ensures Chronological(h[n..])
  {
    var s := h[n..];
    forall i, j | 0 <= i < j < |s| ensures s[i].timestamp < s[j].timestamp && s[i].id != s[j].id {
      assert s[i] == h[n + i] && s[j] == h[n + j];
    }
  }

  /** Storing one record on top of the last `limit` of a chronological history leaves the
      last `limit` of the longer history: pruning drops exactly the oldest. */
  lemma StoreKeepsNewest(d: Data, h: seq<Record>, r: Record, kept: Data, limit: nat)
    requires limit >= 1 && Chronological(h + [r]) && Holds(d, LastN(h, limit))
    requires Bounded(d[r.id := Json(r)], kept, limit)
    ensures Holds(kept, LastN(h + [r], limit))
  {
    var longer := LastN(h, limit) + [r];
    WindowChronological(h, r, limit);
    HoldsExtend(d, LastN(h, limit), r);
    HoldsSize(d[r.id := Json(r)], longer);
    if |h| >= limit {
      OldestIsDropped(d[r.id := Json(r)], longer, kept, limit);
    }
  }

  lemma OldestIsDropped(full: Data, longer: seq<Record>, kept: Data, limit: nat)
    requires Chronological(longer) && |full| == |longer| == limit + 1 && limit >= 1
    requires Holds(full, longer) && Pruned(full, kept, limit)
    ensures Holds(kept, longer[1..])
  {
    FirstNotKept(full, longer, kept, limit);
    var first := longer[0];
    assert first in longer;
    assert first.id in full.Keys - kept.Keys;
    Singleton(full.Keys - kept.Keys, first.id);
    RestHeld(full, longer, kept);
  }

  lemma FirstNotKept(full: Data, longer: seq<Record>, kept: Data, limit: nat)
    requires Chronological(longer) && |full| == |longer| == limit + 1 && limit >= 1
    requires Holds(full, longer) && Pruned(full, kept, limit)
    ensures longer[0].id !in kept
    ensures |full.Keys - kept.Keys| == 1 && kept.Keys <= full.Keys
  {
    hide Chronological, Holds, Pruned;
    var dropped := OneDropped(full, longer, kept, limit);
    forall k | k in kept ensures k != longer[0].id {
      DroppedIsOlder(full, longer, kept, limit, dropped, k);
      OnlyOneAt(longer, longer[0], full[dropped].rec, full[k].rec);
    }
  }

  /** Pruning one too many drops one. */
  lemma OneDropped(full: Data, longer: seq<Record>, kept: Data, limit: nat) returns (dropped: string)
    requires |full| == limit + 1 && limit >= 1 && Holds(full, longer) && Pruned(full, kept, limit)
    ensures dropped in full && dropped !in kept
    ensures |full.Keys - kept.Keys| == 1 && kept.Keys <= full.Keys
  {
    hide Holds;
    HoldsIsLive(full, longer);
    PrunedSize(full, kept, limit);
    assert |full.Keys - kept.Keys| == |full.Keys| - |kept.Keys| == 1;
    dropped :| dropped in full.Keys - kept.Keys;
  }

  lemma PrunedSize(full: Data, kept: Data, limit: nat)
    requires Pruned(full, kept, limit) && Live(full) == full && |full| == limit + 1
    ensures |full.Keys| == limit + 1 && |kept.Keys| == limit && kept.Keys <= full.Keys
  {
    assert |full.Keys| == |full| && |kept.Keys| == |kept|;
  }

  /** What is dropped is not newer than what is kept, and is another record. */
  lemma DroppedIsOlder(full: Data, longer: seq<Record>, kept: Data, limit: nat, dropped: string, k: string)
    requires Holds(full, longer) && Pruned(full, kept, limit) && dropped in full && dropped !in kept && k in kept
    ensures k in full && full[dropped].Json? && full[k].Json?
    ensures full[dropped].rec in longer && full[k].rec in longer && full[k].rec.id == k != full[dropped].rec.id
    ensures full[dropped].rec.timestamp <= full[k].rec.timestamp
  {
    HoldsIsLive(full, longer);
  }

  lemma RestHeld(full: Data, longer: seq<Record>, kept: Data)
    requires Chronological(longer) && longer != [] && Holds(full, longer)
    requires kept.Keys <= full.Keys && full.Keys - kept.Keys == {longer[0].id}
    requires forall k :: k in kept ==> kept[k] == full[k]
    ensures Holds(kept, longer[1..])
  {
    hide Chronological;
    RestIds(longer);
    assert longer[0].id !in kept;
    forall r | r in longer[1..] ensures r.id in kept {
      assert r.id in full.Keys && r.id !in full.Keys - kept.Keys;
    }
  }

  lemma RestIds(longer: seq<Record>)
    requires Chronological(longer) && longer != []
    ensures forall x :: x in longer <==> x == longer[0] || x in longer[1..]
    ensures forall x :: x in longer[1..] ==> x.id != longer[0].id
  {
    assert longer == [longer[0]] + longer[1..];
    forall x | x in longer[1..] ensures x.id != longer[0].id {
      var i :| 0 <= i < |longer[1..]| && longer[1..][i] == x;
      assert longer[i + 1].id != longer[0].id;
    }
  }

  lemma Singleton(s: set<string>, x: string)
    requires |s| == 1 && x in s
    ensures s == {x}
  {
    assert |s - {x}| == 0;
  }

  /** In a chronological history, of two records with different identifiers, the one that
      is not older is not the first. */
  lemma OnlyOneAt(h: seq<Record>, first: Record, older: Record, newer: Record)
    requires Chronological(h) && h != [] && first == h[0] && older in h && newer in h
    requires older.id != newer.id && older.timestamp <= newer.timestamp
    ensures newer.id != first.id
  {
    var i :| 0 <= i < |h| && h[i] == older;
    var j :| 0 <= j < |h| && h[j] == newer;
    assert i < j;
  }

  // ----- listing -----

  /** A listing: decodable records of the map, newest first, and, if cut at a limit, none
      left out that is newer than one returned. `keys` says where each came from. */
  ghost predicate Listing(d: Data, limit: int, keys: seq<string>, r: seq<Record>) {
    && |keys| == |r| == (if limit > 0 then Min(limit, |Live(d)|) else |Live(d)|)
    && (forall i :: 0 <= i < |r| ==> keys[i] in d && d[keys[i]] == Json(r[i]))
    && (forall i, j :: 0 <= i < j < |r| ==> keys[i] != keys[j] && r[i].timestamp >= r[j].timestamp)
    && (forall k, i :: k in Live(d) && k !in keys && 0 <= i < |r| ==> d[k].rec.timestamp <= r[i].timestamp)
  }

  /** A listing of a map that holds the last `size` records of a chronological history is the
      newest of the whole history: up to `size`, the bounded store answers like an unbounded one. */
  lemma ListingIsNewest(d: Data, h: seq<Record>, size: nat, limit: nat, keys: seq<string>, r: seq<Record>)
    requires Chronological(h) && 0 < limit <= size && Holds(d, LastN(h, size))
    requires Listing(d, limit, keys, r)
    ensures r == NewestFirst(LastN(h, limit))
  {
    hide Chronological, Holds, Listing, Live, LastN, NewestFirst;
    var window := LastN(h, size);
    LastNChronological(h, size);
    HoldsSize(d, window);
    HoldsIsLive(d, window);
    ListingLength(d, limit, keys, r);
    ListingDescends(d, window, limit, keys, r, |r|);
    NewestOfWindow(h, size, limit, r);
  }

  lemma LastNChronological(h: seq<Record>, n: nat)
    requires Chronological(h)
    ensures Chronological(LastN(h, n))
  {
  }

  lemma HoldsIsLive(d: Data, h: seq<Record>)
    requires Holds(d, h)
    ensures Live(d) == d
  {
  }

  lemma ListingLength(d: Data, limit: nat, keys: seq<string>, r: seq<Record>)
    requires limit > 0 && Listing(d, limit, keys, r)
    ensures |r| == Min(limit, |Live(d)|)
  {
  }

  lemma NewestOfWindow(h: seq<Record>, size: nat, limit: nat, r: seq<Record>)
    requires 0 < limit <= size && |r| == Min(limit, |LastN(h, size)|)
    requires Descends(LastN(h, size), r, |r|)
    ensures r == NewestFirst(LastN(h, limit))
  {
    var want := NewestFirst(LastN(h, limit));
    assert |r| == |want|;
    assert forall i :: 0 <= i < |r| ==> r[i] == want[i];
  }

  /** The first n returned are the n newest, newest first. */
  ghost predicate Descends(window: seq<Record>, r: seq<Record>, n: nat) {
    n <= |r| <= |window| && forall i :: 0 <= i < n ==> r[i] == window[|window| - 1 - i]
  }

  lemma {:induction false} ListingDescends(d: Data, window: seq<Record>, limit: nat, keys: seq<string>, r: seq<Record>,
                                           n: nat)
    requires Chronological(window) && Holds(d, window) && Listing(d, limit, keys, r) && n <= |r| <= |window|
    ensures Descends(window, r, n)
  {
    hide Chronological, Holds, Listing;
    if n > 0 {
      ListingDescends(d, window, limit, keys, r, n - 1);
      hide Descends;
      NextNotNewer(d, window, limit, keys, r, n - 1);
      NotRepeated(d, window, limit, keys, r, n - 1);
      NextIsNext(window, r, n - 1);
    }
  }

  /** A record of the window that is not returned yet and not older than the next newest is it. */
  lemma NextIsNext(window: seq<Record>, r: seq<Record>, n: nat)
    requires Chronological(window) && Descends(window, r, n) && n < |r|
    requires r[n] in window && window[|window| - 1 - n].timestamp <= r[n].timestamp
    requires forall i :: 0 <= i < n ==> r[i] != r[n]
    ensures Descends(window, r, n + 1)
  {
    var at :| 0 <= at < |window| && window[at] == r[n];
    TimeOrder(window, |window| - 1 - n, at);
    hide Chronological;
    forall q | |window| - 1 - n < q < |window| ensures window[q] != r[n] {
      var i := |window| - 1 - q;
      assert r[i] == window[q];
    }
  }

  lemma TimeOrder(h: seq<Record>, i: nat, j: nat)
    requires Chronological(h) && i < |h| && j < |h| && h[i].timestamp <= h[j].timestamp
    ensures i <= j
  {
  }

  lemma NotRepeated(d: Data, window: seq<Record>, limit: nat, keys: seq<string>, r: seq<Record>, n: nat)
    requires Listing(d, limit, keys, r) && n < |r| && Holds(d, window)
    ensures r[n] in window
    ensures forall i :: 0 <= i < n ==> r[i] != r[n]
  {
    assert d[keys[n]] == Json(r[n]);
    forall i | 0 <= i < n ensures r[i] != r[n] {
      assert d[keys[i]] == Json(r[i]) && keys[i] != keys[n];
    }
  }

  /** Whether it is returned later or left out, the next newest is not newer than r[n]. */
  lemma NextNotNewer(d: Data, window: seq<Record>, limit: nat, keys: seq<string>, r: seq<Record>, n: nat)
    requires Chronological(window) && Holds(d, window) && Listing(d, limit, keys, r) && n < |r|
    requires Descends(window, r, n)
    ensures window[|window| - 1 - n].timestamp <= r[n].timestamp
  {
    EarlierAreNewer(window, r, n);
    hide Chronological, Descends, Live;
    var next := window[|window| - 1 - n];
    LiveRecord(d, window, next);
    if next.id in keys {
      var p :| 0 <= p < |keys| && keys[p] == next.id;
      ReturnedRecord(d, window, limit, keys, r, p, next);
    }
  }

  lemma LiveRecord(d: Data, window: seq<Record>, x: Record)
    requires Holds(d, window) && x in window
    ensures x.id in Live(d) && d[x.id] == Json(x)
  {
  }

  lemma ReturnedRecord(d: Data, window: seq<Record>, limit: nat, keys: seq<string>, r: seq<Record>, p: nat, x: Record)
    requires Holds(d, window) && x in window && Listing(d, limit, keys, r) && p < |r| && keys[p] == x.id
    ensures r[p] == x
  {
  }

  lemma EarlierAreNewer(window: seq<Record>, r: seq<Record>, n: nat)
    requires Chronological(window) && Descends(window, r, n) && n < |r|
    ensures |window| - 1 - n >= 0
    ensures forall i :: 0 <= i < n ==> r[i].timestamp > window[|window| - 1 - n].timestamp
  {
  }

  class ConfigMapStore {
    const maxPerCM: nat
    var configMaps: map<string, Data>
    ghost var history: map<string, seq<Record>>   // everything stored, per workload

    /** A workload whose ConfigMap holds exactly the newest of its chronological history. */
    ghost predicate Faithful(workload: string)
      reads this
    {
      Chronological(HistoryOf(workload)) && Holds(DataOf(workload), LastN(HistoryOf(workload), maxPerCM))
    }

    ghost function HistoryOf(workload: string): seq<Record>
      reads this
    {
      if workload in history then history[workload] else []
    }

    function DataOf(workload: string): Data
      reads this
    {
      if workload in configMaps then configMaps[workload] else map[]
    }

    constructor (maxPerCM: int)
      ensures this.maxPerCM == (if maxPerCM <= 0 then 50 else maxPerCM)
      ensures configMaps == map[] && history == map[]
      ensures forall w :: Faithful(w)
    {
      this.maxPerCM := if maxPerCM <= 0 then 50 else maxPerCM;
      configMaps, history := map[], map[];
    }

    /** A successful store leaves at most maxPerCM cells, none dropped newer than one kept; if
        the workload was faithful and the record is new, it stays faithful. A failed store
        and every other workload keep their data. */
    method Store(record: Record, api: Api) returns (ok: bool)
      requires maxPerCM >= 1
      modifies `configMaps, `history
      ensures ok <==> && !api.getFails && !(old(record.workload !in configMaps) && api.createFails)
                      && !api.marshalFails && !api.updateFails
      ensures ok ==> Bounded(old(DataOf(record.workload))[record.id := Json(record)], DataOf(record.workload), maxPerCM)
      ensures ok ==> |DataOf(record.workload)| <= maxPerCM
      ensures forall w :: !ok || w != record.workload ==>
                DataOf(w) == old(DataOf(w)) && HistoryOf(w) == old(HistoryOf(w))
      ensures ok ==> HistoryOf(record.workload) == old(HistoryOf(record.workload)) + [record]
      ensures ok && old(Faithful(record.workload)) && Chronological(HistoryOf(record.workload)) ==>
                Faithful(record.workload)
    {
      hide Bounded, Chronological, LastN, Holds;
      if api.getFails {
        return false;
      }
      var data := map[];
      if record.workload in configMaps {
        data := configMaps[record.workload];
      } else {
        if api.createFails {
          return false;
        }
        configMaps := configMaps[record.workload := data];
      }
      if api.marshalFails {
        return false;
      }
      ghost var stored := data;
      data := AddRecord(data, record);
      if api.updateFails {
        return false;
      }
      ghost var before := HistoryOf(record.workload);
      configMaps := configMaps[record.workload := data];
      history := history[record.workload := before + [record]];
      if old(Faithful(record.workload)) && Chronological(before + [record]) {
        StoreKeepsNewest(stored, before, record, data, maxPerCM);
      }
      return true;
    }

    /** Puts the record in and prunes if there are now too many cells. */
    method AddRecord(stored: Data, record: Record) returns (data: Data)
      ensures Bounded(stored[record.id := Json(record)], data, maxPerCM) && |data| <= maxPerCM
    {
      data := stored[record.id := Json(record)];
      if |data| > maxPerCM {
        data := PruneOldest(data, maxPerCM);
      }
    }

    /** Nothing exactly if the read fails. Otherwise newest first, cut at the limit if it is
        positive; for a faithful workload and a limit within the store's size, exactly the
        newest of everything ever stored. */
    method List(workload: string, limit: int, getFails: bool)
      returns (listed: Option<seq<Record>>, ghost keys: seq<string>)
      ensures listed.None? <==> getFails
      ensures listed.Some? ==> Listing(DataOf(workload), limit, keys, listed.value)
      ensures listed.Some? && Faithful(workload) && 0 < limit <= maxPerCM ==>
                listed.value == NewestFirst(LastN(HistoryOf(workload), limit))
    {
      if getFails {
        return None, [];
      }
      var data := DataOf(workload);
      var live, entries := DropCorrupt(data);
      var sorted := SortOldestFirst(entries);
      SameEntries(entries, sorted, data);
      var r;
      r, keys := Backwards(sorted);
      if limit > 0 && |r| > limit {
        r, keys := r[..limit], keys[..limit];
      }
      CutIsListing(data, sorted, limit, keys, r);
      if Faithful(workload) && 0 < limit <= maxPerCM {
        ListingIsNewest(data, HistoryOf(workload), maxPerCM, limit, keys, r);
      }
      return Some(r), keys;
    }
  }

  /** The entries newest first, as the listing's own sort leaves them. */
  method Backwards(sorted: seq<KeyedRecord>) returns (r: seq<Record>, ghost keys: seq<string>)
    ensures |r| == |keys| == |sorted|
    ensures forall i :: 0 <= i < |r| ==> KeyedRecord(keys[i], r[i]) == sorted[|sorted| - 1 - i]
  {
    r, keys := [], [];
    while |r| < |sorted|
      invariant |r| == |keys| <= |sorted|
      invariant forall i :: 0 <= i < |r| ==> KeyedRecord(keys[i], r[i]) == sorted[|sorted| - 1 - i]
    {
      var e := sorted[|sorted| - 1 - |r|];
      r, keys := r + [e.rec], keys + [e.key];
    }
  }

  lemma CutIsListing(d: Data, sorted: seq<KeyedRecord>, limit: int, keys: seq<string>, r: seq<Record>)
    requires Lists(sorted, d) && OldestFirst(sorted)
    requires |keys| == |r| == (if limit > 0 then Min(limit, |sorted|) else |sorted|)
    requires forall i :: 0 <= i < |r| ==> KeyedRecord(keys[i], r[i]) == sorted[|sorted| - 1 - i]
    ensures Listing(d, limit, keys, r)
  {
    var cut := |sorted| - |r|;
    assert |Live(d).Keys| == |Live(d)|;
    forall i | 0 <= i < |r| ensures keys[i] in d && d[keys[i]] == Json(r[i]) {
      assert KeyedRecord(keys[i], r[i]) in sorted;
    }
    forall i, j | 0 <= i < j < |r| ensures keys[i] != keys[j] && r[i].timestamp >= r[j].timestamp {
      DistinctAt(sorted, |sorted| - 1 - j, |sorted| - 1 - i);
    }
    forall k, i | k in Live(d) && k !in keys && 0 <= i < |r| ensures d[k].rec.timestamp <= r[i].timestamp {
      var e :| e in sorted && e.key == k;
      var at :| 0 <= at < |sorted| && sorted[at] == e;
      assert forall j :: cut <= j < |sorted| ==> keys[|sorted| - 1 - j] == sorted[j].key;
      assert at < cut;
    }
  }

  lemma DistinctAt(s: seq<KeyedRecord>, i: nat, j: nat)
    requires i < j < |s| && |KeySet(s)| == |s|
    ensures s[i].key != s[j].key
  {
    DistinctSplit(s, j);
    var a, b := KeySet(s[..j]), KeySet(s[j..]);
    assert s[..j][i] in s[..j] && s[j..][0] in s[j..];
    assert s[i].key in a && s[j].key in b;
    assert s[i].key !in a * b;
  }
}
