/** The interpolating percentile of the historical usage collector. */
module Percentile {
  import opened Common

  predicate Sorted(s: seq<real>) {
    forall i, j :: 0 <= i < j < |s| ==> s[i] <= s[j]
  }

  /** x placed into a sequence, before the first larger item. */
  function Insert(s: seq<real>, x: real): (r: seq<real>)
    ensures multiset(r) == multiset(s) + multiset{x}
  {
    if s == [] then [x]
    else if x <= s[0] then [x] + s
    else
      assert s == [s[0]] + s[1..];
      [s[0]] + Insert(s[1..], x)
  }

  lemma {:induction false} InsertSorted(s: seq<real>, x: real)
    requires Sorted(s)
    ensures Sorted(Insert(s, x))
    ensures Insert(s, x)[0] == if s == [] || x <= s[0] then x else s[0]
  {
    if s != [] && x > s[0] {
      InsertSorted(s[1..], x);
      PrependSorted(s[0], Insert(s[1..], x));
    } else if s != [] {
      PrependSorted(x, s);
    }
  }

  lemma PrependSorted(x: real, s: seq<real>)
    requires Sorted(s) && (s != [] ==> x <= s[0])
    ensures Sorted([x] + s)
  {
  }

  function Sort(s: seq<real>): (r: seq<real>)
    ensures multiset(r) == multiset(s)
  {
    if s == [] then []
    else
      assert s == s[..|s| - 1] + [s[|s| - 1]];
      Insert(Sort(s[..|s| - 1]), s[|s| - 1])
  }

  lemma {:induction false} SortSorts(s: seq<real>)
    ensures Sorted(Sort(s)) && |Sort(s)| == |s|
  {
    if s != [] {
      SortSorts(s[..|s| - 1]);
      InsertSorted(Sort(s[..|s| - 1]), s[|s| - 1]);
    }
    assert |Sort(s)| == |multiset(Sort(s))| == |multiset(s)| == |s|;
  }

  /** The library sort: the array ends up sorted, with the same contents. */
  method SortFloats(a: array<real>)
    modifies a
    ensures a[..] == Sort(old(a[..]))
  {
    hide *;
    var s := Sort(a[..]);
    SortSorts(a[..]);
    forall k | 0 <= k < a.Length {
      a[k] := s[k];
    }
    assert a[..] == s;
  }

  function Ceil(x: real): int {
    -((-x).Floor)
  }

  /** The value at a fractional index of a sorted sequence. */
  function Interpolate(s: seq<real>, idx: real): real
    requires s != [] && 0.0 <= idx <= (|s| - 1) as real
  {
    var lower, upper := idx.Floor, Ceil(idx);
    if lower == upper || upper >= |s| then s[lower]
    else
      var frac := idx - lower as real;
      s[lower] * (1.0 - frac) + s[upper] * frac
  }

  /** The fractional index of the p-th percentile when the last index is `last`. */
  function Rank(last: real, p: real): real {
    p * last
  }

  lemma ScaleUp(factor: real, x: real, y: real)
    requires factor >= 0.0 && x <= y
    ensures x * factor <= y * factor
  {
  }

  lemma RankInRange(last: real, p: real)
    requires last >= 0.0 && 0.0 <= p <= 1.0
    ensures 0.0 <= Rank(last, p) <= last
  {
    ScaleUp(last, 0.0, p);
    ScaleUp(last, p, 1.0);
  }

  lemma RankMonotone(last: real, p: real, q: real)
    requires last >= 0.0 && p <= q
    ensures Rank(last, p) <= Rank(last, q)
  {
    ScaleUp(last, p, q);
  }

  function PercentileOf(s: seq<real>, p: real): real
    requires 0.0 <= p <= 1.0
  {
    if s == [] then 0.0 else
      SortSorts(s);
      RankInRange((|s| - 1) as real, p);
      Interpolate(Sort(s), Rank((|s| - 1) as real, p))
  }

  /** Works on a sorted copy: the caller's values are not touched, and no index leaves the copy. */
  method Percentile(values: array<real>, p: real) returns (r: real)
    requires 0.0 <= p <= 1.0
    ensures r == PercentileOf(values[..], p)
  {
    if values.Length == 0 {
      return 0.0;
    }
    var sorted := new real[values.Length];
    for k := 0 to values.Length
      invariant sorted[..k] == values[..k]
      invariant fresh(sorted)
    {
      sorted[k] := values[k];
    }
    assert sorted[..] == values[..];
    SortSorts(values[..]);
    SortFloats(sorted);
    RankInRange((sorted.Length - 1) as real, p);
    r := InterpolateSorted(sorted, p);
  }

  /** The index arithmetic on the sorted copy. */
  method InterpolateSorted(sorted: array<real>, p: real) returns (r: real)
    requires sorted.Length > 0 && 0.0 <= Rank((sorted.Length - 1) as real, p) <= (sorted.Length - 1) as real
    ensures r == Interpolate(sorted[..], Rank((sorted.Length - 1) as real, p))
  {
    var idx := p * (sorted.Length - 1) as real;
    var lower := idx.Floor;
    var upper := -((-idx).Floor);
    if lower == upper || upper >= sorted.Length {
      return sorted[lower];
    }
    var frac := idx - lower as real;
    return sorted[lower] * (1.0 - frac) + sorted[upper] * frac;
  }

  // ----- canonical sorting -----

  lemma FirstIsLeast(a: seq<real>, x: real)
    requires Sorted(a) && x in multiset(a)
    ensures a != [] && a[0] <= x
  {
    var k :| 0 <= k < |a| && a[k] == x;
  }

  lemma DropFirst(a: seq<real>)
    requires a != []
    ensures multiset(a[1..]) == multiset(a) - multiset{a[0]} && a == [a[0]] + a[1..]
    ensures Sorted(a) ==> Sorted(a[1..])
  {
    assert a == [a[0]] + a[1..];
  }

  lemma SameHead(a: seq<real>, b: seq<real>)
    requires Sorted(a) && Sorted(b) && multiset(a) == multiset(b) && a != []
    ensures b != [] && a[0] == b[0] && multiset(a[1..]) == multiset(b[1..])
  {
    assert a[0] in multiset(a);
    FirstIsLeast(b, a[0]);
    assert b[0] in multiset(b);
    FirstIsLeast(a, b[0]);
    DropFirst(a);
    DropFirst(b);
  }

  lemma {:induction false} SortedUnique(a: seq<real>, b: seq<real>)
    requires Sorted(a) && Sorted(b) && multiset(a) == multiset(b) && |a| == |b|
    ensures a == b
  {
    if a != [] {
      SameHead(a, b);
      SortedUnique(a[1..], b[1..]);
    }
  }

  /** Only the multiset of samples matters, not the order Prometheus returned them in. */
  lemma OrderIrrelevant(a: seq<real>, b: seq<real>, p: real)
    requires 0.0 <= p <= 1.0 && multiset(a) == multiset(b)
    ensures PercentileOf(a, p) == PercentileOf(b, p)
  {
    assert |a| == |multiset(a)| == |multiset(b)| == |b|;
    SortSorts(a);
    SortSorts(b);
    SortedUnique(Sort(a), Sort(b));
  }

  // ----- monotone in p, exact at the ends -----

  lemma CeilFloor(x: real)
    ensures Ceil(x) == if x == x.Floor as real then x.Floor else x.Floor + 1
  {
    var f := x.Floor;
    if x == f as real {
      assert -x == (-f) as real;
    } else {
      assert ((-f - 1) as real) < -x < (-f) as real;
    }
  }

  /** Interpolation is a straight line between the two neighbours. */
  lemma InterpolateBetween(s: seq<real>, x: real)
    requires s != [] && 0.0 <= x <= (|s| - 1) as real
    ensures 0 <= x.Floor <= |s| - 1
    ensures x.Floor + 1 == |s| ==> Interpolate(s, x) == s[x.Floor]
    ensures x.Floor + 1 < |s| ==>
              Interpolate(s, x) == s[x.Floor] + (x - x.Floor as real) * (s[x.Floor + 1] - s[x.Floor])
  {
    CeilFloor(x);
    var l := x.Floor;
    if l + 1 < |s| {
      LineForm(s[l], s[l + 1], x - l as real);
    }
  }

  lemma LineForm(a: real, b: real, f: real)
    ensures a * (1.0 - f) + b * f == a + f * (b - a)
  {
  }

  lemma NeighbourBounds(s: seq<real>, x: real)
    requires Sorted(s) && s != [] && 0.0 <= x <= (|s| - 1) as real
    ensures 0 <= x.Floor <= |s| - 1
    ensures s[x.Floor] <= Interpolate(s, x)
    ensures x.Floor + 1 < |s| ==> Interpolate(s, x) <= s[x.Floor + 1]
  {
    InterpolateBetween(s, x);
    var l := x.Floor;
    if l + 1 < |s| {
      var f, gap := x - l as real, s[l + 1] - s[l];
      LineMonotone(s[l], gap, 0.0, f, s[l], Interpolate(s, x));
      LineMonotone(s[l], gap, f, 1.0, Interpolate(s, x), s[l + 1]);
    }
  }

  /** A straight line with a non-negative slope. */
  lemma LineMonotone(start: real, gap: real, f: real, g: real, vf: real, vg: real)
    requires gap >= 0.0 && f <= g && vf == start + f * gap && vg == start + g * gap
    ensures vf <= vg
  {
    ScaleUp(gap, f, g);
  }

  /** Two indices between the same neighbours. */
  lemma SameCellMonotone(s: seq<real>, x: real, y: real)
    requires Sorted(s) && s != [] && 0.0 <= x <= y <= (|s| - 1) as real && x.Floor == y.Floor
    ensures Interpolate(s, x) <= Interpolate(s, y)
  {
    InterpolateBetween(s, x);
    InterpolateBetween(s, y);
    var l := x.Floor;
    if l + 1 < |s| {
      LineMonotone(s[l], s[l + 1] - s[l], x - l as real, y - l as real, Interpolate(s, x), Interpolate(s, y));
    } else {
      assert x == y;
    }
  }

  lemma InterpolateMonotone(s: seq<real>, x: real, y: real)
    requires Sorted(s) && s != [] && 0.0 <= x <= y <= (|s| - 1) as real
    ensures Interpolate(s, x) <= Interpolate(s, y)
  {
    if x.Floor == y.Floor {
      SameCellMonotone(s, x, y);
    } else {
      hide Interpolate;
      NeighbourBounds(s, x);
      NeighbourBounds(s, y);
      assert s[x.Floor + 1] <= s[y.Floor];
    }
  }

  /** A higher percentile is never a smaller value. */
  lemma PercentileMonotone(s: seq<real>, p: real, q: real)
    requires 0.0 <= p <= q <= 1.0
    ensures PercentileOf(s, p) <= PercentileOf(s, q)
  {
    if s != [] {
      hide Rank;
      RankInRange((|s| - 1) as real, p);
      RankInRange((|s| - 1) as real, q);
      RankMonotone((|s| - 1) as real, p, q);
      SortSorts(s);
      InterpolateMonotone(Sort(s), Rank((|s| - 1) as real, p), Rank((|s| - 1) as real, q));
    }
  }

  /** The 0th percentile is the minimum and the 100th the maximum; both are samples. */
  lemma PercentileEnds(s: seq<real>)
    requires s != []
    ensures PercentileOf(s, 0.0) in s && PercentileOf(s, 1.0) in s
    ensures forall x :: x in s ==> PercentileOf(s, 0.0) <= x <= PercentileOf(s, 1.0)
  {
    EndValues(s);
    var t := Sort(s);
    SortSorts(s);
    hide *;
    SortedEnds(s, t);
  }

  lemma EndValues(s: seq<real>)
    requires s != []
    ensures |Sort(s)| == |s| && PercentileOf(s, 0.0) == Sort(s)[0] && PercentileOf(s, 1.0) == Sort(s)[|s| - 1]
  {
    hide Sort, Sorted;
    SortSorts(s);
    CeilFloor(0.0);
    CeilFloor((|s| - 1) as real);
  }

  lemma SortedEnds(s: seq<real>, t: seq<real>)
    requires Sorted(t) && multiset(t) == multiset(s) && |t| == |s| > 0
    ensures t[0] in s && t[|t| - 1] in s
    ensures forall x :: x in s ==> t[0] <= x <= t[|t| - 1]
  {
    assert t[0] in multiset(s) && t[|t| - 1] in multiset(s);
    forall x | x in s ensures t[0] <= x <= t[|t| - 1] {
      assert x in multiset(t);
      var k :| 0 <= k < |t| && t[k] == x;
    }
  }

  /** The four figures the collector reports are in order. */
  lemma ReportedFiguresOrdered(s: seq<real>)
    ensures PercentileOf(s, 0.50) <= PercentileOf(s, 0.95) <= PercentileOf(s, 0.99) <= PercentileOf(s, 1.0)
  {
    PercentileMonotone(s, 0.50, 0.95);
    PercentileMonotone(s, 0.95, 0.99);
    PercentileMonotone(s, 0.99, 1.0);
  }

  // ----- the figures in between -----

  /** How many samples are at most v. */
  function CountAtMost(s: seq<real>, v: real): nat {
    if s == [] then 0 else CountAtMost(s[..|s| - 1], v) + (if s[|s| - 1] <= v then 1 else 0)
  }

  /** How many samples are at least v. */
  function CountAtLeast(s: seq<real>, v: real): nat {
    if s == [] then 0 else CountAtLeast(s[..|s| - 1], v) + (if s[|s| - 1] >= v then 1 else 0)
  }

  lemma {:induction false} CountConcat(a: seq<real>, b: seq<real>, v: real)
    ensures CountAtMost(a + b, v) == CountAtMost(a, v) + CountAtMost(b, v)
    ensures CountAtLeast(a + b, v) == CountAtLeast(a, v) + CountAtLeast(b, v)
    decreases |b|
  {
    if b == [] {
      assert a + b == a;
    } else {
      assert (a + b)[..|a + b| - 1] == a + b[..|b| - 1];
      CountConcat(a, b[..|b| - 1], v);
    }
  }

  lemma CountOne(x: real, v: real)
    ensures CountAtMost([x], v) == (if x <= v then 1 else 0) && CountAtLeast([x], v) == (if x >= v then 1 else 0)
  {
    assert [x][..0] == [];
  }

  lemma {:induction false} CountInsert(s: seq<real>, x: real, v: real)
    ensures CountAtMost(Insert(s, x), v) == CountAtMost(s, v) + (if x <= v then 1 else 0)
    ensures CountAtLeast(Insert(s, x), v) == CountAtLeast(s, v) + (if x >= v then 1 else 0)
  {
    hide CountAtMost, CountAtLeast;
    CountOne(x, v);
    if s == [] {
      CountConcat([], [x], v);
      CountConcat([x], [], v);
      assert [x] + [] == [x] && [] + [x] == [x];
      NoneCounted(v);
    } else if x <= s[0] {
      CountConcat([x], s, v);
    } else {
      CountInsert(s[1..], x, v);
      CountConcat([s[0]], Insert(s[1..], x), v);
      CountConcat([s[0]], s[1..], v);
      assert [s[0]] + s[1..] == s;
    }
  }

  lemma NoneCounted(v: real)
    ensures CountAtMost([], v) == 0 && CountAtLeast([], v) == 0
  {
  }

  /** Sorting changes no count. */
  lemma {:induction false} CountSort(s: seq<real>, v: real)
    ensures CountAtMost(Sort(s), v) == CountAtMost(s, v) && CountAtLeast(Sort(s), v) == CountAtLeast(s, v)
  {
    if s != [] {
      CountSort(s[..|s| - 1], v);
      CountInsert(Sort(s[..|s| - 1]), s[|s| - 1], v);
    }
  }

  lemma {:induction false} CountAll(s: seq<real>, v: real)
    ensures (forall i :: 0 <= i < |s| ==> s[i] <= v) ==> CountAtMost(s, v) == |s|
    ensures (forall i :: 0 <= i < |s| ==> s[i] >= v) ==> CountAtLeast(s, v) == |s|
  {
    if s != [] {
      CountAll(s[..|s| - 1], v);
    }
  }

  lemma SortedCounts(t: seq<real>, k: nat)
    requires Sorted(t) && k < |t|
    ensures CountAtMost(t, t[k]) >= k + 1 && CountAtLeast(t, t[k]) >= |t| - k
  {
    hide CountAtMost, CountAtLeast;
    assert t == t[..k + 1] + t[k + 1..] && t == t[..k] + t[k..];
    CountConcat(t[..k + 1], t[k + 1..], t[k]);
    CountConcat(t[..k], t[k..], t[k]);
    CountAll(t[..k + 1], t[k]);
    CountAll(t[k..], t[k]);
  }

  lemma ProductSide(last: real, p: real)
    requires last > 0.0
    ensures p > 1.0 <==> p * last > last
    ensures p < 0.0 <==> p * last < 0.0
  {
    if p > 1.0 {
      assert (p - 1.0) * last > 0.0;
    } else {
      ScaleUp(last, p, 1.0);
    }
    if p < 0.0 {
      assert (0.0 - p) * last > 0.0;
    } else {
      ScaleUp(last, 0.0, p);
    }
  }

  /** The p for which the fractional index is k plus x. */
  function Share(n: nat, k: nat, x: real): (p: real)
    requires n >= 2 && 0.0 <= x <= 1.0 && k as real + x <= (n - 1) as real
    ensures 0.0 <= p <= 1.0 && p * (n - 1) as real == k as real + x
  {
    var last := (n - 1) as real;
    ProductSide(last, (k as real + x) / last);
    (k as real + x) / last
  }

  lemma PercentileAt(s: seq<real>, p: real, idx: real)
    requires |s| >= 2 && 0.0 <= p <= 1.0 && p * (|s| - 1) as real == idx && 0.0 <= idx <= (|s| - 1) as real
    ensures |Sort(s)| == |s| && PercentileOf(s, p) == Interpolate(Sort(s), idx)
  {
    SortSorts(s);
    hide Sort, Sorted, Interpolate;
  }

  /** At the share k / (n - 1) the percentile is the k-th smallest sample: it is a sample, at least
      k + 1 samples are at most it and at least n - k are at least it. */
  lemma PercentileIsOrderStatistic(s: seq<real>, k: nat)
    requires |s| >= 2 && k < |s|
    ensures var v := PercentileOf(s, Share(|s|, k, 0.0));
            v in s && CountAtMost(s, v) >= k + 1 && CountAtLeast(s, v) >= |s| - k
  {
    var t := Sort(s);
    SortSorts(s);
    AtIndex(s, k);
    assert t[k] in multiset(t);
    SortedCounts(t, k);
    CountSort(s, t[k]);
  }

  lemma AtIndex(s: seq<real>, k: nat)
    requires |s| >= 2 && k < |s|
    ensures |Sort(s)| == |s| && PercentileOf(s, Share(|s|, k, 0.0)) == Sort(s)[k]
  {
    PercentileAt(s, Share(|s|, k, 0.0), k as real);
    WholeIndex(Sort(s), k);
    hide Sort, PercentileOf, Interpolate;
  }

  lemma WholeIndex(t: seq<real>, k: nat)
    requires k < |t|
    ensures Interpolate(t, k as real) == t[k]
  {
    CeilFloor(k as real);
  }

  lemma BetweenIndices(t: seq<real>, k: nat, x: real)
    requires k + 1 < |t| && 0.0 <= x <= 1.0
    ensures Interpolate(t, k as real + x) == t[k] * (1.0 - x) + t[k + 1] * x
  {
    CeilFloor(k as real + x);
  }

  /** Between neighbouring samples the percentile is the straight line in p. */
  lemma PercentileIsLinear(s: seq<real>, k: nat, x: real)
    requires |s| >= 2 && k < |s| - 1 && 0.0 <= x <= 1.0
    ensures PercentileOf(s, Share(|s|, k, x))
            == PercentileOf(s, Share(|s|, k, 0.0)) * (1.0 - x) + PercentileOf(s, Share(|s|, k + 1, 0.0)) * x
  {
    hide Sort, PercentileOf, Interpolate, Share;
    AtIndex(s, k);
    AtIndex(s, k + 1);
    PercentileAt(s, Share(|s|, k, x), k as real + x);
    BetweenIndices(Sort(s), k, x);
  }

  /** P50 is the median: the middle sample, or halfway between the two in the middle. */
  lemma MedianIsP50(s: seq<real>)
    requires |s| >= 2
    ensures var m := |s| / 2;
            PercentileOf(s, 0.5)
            == if |s| % 2 == 1 then PercentileOf(s, Share(|s|, m, 0.0))
               else (PercentileOf(s, Share(|s|, m - 1, 0.0)) + PercentileOf(s, Share(|s|, m, 0.0))) / 2.0
  {
    hide Sort, PercentileOf, Share;
    var m := |s| / 2;
    HalfOf(|s|);
    if |s| % 2 == 1 {
      HalfShare(|s|, m, 0.0);
    } else {
      PercentileIsLinear(s, m - 1, 0.5);
      HalfShare(|s|, m - 1, 0.5);
      Halve(PercentileOf(s, Share(|s|, m - 1, 0.0)), PercentileOf(s, Share(|s|, m, 0.0)));
    }
  }

  lemma HalfOf(n: nat)
    requires n >= 2
    ensures n % 2 == 1 ==> n / 2 < n && (n - 1) as real == 2.0 * ((n / 2) as real + 0.0)
    ensures n % 2 == 0 ==> n / 2 - 1 < n - 1 && (n - 1) as real == 2.0 * ((n / 2 - 1) as real + 0.5)
  {
    var m := n / 2;
    if n % 2 == 1 {
      assert n - 1 == 2 * m;
    } else {
      assert n - 1 == 2 * (m - 1) + 1;
    }
  }

  lemma HalfShare(n: nat, k: nat, x: real)
    requires n >= 2 && 0.0 <= x <= 1.0 && (n - 1) as real == 2.0 * (k as real + x)
    ensures k as real + x <= (n - 1) as real && Share(n, k, x) == 0.5
  {
    var p := Share(n, k, x);
    hide Share;
    HalfQuotient((n - 1) as real, p, k as real + x);
  }

  lemma HalfQuotient(last: real, p: real, y: real)
    requires last > 0.0 && p * last == y && last == 2.0 * y
    ensures p == 0.5
  {
    var d := p - 0.5;
    assert d * last == p * last - 0.5 * last == 0.0;
    ProductSide(last, d);
    ProductSide(last, -d);
    assert (-d) * last == -(d * last);
  }

  lemma Halve(x: real, y: real)
    ensures x * (1.0 - 0.5) + y * 0.5 == (x + y) / 2.0
  {
  }
}
