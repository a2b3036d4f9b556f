/** The hour-of-week seasonal baseline: a count-weighted moving average per slot. */
module Seasonal {
  import opened Common

  const SLOTS: nat := 168

  /** What a slot has been fed: preloaded data worth `weight` samples, then observations. */
  datatype Track = Track(weight: nat, base: real, values: seq<real>)

  function Count(t: Track): nat {
    t.weight + |t.values|
  }

  function MinReal(a: real, b: real): real {
    if a <= b then a else b
  }

  /** One update with the count already incremented. */
  function Blend(prior: real, value: real, count: nat): real
    requires count >= 1
  {
    var alpha := 1.0 / MinReal(count as real, 100.0);
    prior * (1.0 - alpha) + value * alpha
  }

  function Ema(t: Track): real
    decreases |t.values|
  {
    if t.values == [] then t.base
    else Blend(Ema(t.(values := t.values[..|t.values| - 1])), t.values[|t.values| - 1], Count(t))
  }

  function Sum(s: seq<real>): real {
    if s == [] then 0.0 else Sum(s[..|s| - 1]) + s[|s| - 1]
  }

  function Confidence(count: nat): real {
    MinReal(count as real / 20.0, 1.0)
  }

  /** Sunday is day 0. */
  function TimeToSlot(weekday: int, hour: int): (slot: int)
    requires 0 <= weekday < 7 && 0 <= hour < 24
    ensures 0 <= slot < SLOTS
  {
    weekday * 24 + hour
  }

  /** Different hours of the week never share a slot. */
  lemma SlotsDistinct(d1: int, h1: int, d2: int, h2: int)
    requires 0 <= d1 < 7 && 0 <= h1 < 24 && 0 <= d2 < 7 && 0 <= h2 < 24
    ensures TimeToSlot(d1, h1) == TimeToSlot(d2, h2) <==> d1 == d2 && h1 == h2
  {
  }

  /** One metric's arrays hold the averages and counts of its tracks. */
  ghost predicate Agree(bl: seq<real>, cn: seq<nat>, tr: seq<Track>) {
    && |bl| == |cn| == |tr| == SLOTS
    && forall s :: 0 <= s < SLOTS ==> bl[s] == Ema(tr[s]) && cn[s] == Count(tr[s])
  }

  /** Feeding one value to one slot. */
  function Feed(tr: seq<Track>, slot: nat, value: real): seq<Track>
    requires slot < |tr|
  {
    tr[slot := tr[slot].(values := tr[slot].values + [value])]
  }

  lemma FeedAgrees(bl: seq<real>, cn: seq<nat>, tr: seq<Track>, slot: nat, value: real)
    requires Agree(bl, cn, tr) && slot < SLOTS
    ensures Agree(bl[slot := Blend(bl[slot], value, cn[slot] + 1)], cn[slot := cn[slot] + 1], Feed(tr, slot, value))
  {
    hide Ema, Blend, Count;
    FedTrack(tr[slot], value);
  }

  lemma FedTrack(t: Track, value: real)
    ensures var fed := t.(values := t.values + [value]);
            Ema(fed) == Blend(Ema(t), value, Count(t) + 1) && Count(fed) == Count(t) + 1
  {
    hide Ema, Blend;
    var fed := t.(values := t.values + [value]);
    LastFed(fed);
    assert fed.values[..|fed.values| - 1] == t.values;
  }

  lemma LastFed(t: Track)
    requires t.values != []
    ensures Ema(t) == Blend(Ema(t.(values := t.values[..|t.values| - 1])), t.values[|t.values| - 1], Count(t))
  {
    hide Blend;
  }

  /** The zero value of Go's arrays: a metric never seen. */
  function ZeroBaselines(): seq<real> { seq(SLOTS, _ => 0.0) }

  function ZeroCounts(): seq<nat> { seq(SLOTS, _ => 0) }

  function NoTracks(): seq<Track> { seq(SLOTS, _ => Track(0, 0.0, [])) }

  lemma ZerosAgree()
    ensures Agree(ZeroBaselines(), ZeroCounts(), NoTracks())
  {
  }

  class SeasonalPredictor {
    var baselines: map<string, seq<real>>
    var counts: map<string, seq<nat>>
    ghost var tracks: map<string, seq<Track>>

    ghost predicate Valid()
      reads this
    {
      && baselines.Keys == counts.Keys == tracks.Keys
      && (forall m :: m in tracks ==> Agree(baselines[m], counts[m], tracks[m]))
    }

    /** A metric never seen has empty slots. */
    ghost function TracksOf(metric: string): (r: seq<Track>)
      requires Valid()
      reads this
      ensures |r| == SLOTS
    {
      if metric in tracks then tracks[metric] else NoTracks()
    }

    constructor ()
      ensures Valid() && tracks == map[]
    {
      baselines, counts, tracks := map[], map[], map[];
    }

    /** The observation goes to its own slot of its own metric and nowhere else. */
    method UpdateBaseline(metric: string, value: real, slot: nat)
      requires Valid() && slot < SLOTS
      modifies this
      ensures Valid()
      ensures var t := old(TracksOf(metric));
              tracks == old(tracks)[metric := Feed(t, slot, value)]
    {
      ghost var t := TracksOf(metric);
      var bl := if metric in baselines then baselines[metric] else ZeroBaselines();
      var cn := if metric in counts then counts[metric] else ZeroCounts();
      ZerosAgree();
      FeedAgrees(bl, cn, t, slot, value);
      bl, cn := UpdateSlot(bl, cn, slot, value);
      Put(metric, bl, cn, Feed(t, slot, value));
    }

    /** Writes one metric's two arrays back. */
    method Put(metric: string, bl: seq<real>, cn: seq<nat>, ghost tr: seq<Track>)
      requires Valid() && Agree(bl, cn, tr)
      modifies this
      ensures Valid() && tracks == old(tracks)[metric := tr]
    {
      hide Agree;
      baselines := baselines[metric := bl];
      counts := counts[metric := cn];
      tracks := tracks[metric := tr];
    }

    /** The arithmetic of one update, on copies of the two arrays. */
    static method UpdateSlot(bl0: seq<real>, cn0: seq<nat>, slot: nat, value: real)
      returns (bl: seq<real>, cn: seq<nat>)
      requires slot < |bl0| == |cn0|
      ensures bl == bl0[slot := Blend(bl0[slot], value, cn0[slot] + 1)] && cn == cn0[slot := cn0[slot] + 1]
    {
      cn := cn0[slot := cn0[slot] + 1];
      var alpha := 1.0 / MinReal(cn[slot] as real, 100.0);
      assert alpha == 1.0 / MinReal((cn0[slot] + 1) as real, 100.0);
      bl := bl0[slot := bl0[slot] * (1.0 - alpha) + value * alpha];
      assert bl[slot] == Blend(bl0[slot], value, cn0[slot] + 1);
    }

    /** The slot's average and a confidence; zeros for a metric never seen. */
    method Predict(metric: string, futureSlot: nat) returns (predicted: real, confidence: real)
      requires Valid() && futureSlot < SLOTS
      ensures predicted == Ema(TracksOf(metric)[futureSlot])
      ensures confidence == Confidence(Count(TracksOf(metric)[futureSlot]))
    {
      if metric !in baselines {
        return 0.0, 0.0;
      }
      predicted := baselines[metric][futureSlot];
      confidence := MinReal(counts[metric][futureSlot] as real / 20.0, 1.0);
    }

    /** Preloaded data replaces everything known; a positive value is worth 20 samples. */
    method SetBaselines(metric: string, preset: seq<real>)
      requires Valid() && |preset| == SLOTS
      modifies this
      ensures Valid()
      ensures tracks == old(tracks)[metric := Preloaded(preset)]
    {
      var cn: seq<nat> := [];
      for i := 0 to SLOTS
        invariant |cn| == i
        invariant forall s :: 0 <= s < i ==> cn[s] == PresetWeight(preset[s])
      {
        cn := cn + [if preset[i] > 0.0 then 20 else 0];
      }
      Put(metric, preset, cn, Preloaded(preset));
    }
  }

  /** A preloaded value stands for twenty samples if it is positive and for none otherwise. */
  function PresetWeight(b: real): nat {
    if b > 0.0 then 20 else 0
  }

  function Preloaded(preset: seq<real>): seq<Track> {
    seq(|preset|, s requires 0 <= s < |preset| => Track(PresetWeight(preset[s]), preset[s], []))
  }

  // ----- what the average is -----

  lemma BlendWeighted(prior: real, value: real, count: nat)
    requires 1 <= count <= 100
    ensures Blend(prior, value, count) * count as real == prior * (count - 1) as real + value
  {
    var c := count as real;
    var alpha := 1.0 / c;
    assert alpha * c == 1.0;
    assert (prior * (1.0 - alpha) + value * alpha) * c == prior * (c - alpha * c) + value * (alpha * c);
  }

  lemma EmaStep(t: Track)
    requires t.values != [] && Count(t) <= 100
    ensures Ema(t) * Count(t) as real
            == Ema(t.(values := t.values[..|t.values| - 1])) * (Count(t) - 1) as real + t.values[|t.values| - 1]
  {
    BlendWeighted(Ema(t.(values := t.values[..|t.values| - 1])), t.values[|t.values| - 1], Count(t));
  }

  lemma {:induction false} EmaTotal(t: Track)
    requires Count(t) <= 100
    ensures Ema(t) * Count(t) as real == t.weight as real * t.base + Sum(t.values)
    decreases |t.values|
  {
    hide Blend;
    if t.values != [] {
      EmaTotal(t.(values := t.values[..|t.values| - 1]));
      EmaStep(t);
    }
  }

  /** Up to a hundred samples the baseline is exactly the weighted mean of everything fed:
      the plain mean from an empty slot, (20b + sum) / (20 + k) after preloading b. */
  lemma EmaIsMean(t: Track)
    requires 1 <= Count(t) <= 100
    ensures Ema(t) == (t.weight as real * t.base + Sum(t.values)) / Count(t) as real
  {
    hide *;
    EmaTotal(t);
    DivideBack(Ema(t), Count(t) as real, t.weight as real * t.base + Sum(t.values));
  }

  lemma DivideBack(e: real, c: real, x: real)
    requires c > 0.0 && e * c == x
    ensures e == x / c
  {
    assert x / c * c == x;
    assert (e - x / c) * c == 0.0;
  }

  lemma Convex(lo: real, x: real, y: real, hi: real, alpha: real)
    requires 0.0 <= alpha <= 1.0 && lo <= x <= hi && lo <= y <= hi
    ensures lo <= x * (1.0 - alpha) + y * alpha <= hi
  {
    ProductSign(x - lo, 1.0 - alpha);
    ProductSign(y - lo, alpha);
    ProductSign(hi - x, 1.0 - alpha);
    ProductSign(hi - y, alpha);
    assert x * (1.0 - alpha) + y * alpha - lo == (x - lo) * (1.0 - alpha) + (y - lo) * alpha;
    assert hi - (x * (1.0 - alpha) + y * alpha) == (hi - x) * (1.0 - alpha) + (hi - y) * alpha;
  }

  lemma ProductSign(a: real, b: real)
    requires a >= 0.0 && b >= 0.0
    ensures a * b >= 0.0
  {
  }

  lemma Reciprocal(d: real)
    requires d >= 1.0
    ensures 0.0 <= 1.0 / d <= 1.0
  {
  }

  lemma BlendBetween(prior: real, value: real, count: nat, lo: real, hi: real)
    requires count >= 1 && lo <= value <= hi && (count > 1 ==> lo <= prior <= hi)
    ensures lo <= Blend(prior, value, count) <= hi
  {
    Reciprocal(MinReal(count as real, 100.0));
    if count > 1 {
      Convex(lo, prior, value, hi, 1.0 / MinReal(count as real, 100.0));
    } else {
      assert Blend(prior, value, count) == value;
    }
  }

  /** However many samples, the baseline stays within what was fed. */
  lemma {:induction false} EmaWithinRange(t: Track, lo: real, hi: real)
    requires Count(t) >= 1
    requires t.weight > 0 ==> lo <= t.base <= hi
    requires forall k :: 0 <= k < |t.values| ==> lo <= t.values[k] <= hi
    ensures lo <= Ema(t) <= hi
    decreases |t.values|
  {
    if t.values != [] {
      var front := t.(values := t.values[..|t.values| - 1]);
      if Count(front) >= 1 {
        EmaWithinRange(front, lo, hi);
      }
      BlendBetween(Ema(front), t.values[|t.values| - 1], Count(t), lo, hi);
    }
  }

  function Pow99(n: nat): real {
    if n == 0 then 1.0 else 0.99 * Pow99(n - 1)
  }

  /** From a hundred samples on, old data fades by exactly one per cent a sample: two slots
      fed the same values differ by their old difference times 0.99 to the number of values. */
  lemma {:induction false} OldDataFades(a: Track, b: Track, values: seq<real>)
    requires Count(a) >= 99 && Count(b) >= 99
    ensures Ema(a.(values := a.values + values)) - Ema(b.(values := b.values + values))
            == Pow99(|values|) * (Ema(a) - Ema(b))
  {
    hide *;
    PowSteps(|values|);
    if values == [] {
      assert a.values + values == a.values && b.values + values == b.values;
    } else {
      var front := values[..|values| - 1];
      OldDataFades(a, b, front);
      EmaTail(a, values);
      EmaTail(b, values);
      FadeStep(Ema(a.(values := a.values + front)), Ema(b.(values := b.values + front)), values[|values| - 1],
               Pow99(|front|), Ema(a) - Ema(b));
    }
  }

  lemma PowSteps(n: nat)
    ensures Pow99(0) == 1.0
    ensures n > 0 ==> Pow99(n) == 0.99 * Pow99(n - 1)
  {
  }

  lemma FadeStep(x: real, y: real, value: real, p: real, d: real)
    requires x - y == p * d
    ensures (0.99 * x + 0.01 * value) - (0.99 * y + 0.01 * value) == 0.99 * p * d
  {
  }

  lemma EmaTail(t: Track, values: seq<real>)
    requires Count(t) >= 99 && values != []
    ensures Ema(t.(values := t.values + values))
            == 0.99 * Ema(t.(values := t.values + values[..|values| - 1])) + 0.01 * values[|values| - 1]
  {
    var fed := t.(values := t.values + values);
    assert fed.values[..|fed.values| - 1] == t.values + values[..|values| - 1];
  }

  /** Confidence is a proportion, and an update never lowers it. */
  lemma ConfidenceNeverDrops(t: Track, value: real)
    ensures 0.0 <= Confidence(Count(t)) <= Confidence(Count(t.(values := t.values + [value]))) <= 1.0
    ensures Confidence(Count(t)) == 1.0 <==> Count(t) >= 20
  {
    var c := Count(t) as real;
    assert c / 20.0 * 20.0 == c && (c + 1.0) / 20.0 * 20.0 == c + 1.0;
  }

  /** Below twenty samples confidence is a twentieth a sample, exactly; from there on it is 1. */
  lemma ConfidenceExactly(t: Track)
    ensures Confidence(Count(t)) * 20.0 == if Count(t) <= 20 then Count(t) as real else 20.0
  {
    var c := Count(t) as real;
    assert c / 20.0 * 20.0 == c;
  }

  /** Slots run through the week hour by hour, from Sunday midnight. */
  lemma {:induction false} SlotsInOrder(weekday: int, hour: int)
    requires 0 <= weekday < 7 && 0 <= hour < 24
    ensures TimeToSlot(weekday, hour) == HoursSince(weekday, hour)
    decreases weekday, hour
  {
    if hour > 0 {
      SlotsInOrder(weekday, hour - 1);
    } else if weekday > 0 {
      SlotsInOrder(weekday - 1, 23);
    }
  }

  /** The whole hours from Sunday midnight to this hour of this day. */
  function HoursSince(weekday: int, hour: int): int
    requires 0 <= weekday < 7 && 0 <= hour < 24
    decreases weekday, hour
  {
    if hour > 0 then HoursSince(weekday, hour - 1) + 1
    else if weekday > 0 then HoursSince(weekday - 1, 23) + 1
    else 0
  }

  /** After preloading b > 0, the average of up to eighty updates times 20 + k is 20b plus their
      sum; after any other preset the first update replaces it and the plain mean follows. */
  lemma PreloadedMean(preset: seq<real>, slot: nat, values: seq<real>)
    requires slot < |preset| && 1 <= |values| <= (if preset[slot] > 0.0 then 80 else 100)
    ensures var average := Ema(Preloaded(preset)[slot].(values := values));
            if preset[slot] > 0.0 then average * (20 + |values|) as real == 20.0 * preset[slot] + Sum(values)
            else average * |values| as real == Sum(values)
  {
    hide Ema, Sum;
    EmaTotal(Preloaded(preset)[slot].(values := values));
  }
}
