/** The oscillation detector: a bounded buffer of scaling events and a zig-zag test. */
module Oscillation {
  import opened Common

  datatype ScalingEvent = ScalingEvent(timestamp: Time, direction: string, from: int, to: int)

  /** The events strictly after the cutoff, in order. */
  function After(events: seq<ScalingEvent>, cutoff: Time): seq<ScalingEvent> {
    if events == [] then []
    else
      After(events[..|events| - 1], cutoff)
      + (if events[|events| - 1].timestamp > cutoff then [events[|events| - 1]] else [])
  }

  /** Neighbouring events with different directions. */
  function Changes(s: seq<ScalingEvent>): nat {
    if |s| <= 1 then 0
    else Changes(s[..|s| - 1]) + (if s[|s| - 1].direction != s[|s| - 2].direction then 1 else 0)
  }

  /** Events i and j, in this order, go different ways. */
  ghost predicate Turn(s: seq<ScalingEvent>, i: int, j: int) {
    0 <= i < j < |s| && s[i].direction != s[j].direction
  }

  ghost predicate HasTurn(s: seq<ScalingEvent>) {
    exists i, j :: Turn(s, i, j)
  }

  /** Three events, in order, that turn and turn back. */
  ghost predicate ZigZag(s: seq<ScalingEvent>) {
    exists i, j, k :: Turn(s, i, j) && Turn(s, j, k)
  }

  lemma {:induction false} ChangesMeaning(s: seq<ScalingEvent>)
    ensures Changes(s) >= 1 <==> HasTurn(s)
    ensures Changes(s) >= 2 <==> ZigZag(s)
  {
    if |s| > 1 {
      ChangesMeaning(s[..|s| - 1]);
      if s[|s| - 1].direction == s[|s| - 2].direction {
        RepeatAddsNothing(s);
      } else {
        assert Turn(s, |s| - 2, |s| - 1);
        ChangeClosesTurn(s);
      }
    }
  }

  /** Fewer than three events cannot zig-zag, so the early return is redundant. */
  lemma ZigZagNeedsThree(s: seq<ScalingEvent>)
    requires ZigZag(s)
    ensures |s| >= 3
  {
    var i, j, k :| Turn(s, i, j) && Turn(s, j, k);
  }

  lemma Extend(s: seq<ScalingEvent>, i: int, j: int)
    requires |s| > 1 && Turn(s[..|s| - 1], i, j)
    ensures Turn(s, i, j)
  {
  }

  /** A last event like the one before it adds no turn and no zig-zag. */
  lemma RepeatAddsNothing(s: seq<ScalingEvent>)
    requires |s| > 1 && s[|s| - 1].direction == s[|s| - 2].direction
    ensures HasTurn(s) <==> HasTurn(s[..|s| - 1])
    ensures ZigZag(s) <==> ZigZag(s[..|s| - 1])
  {
    var n := |s| - 1;
    var front := s[..n];
    if HasTurn(front) {
      var i, j :| Turn(front, i, j);
      Extend(s, i, j);
    }
    if HasTurn(s) {
      var i, j :| Turn(s, i, j);
      assert Turn(front, i, Min(j, n - 1));
    }
    if ZigZag(front) {
      var i, j, k :| Turn(front, i, j) && Turn(front, j, k);
      Extend(s, i, j);
      Extend(s, j, k);
    }
    if ZigZag(s) {
      var i, j, k :| Turn(s, i, j) && Turn(s, j, k);
      assert Turn(front, i, j) && Turn(front, j, Min(k, n - 1));
    }
  }

  /** A last event unlike the one before it makes a zig-zag out of any earlier turn. */
  lemma ChangeClosesTurn(s: seq<ScalingEvent>)
    requires |s| > 1 && s[|s| - 1].direction != s[|s| - 2].direction
    ensures ZigZag(s) <==> HasTurn(s[..|s| - 1])
  {
    var n := |s| - 1;
    var front := s[..n];
    if HasTurn(front) {
      var i, j :| Turn(front, i, j);
      var before := if s[i].direction != s[n - 1].direction then i else j;
      assert Turn(s, before, n - 1) && Turn(s, n - 1, n);
    }
    if ZigZag(s) {
      var i, j, k :| Turn(s, i, j) && Turn(s, j, k);
      assert Turn(front, i, j);
    }
  }

  // ----- what the window keeps -----

  /** `at` lists, in order, the places of the first n events that are later than the cutoff. */
  ghost predicate Picks(events: seq<ScalingEvent>, cutoff: Time, at: seq<nat>, n: nat) {
    && (forall k :: 0 <= k < |at| ==> Late(events, cutoff, at[k]) && at[k] < n)
    && (forall j, k :: 0 <= j < k < |at| ==> at[j] < at[k])
    && (forall i: nat :: Late(events, cutoff, i) && i < n ==> i in at)
  }

  ghost predicate Late(events: seq<ScalingEvent>, cutoff: Time, i: nat) {
    i < |events| && events[i].timestamp > cutoff
  }

  /** After keeps exactly the events later than the cutoff, in order: `at` says where each one was. */
  lemma {:induction false} AfterIsFilter(events: seq<ScalingEvent>, cutoff: Time, n: nat) returns (at: seq<nat>)
    requires n <= |events|
    ensures Picks(events, cutoff, at, n) && |at| == |After(events[..n], cutoff)|
    ensures forall k :: 0 <= k < |at| ==> events[at[k]] == After(events[..n], cutoff)[k]
  {
    if n == 0 {
      at := [];
    } else {
      at := AfterIsFilter(events, cutoff, n - 1);
      assert events[..n][..n - 1] == events[..n - 1];
      if events[n - 1].timestamp > cutoff {
        PicksOneMore(events, cutoff, at, n);
        at := at + [n - 1];
      } else {
        assert forall i: nat :: Late(events, cutoff, i) && i < n ==> i < n - 1;
      }
    }
  }

  lemma PicksOneMore(events: seq<ScalingEvent>, cutoff: Time, at: seq<nat>, n: nat)
    requires 1 <= n <= |events| && Picks(events, cutoff, at, n - 1) && Late(events, cutoff, n - 1)
    ensures Picks(events, cutoff, at + [n - 1], n)
  {
    var longer := at + [n - 1];
    forall i: nat | Late(events, cutoff, i) && i < n ensures i in longer {
      if i < n - 1 {
        assert i in at;
      } else {
        assert longer[|at|] == i;
      }
    }
  }

  /** Three events later than the cutoff, in order, that turn and turn back. */
  ghost predicate RecentZigZag(events: seq<ScalingEvent>, cutoff: Time) {
    exists i, j, k :: RecentTurn(events, cutoff, i, j) && RecentTurn(events, cutoff, j, k)
  }

  ghost predicate RecentTurn(events: seq<ScalingEvent>, cutoff: Time, i: int, j: int) {
    Turn(events, i, j) && events[i].timestamp > cutoff && events[j].timestamp > cutoff
  }

  lemma ZigZagInWindow(events: seq<ScalingEvent>, cutoff: Time)
    ensures ZigZag(After(events, cutoff)) <==> RecentZigZag(events, cutoff)
  {
    var at := AfterIsFilter(events, cutoff, |events|);
    assert events[..|events|] == events;
    if ZigZag(After(events, cutoff)) {
      FromKept(events, cutoff, at);
    }
    if RecentZigZag(events, cutoff) {
      ToKept(events, cutoff, at);
    }
  }

  lemma FromKept(events: seq<ScalingEvent>, cutoff: Time, at: seq<nat>)
    requires Picks(events, cutoff, at, |events|) && |at| == |After(events, cutoff)|
    requires forall k :: 0 <= k < |at| ==> events[at[k]] == After(events, cutoff)[k]
    requires ZigZag(After(events, cutoff))
    ensures RecentZigZag(events, cutoff)
  {
    var s := After(events, cutoff);
    hide After;
    var i, j, k :| Turn(s, i, j) && Turn(s, j, k);
    assert Late(events, cutoff, at[i]) && Late(events, cutoff, at[j]) && Late(events, cutoff, at[k]);
    assert RecentTurn(events, cutoff, at[i], at[j]) && RecentTurn(events, cutoff, at[j], at[k]);
  }

  lemma ToKept(events: seq<ScalingEvent>, cutoff: Time, at: seq<nat>)
    requires Picks(events, cutoff, at, |events|) && |at| == |After(events, cutoff)|
    requires forall k :: 0 <= k < |at| ==> events[at[k]] == After(events, cutoff)[k]
    requires RecentZigZag(events, cutoff)
    ensures ZigZag(After(events, cutoff))
  {
    var s := After(events, cutoff);
    hide After;
    var i, j, k :| RecentTurn(events, cutoff, i, j) && RecentTurn(events, cutoff, j, k);
    assert Late(events, cutoff, i) && Late(events, cutoff, j) && Late(events, cutoff, k);
    var a := PlaceOf(at, i);
    var b := PlaceOf(at, j);
    var c := PlaceOf(at, k);
    Before(at, a, b);
    Before(at, b, c);
    assert Turn(s, a, b) && Turn(s, b, c);
  }

  lemma PlaceOf(at: seq<nat>, i: nat) returns (k: nat)
    requires i in at
    ensures k < |at| && at[k] == i
  {
    k :| 0 <= k < |at| && at[k] == i;
  }

  lemma Before(at: seq<nat>, a: nat, b: nat)
    requires a < |at| && b < |at| && at[a] < at[b] && forall j, k :: 0 <= j < k < |at| ==> at[j] < at[k]
    ensures a < b
  {
  }

  class OscillationDetector {
    const maxSize: nat
    const window: Time
    var events: seq<ScalingEvent>
    ghost var log: seq<ScalingEvent>   // every event ever recorded

    ghost predicate Valid()
      reads this
    {
      maxSize >= 1 && events == LastN(log, maxSize)
    }

    constructor (window: Time, maxSize: nat)
      requires maxSize >= 1
      ensures Valid() && log == [] && this.window == window && this.maxSize == maxSize
    {
      this.window, this.maxSize := window, maxSize;
      events, log := [], [];
    }

    method Record(event: ScalingEvent)
      requires Valid()
      modifies this
      ensures Valid() && log == old(log) + [event]
    {
      if |events| >= maxSize {
        events := events[1..];
      }
      events := events + [event];
      log := log + [event];
    }

    /** Oscillating exactly when three of the kept events that are later than the window's start
        turn and turn back; the early return on fewer than three events changes nothing. */
    method IsOscillating(now: Time) returns (b: bool)
      requires Valid()
      ensures b <==> RecentZigZag(LastN(log, maxSize), now - window)
    {
      ZigZagInWindow(events, now - window);
      var recent := RecentEvents(now);
      ChangesMeaning(recent);
      if |recent| < 3 {
        if ZigZag(recent) { ZigZagNeedsThree(recent); }
        return false;
      }
      var changes := 0;
      for n := 1 to |recent|
        invariant changes == Changes(recent[..n])
      {
        assert recent[..n + 1][..n] == recent[..n];
        if recent[n].direction != recent[n - 1].direction {
          changes := changes + 1;
        }
      }
      assert recent[..|recent|] == recent;
      return changes >= 2;
    }

    method RecentEvents(now: Time) returns (recent: seq<ScalingEvent>)
      ensures recent == After(events, now - window)
    {
      var cutoff := now - window;
      recent := [];
      for n := 0 to |events|
        invariant recent == After(events[..n], cutoff)
      {
        assert events[..n + 1][..n] == events[..n];
        if events[n].timestamp > cutoff {
          recent := recent + [events[n]];
        }
      }
      assert events[..|events|] == events;
    }
  }
}
