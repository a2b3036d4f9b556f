/** One alert evaluator serving every policy: exactly which rules keep their hold time in every
    run, when the first-seen table knows rules by name alone. */
module AlertRuns {
  import opened Common
  import opened Policy
  import opened Alerting

  /** One evaluation: the policy whose rule list it uses, what was observed for it, and when. */
  datatype Call = Call(policy: nat, bundle: Bundle, at: Time)

  type Lists = seq<seq<AlertRule>>

  /** The clock never goes back. */
  ghost predicate Run(lists: Lists, calls: seq<Call>) {
    && (forall n :: 0 <= n < |calls| ==> calls[n].policy < |lists|)
    && (forall m, n :: 0 <= m <= n < |calls| ==> calls[m].at <= calls[n].at)
  }

  /** The evaluator's history after the calls. */
  function Log(lists: Lists, calls: seq<Call>): seq<Check>
    requires forall n :: 0 <= n < |calls| ==> calls[n].policy < |lists|
  {
    if calls == [] then []
    else
      var last := calls[|calls| - 1];
      Log(lists, calls[..|calls| - 1]) + Checks(last.bundle, lists[last.policy], last.at)
  }

  /** What policy p's own evaluations were. */
  function Own(calls: seq<Call>, p: nat): seq<Evaluation> {
    if calls == [] then []
    else
      var last := calls[|calls| - 1];
      Own(calls[..|calls| - 1], p) + (if last.policy == p then [Evaluation(last.bundle, last.at)] else [])
  }

  predicate IsBreached(r: AlertRule, b: Bundle) {
    EvaluateCondition(r.condition, b).1
  }

  /** The streak that the evaluator sees at rule k's turn in the last call. */
  function StreakAt(lists: Lists, calls: seq<Call>, k: nat): Option<Time>
    requires calls != [] && forall n :: 0 <= n < |calls| ==> calls[n].policy < |lists|
    requires k < |lists[calls[|calls| - 1].policy]|
  {
    var last := calls[|calls| - 1];
    var rules := lists[last.policy];
    StreakStart(Log(lists, calls[..|calls| - 1]) + Checks(last.bundle, rules, last.at)[..k + 1], rules[k].name)
  }

  /** At its turn in the last call, the rule fires exactly if its own policy's evaluations say so. */
  ghost predicate Right(lists: Lists, calls: seq<Call>, p: nat, k: nat)
    requires p < |lists| && k < |lists[p]| && Run(lists, calls) && calls != [] && calls[|calls| - 1].policy == p
  {
    LastsFor(StreakAt(lists, calls, k), calls[|calls| - 1].at, lists[p][k].hold) <==> Fires(Own(calls, p), lists[p][k])
  }

  ghost predicate AlwaysRight(lists: Lists, p: nat, k: nat)
    requires p < |lists| && k < |lists[p]|
  {
    forall calls: seq<Call> :: Run(lists, calls) && calls != [] && calls[|calls| - 1].policy == p ==>
      Right(lists, calls, p, k)
  }

  // ----- the condition -----

  /** Some observation breaches the rule: its condition parses and has a known operator. */
  predicate CanBreach(c: Condition) {
    c.Compare? && c.operator in {">", ">=", "<", "<=", "=="}
  }

  /** The rules of a list that share a name with its rule k. */
  predicate SameName(rules: seq<AlertRule>, k: nat, j: int)
    requires k < |rules|
  {
    0 <= j < |rules| && rules[j].name == rules[k].name
  }

  /** No other policy uses the name. */
  ghost predicate OnlyHere(lists: Lists, p: nat, k: nat)
    requires p < |lists| && k < |lists[p]|
  {
    forall q, j :: 0 <= q < |lists| && q != p && 0 <= j < |lists[q]| ==> lists[q][j].name != lists[p][k].name
  }

  /** Within the policy, whatever breaches the rule breaches every rule of its name. */
  ghost predicate Implied(rules: seq<AlertRule>, k: nat)
    requires k < |rules|
  {
    forall b, j :: IsBreached(rules[k], b) && SameName(rules, k, j) ==> IsBreached(rules[j], b)
  }

  /** None of the rules from m to n has the name. */
  ghost predicate NoneNamed(rules: seq<AlertRule>, name: string, m: nat, n: nat) {
    forall j :: m <= j < n && j < |rules| ==> rules[j].name != name
  }

  /** The last rule of the same name. */
  function LastOf(rules: seq<AlertRule>, k: nat): (l: nat)
    requires k < |rules|
    ensures k <= l && SameName(rules, k, l) && NoneNamed(rules, rules[k].name, l + 1, |rules|)
  {
    LastFrom(rules, k, |rules| - 1)
  }

  function LastFrom(rules: seq<AlertRule>, k: nat, n: nat): (l: nat)
    requires k <= n < |rules| && NoneNamed(rules, rules[k].name, n + 1, |rules|)
    ensures k <= l <= n && SameName(rules, k, l) && NoneNamed(rules, rules[k].name, l + 1, |rules|)
  {
    if SameName(rules, k, n) then n else LastFrom(rules, k, n - 1)
  }

  /** The last rule of the name is breached only when rule k is. */
  ghost predicate LastAgrees(rules: seq<AlertRule>, k: nat)
    requires k < |rules|
  {
    forall b :: IsBreached(rules[LastOf(rules, k)], b) ==> IsBreached(rules[k], b)
  }

  // ----- one list's checks -----

  /** One more rule's turn. */
  lemma Turn(h: seq<Check>, b: Bundle, rules: seq<AlertRule>, at: Time, name: string, n: nat)
    requires 1 <= n <= |rules|
    ensures var before := StreakStart(h + Checks(b, rules, at)[..n - 1], name);
            StreakStart(h + Checks(b, rules, at)[..n], name)
            == if rules[n - 1].name != name then before
               else if !IsBreached(rules[n - 1], b) then None
               else if before.Some? then before else Some(at)
  {
    hide StreakStart, EvaluateCondition;
    var all := Checks(b, rules, at);
    StreakStep(h + all[..n - 1], all[n - 1], name);
    assert h + all[..n] == h + all[..n - 1] + [all[n - 1]];
  }

  lemma NoTurn(h: seq<Check>, all: seq<Check>)
    ensures h + all[..0] == h && h + all[..|all|] == h + all
  {
    assert all[..|all|] == all;
  }

  /** Up to here every check of the name was breached: the streak goes on, or begins now. */
  lemma {:induction false} StreakGoesOn(h: seq<Check>, b: Bundle, rules: seq<AlertRule>, at: Time, name: string, n: nat)
    requires n <= |rules|
    requires forall j :: 0 <= j < n && rules[j].name == name ==> IsBreached(rules[j], b)
    ensures var before := StreakStart(h, name);
            StreakStart(h + Checks(b, rules, at)[..n], name)
            == if before.Some? || NoneNamed(rules, name, 0, n) then before else Some(at)
  {
    hide StreakStart, IsBreached;
    NoTurn(h, Checks(b, rules, at));
    if n > 0 {
      StreakGoesOn(h, b, rules, at, name, n - 1);
      Turn(h, b, rules, at, name, n);
      assert NoneNamed(rules, name, 0, n) <==> NoneNamed(rules, name, 0, n - 1) && rules[n - 1].name != name;
    }
  }

  /** After an unbreached check of the name, whatever streak there is began in this call. */
  lemma {:induction false} StreakRestarts(h: seq<Check>, b: Bundle, rules: seq<AlertRule>, at: Time, m: nat, n: nat)
    requires m < n <= |rules| && !IsBreached(rules[m], b)
    ensures var after := StreakStart(h + Checks(b, rules, at)[..n], rules[m].name);
            && (after.Some? ==> after.value == at)
            && (NoneNamed(rules, rules[m].name, m + 1, n) ==> after == None)
  {
    hide StreakStart, IsBreached, Checks;
    Turn(h, b, rules, at, rules[m].name, n);
    if n - 1 > m {
      StreakRestarts(h, b, rules, at, m, n - 1);
    }
  }

  // ----- enough -----

  /** The rule's own streak: when its current run of breaches began. */
  function OwnStart(own: seq<Evaluation>, r: AlertRule): Option<Time> {
    if own != [] && Breached(r, own[|own| - 1]) then Some(own[RunStart(own, r)].at) else None
  }

  lemma OwnStartStep(own: seq<Evaluation>, e: Evaluation, r: AlertRule)
    ensures OwnStart(own + [e], r)
            == if !Breached(r, e) then None else if OwnStart(own, r).Some? then OwnStart(own, r) else Some(e.at)
  {
    assert (own + [e])[..|own|] == own;
  }

  /** One call's whole list. */
  lemma CallDone(lists: Lists, calls: seq<Call>)
    requires calls != [] && forall n :: 0 <= n < |calls| ==> calls[n].policy < |lists|
    ensures var front, last := calls[..|calls| - 1], calls[|calls| - 1];
            var rules := lists[last.policy];
            Log(lists, calls) == Log(lists, front) + Checks(last.bundle, rules, last.at)[..|rules|]
  {
    var front, last := calls[..|calls| - 1], calls[|calls| - 1];
    NoTurn(Log(lists, front), Checks(last.bundle, lists[last.policy], last.at));
  }

  /** Under the condition, the name's streak after any run is the rule's own. */
  lemma {:induction false} StreakIsOwn(lists: Lists, calls: seq<Call>, p: nat, k: nat)
    requires p < |lists| && k < |lists[p]| && Run(lists, calls)
    requires OnlyHere(lists, p, k) && Implied(lists[p], k) && LastAgrees(lists[p], k)
    ensures StreakStart(Log(lists, calls), lists[p][k].name) == OwnStart(Own(calls, p), lists[p][k])
  {
    if calls != [] {
      var front, last := calls[..|calls| - 1], calls[|calls| - 1];
      StreakIsOwn(lists, front, p, k);
      CallDone(lists, calls);
      var rules, h, name := lists[last.policy], Log(lists, front), lists[p][k].name;
      hide StreakStart, OwnStart, IsBreached, Checks;
      if last.policy != p {
        assert NoneNamed(rules, name, 0, |rules|);
        assert Own(calls, p) == Own(front, p);
        StreakGoesOn(h, last.bundle, rules, last.at, name, |rules|);
      } else {
        OwnTurn(lists, calls, p, k);
        if IsBreached(rules[k], last.bundle) {
          StreakGoesOn(h, last.bundle, rules, last.at, name, |rules|);
          assert !NoneNamed(rules, name, 0, |rules|);
        } else {
          var l := LastOf(rules, k);
          StreakRestarts(h, last.bundle, rules, last.at, l, |rules|);
        }
      }
    }
  }

  /** What the last call adds to the policy's own streak. */
  lemma OwnTurn(lists: Lists, calls: seq<Call>, p: nat, k: nat)
    requires p < |lists| && k < |lists[p]| && calls != [] && calls[|calls| - 1].policy == p
    ensures var front, last := calls[..|calls| - 1], calls[|calls| - 1];
            var before := OwnStart(Own(front, p), lists[p][k]);
            && OwnStart(Own(calls, p), lists[p][k])
               == (if !IsBreached(lists[p][k], last.bundle) then None else if before.Some? then before
                   else Some(last.at))
            && (Fires(Own(calls, p), lists[p][k])
                <==> LastsFor(OwnStart(Own(calls, p), lists[p][k]), last.at, lists[p][k].hold))
  {
    var front, last := calls[..|calls| - 1], calls[|calls| - 1];
    OwnStartStep(Own(front, p), Evaluation(last.bundle, last.at), lists[p][k]);
  }

  lemma EnoughForEveryRun(lists: Lists, calls: seq<Call>, p: nat, k: nat)
    requires p < |lists| && k < |lists[p]| && Run(lists, calls) && calls != [] && calls[|calls| - 1].policy == p
    requires OnlyHere(lists, p, k) && Implied(lists[p], k) && LastAgrees(lists[p], k)
    ensures Right(lists, calls, p, k)
  {
    var front, last := calls[..|calls| - 1], calls[|calls| - 1];
    var rules, h, name := lists[p], Log(lists, front), lists[p][k].name;
    StreakIsOwn(lists, front, p, k);
    OwnTurn(lists, calls, p, k);
    hide StreakStart, OwnStart, IsBreached, Checks, Log, Own, Fires;
    if IsBreached(rules[k], last.bundle) {
      StreakGoesOn(h, last.bundle, rules, last.at, name, k + 1);
      assert !NoneNamed(rules, name, 0, k + 1);
    } else {
      StreakRestarts(h, last.bundle, rules, last.at, k, k + 1);
    }
  }

  /** No streak began after its last check. */
  lemma {:induction false} StreakNotLater(h: seq<Check>, name: string, now: Time)
    requires forall n :: 0 <= n < |h| ==> h[n].at <= now
    ensures StreakStart(h, name).Some? ==> StreakStart(h, name).value <= now
  {
    if h != [] {
      StreakNotLater(h[..|h| - 1], name, now);
    }
  }

  lemma {:induction false} LogNotLater(lists: Lists, calls: seq<Call>, now: Time)
    requires Run(lists, calls) && forall n :: 0 <= n < |calls| ==> calls[n].at <= now
    ensures forall n :: 0 <= n < |Log(lists, calls)| ==> Log(lists, calls)[n].at <= now
  {
    if calls != [] {
      LogNotLater(lists, calls[..|calls| - 1], now);
    }
  }

  lemma {:induction false} OwnNotLater(calls: seq<Call>, p: nat, now: Time)
    requires forall n :: 0 <= n < |calls| ==> calls[n].at <= now
    ensures forall n :: 0 <= n < |Own(calls, p)| ==> Own(calls, p)[n].at <= now
  {
    if calls != [] {
      OwnNotLater(calls[..|calls| - 1], p, now);
    }
  }

  /** A rule with no hold time, or one that nothing breaches, has nothing to lose. */
  lemma NothingToLose(lists: Lists, calls: seq<Call>, p: nat, k: nat)
    requires p < |lists| && k < |lists[p]| && Run(lists, calls) && calls != [] && calls[|calls| - 1].policy == p
    requires lists[p][k].hold <= 0 || !CanBreach(lists[p][k].condition)
    ensures Right(lists, calls, p, k)
  {
    var front, last := calls[..|calls| - 1], calls[|calls| - 1];
    var rules, h := lists[p], Log(lists, front);
    var all := Checks(last.bundle, rules, last.at);
    var own := Own(calls, p);
    Turn(h, last.bundle, rules, last.at, rules[k].name, k + 1);
    LogNotLater(lists, front, last.at);
    StreakNotLater(h + all[..k + 1], rules[k].name, last.at);
    OwnNotLater(calls, p, last.at);
    hide StreakStart, Log, Checks;
  }

  // ----- needed -----

  /** An observation in which the metric has this value. */
  function AllAt(metric: string, v: real): Bundle {
    Bundle(1, 0, v, v, v, v / 100.0, v, map[metric := v])
  }

  lemma BreachingBundle(r: AlertRule) returns (b: Bundle)
    requires CanBreach(r.condition)
    ensures IsBreached(r, b)
  {
    var c := r.condition;
    b := AllAt(c.metric, if c.operator == ">" then c.threshold + 1.0 else if c.operator == "<" then c.threshold - 1.0
                         else c.threshold);
  }

  /** Every condition has an observation that does not breach it. */
  lemma QuietBundle(r: AlertRule) returns (b: Bundle)
    ensures !IsBreached(r, b)
  {
    var c := r.condition;
    if c.Malformed? {
      b := AllAt("", 0.0);
    } else {
      b := AllAt(c.metric, if c.operator == ">=" then c.threshold - 1.0
                           else if c.operator == "<=" || c.operator == "==" then c.threshold + 1.0 else c.threshold);
    }
  }

  /** A streak that does not begin before `at` cannot be made older by checks at `at`. */
  lemma {:induction false} StreakStaysRecent(h: seq<Check>, b: Bundle, rules: seq<AlertRule>, at: Time, name: string,
                                             n: nat)
    requires n <= |rules| && (StreakStart(h, name).Some? ==> StreakStart(h, name).value == at)
    ensures var after := StreakStart(h + Checks(b, rules, at)[..n], name);
            after.Some? ==> after.value == at
  {
    hide StreakStart, IsBreached, Checks;
    if n == 0 {
      NoTurn(h, Checks(b, rules, at));
    } else {
      StreakStaysRecent(h, b, rules, at, name, n - 1);
      Turn(h, b, rules, at, name, n);
    }
  }

  lemma NoStreakYet(name: string)
    ensures StreakStart([], name) == None
  {
  }

  /** A list whose last check of the name is breached leaves a streak. */
  lemma {:induction false} StreakLeft(h: seq<Check>, b: Bundle, rules: seq<AlertRule>, at: Time, l: nat, n: nat)
    requires l < n <= |rules| && IsBreached(rules[l], b) && NoneNamed(rules, rules[l].name, l + 1, n)
    ensures StreakStart(h + Checks(b, rules, at)[..n], rules[l].name).Some?
  {
    hide StreakStart, IsBreached, Checks;
    Turn(h, b, rules, at, rules[l].name, n);
    if n - 1 > l {
      StreakLeft(h, b, rules, at, l, n - 1);
    }
  }

  /** The policy's own streak after a breach at 0 that goes on in the last call. */
  lemma OwnTwice(lists: Lists, calls: seq<Call>, p: nat, k: nat)
    requires p < |lists| && k < |lists[p]| && calls != [] && calls[|calls| - 1].policy == p
    requires IsBreached(lists[p][k], calls[|calls| - 1].bundle)
    requires OwnStart(Own(calls[..|calls| - 1], p), lists[p][k]) == Some(0)
    requires calls[|calls| - 1].at >= lists[p][k].hold
    ensures OwnStart(Own(calls, p), lists[p][k]) == Some(0) && Fires(Own(calls, p), lists[p][k])
  {
    hide OwnStart, Own, Fires, IsBreached;
    OwnTurn(lists, calls, p, k);
  }

  lemma OwnOnce(lists: Lists, c: Call, p: nat, k: nat)
    requires p < |lists| && k < |lists[p]| && c.policy == p
    ensures OwnStart(Own([c], p), lists[p][k]) == if IsBreached(lists[p][k], c.bundle) then Some(c.at) else None
  {
    assert [c][..0] == [];
    OwnTurn(lists, [c], p, k);
  }

  /** Another policy's rule of the same name, unbreached in between, resets the hold time. */
  lemma SharedNameMisfires(lists: Lists, p: nat, k: nat, q: nat, j: nat)
    returns (calls: seq<Call>)
    requires p < |lists| && k < |lists[p]| && lists[p][k].hold > 0 && CanBreach(lists[p][k].condition)
    requires q < |lists| && q != p && j < |lists[q]| && lists[q][j].name == lists[p][k].name
    ensures Run(lists, calls) && calls != [] && calls[|calls| - 1].policy == p && !Right(lists, calls, p, k)
    ensures Fires(Own(calls, p), lists[p][k])
  {
    hide StreakStart, Fires, IsBreached, Checks, OwnStart;
    var r := lists[p][k];
    var b := BreachingBundle(r);
    var l := LastOf(lists[q], j);
    var quiet := QuietBundle(lists[q][l]);
    var c1, c2, c3 := Call(p, b, 0), Call(q, quiet, 0), Call(p, b, r.hold);
    calls := [c1, c2, c3];
    var two := [c1, c2];
    assert calls[..2] == two && two[..1] == [c1];
    OwnOnce(lists, c1, p, k);
    assert Own(two, p) == Own([c1], p);
    OwnTwice(lists, calls, p, k);
    CallDone(lists, two);
    StreakRestarts(Log(lists, [c1]), quiet, lists[q], 0, l, |lists[q]|);
    StreakStaysRecent(Log(lists, two), b, lists[p], r.hold, r.name, k + 1);
    hide Log, Own;
  }

  /** A rule of the same policy and name that is not breached with it resets the hold time. */
  lemma NotImpliedMisfires(lists: Lists, p: nat, k: nat, b: Bundle, j: nat)
    returns (calls: seq<Call>)
    requires p < |lists| && k < |lists[p]| && lists[p][k].hold > 0 && IsBreached(lists[p][k], b)
    requires SameName(lists[p], k, j) && !IsBreached(lists[p][j], b)
    ensures Run(lists, calls) && calls != [] && calls[|calls| - 1].policy == p && !Right(lists, calls, p, k)
  {
    hide StreakStart, Fires, IsBreached, Checks, OwnStart;
    var r := lists[p][k];
    var c1, c2 := Call(p, b, 0), Call(p, b, r.hold);
    calls := [c1, c2, c2];
    var two := [c1, c2];
    assert calls[..2] == two && two[..1] == [c1];
    OwnOnce(lists, c1, p, k);
    OwnTwice(lists, two, p, k);
    OwnTwice(lists, calls, p, k);
    CallDone(lists, two);
    StreakRestarts(Log(lists, [c1]), b, lists[p], r.hold, j, |lists[p]|);
    StreakStaysRecent(Log(lists, two), b, lists[p], r.hold, r.name, k + 1);
    hide Log, Own;
  }

  /** A last rule of the same name that is breached without it starts its hold time early. */
  lemma LastDisagreesMisfires(lists: Lists, p: nat, k: nat, b: Bundle)
    returns (calls: seq<Call>)
    requires p < |lists| && k < |lists[p]| && lists[p][k].hold > 0 && CanBreach(lists[p][k].condition)
    requires Implied(lists[p], k) && IsBreached(lists[p][LastOf(lists[p], k)], b) && !IsBreached(lists[p][k], b)
    ensures Run(lists, calls) && calls != [] && calls[|calls| - 1].policy == p && !Right(lists, calls, p, k)
  {
    hide StreakStart, Fires, IsBreached, Checks, OwnStart;
    var rules, r, l := lists[p], lists[p][k], LastOf(lists[p], k);
    var breaching := BreachingBundle(r);
    var c1, c2 := Call(p, b, 0), Call(p, breaching, r.hold);
    calls := [c1, c2];
    assert calls[..1] == [c1] && [c1][..0] == [];
    OwnOnce(lists, c1, p, k);
    OwnTurn(lists, calls, p, k);
    CallDone(lists, [c1]);
    StreakLeft([], b, rules, 0, l, |rules|);
    NoStreakYet(r.name);
    StreakStaysRecent([], b, rules, 0, r.name, |rules|);
    forall i | 0 <= i < k + 1 && rules[i].name == r.name ensures IsBreached(rules[i], breaching) {
      assert SameName(rules, k, i);
    }
    StreakGoesOn(Log(lists, [c1]), breaching, rules, r.hold, r.name, k + 1);
    hide Log, Own;
  }

  /** Exactly which rules fire rightly in every run of every policy's evaluations: those with no
      hold time, those that nothing breaches, and those whose name no other policy uses and
      whose own policy's rules of that name are breached with them, the last of them never
      without. */
  lemma AlertsExact(lists: Lists, p: nat, k: nat)
    requires p < |lists| && k < |lists[p]|
    ensures AlwaysRight(lists, p, k)
            <==> || lists[p][k].hold <= 0 || !CanBreach(lists[p][k].condition)
                 || (OnlyHere(lists, p, k) && Implied(lists[p], k) && LastAgrees(lists[p], k))
  {
    hide Right, IsBreached;
    if lists[p][k].hold <= 0 || !CanBreach(lists[p][k].condition) {
      forall calls: seq<Call> | Run(lists, calls) && calls != [] && calls[|calls| - 1].policy == p
        ensures Right(lists, calls, p, k)
      {
        NothingToLose(lists, calls, p, k);
      }
    } else if !Implied(lists[p], k) {
      var b, j :| IsBreached(lists[p][k], b) && SameName(lists[p], k, j) && !IsBreached(lists[p][j], b);
      var calls := NotImpliedMisfires(lists, p, k, b, j);
    } else if !LastAgrees(lists[p], k) {
      var b :| IsBreached(lists[p][LastOf(lists[p], k)], b) && !IsBreached(lists[p][k], b);
      var calls := LastDisagreesMisfires(lists, p, k, b);
    } else if !OnlyHere(lists, p, k) {
      var q, j :| 0 <= q < |lists| && q != p && 0 <= j < |lists[q]| && lists[q][j].name == lists[p][k].name;
      var calls := SharedNameMisfires(lists, p, k, q, j);
    } else {
      forall calls: seq<Call> | Run(lists, calls) && calls != [] && calls[|calls| - 1].policy == p
        ensures Right(lists, calls, p, k)
      {
        EnoughForEveryRun(lists, calls, p, k);
      }
    }
  }

  /** In particular a rule whose name nobody else uses, and with it, among rules whose names
      differ within each policy, exactly the rules whose name no other policy uses. */
  lemma UniqueNamesExact(lists: Lists, p: nat, k: nat)
    requires p < |lists| && k < |lists[p]| && forall j :: 0 <= j < |lists[p]| && j != k ==>
               lists[p][j].name != lists[p][k].name
    ensures AlwaysRight(lists, p, k)
            <==> lists[p][k].hold <= 0 || !CanBreach(lists[p][k].condition) || OnlyHere(lists, p, k)
  {
    hide IsBreached, AlwaysRight;
    AlertsExact(lists, p, k);
    assert SameName(lists[p], k, LastOf(lists[p], k));
  }
}
