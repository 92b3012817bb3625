/** The pure decisions of the rule engine: the priority order of the rule
    list, the AND/OR combination of a rule's conditions, one worker's
    reaction to one event, and the exclusive-rule filter over the alerts. */
module RuleLogic {
  import opened Wrappers
  import opened Domain

  // ---------------------------------------------------------------------
  // Priority order (a stable `OrderByDescending(r => r.Priority)`)

  predicate NonIncreasing(rs: seq<Rule>) {
    forall i, j :: 0 <= i < j < |rs| ==> rs[i].priority >= rs[j].priority
  }

  /** The rules of priority `p`, in their order. */
  function WithPriority(rs: seq<Rule>, p: int): seq<Rule> {
    if rs == [] then []
    else (if rs[0].priority == p then [rs[0]] else []) + WithPriority(rs[1..], p)
  }

  /** Places `r` before the first rule of no greater priority. */
  function Insert(r: Rule, s: seq<Rule>): (ins: seq<Rule>)
    requires NonIncreasing(s)
    ensures NonIncreasing(ins)
    ensures multiset(ins) == multiset(s) + multiset{r}
    ensures forall x :: x in ins ==> x == r || x in s
  {
    if s == [] then [r]
    else if s[0].priority <= r.priority then [r] + s
    else
      var rest := Insert(r, s[1..]);
      assert s == [s[0]] + s[1..];
      assert forall x :: x in rest ==> x.priority <= s[0].priority;
      [s[0]] + rest
  }

  function SortByPriority(rs: seq<Rule>): (sorted: seq<Rule>)
    ensures NonIncreasing(sorted)
    ensures multiset(sorted) == multiset(rs)
  {
    if rs == [] then []
    else
      assert rs == [rs[0]] + rs[1..];
      Insert(rs[0], SortByPriority(rs[1..]))
  }

  lemma {:induction false} InsertWithPriority(r: Rule, s: seq<Rule>, p: int)
    requires NonIncreasing(s)
    ensures WithPriority(Insert(r, s), p) == (if r.priority == p then [r] else []) + WithPriority(s, p)
    decreases |s|
  {
    if s == [] {
      assert WithPriority([r], p) == (if r.priority == p then [r] else []) + WithPriority([], p) by {
        assert [r][1..] == [];
      }
    } else if s[0].priority <= r.priority {
      var t := [r] + s;
      assert t[0] == r && t[1..] == s;
      assert WithPriority(t, p) == (if r.priority == p then [r] else []) + WithPriority(s, p);
    } else {
      var rest := Insert(r, s[1..]);
      var mine: seq<Rule> := if r.priority == p then [r] else [];
      var head: seq<Rule> := if s[0].priority == p then [s[0]] else [];
      InsertWithPriority(r, s[1..], p);
      var t := [s[0]] + rest;
      assert t[0] == s[0] && t[1..] == rest;
      assert WithPriority(t, p) == head + (mine + WithPriority(s[1..], p));
      assert WithPriority(s, p) == head + WithPriority(s[1..], p);
      assert head == [] || mine == [];
      assert head + (mine + WithPriority(s[1..], p)) == mine + (head + WithPriority(s[1..], p));
    }
  }

  /** Rules of equal priority keep their relative order: the sort is stable. */
  lemma {:induction false} SortByPriorityStable(rs: seq<Rule>, p: int)
    ensures WithPriority(SortByPriority(rs), p) == WithPriority(rs, p)
    decreases |rs|
  {
    if rs != [] {
      SortByPriorityStable(rs[1..], p);
      InsertWithPriority(rs[0], SortByPriority(rs[1..]), p);
    }
  }

  // ---------------------------------------------------------------------
  // Combining conditions

  /** The conditions before index `n` all hold. */
  predicate HoldUpTo(cs: seq<Condition>, f: Condition -> Result<bool, Fault>, n: int)
    requires 0 <= n <= |cs|
  {
    forall j :: 0 <= j < n ==> f(cs[j]) == Ok(true)
  }

  /** `All`: stops at the first condition that does not hold or throws. */
  function AllHold(cs: seq<Condition>, f: Condition -> Result<bool, Fault>): (r: Result<bool, Fault>)
    ensures r == Ok(true) <==> forall i :: 0 <= i < |cs| ==> f(cs[i]) == Ok(true)
    ensures r == Ok(false) <==> exists i :: 0 <= i < |cs| && f(cs[i]) == Ok(false) && HoldUpTo(cs, f, i)
    ensures r.Err? ==> exists i :: 0 <= i < |cs| && f(cs[i]) == r && HoldUpTo(cs, f, i)
  {
    if cs == [] then Ok(true)
    else
      var rest := AllHold(cs[1..], f);
      assert forall i :: 1 <= i < |cs| ==> cs[i] == cs[1..][i - 1];
      assert f(cs[0]) == Ok(true) && rest == Ok(false) ==> exists i :: 0 <= i < |cs| && f(cs[i]) == Ok(false) && HoldUpTo(cs, f, i) by {
        if rest == Ok(false) && f(cs[0]) == Ok(true) {
          var i :| 0 <= i < |cs[1..]| && f(cs[1..][i]) == Ok(false) && HoldUpTo(cs[1..], f, i);
          assert HoldUpTo(cs, f, i + 1);
        }
      }
      assert f(cs[0]) == Ok(true) && rest.Err? ==> exists i :: 0 <= i < |cs| && f(cs[i]) == rest && HoldUpTo(cs, f, i) by {
        if rest.Err? && f(cs[0]) == Ok(true) {
          var i :| 0 <= i < |cs[1..]| && f(cs[1..][i]) == rest && HoldUpTo(cs[1..], f, i);
          assert HoldUpTo(cs, f, i + 1);
        }
      }
      assert (exists i :: 0 <= i < |cs| && f(cs[i]) == Ok(false) && HoldUpTo(cs, f, i)) && f(cs[0]) == Ok(true)
             ==> rest == Ok(false) by {
        if (exists i :: 0 <= i < |cs| && f(cs[i]) == Ok(false) && HoldUpTo(cs, f, i)) && f(cs[0]) == Ok(true) {
          var i :| 0 <= i < |cs| && f(cs[i]) == Ok(false) && HoldUpTo(cs, f, i);
          assert i > 0;
          assert HoldUpTo(cs[1..], f, i - 1);
        }
      }
      match f(cs[0])
      case Err(e) => Err(e)
      case Ok(b) => if b then rest else Ok(false)
  }

  /** The conditions before index `n` all fail to hold. */
  predicate FailUpTo(cs: seq<Condition>, f: Condition -> Result<bool, Fault>, n: int)
    requires 0 <= n <= |cs|
  {
    forall j :: 0 <= j < n ==> f(cs[j]) == Ok(false)
  }

  /** `Any`: stops at the first condition that holds or throws. */
  function AnyHolds(cs: seq<Condition>, f: Condition -> Result<bool, Fault>): (r: Result<bool, Fault>)
    ensures r == Ok(false) <==> forall i :: 0 <= i < |cs| ==> f(cs[i]) == Ok(false)
    ensures r == Ok(true) <==> exists i :: 0 <= i < |cs| && f(cs[i]) == Ok(true) && FailUpTo(cs, f, i)
    ensures r.Err? ==> exists i :: 0 <= i < |cs| && f(cs[i]) == r && FailUpTo(cs, f, i)
  {
    if cs == [] then Ok(false)
    else
      var rest := AnyHolds(cs[1..], f);
      assert forall i :: 1 <= i < |cs| ==> cs[i] == cs[1..][i - 1];
      assert f(cs[0]) == Ok(false) && rest == Ok(true) ==> exists i :: 0 <= i < |cs| && f(cs[i]) == Ok(true) && FailUpTo(cs, f, i) by {
        if rest == Ok(true) && f(cs[0]) == Ok(false) {
          var i :| 0 <= i < |cs[1..]| && f(cs[1..][i]) == Ok(true) && FailUpTo(cs[1..], f, i);
          assert FailUpTo(cs, f, i + 1);
        }
      }
      assert f(cs[0]) == Ok(false) && rest.Err? ==> exists i :: 0 <= i < |cs| && f(cs[i]) == rest && FailUpTo(cs, f, i) by {
        if rest.Err? && f(cs[0]) == Ok(false) {
          var i :| 0 <= i < |cs[1..]| && f(cs[1..][i]) == rest && FailUpTo(cs[1..], f, i);
          assert FailUpTo(cs, f, i + 1);
        }
      }
      assert (exists i :: 0 <= i < |cs| && f(cs[i]) == Ok(true) && FailUpTo(cs, f, i)) && f(cs[0]) == Ok(false)
             ==> rest == Ok(true) by {
        if (exists i :: 0 <= i < |cs| && f(cs[i]) == Ok(true) && FailUpTo(cs, f, i)) && f(cs[0]) == Ok(false) {
          var i :| 0 <= i < |cs| && f(cs[i]) == Ok(true) && FailUpTo(cs, f, i);
          assert i > 0;
          assert FailUpTo(cs[1..], f, i - 1);
        }
      }
      match f(cs[0])
      case Err(e) => Err(e)
      case Ok(b) => if b then Ok(true) else rest
  }

  /** Whether a rule matches, given how each of its conditions evaluates:
      a rule without conditions never matches, whatever its combine logic;
      "AND" and "OR" combine; any other logic throws. */
  function Combine(rule: Rule, f: Condition -> Result<bool, Fault>): (r: Result<bool, Fault>)
    ensures rule.conditions.None? || |rule.conditions.value| == 0 ==> r == Ok(false)
    ensures rule.conditions.Some? && |rule.conditions.value| > 0 ==>
      (rule.combineLogic != "AND" && rule.combineLogic != "OR" ==> r.Err? && r.error.InvalidOperation?)
  {
    if rule.conditions.None? || |rule.conditions.value| == 0 then Ok(false)
    else if rule.combineLogic == "AND" then AllHold(rule.conditions.value, f)
    else if rule.combineLogic == "OR" then AnyHolds(rule.conditions.value, f)
    else Err(InvalidOperation("Unsupported combine logic: " + rule.combineLogic))
  }

  /** With conditions present, "AND" matches exactly when every condition
      holds and "OR" exactly when one holds before any throws; otherwise
      the first throw (or, for "AND", the first failing condition) decides. */
  lemma CombineSemantics(rule: Rule, f: Condition -> Result<bool, Fault>)
    requires rule.conditions.Some? && |rule.conditions.value| > 0
    ensures var cs := rule.conditions.value;
            rule.combineLogic == "AND" ==>
              && (Combine(rule, f) == Ok(true) <==> forall i :: 0 <= i < |cs| ==> f(cs[i]) == Ok(true))
              && (Combine(rule, f) == Ok(false) <==> exists i :: 0 <= i < |cs| && f(cs[i]) == Ok(false) && HoldUpTo(cs, f, i))
              && (Combine(rule, f).Err? ==> exists i :: 0 <= i < |cs| && f(cs[i]) == Combine(rule, f) && HoldUpTo(cs, f, i))
    ensures var cs := rule.conditions.value;
            rule.combineLogic == "OR" ==>
              && (Combine(rule, f) == Ok(false) <==> forall i :: 0 <= i < |cs| ==> f(cs[i]) == Ok(false))
              && (Combine(rule, f) == Ok(true) <==> exists i :: 0 <= i < |cs| && f(cs[i]) == Ok(true) && FailUpTo(cs, f, i))
              && (Combine(rule, f).Err? ==> exists i :: 0 <= i < |cs| && f(cs[i]) == Combine(rule, f) && FailUpTo(cs, f, i))
  {
  }

  /** A defaults-only rule never matches. */
  lemma NewRuleNeverMatches(id: string, f: Condition -> Result<bool, Fault>)
    ensures Combine(NewRule(id), f) == Ok(false)
  {
  }

  /** With a single condition, "AND" and "OR" agree. */
  lemma SingleConditionLogicAgrees(rule: Rule, f: Condition -> Result<bool, Fault>)
    requires rule.conditions.Some? && |rule.conditions.value| == 1
    ensures AllHold(rule.conditions.value, f) == AnyHolds(rule.conditions.value, f)
  {
    var cs := rule.conditions.value;
    assert cs[1..] == [];
  }

  /** A rule with one condition combines to that condition's own outcome
      under either supported logic. */
  lemma SingleConditionCombine(rule: Rule, f: Condition -> Result<bool, Fault>)
    requires rule.conditions.Some? && |rule.conditions.value| == 1
    requires rule.combineLogic == "AND" || rule.combineLogic == "OR"
    ensures Combine(rule, f) == f(rule.conditions.value[0])
  {
    var cs := rule.conditions.value;
    assert cs[1..] == [];
  }

  // ---------------------------------------------------------------------
  // One worker, one event

  /** The evaluation of a condition against an event and the rule's state.
      Conditions whose evaluators are not part of this model are the opaque
      part of it; the spatial and position-anomaly evaluators are modelled
      in their own modules. */
  type ConditionEval = (Condition, MaritimeEvent, RuleState) -> Result<bool, Fault>

  datatype StepResult = Matched(alert: Alert) | NoMatch | Faulted(fault: Fault)

  /** What a rule's worker does with one event taken from its queue: a
      match adds an alert built from the rule's action; a throw (including
      a match on a rule without an action) ends the worker. */
  function WorkerStep(rule: Rule, ev: MaritimeEvent, st: RuleState, eval: ConditionEval, now: real)
    : (s: StepResult)
    ensures s.Matched? ==> rule.action.Some?
    ensures s.Matched? ==>
      && s.alert.ruleId == rule.id
      && s.alert.entityId == ev.id
      && s.alert.alertType == rule.action.value.alertType
      && s.alert.severity == rule.action.value.severity
      && s.alert.notify == rule.action.value.notify
      && s.alert.timestamp == now
  {
    match Combine(rule, c => eval(c, ev, st))
    case Err(e) => Faulted(e)
    case Ok(matched) =>
      if !matched then NoMatch
      else if rule.action.None? then Faulted(NullReference("Action"))
      else
        var a := rule.action.value;
        Matched(Alert(rule.id, a.alertType, a.severity, ev.id, now, a.notify))
  }

  /** The worker matches when the combination holds and the rule has an
      action, passes when it does not hold, and stops otherwise. */
  lemma WorkerStepOutcome(rule: Rule, ev: MaritimeEvent, st: RuleState, eval: ConditionEval, now: real)
    ensures var s := WorkerStep(rule, ev, st, eval, now);
            var m := Combine(rule, c => eval(c, ev, st));
            && (s.Matched? <==> m == Ok(true) && rule.action.Some?)
            && (s.NoMatch? <==> m == Ok(false))
            && (s.Faulted? <==> m.Err? || (m == Ok(true) && rule.action.None?))
            && (m.Err? ==> s == Faulted(m.error))
  {
  }

  // ---------------------------------------------------------------------
  // Exclusivity

  /** Some alert carries this rule's id. */
  predicate Alerted(alerts: seq<Alert>, id: string) {
    exists i :: 0 <= i < |alerts| && alerts[i].ruleId == id
  }

  /** An enabled exclusive rule that produced an alert. */
  predicate Candidate(r: Rule, alerts: seq<Alert>) {
    r.enabled && r.exclusive && Alerted(alerts, r.id)
  }

  /** The highest-priority candidate, the earliest in the rule list among equals. */
  function TopExclusive(rules: seq<Rule>, alerts: seq<Alert>): (w: Option<Rule>)
    ensures w.None? <==> forall i :: 0 <= i < |rules| ==> !Candidate(rules[i], alerts)
    ensures w.Some? ==> exists i :: (0 <= i < |rules| && rules[i] == w.value && Candidate(w.value, alerts)
                                     && (forall j :: 0 <= j < |rules| && Candidate(rules[j], alerts)
                                                     ==> rules[j].priority <= w.value.priority)
                                     && (forall j :: 0 <= j < i && Candidate(rules[j], alerts)
                                                     ==> rules[j].priority < w.value.priority))
    decreases |rules|
  {
    if rules == [] then None
    else
      var prefix := rules[..|rules| - 1];
      var last := rules[|rules| - 1];
      var best := TopExclusive(prefix, alerts);
      assert forall j :: 0 <= j < |prefix| ==> prefix[j] == rules[j];
      if Candidate(last, alerts) && (best.None? || last.priority > best.value.priority) then Some(last)
      else best
  }

  /** The alerts of one rule id, in their order. */
  function AlertsOf(alerts: seq<Alert>, id: string): (kept: seq<Alert>)
    ensures forall i :: 0 <= i < |kept| ==> kept[i].ruleId == id
    ensures forall a :: a in alerts && a.ruleId == id ==> a in kept
    ensures forall a :: a in kept ==> a in alerts
    ensures |kept| <= |alerts|
  {
    if alerts == [] then []
    else
      var rest := AlertsOf(alerts[..|alerts| - 1], id);
      var last := alerts[|alerts| - 1];
      assert forall a :: a in alerts ==> a in alerts[..|alerts| - 1] || a == last;
      if last.ruleId == id then rest + [last] else rest
  }

  /** Each alert of the id is kept as often as it occurs, and no other alert is. */
  lemma {:induction false} AlertsOfCounts(alerts: seq<Alert>, id: string, a: Alert)
    ensures multiset(AlertsOf(alerts, id))[a] == if a.ruleId == id then multiset(alerts)[a] else 0
    decreases |alerts|
  {
    if alerts != [] {
      var prefix := alerts[..|alerts| - 1];
      var last := alerts[|alerts| - 1];
      AlertsOfCounts(prefix, id, a);
      assert alerts == prefix + [last];
      assert multiset(alerts) == multiset(prefix) + multiset{last};
    }
  }

  /** When an exclusive rule fired, only the alerts of the highest-priority
      such rule survive; otherwise the alerts pass unchanged. */
  function ExclusiveFilter(rules: seq<Rule>, alerts: seq<Alert>): (r: seq<Alert>)
    ensures TopExclusive(rules, alerts).None? ==> r == alerts
    ensures TopExclusive(rules, alerts).Some? ==> r == AlertsOf(alerts, TopExclusive(rules, alerts).value.id)
    ensures TopExclusive(rules, alerts).Some? ==>
      var w := TopExclusive(rules, alerts).value;
      && |r| > 0
      && (forall i :: 0 <= i < |r| ==> r[i].ruleId == w.id)
      && (forall a :: a in alerts && a.ruleId == w.id ==> a in r)
      && (forall a :: a in r ==> a in alerts)
  {
    if |alerts| == 0 then alerts
    else
      match TopExclusive(rules, alerts)
      case None => alerts
      case Some(w) =>
        assert Alerted(alerts, w.id);
        var i :| 0 <= i < |alerts| && alerts[i].ruleId == w.id;
        assert alerts[i] in alerts;
        AlertsOf(alerts, w.id)
  }

  lemma {:induction false} AlertsOfIdempotent(alerts: seq<Alert>, id: string)
    ensures AlertsOf(AlertsOf(alerts, id), id) == AlertsOf(alerts, id)
    decreases |alerts|
  {
    if alerts != [] {
      var prefix := alerts[..|alerts| - 1];
      var last := alerts[|alerts| - 1];
      AlertsOfIdempotent(prefix, id);
      var k := AlertsOf(prefix, id);
      if last.ruleId == id {
        assert (k + [last])[..|k + [last]| - 1] == k;
      }
    }
  }

  /** The kept alerts keep their relative order: filtering a concatenation
      filters each part. */
  lemma {:induction false} AlertsOfAppend(a: seq<Alert>, b: seq<Alert>, id: string)
    ensures AlertsOf(a + b, id) == AlertsOf(a, id) + AlertsOf(b, id)
    decreases |b|
  {
    if b == [] {
      assert a + b == a;
    } else {
      var b' := b[..|b| - 1];
      assert (a + b)[..|a + b| - 1] == a + b';
      AlertsOfAppend(a, b', id);
    }
  }

  /** Filtering an already filtered list changes nothing. */
  lemma ExclusiveFilterIdempotent(rules: seq<Rule>, alerts: seq<Alert>)
    ensures ExclusiveFilter(rules, ExclusiveFilter(rules, alerts)) == ExclusiveFilter(rules, alerts)
  {
    var once := ExclusiveFilter(rules, alerts);
    var w := TopExclusive(rules, alerts);
    if w.Some? && |alerts| > 0 {
      var w2 := TopExclusive(rules, once);
      assert w2.Some? by {
        var i :| 0 <= i < |rules| && rules[i] == w.value && Candidate(w.value, alerts);
        assert once[0].ruleId == w.value.id;
        assert Candidate(rules[i], once);
      }
      // every candidate for `once` carries the winner's id
      var k :| 0 <= k < |rules| && rules[k] == w2.value && Candidate(w2.value, once);
      var m :| 0 <= m < |once| && once[m].ruleId == w2.value.id;
      assert w2.value.id == w.value.id;
      AlertsOfIdempotent(alerts, w.value.id);
    }
  }

  /** No alert from an enabled exclusive rule: the alerts pass unchanged. */
  lemma NoExclusiveAlertPassesAll(rules: seq<Rule>, alerts: seq<Alert>)
    requires forall i, j :: 0 <= i < |rules| && 0 <= j < |alerts| && rules[i].enabled && rules[i].exclusive
                            ==> alerts[j].ruleId != rules[i].id
    ensures ExclusiveFilter(rules, alerts) == alerts
  {
  }

  /** The condition both scenario rules share. */
  const SpeedCondition: Condition := ValueCondition("SpeedKnots", ">", "10")
  /** An exclusive rule of priority 200. */
  const SpeedExclusive: Rule := Rule("R1", "", 200, true, true, Some([SpeedCondition]), "AND",
                                     Some(RuleAction("A", "high", [])))
  /** A plain rule of priority 50. */
  const SpeedPlain: Rule := Rule("R2", "", 50, true, false, Some([SpeedCondition]), "OR",
                                 Some(RuleAction("B", "low", [])))

  /** When the evaluator accepts the shared condition, both workers alert. */
  lemma SpeedRulesBothAlert(ev: MaritimeEvent, st: RuleState, eval: ConditionEval, now: real)
    requires eval(SpeedCondition, ev, st) == Ok(true)
    ensures WorkerStep(SpeedExclusive, ev, st, eval, now) == Matched(Alert("R1", "A", "high", ev.id, now, []))
    ensures WorkerStep(SpeedPlain, ev, st, eval, now) == Matched(Alert("R2", "B", "low", ev.id, now, []))
  {
    SingleConditionCombine(SpeedExclusive, c => eval(c, ev, st));
    SingleConditionCombine(SpeedPlain, c => eval(c, ev, st));
  }

  /** Sorting puts the exclusive rule, of higher priority, first. */
  lemma SpeedRulesSorted()
    ensures SortByPriority([SpeedPlain, SpeedExclusive]) == [SpeedExclusive, SpeedPlain]
  {
    var r1, r2 := SpeedExclusive, SpeedPlain;
    assert [r2, r1][1..] == [r1];
    assert SortByPriority([r1]) == [r1] by { assert [r1][1..] == []; }
  }

  /** Given one alert of each rule, the filter keeps only the exclusive rule's. */
  lemma SpeedAlertsFiltered(a1: Alert, a2: Alert)
    requires a1.ruleId == "R1" && a2.ruleId == "R2"
    ensures ExclusiveFilter([SpeedExclusive, SpeedPlain], [a2, a1]) == [a1]
  {
    var r1, r2 := SpeedExclusive, SpeedPlain;
    var alerts := [a2, a1];
    assert Candidate(r1, alerts) by { assert alerts[1].ruleId == "R1"; }
    assert !Candidate(r2, alerts);
    assert [r1, r2][..1] == [r1];
    assert [r1][..0] == [];
    assert TopExclusive([r1], alerts) == Some(r1);
    assert TopExclusive([r1, r2], alerts) == Some(r1);
    assert alerts[..1] == [a2];
    assert [a2][..0] == [];
    assert AlertsOf([a2], "R1") == [];
    assert AlertsOf(alerts, "R1") == [a1];
  }

  /** The exclusive rule and the plain rule both fire on the same event: of
      the two alerts the workers produce, only the exclusive rule's is kept. */
  lemma ExclusiveScenario(ev: MaritimeEvent, st: RuleState, eval: ConditionEval, now: real)
    requires eval(SpeedCondition, ev, st) == Ok(true)
    ensures var s1 := WorkerStep(SpeedExclusive, ev, st, eval, now);
            var s2 := WorkerStep(SpeedPlain, ev, st, eval, now);
            && s1.Matched? && s2.Matched?
            && ExclusiveFilter(SortByPriority([SpeedPlain, SpeedExclusive]), [s2.alert, s1.alert]) == [s1.alert]
  {
    SpeedRulesBothAlert(ev, st, eval, now);
    SpeedRulesSorted();
    SpeedAlertsFiltered(WorkerStep(SpeedExclusive, ev, st, eval, now).alert,
                        WorkerStep(SpeedPlain, ev, st, eval, now).alert);
  }
}
