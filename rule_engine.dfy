/** The rule engine's bookkeeping: the sorted rule list, one state per rule
    id (only ever added), and one queue, worker and cancellation entry per
    enabled rule. The worker threads are replaced by a sequential step in
    which every live worker consumes the broadcast event, which is the state
    the engine reaches when every worker finishes within the settle delay. */
module Engine {
  import opened Wrappers
  import opened Domain
  import opened RuleLogic

  /** The ids of the enabled rules. */
  function EnabledIds(rs: seq<Rule>): set<string> {
    if rs == [] then {}
    else EnabledIds(rs[..|rs| - 1]) + (if rs[|rs| - 1].enabled then {rs[|rs| - 1].id} else {})
  }

  /** An id is enabled exactly when some enabled rule carries it. */
  lemma {:induction false} EnabledIdsMembers(rs: seq<Rule>, id: string)
    ensures id in EnabledIds(rs) <==> exists i :: 0 <= i < |rs| && rs[i].enabled && rs[i].id == id
    decreases |rs|
  {
    if rs != [] {
      var prefix := rs[..|rs| - 1];
      EnabledIdsMembers(prefix, id);
      assert forall i :: 0 <= i < |prefix| ==> prefix[i] == rs[i];
    }
  }

  /** Rule lists with the same elements enable the same ids. */
  lemma EnabledIdsPermutation(a: seq<Rule>, b: seq<Rule>)
    requires multiset(a) == multiset(b)
    ensures EnabledIds(a) == EnabledIds(b)
  {
    forall id | id in EnabledIds(a) ensures id in EnabledIds(b) {
      EnabledIdsMembers(a, id);
      EnabledIdsMembers(b, id);
      var i :| 0 <= i < |a| && a[i].enabled && a[i].id == id;
      assert a[i] in multiset(b);
      var j :| 0 <= j < |b| && b[j] == a[i];
    }
    forall id | id in EnabledIds(b) ensures id in EnabledIds(a) {
      EnabledIdsMembers(a, id);
      EnabledIdsMembers(b, id);
      var j :| 0 <= j < |b| && b[j].enabled && b[j].id == id;
      assert b[j] in multiset(a);
      var i :| 0 <= i < |a| && a[i] == b[j];
    }
  }

  /** `rs[i]` is the last enabled rule with this id. */
  predicate LastEnabledAt(rs: seq<Rule>, id: string, i: int) {
    && 0 <= i < |rs| && rs[i].enabled && rs[i].id == id
    && forall j :: i < j < |rs| ==> !(rs[j].enabled && rs[j].id == id)
  }

  /** The rule each id's worker runs: the last enabled rule with that id,
      since a later rule overwrites the earlier one's queue, token and thread. */
  function WorkerRules(rs: seq<Rule>): (w: map<string, Rule>)
    ensures w.Keys == EnabledIds(rs)
  {
    if rs == [] then map[]
    else
      var prefix := rs[..|rs| - 1];
      var last := rs[|rs| - 1];
      var w := WorkerRules(prefix);
      if last.enabled then w[last.id := last] else w
  }

  /** Each id's worker runs the last enabled rule with that id. */
  lemma {:induction false} WorkerRulesAreLast(rs: seq<Rule>, id: string)
    requires id in WorkerRules(rs)
    ensures exists i :: LastEnabledAt(rs, id, i) && rs[i] == WorkerRules(rs)[id]
    decreases |rs|
  {
    var prefix := rs[..|rs| - 1];
    var last := rs[|rs| - 1];
    if last.enabled && id == last.id {
      assert LastEnabledAt(rs, id, |rs| - 1);
    } else {
      WorkerRulesAreLast(prefix, id);
      var i :| LastEnabledAt(prefix, id, i) && prefix[i] == WorkerRules(prefix)[id];
      assert rs[i] == prefix[i];
      forall j | i < j < |rs| ensures !(rs[j].enabled && rs[j].id == id) {
        if j < |prefix| {
          assert rs[j] == prefix[j];
        }
      }
      assert LastEnabledAt(rs, id, i);
    }
  }

  /** One more rule extends the worker table as `InitializeRuleThreads` does. */
  lemma WorkerRulesSnoc(rs: seq<Rule>, i: int)
    requires 0 <= i < |rs|
    ensures WorkerRules(rs[..i + 1]) == if rs[i].enabled then WorkerRules(rs[..i])[rs[i].id := rs[i]]
                                        else WorkerRules(rs[..i])
    ensures EnabledIds(rs[..i + 1]) == EnabledIds(rs[..i]) + if rs[i].enabled then {rs[i].id} else {}
  {
    assert rs[..i + 1][..i] == rs[..i];
  }

  datatype Worker = Worker(rule: Rule, running: bool)

  /** The workers `InitializeRuleThreads` starts for a rule list. */
  function Launched(rs: seq<Rule>): (ws: map<string, Worker>)
    ensures ws.Keys == EnabledIds(rs)
    ensures forall id :: id in ws ==> ws[id].running && ws[id].rule.id == id && ws[id].rule.enabled
  {
    var w := WorkerRules(rs);
    forall id | id in w ensures w[id].id == id && w[id].enabled {
      WorkerRulesAreLast(rs, id);
    }
    map id | id in w :: Worker(w[id], true)
  }

  /** States are only added: every old state survives unchanged, and each
      newly added id gets a fresh state. */
  predicate StatesGrown(before: map<string, RuleState>, after: map<string, RuleState>, ids: set<string>) {
    && after.Keys == before.Keys + ids
    && (forall id :: id in before ==> after[id] == before[id])
    && (forall id :: id in after && id !in before ==> after[id] == NewRuleState(id))
  }

  /** What the worker of `id` does with the event, if there is such a worker. */
  function StepAt(threads: map<string, Worker>, states: map<string, RuleState>, id: string,
                  ev: MaritimeEvent, eval: ConditionEval, now: real): StepResult
  {
    if id in threads && id in states then WorkerStep(threads[id].rule, ev, states[id], eval, now) else NoMatch
  }

  /** The reaction of every worker to the event, as one function of the id. */
  function StepsFor(threads: map<string, Worker>, states: map<string, RuleState>,
                    ev: MaritimeEvent, eval: ConditionEval, now: real): string -> StepResult
  {
    id => StepAt(threads, states, id, ev, eval, now)
  }

  /** A worker that throws ends for good. */
  function AfterStep(w: Worker, s: StepResult): (after: Worker)
    ensures after.rule == w.rule
    ensures after.running <==> w.running && !s.Faulted?
  {
    if w.running && s.Faulted? then Worker(w.rule, false) else w
  }

  /** The alert was produced by the live worker of its rule id. */
  predicate Produced(a: Alert, threads: map<string, Worker>, step: string -> StepResult) {
    a.ruleId in threads && threads[a.ruleId].running && step(a.ruleId) == Matched(a)
  }

  /** The collected alerts are, in some order, exactly one alert per live
      worker whose rule matched the event. */
  predicate Collected(alerts: seq<Alert>, threads: map<string, Worker>, step: string -> StepResult) {
    && (forall i :: 0 <= i < |alerts| ==> Produced(alerts[i], threads, step))
    && (forall id :: id in threads && threads[id].running && step(id).Matched? ==> step(id).alert in alerts)
    && (forall i, j :: 0 <= i < j < |alerts| ==> alerts[i].ruleId != alerts[j].ruleId)
  }

  lemma {:induction false} DistinctIdsBound(alerts: seq<Alert>, ids: set<string>)
    requires forall i :: 0 <= i < |alerts| ==> alerts[i].ruleId in ids
    requires forall i, j :: 0 <= i < j < |alerts| ==> alerts[i].ruleId != alerts[j].ruleId
    ensures |alerts| <= |ids|
    decreases |alerts|
  {
    if alerts != [] {
      var last := alerts[|alerts| - 1];
      var prefix := alerts[..|alerts| - 1];
      assert forall i :: 0 <= i < |prefix| ==> prefix[i].ruleId in ids - {last.ruleId};
      DistinctIdsBound(prefix, ids - {last.ruleId});
    }
  }

  /** Every collected alert describes the event and its rule's action, no
      stopped worker contributes one, and there are at most as many alerts
      as workers. */
  lemma CollectedAlerts(alerts: seq<Alert>, threads: map<string, Worker>, states: map<string, RuleState>,
                        ev: MaritimeEvent, eval: ConditionEval, now: real)
    requires Collected(alerts, threads, StepsFor(threads, states, ev, eval, now))
    requires forall id :: id in threads ==> threads[id].rule.id == id
    ensures forall a :: a in alerts ==>
      && a.ruleId in threads && threads[a.ruleId].running
      && threads[a.ruleId].rule.action.Some?
      && a.entityId == ev.id && a.timestamp == now
      && a.alertType == threads[a.ruleId].rule.action.value.alertType
      && a.severity == threads[a.ruleId].rule.action.value.severity
      && a.notify == threads[a.ruleId].rule.action.value.notify
    ensures |alerts| <= |threads|
  {
    DistinctIdsBound(alerts, threads.Keys);
  }

  /** Starting one more rule extends the launched workers. */
  lemma LaunchedSnoc(rs: seq<Rule>, i: int)
    requires 0 <= i < |rs|
    ensures Launched(rs[..i + 1]) == if rs[i].enabled then Launched(rs[..i])[rs[i].id := Worker(rs[i], true)]
                                     else Launched(rs[..i])
  {
    WorkerRulesSnoc(rs, i);
  }

  /** What the loop of `InitializeRuleThreads` has built after the first `i` rules. */
  predicate LaunchedUpTo(rules: seq<Rule>, i: int, states0: map<string, RuleState>,
                         states: map<string, RuleState>, queues: map<string, seq<MaritimeEvent>>,
                         threads: map<string, Worker>, cts: set<string>)
  {
    && 0 <= i <= |rules|
    && cts == EnabledIds(rules[..i])
    && queues.Keys == cts && (forall id :: id in queues ==> queues[id] == [])
    && threads == Launched(rules[..i])
    && StatesGrown(states0, states, cts)
    && (forall id :: id in states ==> states[id].ruleId == id)
  }

  /** One iteration of that loop keeps `LaunchedUpTo`. */
  lemma LaunchStep(rules: seq<Rule>, i: int, states0: map<string, RuleState>,
                   states: map<string, RuleState>, queues: map<string, seq<MaritimeEvent>>,
                   threads: map<string, Worker>, cts: set<string>)
    requires LaunchedUpTo(rules, i, states0, states, queues, threads, cts) && i < |rules|
    ensures var r := rules[i];
            LaunchedUpTo(rules, i + 1, states0,
                         if r.enabled && r.id !in states then states[r.id := NewRuleState(r.id)] else states,
                         if r.enabled then queues[r.id := []] else queues,
                         if r.enabled then threads[r.id := Worker(r, true)] else threads,
                         if r.enabled then cts + {r.id} else cts)
  {
    LaunchedSnoc(rules, i);
    WorkerRulesSnoc(rules, i);
    var r := rules[i];
    if r.enabled {
      StatesGrownStep(states0, states, cts, r.id);
      var states' := if r.id !in states then states[r.id := NewRuleState(r.id)] else states;
      var queues' := queues[r.id := []];
      EmptyQueuesStep(queues, cts, r.id, queues');
      assert LaunchedUpTo(rules, i + 1, states0, states', queues', threads[r.id := Worker(r, true)], cts + {r.id});
    } else {
      assert LaunchedUpTo(rules, i + 1, states0, states, queues, threads, cts);
    }
  }

  /** A fresh empty queue for one more id keeps every queue empty. */
  lemma EmptyQueuesStep(queues: map<string, seq<MaritimeEvent>>, ids: set<string>, id: string,
                        queues': map<string, seq<MaritimeEvent>>)
    requires queues.Keys == ids && forall k :: k in queues ==> queues[k] == []
    requires queues' == queues[id := []]
    ensures queues'.Keys == ids + {id}
    ensures forall k :: k in queues' ==> queues'[k] == []
  {
  }

  /** Ensuring a state for one more id keeps the states grown and well keyed. */
  lemma StatesGrownStep(states0: map<string, RuleState>, states: map<string, RuleState>, ids: set<string>, id: string)
    requires StatesGrown(states0, states, ids)
    requires forall k :: k in states ==> states[k].ruleId == k
    ensures var states' := if id !in states then states[id := NewRuleState(id)] else states;
            && StatesGrown(states0, states', ids + {id})
            && (forall k :: k in states' ==> states'[k].ruleId == k)
  {
    var states' := if id !in states then states[id := NewRuleState(id)] else states;
    assert states'.Keys == states.Keys + {id};
  }

  /** The loop of `InitializeRuleThreads`: for every enabled rule in list
      order, ensure a state, then create its queue, token and worker. */
  method LaunchAll(rules: seq<Rule>, states0: map<string, RuleState>)
    returns (states: map<string, RuleState>, queues: map<string, seq<MaritimeEvent>>,
             threads: map<string, Worker>, cts: set<string>)
    requires forall id :: id in states0 ==> states0[id].ruleId == id
    ensures cts == EnabledIds(rules)
    ensures queues.Keys == cts && forall id :: id in queues ==> queues[id] == []
    ensures threads == Launched(rules)
    ensures StatesGrown(states0, states, cts)
    ensures forall id :: id in states ==> states[id].ruleId == id
  {
    states, queues, threads, cts := states0, map[], map[], {};
    var i := 0;
    assert rules[..0] == [];
    while i < |rules|
      invariant LaunchedUpTo(rules, i, states0, states, queues, threads, cts)
    {
      var rule := rules[i];
      LaunchStep(rules, i, states0, states, queues, threads, cts);
      if rule.enabled {
        if rule.id !in states {
          states := states[rule.id := NewRuleState(rule.id)];
        }
        queues := queues[rule.id := []];
        cts := cts + {rule.id};
        threads := threads[rule.id := Worker(rule, true)];
      }
      i := i + 1;
    }
    assert rules[..i] == rules;
  }

  /** The loop of the broadcast: every queue gets the event at its end. */
  method AppendToAll(queues0: map<string, seq<MaritimeEvent>>, ev: MaritimeEvent)
    returns (queues: map<string, seq<MaritimeEvent>>)
    ensures queues.Keys == queues0.Keys
    ensures forall id :: id in queues ==> queues[id] == queues0[id] + [ev]
  {
    queues := queues0;
    var pending := queues.Keys;
    while pending != {}
      invariant pending <= queues.Keys == queues0.Keys
      invariant forall id :: id in queues ==> queues[id] == if id in pending then queues0[id] else queues0[id] + [ev]
      decreases pending
    {
      var id :| id in pending;
      queues := queues[id := queues[id] + [ev]];
      pending := pending - {id};
    }
  }

  /** The alerts collected once the workers outside `pending` have handled the event. */
  predicate CollectedExcept(collected: seq<Alert>, threads0: map<string, Worker>, step: string -> StepResult,
                            pending: set<string>)
  {
    && (forall i :: 0 <= i < |collected| ==> Produced(collected[i], threads0, step) && collected[i].ruleId !in pending)
    && (forall id :: id in threads0 && id !in pending && threads0[id].running && step(id).Matched?
                     ==> step(id).alert in collected)
    && (forall i, j :: 0 <= i < j < |collected| ==> collected[i].ruleId != collected[j].ruleId)
  }

  /** One more worker handles the event. */
  lemma SettleOne(collected: seq<Alert>, threads0: map<string, Worker>, step: string -> StepResult,
                  pending: set<string>, id: string)
    requires CollectedExcept(collected, threads0, step, pending)
    requires id in pending && id in threads0
    requires step(id).Matched? ==> step(id).alert.ruleId == id
    ensures var next := if threads0[id].running && step(id).Matched? then collected + [step(id).alert] else collected;
            CollectedExcept(next, threads0, step, pending - {id})
  {
  }

  /** The workers' settle: each live worker takes the event from its queue
      and handles it as `step` says, in no particular order; a match adds
      its alert, a throw stops the worker. */
  method RunAll(threads0: map<string, Worker>, queues0: map<string, seq<MaritimeEvent>>,
                step: string -> StepResult)
    returns (threads: map<string, Worker>, queues: map<string, seq<MaritimeEvent>>, collected: seq<Alert>)
    requires threads0.Keys == queues0.Keys
    requires forall id :: id in threads0 && step(id).Matched? ==> step(id).alert.ruleId == id
    ensures threads.Keys == threads0.Keys && queues.Keys == queues0.Keys
    ensures forall id :: id in threads ==> threads[id] == AfterStep(threads0[id], step(id))
    ensures forall id :: id in queues ==> queues[id] == if threads0[id].running then [] else queues0[id]
    ensures Collected(collected, threads0, step)
  {
    threads, queues, collected := threads0, queues0, [];
    var pending := threads.Keys;
    while pending != {}
      invariant threads.Keys == threads0.Keys && queues.Keys == queues0.Keys
      invariant pending <= threads0.Keys
      invariant forall id :: id in threads ==>
        threads[id] == if id in pending then threads0[id] else AfterStep(threads0[id], step(id))
      invariant forall id :: id in queues ==>
        queues[id] == if id in pending || !threads0[id].running then queues0[id] else []
      invariant CollectedExcept(collected, threads0, step, pending)
      decreases pending
    {
      var id :| id in pending;
      SettleOne(collected, threads0, step, pending, id);
      var w := threads[id];
      if w.running {
        queues := queues[id := []];
        match step(id) {
          case Matched(a) =>
            collected := collected + [a];
          case NoMatch =>
          case Faulted(_) =>
            threads := threads[id := Worker(w.rule, false)];
        }
      }
      pending := pending - {id};
    }
  }

  class RuleEngine {
    var rules: seq<Rule>
    var states: map<string, RuleState>
    var ruleQueues: map<string, seq<MaritimeEvent>>
    var ruleThreads: map<string, Worker>
    var ruleCts: set<string>
    var alertsCollection: seq<Alert>
    var isInitialized: bool

    /** The three per-worker maps agree, every worker has a state, and they
        reflect the rule list exactly when the engine is initialised. */
    ghost predicate Wellformed()
      reads this
    {
      && ruleQueues.Keys == ruleCts
      && ruleThreads.Keys == ruleCts
      && ruleCts <= states.Keys
      && (forall id :: id in states ==> states[id].ruleId == id)
      && (forall id :: id in ruleThreads ==> ruleThreads[id].rule.id == id)
      && (isInitialized ==> ruleCts == EnabledIds(rules)
                            && forall id :: id in ruleThreads ==> ruleThreads[id].rule == WorkerRules(rules)[id])
      && (!isInitialized ==> ruleCts == {})
    }

    /** Between calls, every live worker has drained its queue. */
    ghost predicate Valid()
      reads this
    {
      Wellformed() && forall id :: id in ruleThreads && ruleThreads[id].running ==> ruleQueues[id] == []
    }

    constructor()
      ensures Valid()
      ensures rules == [] && states == map[] && alertsCollection == [] && !isInitialized
    {
      rules := [];
      states := map[];
      ruleQueues := map[];
      ruleThreads := map[];
      ruleCts := {};
      alertsCollection := [];
      isInitialized := false;
    }

    /** Creates a state (if missing), an empty queue, a token and a running
        worker for every enabled rule. */
    method InitializeRuleThreads()
      requires Valid() && !isInitialized
      modifies this
      ensures Valid() && isInitialized
      ensures rules == old(rules) && alertsCollection == old(alertsCollection)
      ensures ruleCts == EnabledIds(rules)
      ensures ruleThreads == Launched(rules)
      ensures forall id :: id in ruleQueues ==> ruleQueues[id] == []
      ensures StatesGrown(old(states), states, EnabledIds(rules))
    {
      states, ruleQueues, ruleThreads, ruleCts := LaunchAll(rules, states);
      isInitialized := true;
    }

    /** Cancels every worker and forgets all queues, workers and tokens. */
    method StopRuleThreads()
      requires Valid()
      modifies this
      ensures Valid() && !isInitialized
      ensures ruleQueues == map[] && ruleThreads == map[] && ruleCts == {}
      ensures rules == old(rules) && states == old(states) && alertsCollection == old(alertsCollection)
    {
      ruleQueues := map[];
      ruleThreads := map[];
      ruleCts := {};
      isInitialized := false;
    }

    /** Replaces the rule list by `newRules` ordered by descending priority
        and restarts one worker per enabled rule. */
    method HotUpdateRules(newRules: seq<Rule>)
      requires Valid()
      modifies this
      ensures Valid() && isInitialized
      ensures rules == SortByPriority(newRules)
      ensures ruleCts == EnabledIds(newRules)
      ensures ruleThreads == Launched(rules)
      ensures forall id :: id in ruleQueues ==> ruleQueues[id] == []
      ensures StatesGrown(old(states), states, EnabledIds(newRules))
      ensures alertsCollection == old(alertsCollection)
    {
      if isInitialized {
        StopRuleThreads();
      }
      rules := SortByPriority(newRules);
      EnabledIdsPermutation(rules, newRules);
      InitializeRuleThreads();
    }

    /** Appends the event to every queue. */
    method Broadcast(ev: MaritimeEvent)
      requires Valid()
      modifies this
      ensures Wellformed()
      ensures ruleQueues.Keys == old(ruleQueues).Keys
      ensures forall id :: id in ruleQueues ==> ruleQueues[id] == old(ruleQueues)[id] + [ev]
      ensures rules == old(rules) && states == old(states) && ruleThreads == old(ruleThreads)
      ensures ruleCts == old(ruleCts) && alertsCollection == old(alertsCollection)
      ensures isInitialized == old(isInitialized)
    {
      ruleQueues := AppendToAll(ruleQueues, ev);
    }

    /** Every live worker takes the event from its queue and handles it. */
    method RunWorkers(ev: MaritimeEvent, eval: ConditionEval, now: real)
      requires Wellformed() && alertsCollection == []
      requires forall id :: id in ruleThreads && ruleThreads[id].running ==> ruleQueues[id] == [ev]
      modifies this
      ensures Valid()
      ensures rules == old(rules) && states == old(states) && ruleCts == old(ruleCts)
      ensures isInitialized == old(isInitialized)
      ensures ruleThreads.Keys == old(ruleThreads).Keys
      ensures forall id :: id in ruleThreads ==>
        ruleThreads[id] == AfterStep(old(ruleThreads)[id], StepsFor(old(ruleThreads), states, ev, eval, now)(id))
      ensures forall id :: id in ruleQueues ==>
        ruleQueues[id] == if old(ruleThreads)[id].running then [] else old(ruleQueues)[id]
      ensures Collected(alertsCollection, old(ruleThreads), StepsFor(old(ruleThreads), states, ev, eval, now))
    {
      var threads0 := ruleThreads;
      var step := StepsFor(threads0, states, ev, eval, now);
      assert forall id :: id in threads0 && step(id).Matched? ==> step(id).alert.ruleId == id;
      var threads, queues, collected := RunAll(threads0, ruleQueues, step);
      assert forall id :: id in threads ==> threads[id].rule == threads0[id].rule;
      assert forall id :: id in threads && threads[id].running ==> threads0[id].running;
      ruleThreads, ruleQueues, alertsCollection := threads, queues, collected;
    }

    /** Evaluates one event: initialise if needed, clear the collected
        alerts, broadcast, let every live worker handle the event, then
        apply the exclusive-rule filter. */
    method Evaluate(ev: MaritimeEvent, eval: ConditionEval, now: real) returns (alerts: seq<Alert>)
      requires Valid()
      modifies this
      ensures Valid() && isInitialized
      ensures rules == old(rules)
      ensures old(isInitialized) ==> states == old(states)
      ensures !old(isInitialized) ==> StatesGrown(old(states), states, EnabledIds(rules))
      ensures var pre := if old(isInitialized) then old(ruleThreads) else Launched(rules);
        && ruleThreads.Keys == pre.Keys
        && (forall id :: id in ruleThreads ==>
              ruleThreads[id] == AfterStep(pre[id], StepsFor(pre, states, ev, eval, now)(id)))
        && Collected(alertsCollection, pre, StepsFor(pre, states, ev, eval, now))
      ensures forall id :: id in ruleQueues ==>
        ruleQueues[id] == if id in old(ruleThreads) && id in old(ruleQueues) && !old(ruleThreads)[id].running
                          then old(ruleQueues)[id] + [ev] else []
      ensures alerts == ExclusiveFilter(rules, alertsCollection)
    {
      if !isInitialized {
        InitializeRuleThreads();
      }
      alertsCollection := [];
      Broadcast(ev);
      RunWorkers(ev, eval, now);
      alerts := ExclusiveFilter(rules, alertsCollection);
    }
  }
}
