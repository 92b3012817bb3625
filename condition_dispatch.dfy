/** `Condition.Evaluate` is virtual: the engine calls it on every condition
    of a rule and each variant answers for itself. The engine's worker takes
    that evaluation as a `ConditionEval` parameter; the predicates here say
    what it is for the variants this model defines, and the lemmas follow a
    one-condition rule through the worker. */
module ConditionDispatch {
  import opened Wrappers
  import opened Domain
  import opened GeoUtils
  import opened SpatialConditions
  import opened VesselPrediction
  import opened PositionAnomaly
  import opened RuleLogic

  /** The evaluation answers a spatial condition as `SpatialCondition.Evaluate`
      does, with `distance` as the great-circle distance. */
  ghost predicate SpatialDispatch(eval: ConditionEval, distance: DistanceFn) {
    forall s: SpatialSpec, ev: MaritimeEvent, st: RuleState ::
      eval(SpatialCondition(s), ev, st) == EvaluateSpatial(s, ev, distance)
  }

  /** The evaluation answers a position-anomaly condition, whatever its
      model folder, as the shared host does once its models are loaded. */
  ghost predicate AnomalyDispatch(eval: ConditionEval, models: Models, grid: H3Grid, p: Parsers) {
    forall folder: Option<string>, ev: MaritimeEvent, st: RuleState ::
      eval(PositionAnomalyCondition(folder), ev, st) == Ok(AnomalyVerdict(models, grid, ev, p))
  }

  /** A rule whose only condition is a fresh spatial condition never alerts. */
  lemma DefaultSpatialRuleNeverAlerts(rule: Rule, ev: MaritimeEvent, st: RuleState, eval: ConditionEval,
                                      distance: DistanceFn, now: real)
    requires SpatialDispatch(eval, distance)
    requires rule.conditions == Some([SpatialCondition(DefaultSpatialSpec())])
    ensures !WorkerStep(rule, ev, st, eval, now).Matched?
  {
    if rule.combineLogic == "AND" || rule.combineLogic == "OR" {
      SingleConditionCombine(rule, c => eval(c, ev, st));
      DefaultNeverMatches(ev, distance);
      assert eval(SpatialCondition(DefaultSpatialSpec()), ev, st) == Ok(false);
    }
  }

  /** A rule whose only condition is `in_polygon` alerts exactly for events
      inside the polygon (and only with an action to raise); a missing
      polygon stops the worker with a null reference. */
  lemma PolygonRuleAlertsInside(rule: Rule, s: SpatialSpec, ev: MaritimeEvent, st: RuleState,
                                eval: ConditionEval, distance: DistanceFn, now: real)
    requires SpatialDispatch(eval, distance)
    requires rule.conditions == Some([SpatialCondition(s)]) && s.op == Some("in_polygon")
    ensures rule.combineLogic == "AND" || rule.combineLogic == "OR" ==>
      && (s.polygon.Some? ==>
            (WorkerStep(rule, ev, st, eval, now).Matched?
             <==> Inside(ev.location, s.polygon.value) && rule.action.Some?))
      && (s.polygon.None? ==> WorkerStep(rule, ev, st, eval, now) == Faulted(NullReference("Polygon")))
  {
    if rule.combineLogic == "AND" || rule.combineLogic == "OR" {
      SingleConditionCombine(rule, c => eval(c, ev, st));
      assert eval(SpatialCondition(s), ev, st) == EvaluateSpatial(s, ev, distance);
    }
  }

  /** A rule whose only condition is the position-anomaly condition alerts
      exactly for the events the loaded models flag (and only with an
      action to raise). */
  lemma AnomalyRuleAlertsFlagged(rule: Rule, folder: Option<string>, ev: MaritimeEvent, st: RuleState,
                                 eval: ConditionEval, models: Models, grid: H3Grid, p: Parsers, now: real)
    requires AnomalyDispatch(eval, models, grid, p)
    requires rule.conditions == Some([PositionAnomalyCondition(folder)])
    ensures rule.combineLogic == "AND" || rule.combineLogic == "OR" ==>
      (WorkerStep(rule, ev, st, eval, now).Matched?
       <==> AnomalyVerdict(models, grid, ev, p) && rule.action.Some?)
  {
    if rule.combineLogic == "AND" || rule.combineLogic == "OR" {
      SingleConditionCombine(rule, c => eval(c, ev, st));
      assert eval(PositionAnomalyCondition(folder), ev, st) == Ok(AnomalyVerdict(models, grid, ev, p));
    }
  }
}
