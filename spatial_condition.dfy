/** `SpatialCondition.Evaluate`: a switch over the operation name. */
module SpatialConditions {
  import opened Wrappers
  import opened Domain
  import opened GeoUtils

  /** The outcome of a spatial condition for one event. A null polygon or
      circle centre, dereferenced by the chosen operation, raises a
      `NullReferenceException`. The rule state is not an input. */
  function EvaluateSpatial(c: SpatialSpec, ev: MaritimeEvent, distance: DistanceFn): (r: Result<bool, Fault>)
    ensures c.op == Some("in_polygon") ==>
      (r.Ok? <==> c.polygon.Some?) && (r.Ok? ==> r.value == Inside(ev.location, c.polygon.value))
    ensures c.op == Some("in_circle") ==>
      (r.Ok? <==> c.circleCenter.Some?)
      && (r.Ok? ==> (r.value <==> distance(ev.location, c.circleCenter.value) <= c.radiusMeters))
    ensures c.op == Some("side_distance_lt") ==>
      r.Ok? && (r.value <==> c.otherEntity.Some?
                             && distance(ev.location, c.otherEntity.value.location) < c.distanceMeters)
    ensures c.op !in {Some("in_polygon"), Some("in_circle"), Some("side_distance_lt")} ==> r == Ok(false)
  {
    match c.op
    case Some("in_polygon") =>
      if c.polygon.None? then Err(NullReference("Polygon"))
      else Ok(Inside(ev.location, c.polygon.value))
    case Some("in_circle") =>
      if c.circleCenter.None? then Err(NullReference("CircleCenter"))
      else Ok(distance(ev.location, c.circleCenter.value) <= c.radiusMeters)
    case Some("side_distance_lt") =>
      Ok(c.otherEntity.Some? && distance(ev.location, c.otherEntity.value.location) < c.distanceMeters)
    case _ => Ok(false)
  }

  /** A fresh condition has no operation, so it never matches. */
  lemma DefaultNeverMatches(ev: MaritimeEvent, distance: DistanceFn)
    ensures EvaluateSpatial(DefaultSpatialSpec(), ev, distance) == Ok(false)
  {
  }

  /** `in_polygon` does not depend on which vertex the polygon is listed from. */
  lemma InPolygonRotation(c: SpatialSpec, ev: MaritimeEvent, distance: DistanceFn)
    requires c.op == Some("in_polygon") && c.polygon.Some? && |c.polygon.value| > 0
    ensures EvaluateSpatial(c.(polygon := Some(Rotate(c.polygon.value))), ev, distance)
            == EvaluateSpatial(c, ev, distance)
  {
    RotateInside(ev.location, c.polygon.value);
  }

  /** An `in_polygon` condition over fewer than three vertices never matches. */
  lemma DegeneratePolygonNeverMatches(c: SpatialSpec, ev: MaritimeEvent, distance: DistanceFn)
    requires c.op == Some("in_polygon") && c.polygon.Some? && |c.polygon.value| <= 2
    ensures EvaluateSpatial(c, ev, distance) == Ok(false)
  {
  }
}
