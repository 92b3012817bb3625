/** The data classes of the rule engine, as values: `MaritimeEvent`, `Rule`,
    `RuleAction`, `RuleState`, `Alert` and the closed family of conditions
    registered for rule files. A C# reference that may be null is an `Option`. */
module Domain {
  import opened Wrappers

  /** The .NET exceptions that the modelled code can raise. */
  datatype Fault =
    | NullReference(what: string)
    | InvalidOperation(message: string)
    | FormatError(text: string)
    | Overflow(text: string)
    | ArgumentOutOfRange(what: string)

  /** A 32-bit and a 64-bit signed integer (C# `int`, `long`). */
  type Int32 = x: int | -0x8000_0000 <= x < 0x8000_0000
  type Int64 = x: int | -0x8000_0000_0000_0000 <= x < 0x8000_0000_0000_0000

  /** A boxed value of the event attribute dictionary (`Dictionary<string, object>`). */
  datatype AttrValue =
    | AInt(i: int)
    | AReal(r: real)
    | AText(s: string)
    | ABool(b: bool)
    | ANull

  /** A position; `(double Lat, double Lon)` in the event, `Coordinate` in conditions. */
  datatype LatLon = LatLon(lat: real, lon: real)

  /** One vessel observation. `eventTime` is in seconds since the Unix epoch. */
  datatype MaritimeEvent = MaritimeEvent(
    id: string,
    mmsi: string,
    location: LatLon,
    speedKnots: real,
    eventTime: real,
    state: string,
    radarPresent: bool,
    aisSignal: bool,
    videoDetectionClass: Option<string>,
    attributes: map<string, AttrValue>)

  datatype RuleAction = RuleAction(alertType: string, severity: string, notify: seq<string>)

  /** The parameters of a spatial condition; `op`, `polygon`, `circleCenter`
      and `otherEntity` may be null. */
  datatype SpatialSpec = SpatialSpec(
    op: Option<string>,
    polygon: Option<seq<LatLon>>,
    circleCenter: Option<LatLon>,
    radiusMeters: real,
    distanceMeters: real,
    otherEntity: Option<MaritimeEvent>)

  /** A freshly constructed `SpatialCondition`: radius 1000 m, distance 100 m, nothing else set. */
  function DefaultSpatialSpec(): SpatialSpec {
    SpatialSpec(None, None, None, 1000.0, 100.0, None)
  }

  /** The condition variants a rule file can name. Only the spatial and the
      position-anomaly variants are evaluated by this model; the other two are
      carried as data and evaluated by an oracle. */
  datatype Condition =
    | ValueCondition(field: string, operator: string, value: string)
    | SpatialCondition(spatial: SpatialSpec)
    | AggregationCondition(aggOp: Option<string>, threshold: int, windowSeconds: int, filter: Option<Condition>)
    | PositionAnomalyCondition(modelFolder: Option<string>)

  /** A rule definition; `conditions` and `action` may be null. */
  datatype Rule = Rule(
    id: string,
    description: string,
    priority: int,
    enabled: bool,
    exclusive: bool,
    conditions: Option<seq<Condition>>,
    combineLogic: string,
    action: Option<RuleAction>)

  /** A `Rule` as its parameterless constructor leaves it: combine logic
      "AND", an empty condition list, no action. */
  function NewRule(id: string): Rule {
    Rule(id, "", 0, false, false, Some([]), "AND", None)
  }

  /** Per-rule evaluation memory (times in seconds since the Unix epoch). */
  datatype RuleState = RuleState(
    ruleId: string,
    temporalStart: map<string, real>,
    lastSeen: map<string, real>,
    recentEvents: seq<MaritimeEvent>)

  function NewRuleState(id: string): RuleState {
    RuleState(id, map[], map[], [])
  }

  datatype Alert = Alert(
    ruleId: string,
    alertType: string,
    severity: string,
    entityId: string,
    timestamp: real,
    notify: seq<string>)
}
