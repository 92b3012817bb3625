# MaritimeFlowService rule engine and transition model, in Dafny

This project models the sequential core of MaritimeFlowService, a vessel-monitoring service. The service turns AIS messages into `MaritimeEvent`s and evaluates them against a prioritised rule list in a `RuleEngine`. Each rule combines spatial, value, aggregation and position-anomaly conditions with AND or OR. The alerts of the highest-priority exclusive rule that fired suppress all other alerts.

The position-anomaly condition consults an H3 transition model (`VesselPrediction`). That model maps a vessel-type code to a class, a course to one of six 60-degree sectors, and a hexagonal cell plus sector to a state key `"(cell, bin)"`. For each state it holds the empirical probabilities of the next cells. On top of it sit a multi-step path predictor and two anomaly checks.

Modules:

- `Domain` (domain.dfy) holds the data classes as datatypes: event, rule, action, state, alert, and the four registered condition variants. A nullable reference is an `Option`, and the .NET exceptions the code can raise are a `Fault`.
- `Decimal` (decimal.dfy) gives the decimal text of integers and the digit-string parse that inverts it.
- `GeoUtils` (geo_utils.dfy) has the even-odd ray-casting `PointInPolygon` as a loop, proved against a crossing-count specification.
- `SpatialConditions` (spatial_condition.dfy) has the `SpatialCondition.Evaluate` operation switch.
- `VesselPrediction` (vessel_prediction.dfy) covers:
  - vessel classes, direction bins and state keys;
  - `PredictPath` as a loop proved equal to a recursive `PathFrom`;
  - the pairwise check (`CheckTransition`) and the single-point check (`CheckState`).
- `PositionAnomaly` (position_anomaly.dfy) covers attribute extraction with key fallback, and a class holding the shared load-once flag and models.
- `Storage` (window_store.dfy) has `WindowStore` as a class over a sequence, with the pruning loop proved against `Retain`.
- `AisConversion` (ais_conversion.dfy) has `ConvertToMaritimeEvent`.
- `RuleLogic` (rule_logic.dfy) has the pure decisions:
  - the stable priority sort;
  - AND/OR combination with short-circuit and exceptions;
  - one worker's reaction to one event;
  - the exclusive-rule filter.
- `ConditionDispatch` (condition_dispatch.dfy) ties the spatial and position-anomaly variants of `Condition.Evaluate` to their evaluators, and follows a one-condition rule of each through the worker.
- `Engine` (rule_engine.dfy) has `RuleEngine` as a class over maps: rules, states, queues, workers, cancellation tokens and collected alerts.

Threads are replaced by a sequential settle step. Each live worker consumes the broadcast event once, in no fixed order.

Behaviour of the code worth noting:

- `HotUpdateRules` stops every worker and starts one per enabled rule of the new list. It does not diff rules by id.
- Rule states are only ever added (`GetOrAdd`) and never removed.
- An exception while a worker evaluates an event ends that worker for good. The `catch` (MaritimeFlowService/Engine/RuleEngine.cs:142-150) sits outside the `foreach` (MaritimeFlowService/Engine/RuleEngine.cs:100-140), so the worker's thread returns. Its queue keeps receiving broadcast events that nobody consumes.

The H3 library is represented by an uninterpreted `H3Grid` (position to cell id, cell id to centre). Great-circle distance is an uninterpreted `DistanceFn`. `double.TryParse` and `int.TryParse` are uninterpreted `Parsers`. Every condition variant reaches the engine through the `ConditionEval` parameter, the virtual `Condition.Evaluate`. `ConditionDispatch.SpatialDispatch` and `ConditionDispatch.AnomalyDispatch` say what it returns for spatial and position-anomaly conditions. For value and aggregation conditions it stays uninterpreted. The clock (`DateTime.UtcNow`) and fresh GUIDs are parameters.

## Model

| member | source | states |
|---|---|---|
| Decimal.NatToString | H3Util/VesselPrediction.cs:74-75 | The text of a cell id or bin is a non-empty digit string, one digit long exactly for numbers below 10 |
| Decimal.IntToString | MaritimeFlowService/Program.cs:338 | Signed decimal text; for non-negative numbers it is the plain digit string |
| Decimal.ParseNat | H3Util/VesselPrediction.cs:127 | A string parses exactly when it is a non-empty run of decimal digits |
| Decimal.ParseNatToString | H3Util/VesselPrediction.cs:127-129 | Round trip: parsing the decimal text of n gives back n |
| Decimal.NatToStringInjective | H3Util/VesselPrediction.cs:191 | Different cell ids have different texts, so a next-cell lookup by text finds exactly its own cell |
| Decimal.IntToStringInjective | MaritimeFlowService/Program.cs:338 | Different signed integers have different texts |
| GeoUtils.PointInPolygon | MaritimeFlowService/Utils/GeoUtils.cs:22-33 | The loop, with j trailing i cyclically, returns exactly the even-odd verdict `Inside`; an empty polygon gives false |
| GeoUtils.Crosses | MaritimeFlowService/Utils/GeoUtils.cs:29 | An edge is counted only when it straddles the point's longitude (one end at or left of it, the other strictly right), so its longitudes differ and the division is defined |
| GeoUtils.Inside | MaritimeFlowService/Utils/GeoUtils.cs:22-33 | The even-odd verdict over all cyclic edges; a polygon of at most two vertices contains no point, since its edges cross in pairs |
| GeoUtils.CrossesSymmetric | MaritimeFlowService/Utils/GeoUtils.cs:29 | The straddle-and-below test gives the same answer for an edge in either direction (and divides only when the longitudes differ) |
| GeoUtils.RotateInside | MaritimeFlowService/Utils/GeoUtils.cs:26 | Starting the polygon at another vertex does not change the verdict, since every cyclic edge is still examined once |
| GeoUtils.UnitSquareExample | MaritimeFlowService/Utils/GeoUtils.cs:22-33 | A unit square contains its centre and not a point outside it |
| SpatialConditions.EvaluateSpatial | MaritimeFlowService/Engine/SpatialCondition.cs:24-33 | in_polygon is `Inside`; in_circle is distance <= radius (inclusive); side_distance_lt is a non-null other entity at distance < threshold (strict); any other op, null included, is false; a null polygon or centre throws |
| SpatialConditions.DefaultNeverMatches | MaritimeFlowService/Engine/SpatialCondition.cs:20-31 | A fresh condition (radius 1000, distance 100, no op) evaluates to false |
| SpatialConditions.InPolygonRotation | MaritimeFlowService/Engine/SpatialCondition.cs:28 | An in_polygon condition gives the same answer whichever vertex its polygon starts at |
| SpatialConditions.DegeneratePolygonNeverMatches | MaritimeFlowService/Engine/SpatialCondition.cs:28 | An in_polygon condition whose polygon has at most two vertices never matches |
| VesselPrediction.MapVesselTypeToClass | H3Util/VesselPrediction.cs:27-38 | 30-35 fishing, 36-39 pleasure, 40-49 highspeed, 55/56 police, rest of 50-59 tug, 60s passenger, 70s cargo, 80s tanker, everything else other |
| VesselPrediction.Rem360 | H3Util/VesselPrediction.cs:68 | C#'s truncating `%` by 360 lies strictly between -360 and 360 and is non-negative for non-negative input |
| VesselPrediction.Wrap360 | H3Util/VesselPrediction.cs:68 | The floored remainder lies in [0, 360) |
| VesselPrediction.Rem360Normalises | H3Util/VesselPrediction.cs:68 | `((cog % 360) + 360) % 360` equals the floored remainder for every course, negative and >= 360 included |
| VesselPrediction.DirectionBin | H3Util/VesselPrediction.cs:66-69 | The bin is in 0..5 for every course and is floor(wrapped course / 60) |
| VesselPrediction.DirectionBinPeriodic | H3Util/VesselPrediction.cs:66-69 | Courses differing by whole turns share a bin |
| VesselPrediction.StateKeyInjective | H3Util/VesselPrediction.cs:71-76 | The "(cell, bin)" key determines both cell and bin |
| VesselPrediction.MakeStateKeySameState | H3Util/VesselPrediction.cs:66-76 | Two (cell, course) pairs give the same key exactly when the cells agree and the courses fall in the same 60-degree bin; adding whole turns to the course keeps the key |
| VesselPrediction.Lookup | H3Util/VesselPrediction.cs:192 | `TryGetValue` fails exactly when no entry has the key, and a hit returns that entry's probability |
| VesselPrediction.BestOf | H3Util/VesselPrediction.cs:113-125 | No pick exactly when no probability exceeds -1; otherwise the pick is an entry with the greatest probability and no earlier entry ties it (first wins) |
| VesselPrediction.PickBest | H3Util/VesselPrediction.cs:113-122 | The inner foreach computes `BestOf` |
| VesselPrediction.MeanBelow | H3Util/VesselPrediction.cs:246 | The average of probabilities all below a bound is below it |
| VesselPrediction.MeanAtLeast | H3Util/VesselPrediction.cs:246 | The average of probabilities all at or above a bound is at or above it |
| VesselPrediction.ParseU64Spec | H3Util/VesselPrediction.cs:127 | `ulong.Parse` succeeds exactly on a non-empty digit string whose value is below 2^64, and then returns that value; otherwise it throws `FormatException` for a non-digit string and `OverflowException` for a too-large number |
| VesselPrediction.ParseU64RoundTrip | H3Util/VesselPrediction.cs:127-129 | The decimal text of any 64-bit cell id parses back to that id |
| VesselPrediction.PathFromLength | H3Util/VesselPrediction.cs:105-143 | A prediction never has more steps than requested |
| VesselPrediction.PathFromChained | H3Util/VesselPrediction.cs:105-143 | Every step of a prediction is the first greatest outcome of the state at the previous step's cell centre (the start position for the first), with its probability, and its coordinates are the centre of its parsed cell; a prediction shorter than requested ends at a state that is unknown or has no candidate |
| VesselPrediction.ChainedSteps | H3Util/VesselPrediction.cs:105-143 | A chained path, read by index: step 0 comes from the start position and step k from the centre recorded in step k-1 |
| VesselPrediction.ChainedIsPathFrom | H3Util/VesselPrediction.cs:105-143 | Conversely, a chained path of at most n steps that is either full or ends at a dead state is exactly the prediction, so the prediction is the only such path |
| VesselPrediction.ChainedFaultIsPathFrom | H3Util/VesselPrediction.cs:124-133 | A chained path that ends where the best next-cell text fails to parse makes the prediction throw that parse exception |
| VesselPrediction.NextStep | H3Util/VesselPrediction.cs:107-133 | One loop iteration: it stops exactly at an unknown state or one without a candidate, otherwise it yields the step `StepFrom` describes or the parse exception of the best text |
| VesselPrediction.PredictPath | H3Util/VesselPrediction.cs:96-146 | Throws when the class has no model; otherwise the loop's result equals `PathFrom` with max(steps, 0) steps (each step chained from the previous, stop at an unknown state or no candidate, a bad next-cell text throws) and holds at most that many steps |
| VesselPrediction.CheckTransition | H3Util/VesselPrediction.cs:151-209 | Throws exactly when the class has no model; same cell gives (false, 1.0) before any lookup; otherwise anomalous exactly when the transition is unrecorded (state or next cell unseen, prob 0) or its recorded prob is below 0.1, and prob is the recorded one |
| VesselPrediction.CheckState | H3Util/VesselPrediction.cs:217-255 | Throws exactly when the class has no model or the state's outcome table is empty (`Average`); an unseen state gives (true, 0); otherwise prob is the mean outcome probability and anomalous exactly when it is below 0.1 |
| VesselPrediction.CheckStateBounds | H3Util/VesselPrediction.cs:245-248 | A state whose outcomes are all below 0.1 is anomalous; one whose outcomes all reach 0.1 is not |
| VesselPrediction.UnseenStateAgreement | H3Util/VesselPrediction.cs:177-241 | Both checks and the predictor read the same "(cell, bin)" key: when the single-point check finds the state unseen, the pairwise check reports the same, and no path is predicted |
| PositionAnomaly.FirstPresent | MaritimeFlowService/Engine/PositionAnomalyCondition.cs:70-71 | A `||` chain of `TryGetValue` yields the value of the first key present, and nothing when none is |
| PositionAnomaly.CourseOf | MaritimeFlowService/Engine/PositionAnomalyCondition.cs:73 | `double.TryParse` on the value's text: a double is itself, an integer its value, text what the parser gives or 0 on failure, a bool or null 0 |
| PositionAnomaly.VesselTypeOf | MaritimeFlowService/Engine/PositionAnomalyCondition.cs:83 | `int.TryParse` on the value's text yields a 32-bit integer: an in-range integer is itself and an out-of-range one 0; a double with a fraction 0; text what the parser gives when in range, 0 on failure; a bool or null 0 |
| PositionAnomaly.ReadCourse | MaritimeFlowService/Engine/PositionAnomalyCondition.cs:67-75 | The course comes from the first of COG, Cog, course, Course present and no other (an unparsable value gives 0 without fallback); 0 when none is present |
| PositionAnomaly.ReadVesselType | MaritimeFlowService/Engine/PositionAnomalyCondition.cs:77-85 | The vessel type comes from the first of VesselType, vtype, VesselTypeCode present and no other; 0 when none is |
| PositionAnomaly.IsBlank | MaritimeFlowService/Engine/PositionAnomalyCondition.cs:35 | `string.IsNullOrWhiteSpace`: a null or empty folder is blank, a non-empty folder of white space only is blank, and a folder with any non-whitespace character is not |
| PositionAnomaly.AnomalyVerdict | MaritimeFlowService/Engine/PositionAnomalyCondition.cs:64-102 | With models loaded: a vessel class without a model is never flagged (the check's exception is swallowed); a state never recorded for its class is flagged; a recorded state is flagged exactly when it has outcomes and their mean is below 0.1 |
| PositionAnomaly.AnomalyModelHost.Evaluate | MaritimeFlowService/Engine/PositionAnomalyCondition.cs:28-103 | A null event is false and loads nothing. A load is tried only while the flag is false and the folder is not blank; it stores what it read and sets the flag only on completion, so a failed load is retried later. The flag never goes back to false. The result is true exactly when the event is non-null, models are loaded and the single-point check succeeds with an anomaly |
| Storage.Retain | MaritimeFlowService/Storage/WindowStore.cs:18 | `RemoveAll` keeps exactly the events no older than the window, future-dated ones included, and no others |
| Storage.RetainAppend | MaritimeFlowService/Storage/WindowStore.cs:18 | Pruning a concatenation prunes each part, so retained events keep their relative order |
| Storage.RetainIdempotent | MaritimeFlowService/Storage/WindowStore.cs:17-19 | A second `GetWindow` at the same instant removes nothing more |
| Storage.RetainAllYoung | MaritimeFlowService/Storage/WindowStore.cs:18 | When every event is young enough, nothing is removed |
| Storage.WindowStore.Add | MaritimeFlowService/Storage/WindowStore.cs:13 | The event is appended at the end and nothing else changes |
| Storage.WindowStore.GetWindow | MaritimeFlowService/Storage/WindowStore.cs:15-20 | The store becomes `Retain` of its old contents, and the returned copy equals it and holds only young events |
| AisConversion.ConvertToMaritimeEvent | MaritimeFlowService/Program.cs:330-364 | A null root or body gives null. A time outside the range `FromUnixTimeSeconds` accepts throws. Otherwise Id is uniqueSign, else globalId, else a fresh GUID (empty strings kept); MMSI and State are decimal texts; RadarPresent is bit 0x02 of fuseFlags; AISSignal is non-empty name and mmsi > 0; no video class; the attributes are exactly `ExtraAttributes` |
| AisConversion.Bit1 | MaritimeFlowService/Program.cs:343 | `(x & 0x02) != 0` on a 32-bit two's-complement integer holds exactly when x mod 4 is 2 or 3, negative x included |
| AisConversion.ExtraAttributes | MaritimeFlowService/Program.cs:349-361 | Exactly the 13 attribute names are set; ship name, call sign and source IP are null exactly when the message's field is; VesselType is the type code and COG the course |
| AisConversion.ConvertedAttributesReadBack | MaritimeFlowService/Program.cs:349-361 | The position-anomaly condition reads back from a converted event the message's course (COG) and type code (VesselType) |
| AisConversion.ConvertedMmsiInjective | MaritimeFlowService/Program.cs:338 | Distinct MMSI numbers give distinct MMSI texts |
| RuleLogic.Insert | MaritimeFlowService/Engine/RuleEngine.cs:32 | Inserting into a priority-ordered list keeps it ordered and adds exactly the one rule |
| RuleLogic.SortByPriority | MaritimeFlowService/Engine/RuleEngine.cs:32 | The result is non-increasing in priority and a permutation of the input |
| RuleLogic.SortByPriorityStable | MaritimeFlowService/Engine/RuleEngine.cs:32 | Rules of equal priority keep their input order (the sort is stable) |
| RuleLogic.AllHold | MaritimeFlowService/Engine/RuleEngine.cs:110 | `All`: true exactly when every condition holds; false exactly when a condition is false after only holding ones; an exception is that of a condition reached after only holding ones |
| RuleLogic.AnyHolds | MaritimeFlowService/Engine/RuleEngine.cs:115 | `Any`: false exactly when every condition is false; true exactly when a condition holds after only false ones; an exception is that of a condition reached after only false ones |
| RuleLogic.Combine | MaritimeFlowService/Engine/RuleEngine.cs:105-118 | Null or empty conditions never match, whatever the logic; with conditions, a logic other than "AND" and "OR" throws `InvalidOperationException` |
| RuleLogic.CombineSemantics | MaritimeFlowService/Engine/RuleEngine.cs:106-117 | With conditions, "AND" is `All` and "OR" is `Any`, each in both directions and with its exception case |
| RuleLogic.NewRuleNeverMatches | MaritimeFlowService/Engine/Rule.cs:18-21 | A rule with the default empty condition list and "AND" never matches |
| RuleLogic.SingleConditionLogicAgrees | MaritimeFlowService/Engine/RuleEngine.cs:108-116 | With one condition, AND and OR give the same outcome |
| RuleLogic.SingleConditionCombine | MaritimeFlowService/Engine/RuleEngine.cs:106-117 | With one condition and AND or OR, the combination is that condition's outcome, exception included |
| RuleLogic.WorkerStep | MaritimeFlowService/Engine/RuleEngine.cs:120-134 | A match requires an action, and its alert carries the rule id, the event id, the action's type, severity and notify list, and the current time |
| RuleLogic.WorkerStepOutcome | MaritimeFlowService/Engine/RuleEngine.cs:100-150 | The worker alerts exactly when the combination holds and the rule has an action, passes exactly when it does not hold, and stops (caught exception) exactly when it throws or a match meets a null action |
| RuleLogic.TopExclusive | MaritimeFlowService/Engine/RuleEngine.cs:196-206 | No winner exactly when no enabled exclusive rule produced an alert; otherwise the winner is such a rule of greatest priority, and no earlier rule in the list ties it |
| RuleLogic.AlertsOf | MaritimeFlowService/Engine/RuleEngine.cs:211 | Keeps exactly the alerts of one rule id |
| RuleLogic.AlertsOfAppend | MaritimeFlowService/Engine/RuleEngine.cs:211 | The kept alerts keep their relative order |
| RuleLogic.AlertsOfIdempotent | MaritimeFlowService/Engine/RuleEngine.cs:211 | Filtering twice by the same id equals filtering once |
| RuleLogic.AlertsOfCounts | MaritimeFlowService/Engine/RuleEngine.cs:211 | Every alert of the kept rule occurs as often as in the input, and every other alert not at all |
| RuleLogic.ExclusiveFilter | MaritimeFlowService/Engine/RuleEngine.cs:193-215 | Without a winner the alerts pass unchanged; with one, the result is the winner's alerts in their collected order (`AlertsOf`), non-empty |
| RuleLogic.ExclusiveFilterIdempotent | MaritimeFlowService/Engine/RuleEngine.cs:193-215 | Applying the filter to its own output changes nothing |
| RuleLogic.NoExclusiveAlertPassesAll | MaritimeFlowService/Engine/RuleEngine.cs:199-200 | If no alert belongs to an enabled exclusive rule, all alerts pass |
| RuleLogic.SpeedRulesBothAlert | MaritimeFlowService/Engine/RuleEngine.cs:105-134 | When the speed condition holds, each of the two example rules' workers raises its own alert |
| RuleLogic.SpeedRulesSorted | MaritimeFlowService/Engine/RuleEngine.cs:32 | Sorting puts the priority-200 exclusive rule before the priority-50 plain one |
| RuleLogic.SpeedAlertsFiltered | MaritimeFlowService/Engine/RuleEngine.cs:193-215 | Of one alert of each example rule, the filter keeps only the exclusive rule's |
| RuleLogic.ExclusiveScenario | MaritimeFlowService/Engine/RuleEngine.cs:100-215 | Two rules with the same condition `SpeedKnots > 10`, one exclusive of priority 200 and one plain of priority 50: when the condition holds, both workers alert (`WorkerStep`), and the filter over the sorted rules keeps only the exclusive rule's alert |
| ConditionDispatch.DefaultSpatialRuleNeverAlerts | MaritimeFlowService/Engine/SpatialCondition.cs:20-31 | A rule whose only condition is a fresh spatial condition never alerts |
| ConditionDispatch.PolygonRuleAlertsInside | MaritimeFlowService/Engine/RuleEngine.cs:105-134 | A rule with one in_polygon condition under AND or OR alerts exactly for events inside the polygon, given an action; a null polygon stops the worker with a null reference |
| ConditionDispatch.AnomalyRuleAlertsFlagged | MaritimeFlowService/Engine/PositionAnomalyCondition.cs:87-102 | A rule with one position-anomaly condition under AND or OR alerts exactly for the events the loaded models flag, given an action |
| Engine.EnabledIdsMembers | MaritimeFlowService/Engine/RuleEngine.cs:42 | An id gets a worker exactly when some enabled rule carries it |
| Engine.EnabledIdsPermutation | MaritimeFlowService/Engine/RuleEngine.cs:32-35 | Sorting does not change which ids get workers |
| Engine.WorkerRules | MaritimeFlowService/Engine/RuleEngine.cs:42-63 | The per-id worker table has exactly the enabled ids as keys |
| Engine.WorkerRulesAreLast | MaritimeFlowService/Engine/RuleEngine.cs:49-62 | With duplicate ids, each id's worker runs the last enabled rule carrying it, since later rules overwrite the queue, token and thread |
| Engine.Launched | MaritimeFlowService/Engine/RuleEngine.cs:42-63 | One running worker per enabled id, running an enabled rule with that id |
| Engine.AfterStep | MaritimeFlowService/Engine/RuleEngine.cs:142-150 | A worker keeps its rule and stays alive exactly when it was alive and did not throw |
| Engine.CollectedAlerts | MaritimeFlowService/Engine/RuleEngine.cs:120-134 | Every collected alert comes from a live worker and describes the event and its rule's action; there are at most as many alerts as workers |
| Engine.LaunchAll | MaritimeFlowService/Engine/RuleEngine.cs:42-66 | The loop gives every enabled id an empty queue, a token and a running worker (`Launched`), and adds a fresh state only for ids without one |
| Engine.AppendToAll | MaritimeFlowService/Engine/RuleEngine.cs:170-176 | Every queue gets the event appended once, and no queue is added or removed |
| Engine.RunAll | MaritimeFlowService/Engine/RuleEngine.cs:100-150 | Every live worker takes the event (its queue empties) and reacts as `WorkerStep` says; a throw stops it; the collected alerts are exactly one per live matching worker |
| Engine.RuleEngine.InitializeRuleThreads | MaritimeFlowService/Engine/RuleEngine.cs:40-69 | Queues, tokens and workers are exactly those of the enabled rules, queues empty, states only grow, the flag is set |
| Engine.RuleEngine.StopRuleThreads | MaritimeFlowService/Engine/RuleEngine.cs:71-94 | All queues, workers and tokens are cleared, states and rules are kept, the flag is cleared |
| Engine.RuleEngine.HotUpdateRules | MaritimeFlowService/Engine/RuleEngine.cs:21-38 | Rules become the stable descending-priority sort of the new list; workers are exactly those of its enabled rules; existing states survive unchanged and new enabled ids get fresh ones |
| Engine.RuleEngine.Broadcast | MaritimeFlowService/Engine/RuleEngine.cs:166-181 | The event is appended once to every existing queue and nothing else changes |
| Engine.RuleEngine.RunWorkers | MaritimeFlowService/Engine/RuleEngine.cs:96-151 | The settle step: live workers drain their queues and react; stopped workers' queues keep growing; alerts are collected as `Collected` says |
| Engine.RuleEngine.Evaluate | MaritimeFlowService/Engine/RuleEngine.cs:153-218 | Initialises only when not yet initialised (states untouched otherwise); clears the alerts; every live worker handles the event; dead workers' queues keep the event; the result is `ExclusiveFilter` of the collected alerts under the current rules |

## Left out

- Threads, locks, `BlockingCollection` blocking, cancellation and the 100 ms settle delay are not modelled. The model assumes every live worker handles the event before the alerts are read. A worker that misses the delay, and concurrent `Evaluate` and `HotUpdateRules` calls, are not modelled.
- The order in which `ConcurrentBag` yields the collected alerts is left open. `RuleEngine.Evaluate` states the collected alerts as a set of one alert per matching worker, in any order.
- `Engine.RuleEngine.Evaluate`: a null event is not modelled; `Evaluate`, `Broadcast`, `RunWorkers` and `WorkerStep` take a present `MaritimeEvent`. In the program a message without a body converts to null (MaritimeFlowService/Program.cs:332-333) and is queued and evaluated unchecked. Each live worker then evaluates its conditions on it. The in_polygon, in_circle and side_distance_lt spatial conditions and value conditions dereference it and throw `NullReferenceException`, which ends the worker for good (MaritimeFlowService/Engine/RuleEngine.cs:142-150). The position-anomaly condition returns false for it (MaritimeFlowService/Engine/PositionAnomalyCondition.cs:30). A rule that matched anyway would throw when it reads the event's id for the alert (MaritimeFlowService/Engine/RuleEngine.cs:130).
- `Engine.RuleEngine.HotUpdateRules`: a null entry in the new rule list is not modelled. In the program, the sort's key selector throws on it (MaritimeFlowService/Engine/RuleEngine.cs:32) after the workers have already been stopped (MaritimeFlowService/Engine/RuleEngine.cs:27-30). The engine is then left stopped with its old rules, and the next `Evaluate` restarts workers for those.
- `RuleEngine.Dispose` is not modelled because it only throws `NotImplementedException`.
- Console output is not modelled.
- `HotUpdateRule`, `RuleLoader`, `RuleWatcher`, Kafka consumption, the alert dispatcher and the service bootstrap are not part of this model.
- The position-anomaly evaluation reads and updates the shared load state (the load-once flag and the models), so it is not a pure function of condition, event and state. `ConditionDispatch.AnomalyDispatch` states the steady state once the models are loaded; `PositionAnomaly.AnomalyModelHost.Evaluate` models one call, loading included.
- `ValueCondition` and `AggregationCondition` are carried as data, and their evaluation is the `ConditionEval` parameter. Their updates of `RuleState` (recent events, timestamps) are therefore not modelled: a state is created and kept, but not changed.
- `TemporalStateCondition` is not modelled because it is not among the variants registered for rule files.
- H3 cell indexing, cell centres and the hexadecimal `H3Index` text round trip are uninterpreted (`H3Grid`).
- `DistanceMeters` (haversine) is uninterpreted (`DistanceFn`).
- Coordinates, courses and probabilities are exact reals. IEEE rounding, NaN and infinities are not modelled.
- `VesselPrediction.LoadModels` reads files and JSON. The model does not read files; the outcome of one load attempt is a parameter (`LoadOutcome`: the class models it stored, and whether it completed).
- The enumeration order of an outcome dictionary is the order of its `seq` of pairs.
- `ParseU64`: the model does not accept the surrounding whitespace or the leading `+` that `ulong.Parse` tolerates. The model files hold plain decimal cell ids.
- `IsBlank`: whitespace is the ASCII whitespace set, not every Unicode `char.IsWhiteSpace` character.
- `CourseOf` and `VesselTypeOf`: the `ToString` / `TryParse` round trip of a boxed value is modelled as follows:
  - numbers are taken directly;
  - a double counts as an integer when it has no fraction;
  - text goes through the `Parsers` parameter.
- `PredictPath`: the default argument `steps = 5` (H3Util/VesselPrediction.cs:96) is not modelled; callers pass the step count.
- `ConvertToMaritimeEvent`: `EventTime` is seconds since the Unix epoch (a real), not a `DateTime`. The fresh GUID is a parameter.
- A null attribute dictionary on an event and a null rule id are not modelled. `MaritimeEvent` initialises its dictionary (MaritimeFlowService/Engine/MaritimeEvent.cs:21), and rule files name every rule.
- Timestamps (`DateTime.UtcNow`) are the `now` parameter.
