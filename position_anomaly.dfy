/** The position-anomaly condition: it loads the transition models once,
    reads the course and the vessel type from an event's attributes and asks
    the single-point check whether the position is anomalous, failing open. */
module PositionAnomaly {
  import opened Wrappers
  import opened Domain
  import opened VesselPrediction

  /** Attribute names tried for the course, in order. */
  const CourseKeys: seq<string> := ["COG", "Cog", "course", "Course"]
  /** Attribute names tried for the vessel-type code, in order. */
  const VesselTypeKeys: seq<string> := ["VesselType", "vtype", "VesselTypeCode"]

  /** `double.TryParse` and `int.TryParse` on the text form of a value,
      left uninterpreted; a failed parse yields `None`. */
  datatype Parsers = Parsers(parseDouble: string -> Option<real>, parseInt: string -> Option<int>)

  /** The value under the first of `keys` the attributes hold (a chain of
      `TryGetValue` joined by `||`). */
  function FirstPresent(attrs: map<string, AttrValue>, keys: seq<string>): (v: Option<AttrValue>)
    ensures v.None? <==> forall i :: 0 <= i < |keys| ==> keys[i] !in attrs
    ensures v.Some? ==> exists i :: (0 <= i < |keys| && keys[i] in attrs && attrs[keys[i]] == v.value
                                     && forall j :: 0 <= j < i ==> keys[j] !in attrs)
  {
    if keys == [] then None
    else if keys[0] in attrs then Some(attrs[keys[0]])
    else
      var v := FirstPresent(attrs, keys[1..]);
      assert v.Some? ==> exists i :: (1 <= i < |keys| && keys[i] in attrs && attrs[keys[i]] == v.value
                                      && forall j :: 0 <= j < i ==> keys[j] !in attrs) by {
        if v.Some? {
          var i :| 0 <= i < |keys[1..]| && keys[1..][i] in attrs && attrs[keys[1..][i]] == v.value
                   && forall j :: 0 <= j < i ==> keys[1..][j] !in attrs;
          assert forall j :: 1 <= j < i + 1 ==> keys[j] == keys[1..][j - 1];
        }
      }
      v
  }

  /** The course a value yields: numbers are taken as they are, text is
      parsed, anything that does not parse as a double gives 0. */
  function CourseOf(v: AttrValue, p: Parsers): (cog: real)
    ensures v.AReal? ==> cog == v.r
    ensures v.AInt? ==> cog == v.i as real
    ensures v.AText? && p.parseDouble(v.s).Some? ==> cog == p.parseDouble(v.s).value
    ensures v.AText? && p.parseDouble(v.s).None? ==> cog == 0.0
    ensures v.ABool? || v.ANull? ==> cog == 0.0
  {
    match v
    case AReal(r) => r
    case AInt(i) => i as real
    case AText(s) => p.parseDouble(s).GetOr(0.0)
    case ABool(_) => 0.0
    case ANull => 0.0
  }

  predicate InInt32(n: int) { -0x8000_0000 <= n < 0x8000_0000 }

  /** The vessel type a value yields: a 32-bit integer, a double whose text
      form is a 32-bit integer, or parsable text; anything else gives 0. */
  function VesselTypeOf(v: AttrValue, p: Parsers): (vtype: int)
    ensures InInt32(vtype)
    ensures v.AInt? && InInt32(v.i) ==> vtype == v.i
    ensures v.AInt? && !InInt32(v.i) ==> vtype == 0
    ensures v.AReal? && v.r != v.r.Floor as real ==> vtype == 0
    ensures v.AText? && p.parseInt(v.s).Some? && InInt32(p.parseInt(v.s).value) ==> vtype == p.parseInt(v.s).value
    ensures v.AText? && p.parseInt(v.s).None? ==> vtype == 0
    ensures v.ABool? || v.ANull? ==> vtype == 0
  {
    match v
    case AInt(i) => if InInt32(i) then i else 0
    case AReal(r) => if r == r.Floor as real && InInt32(r.Floor) then r.Floor else 0
    case AText(s) => if p.parseInt(s).Some? && InInt32(p.parseInt(s).value) then p.parseInt(s).value else 0
    case ABool(_) => 0
    case ANull => 0
  }

  /** The course comes from the first course key present and from no other:
      a present but unparsable value gives 0 even when a later key holds a
      good one. Without any course key the course is 0. */
  function ReadCourse(attrs: map<string, AttrValue>, p: Parsers): (cog: real)
    ensures "COG" in attrs ==> cog == CourseOf(attrs["COG"], p)
    ensures "COG" !in attrs && "Cog" in attrs ==> cog == CourseOf(attrs["Cog"], p)
    ensures "COG" !in attrs && "Cog" !in attrs && "course" in attrs ==> cog == CourseOf(attrs["course"], p)
    ensures "COG" !in attrs && "Cog" !in attrs && "course" !in attrs && "Course" in attrs ==>
      cog == CourseOf(attrs["Course"], p)
    ensures (forall k :: k in CourseKeys ==> k !in attrs) ==> cog == 0.0
  {
    var v := FirstPresent(attrs, CourseKeys);
    assert CourseKeys[0] == "COG" && CourseKeys[1] == "Cog";
    assert CourseKeys[2] == "course" && CourseKeys[3] == "Course";
    assert v.Some? ==> exists i :: 0 <= i < |CourseKeys| && CourseKeys[i] in attrs && attrs[CourseKeys[i]] == v.value
                                   && (i >= 1 ==> "COG" !in attrs) && (i >= 2 ==> "Cog" !in attrs)
                                   && (i >= 3 ==> "course" !in attrs);
    match v
    case None => 0.0
    case Some(value) => CourseOf(value, p)
  }

  /** The vessel type likewise comes from the first vessel-type key present,
      and is 0 without one. */
  function ReadVesselType(attrs: map<string, AttrValue>, p: Parsers): (vtype: int)
    ensures "VesselType" in attrs ==> vtype == VesselTypeOf(attrs["VesselType"], p)
    ensures "VesselType" !in attrs && "vtype" in attrs ==> vtype == VesselTypeOf(attrs["vtype"], p)
    ensures "VesselType" !in attrs && "vtype" !in attrs && "VesselTypeCode" in attrs ==>
      vtype == VesselTypeOf(attrs["VesselTypeCode"], p)
    ensures (forall k :: k in VesselTypeKeys ==> k !in attrs) ==> vtype == 0
  {
    var v := FirstPresent(attrs, VesselTypeKeys);
    assert VesselTypeKeys[0] == "VesselType" && VesselTypeKeys[1] == "vtype";
    assert VesselTypeKeys[2] == "VesselTypeCode";
    assert v.Some? ==> exists i :: 0 <= i < |VesselTypeKeys| && VesselTypeKeys[i] in attrs
                                   && attrs[VesselTypeKeys[i]] == v.value
                                   && (i >= 1 ==> "VesselType" !in attrs) && (i >= 2 ==> "vtype" !in attrs);
    match v
    case None => 0
    case Some(value) => VesselTypeOf(value, p)
  }

  predicate IsWhiteSpace(c: char) {
    c == ' ' || c == '\t' || c == '\n' || c == '\r' || c == '\U{000B}' || c == '\U{000C}'
  }

  /** `string.IsNullOrWhiteSpace`: a missing or empty folder is blank, so is
      one made only of white space, and one with any character that is not
      white space is not. */
  function IsBlank(s: Option<string>): (blank: bool)
    ensures s.None? || s == Some("") ==> blank
    ensures s.Some? && |s.value| > 0 && (forall i :: 0 <= i < |s.value| ==> IsWhiteSpace(s.value[i])) ==> blank
    ensures s.Some? && (exists i :: 0 <= i < |s.value| && !IsWhiteSpace(s.value[i])) ==> !blank
  {
    s.None? || forall i :: 0 <= i < |s.value| ==> IsWhiteSpace(s.value[i])
  }

  /** The verdict once the models are loaded: the single-point check must
      succeed and report an anomaly; a failing check counts as normal. So a
      vessel of a class with no model is never flagged, a position whose
      state was never recorded for its class is, and a recorded state is
      flagged exactly when its mean outcome probability is below the
      threshold. */
  function AnomalyVerdict(models: Models, grid: H3Grid, ev: MaritimeEvent, p: Parsers): (flagged: bool)
    ensures var cls := MapVesselTypeToClass(ReadVesselType(ev.attributes, p));
            var key := MakeStateKey(grid.cellOf(ev.location.lat, ev.location.lon), ReadCourse(ev.attributes, p));
            && (cls !in models ==> !flagged)
            && (cls in models && key !in models[cls] ==> flagged)
            && (cls in models && key in models[cls] ==>
                  (flagged <==> |models[cls][key]| > 0 && Mean(models[cls][key]) < AnomalyThreshold))
  {
    var r := CheckState(models, grid, ev.location.lat, ev.location.lon,
                        ReadCourse(ev.attributes, p), ReadVesselType(ev.attributes, p));
    r.Ok? && r.value.isAnomaly
  }

  /** What one attempt to read the model folder produced: the class models
      it stored before finishing or failing, and whether it finished. */
  datatype LoadOutcome = LoadOutcome(loaded: Models, completed: bool)

  /** The state every instance of the condition shares: the predictor's
      models and the loaded-once flag. */
  class AnomalyModelHost {
    var modelsLoaded: bool
    var models: Models

    constructor()
      ensures !modelsLoaded && models == map[]
    {
      modelsLoaded := false;
      models := map[];
    }

    /** One evaluation of a position-anomaly condition whose model folder is
        `modelFolder`; `load` is what reading that folder would produce. */
    method Evaluate(modelFolder: Option<string>, ev: Option<MaritimeEvent>, load: LoadOutcome,
                    grid: H3Grid, p: Parsers) returns (r: bool)
      modifies this
      ensures ev.None? ==> !r && modelsLoaded == old(modelsLoaded) && models == old(models)
      ensures ev.Some? && !old(modelsLoaded) && !IsBlank(modelFolder) ==>
        models == old(models) + load.loaded && modelsLoaded == load.completed
      ensures ev.Some? && (old(modelsLoaded) || IsBlank(modelFolder)) ==>
        modelsLoaded == old(modelsLoaded) && models == old(models)
      ensures old(modelsLoaded) ==> modelsLoaded
      ensures r <==> ev.Some? && modelsLoaded && AnomalyVerdict(models, grid, ev.value, p)
    {
      if ev.None? {
        return false;
      }
      if !modelsLoaded {
        if !IsBlank(modelFolder) {
          models := models + load.loaded;
          if load.completed {
            modelsLoaded := true;
          }
        }
      }
      if !modelsLoaded {
        return false;
      }
      var e := ev.value;
      var cog := ReadCourse(e.attributes, p);
      var vtype := ReadVesselType(e.attributes, p);
      var res := CheckState(models, grid, e.location.lat, e.location.lon, cog, vtype);
      r := res.Ok? && res.value.isAnomaly;
    }
  }
}
