/** The hexagonal-cell transition model: vessel classes, direction bins,
    state keys, multi-step path prediction and the two anomaly checks.
    Cell indexing is a foreign library; an `H3Grid` value stands for it. */
module VesselPrediction {
  import opened Wrappers
  import opened Domain
  import opened Decimal

  /** The cell resolution every model is built at; `H3Grid.cellOf` works at it. */
  const Resolution: nat := 10
  const BinSize: real := 60.0
  const AnomalyThreshold: real := 0.1

  /** The position-to-cell and cell-to-centre conversions of the H3 library
      at `Resolution`, left uninterpreted. Cell ids are the 64-bit indexes. */
  datatype H3Grid = H3Grid(cellOf: (real, real) -> nat, centreOf: nat -> (real, real))

  /** Outcomes of one state: next-cell id (decimal text) and its empirical
      probability, in the dictionary's enumeration order. */
  predicate DistinctKeys(outs: seq<(string, real)>) {
    forall i, j :: 0 <= i < j < |outs| ==> outs[i].0 != outs[j].0
  }
  type Outcomes = outs: seq<(string, real)> | DistinctKeys(outs)
  /** State key to outcomes, for one vessel class. */
  type ClassModel = map<string, Outcomes>
  /** Vessel class name to its model. */
  type Models = map<string, ClassModel>

  // ---------------------------------------------------------------------
  // Vessel classes

  /** The class whose model serves a vessel-type code. */
  function MapVesselTypeToClass(vtype: int): (cls: string)
    ensures 30 <= vtype <= 35 ==> cls == "fishing"
    ensures 36 <= vtype <= 39 ==> cls == "pleasure"
    ensures 40 <= vtype <= 49 ==> cls == "highspeed"
    ensures vtype == 55 || vtype == 56 ==> cls == "police"
    ensures 50 <= vtype <= 59 && vtype != 55 && vtype != 56 ==> cls == "tug"
    ensures 60 <= vtype <= 69 ==> cls == "passenger"
    ensures 70 <= vtype <= 79 ==> cls == "cargo"
    ensures 80 <= vtype <= 89 ==> cls == "tanker"
    ensures vtype < 30 || vtype > 89 ==> cls == "other"
  {
    if 30 <= vtype <= 39 then (if vtype >= 36 then "pleasure" else "fishing")
    else if 50 <= vtype <= 59 then (if vtype == 55 || vtype == 56 then "police" else "tug")
    else if 60 <= vtype <= 69 then "passenger"
    else if 70 <= vtype <= 79 then "cargo"
    else if 80 <= vtype <= 89 then "tanker"
    else if 40 <= vtype <= 49 then "highspeed"
    else "other"
  }

  // ---------------------------------------------------------------------
  // Direction bins

  /** Truncation toward zero, as the `(int)` cast of a double. */
  function Trunc(x: real): int {
    if x >= 0.0 then x.Floor else -((-x).Floor)
  }

  /** C#'s `x % 360` on doubles: the remainder takes the sign of `x`. */
  function Rem360(x: real): (r: real)
    ensures -360.0 < r < 360.0
    ensures x >= 0.0 ==> r >= 0.0
  {
    x - 360.0 * Trunc(x / 360.0) as real
  }

  /** The course reduced to [0, 360) (the floored remainder). */
  function Wrap360(x: real): (w: real)
    ensures 0.0 <= w < 360.0
  {
    x - 360.0 * (x / 360.0).Floor as real
  }

  lemma Rem360Normalises(cog: real)
    ensures Rem360(Rem360(cog) + 360.0) == Wrap360(cog)
  {
    var y := Rem360(cog);
    var t1 := Trunc(cog / 360.0);
    assert y == cog - 360.0 * t1 as real;
    var z := y + 360.0;
    assert z > 0.0;
    var t2 := Trunc(z / 360.0);
    assert t2 == (z / 360.0).Floor;
    var w := Rem360(z);
    assert w == cog - 360.0 * (t1 + t2 - 1) as real;
    var f := (cog / 360.0).Floor;
    assert Wrap360(cog) == cog - 360.0 * f as real;
    assert 0.0 <= w < 360.0;
    var d := f - (t1 + t2 - 1);
    assert w - Wrap360(cog) == 360.0 * d as real;
    assert -1 < d < 1;
  }

  /** The 60-degree sector of a course: normalise to [0, 360), divide by 60, truncate. */
  function DirectionBin(cog: real): (bin: int)
    ensures 0 <= bin <= 5
    ensures bin == (Wrap360(cog) / BinSize).Floor
  {
    Rem360Normalises(cog);
    Trunc(Rem360(Rem360(cog) + 360.0) / BinSize)
  }

  /** Courses that differ by whole turns fall in the same sector. */
  lemma DirectionBinPeriodic(cog: real, k: int)
    ensures DirectionBin(cog + 360.0 * k as real) == DirectionBin(cog)
  {
    var x := cog + 360.0 * k as real;
    assert (x / 360.0).Floor == (cog / 360.0).Floor + k by {
      assert x / 360.0 == cog / 360.0 + k as real;
    }
    assert Wrap360(x) == Wrap360(cog);
  }

  // ---------------------------------------------------------------------
  // State keys

  /** The text "(cell, bin)" under which the model files store a state. */
  function StateKey(cell: nat, bin: nat): string
  {
    "(" + NatToString(cell) + ", " + NatToString(bin) + ")"
  }

  /** The key of the state a vessel in `cell` heading `cog` is in: the cell
      with one of the six sectors. */
  function MakeStateKey(cell: nat, cog: real): string {
    StateKey(cell, DirectionBin(cog))
  }

  /** Different (cell, bin) pairs never share a key, so a lookup never confuses two states. */
  lemma StateKeyInjective(c1: nat, b1: nat, c2: nat, b2: nat)
    ensures StateKey(c1, b1) == StateKey(c2, b2) ==> c1 == c2 && b1 == b2
  {
    var a1, a2 := NatToString(c1), NatToString(c2);
    var d1, d2 := NatToString(b1), NatToString(b2);
    var k1, k2 := StateKey(c1, b1), StateKey(c2, b2);
    assert k1 == "(" + a1 + ", " + d1 + ")";
    assert k2 == "(" + a2 + ", " + d2 + ")";
    if |a1| < |a2| {
      assert k1[1 + |a1|] == ',';
      assert k2[1 + |a1|] == a2[|a1|];
      assert IsDigit(a2[|a1|]);
      assert k1 != k2;
    } else if |a2| < |a1| {
      assert k2[1 + |a2|] == ',';
      assert k1[1 + |a2|] == a1[|a2|];
      assert IsDigit(a1[|a2|]);
      assert k1 != k2;
    } else if k1 == k2 {
      assert k1[1..1 + |a1|] == a1;
      assert k2[1..1 + |a2|] == a2;
      assert k1[3 + |a1|..|k1| - 1] == d1;
      assert k2[3 + |a2|..|k2| - 1] == d2;
      NatToStringInjective(c1, c2);
      NatToStringInjective(b1, b2);
    }
  }
  /** Two positions share a state exactly when they are in the same cell
      and head into the same sector; whole turns of course do not matter. */
  lemma MakeStateKeySameState(c1: nat, cog1: real, c2: nat, cog2: real, k: int)
    ensures MakeStateKey(c1, cog1) == MakeStateKey(c2, cog2)
            <==> c1 == c2 && DirectionBin(cog1) == DirectionBin(cog2)
    ensures MakeStateKey(c1, cog1 + 360.0 * k as real) == MakeStateKey(c1, cog1)
  {
    StateKeyInjective(c1, DirectionBin(cog1), c2, DirectionBin(cog2));
    DirectionBinPeriodic(cog1, k);
  }


  // ---------------------------------------------------------------------
  // Outcome tables

  /** `TryGetValue` on an outcome table. */
  function Lookup(outs: seq<(string, real)>, key: string): (p: Option<real>)
    ensures p.None? <==> forall i :: 0 <= i < |outs| ==> outs[i].0 != key
    ensures p.Some? ==> exists i :: 0 <= i < |outs| && outs[i] == (key, p.value)
  {
    if outs == [] then None
    else if outs[0].0 == key then Some(outs[0].1)
    else
      var p := Lookup(outs[1..], key);
      assert p.Some? ==> exists i :: 1 <= i < |outs| && outs[i] == (key, p.value) by {
        if p.Some? {
          var i :| 0 <= i < |outs[1..]| && outs[1..][i] == (key, p.value);
          assert outs[i + 1] == (key, p.value);
        }
      }
      p
  }

  function BestProb(best: Option<(string, real)>): real {
    if best.None? then -1.0 else best.value.1
  }

  /** The outcome the prediction loop picks: scanning in order from a best
      probability of -1, an entry replaces the current pick only when its
      probability is strictly greater. */
  function BestOf(outs: seq<(string, real)>): (best: Option<(string, real)>)
    ensures best.None? <==> forall i :: 0 <= i < |outs| ==> outs[i].1 <= -1.0
    ensures best.Some? ==> best.value.1 > -1.0
    ensures best.Some? ==> exists i :: (0 <= i < |outs| && outs[i] == best.value
                                        && (forall j :: 0 <= j < |outs| ==> outs[j].1 <= best.value.1)
                                        && (forall j :: 0 <= j < i ==> outs[j].1 < best.value.1))
    decreases |outs|
  {
    if outs == [] then None
    else
      var prefix := outs[..|outs| - 1];
      var b := BestOf(prefix);
      var last := outs[|outs| - 1];
      assert forall j :: 0 <= j < |prefix| ==> prefix[j] == outs[j];
      if last.1 > BestProb(b) then Some(last) else b
  }

  function SumProbs(outs: seq<(string, real)>): real {
    if outs == [] then 0.0 else SumProbs(outs[..|outs| - 1]) + outs[|outs| - 1].1
  }

  /** `nextProbs.Values.Average()`. */
  function Mean(outs: seq<(string, real)>): real
    requires |outs| > 0
  {
    SumProbs(outs) / |outs| as real
  }

  lemma {:induction false} SumBelow(outs: seq<(string, real)>, bound: real)
    requires forall i :: 0 <= i < |outs| ==> outs[i].1 < bound
    ensures |outs| > 0 ==> SumProbs(outs) < bound * |outs| as real
    decreases |outs|
  {
    if |outs| > 1 {
      var prefix := outs[..|outs| - 1];
      SumBelow(prefix, bound);
    } else if |outs| == 1 {
      assert outs[..0] == [];
    }
  }

  lemma {:induction false} SumAtLeast(outs: seq<(string, real)>, bound: real)
    requires forall i :: 0 <= i < |outs| ==> outs[i].1 >= bound
    ensures SumProbs(outs) >= bound * |outs| as real
    decreases |outs|
  {
    if |outs| > 0 {
      var prefix := outs[..|outs| - 1];
      SumAtLeast(prefix, bound);
    }
  }

  /** The mean lies below a bound every outcome lies below ... */
  lemma MeanBelow(outs: seq<(string, real)>, bound: real)
    requires |outs| > 0 && forall i :: 0 <= i < |outs| ==> outs[i].1 < bound
    ensures Mean(outs) < bound
  {
    SumBelow(outs, bound);
    var n := |outs| as real;
    assert SumProbs(outs) / n < bound * n / n;
  }

  /** ... and at or above a bound every outcome reaches. */
  lemma MeanAtLeast(outs: seq<(string, real)>, bound: real)
    requires |outs| > 0 && forall i :: 0 <= i < |outs| ==> outs[i].1 >= bound
    ensures Mean(outs) >= bound
  {
    SumAtLeast(outs, bound);
    var n := |outs| as real;
    assert SumProbs(outs) / n >= bound * n / n;
  }

  // ---------------------------------------------------------------------
  // Path prediction

  datatype PathStep = PathStep(h3: string, lat: real, lon: real, prob: real)

  /** `ulong.Parse` of a next-cell key: plain decimal digits below 2^64. */
  function ParseU64(text: string): Result<nat, Fault> {
    match ParseNat(text)
    case None => Err(FormatError(text))
    case Some(n) => if n < 0x1_0000_0000_0000_0000 then Ok(n) else Err(Overflow(text))
  }

  /** Exactly the non-empty digit strings of value below 2^64 parse; other
      digit strings overflow, and anything else is a format error. */
  lemma ParseU64Spec(text: string)
    ensures ParseU64(text).Ok? <==> |text| > 0 && AllDigits(text) && DigitsValue(text) < 0x1_0000_0000_0000_0000
    ensures ParseU64(text).Ok? ==> ParseNat(text) == Some(ParseU64(text).value)
    ensures ParseU64(text).Err? ==> (ParseU64(text).error == FormatError(text) <==> ParseNat(text).None?)
    ensures ParseU64(text).Err? ==> (ParseU64(text).error == Overflow(text) <==> ParseNat(text).Some?)
  {
  }

  /** Every 64-bit cell id survives printing and parsing back. */
  lemma ParseU64RoundTrip(n: nat)
    requires n < 0x1_0000_0000_0000_0000
    ensures ParseU64(NatToString(n)) == Ok(n)
  {
    ParseNatToString(n);
  }

  function Prepend(steps: seq<PathStep>, rest: Result<seq<PathStep>, Fault>): Result<seq<PathStep>, Fault> {
    match rest
    case Ok(t) => Ok(steps + t)
    case Err(e) => Err(e)
  }

  /** At most `n` further steps from (lat, lon): stop when the state is
      unknown or no outcome beats -1; otherwise record the best next cell
      and continue from its centre. The course stays the one given. */
  function PathFrom(model: ClassModel, grid: H3Grid, lat: real, lon: real, cog: real, n: nat)
    : Result<seq<PathStep>, Fault>
    decreases n
  {
    if n == 0 then Ok([])
    else
      var key := MakeStateKey(grid.cellOf(lat, lon), cog);
      if key !in model then Ok([])
      else
        match BestOf(model[key])
        case None => Ok([])
        case Some(best) =>
          match ParseU64(best.0)
          case Err(e) => Err(e)
          case Ok(cell) =>
            var centre := grid.centreOf(cell);
            Prepend([PathStep(best.0, centre.0, centre.1, best.1)],
                    PathFrom(model, grid, centre.0, centre.1, cog, n - 1))
  }

  /** A prediction never holds more than the requested number of steps. */
  lemma {:induction false} PathFromLength(model: ClassModel, grid: H3Grid, lat: real, lon: real, cog: real, n: nat)
    ensures PathFrom(model, grid, lat, lon, cog, n).Ok? ==> |PathFrom(model, grid, lat, lon, cog, n).value| <= n
    decreases n
  {
    if n > 0 {
      var key := MakeStateKey(grid.cellOf(lat, lon), cog);
      if key in model && BestOf(model[key]).Some? && ParseU64(BestOf(model[key]).value.0).Ok? {
        var centre := grid.centreOf(ParseU64(BestOf(model[key]).value.0).value);
        PathFromLength(model, grid, centre.0, centre.1, cog, n - 1);
      }
    }
  }

  /** Step `s` is what the loop records from (lat, lon): the state there is
      known, `s` is that state's best outcome (`BestOf`: the first with the
      greatest probability), its cell id parses, and `s` is placed at the
      centre of that cell. */
  predicate StepFrom(model: ClassModel, grid: H3Grid, cog: real, lat: real, lon: real, s: PathStep) {
    var key := MakeStateKey(grid.cellOf(lat, lon), cog);
    && key in model
    && BestOf(model[key]) == Some((s.h3, s.prob))
    && ParseU64(s.h3).Ok?
    && grid.centreOf(ParseU64(s.h3).value) == (s.lat, s.lon)
  }

  /** The loop cannot go on from (lat, lon): the state is unknown or has no candidate. */
  predicate Stuck(model: ClassModel, grid: H3Grid, cog: real, lat: real, lon: real) {
    var key := MakeStateKey(grid.cellOf(lat, lon), cog);
    key !in model || BestOf(model[key]).None?
  }

  /** Each step of `path` is what `StepFrom` allows from where the previous
      step left the vessel, starting at (lat, lon). */
  predicate ChainedFrom(model: ClassModel, grid: H3Grid, cog: real, lat: real, lon: real, path: seq<PathStep>)
    decreases |path|
  {
    |path| > 0 ==>
      && StepFrom(model, grid, cog, lat, lon, path[0])
      && ChainedFrom(model, grid, cog, path[0].lat, path[0].lon, path[1..])
  }

  /** Where the vessel is after following `path` from (lat, lon). */
  function EndOf(lat: real, lon: real, path: seq<PathStep>): (real, real) {
    if |path| == 0 then (lat, lon) else (path[|path| - 1].lat, path[|path| - 1].lon)
  }

  /** A prediction is a chain of best moves from the start, and one shorter
      than requested ends where the loop is stuck. */
  lemma {:induction false} PathFromChained(model: ClassModel, grid: H3Grid, lat: real, lon: real, cog: real, n: nat)
    requires PathFrom(model, grid, lat, lon, cog, n).Ok?
    ensures ChainedFrom(model, grid, cog, lat, lon, PathFrom(model, grid, lat, lon, cog, n).value)
    ensures var path := PathFrom(model, grid, lat, lon, cog, n).value;
            |path| < n ==> Stuck(model, grid, cog, EndOf(lat, lon, path).0, EndOf(lat, lon, path).1)
    decreases n
  {
    if n > 0 {
      var key := MakeStateKey(grid.cellOf(lat, lon), cog);
      if key in model && BestOf(model[key]).Some? {
        var best := BestOf(model[key]).value;
        var centre := grid.centreOf(ParseU64(best.0).value);
        var step := PathStep(best.0, centre.0, centre.1, best.1);
        var rest := PathFrom(model, grid, centre.0, centre.1, cog, n - 1).value;
        PathFromChained(model, grid, centre.0, centre.1, cog, n - 1);
        var path := PathFrom(model, grid, lat, lon, cog, n).value;
        assert path == [step] + rest;
        assert path[1..] == rest;
        assert StepFrom(model, grid, cog, lat, lon, step);
        assert EndOf(lat, lon, path) == EndOf(centre.0, centre.1, rest);
      }
    }
  }

  /** The chain read index by index: step k starts where step k - 1 ended. */
  lemma {:induction false} ChainedSteps(model: ClassModel, grid: H3Grid, cog: real, lat: real, lon: real,
                                        path: seq<PathStep>)
    requires ChainedFrom(model, grid, cog, lat, lon, path)
    ensures |path| > 0 ==> StepFrom(model, grid, cog, lat, lon, path[0])
    ensures forall k :: 0 < k < |path| ==> StepFrom(model, grid, cog, path[k - 1].lat, path[k - 1].lon, path[k])
    decreases |path|
  {
    if |path| > 0 {
      var rest := path[1..];
      ChainedSteps(model, grid, cog, path[0].lat, path[0].lon, rest);
      forall k | 0 < k < |path|
        ensures StepFrom(model, grid, cog, path[k - 1].lat, path[k - 1].lon, path[k])
      {
        if k > 1 {
          assert path[k] == rest[k - 1] && path[k - 1] == rest[k - 2];
        }
      }
    }
  }

  /** The inner scan of the prediction loop over one state's outcomes. */
  method PickBest(nextProbs: seq<(string, real)>) returns (best: Option<(string, real)>)
    ensures best == BestOf(nextProbs)
  {
    var bestNext: Option<string> := None;
    var bestProb := -1.0;
    var k := 0;
    while k < |nextProbs|
      invariant 0 <= k <= |nextProbs|
      invariant BestOf(nextProbs[..k]) == if bestNext.None? then None else Some((bestNext.value, bestProb))
      invariant bestNext.None? ==> bestProb == -1.0
    {
      assert nextProbs[..k + 1][..k] == nextProbs[..k];
      if nextProbs[k].1 > bestProb {
        bestNext := Some(nextProbs[k].0);
        bestProb := nextProbs[k].1;
      }
      k := k + 1;
    }
    assert nextProbs[..k] == nextProbs;
    best := if bestNext.None? then None else Some((bestNext.value, bestProb));
  }

  /** One pass of the prediction loop's body: no step when the loop is
      stuck, the parse fault of the best cell id, or the step it records. */
  method NextStep(model: ClassModel, grid: H3Grid, lat: real, lon: real, cog: real)
    returns (next: Result<Option<PathStep>, Fault>)
    ensures next.Ok? && next.value.None? <==> Stuck(model, grid, cog, lat, lon)
    ensures next.Ok? && next.value.Some? ==> StepFrom(model, grid, cog, lat, lon, next.value.value)
    ensures next.Err? ==> FaultsAt(model, grid, cog, lat, lon, next.error)
  {
    var h3 := grid.cellOf(lat, lon);
    var stateKey := MakeStateKey(h3, cog);
    if stateKey !in model {
      return Ok(None);
    }
    var best := PickBest(model[stateKey]);
    if best.None? {
      return Ok(None);
    }
    var nextVal := ParseU64(best.value.0);
    if nextVal.Err? {
      return Err(nextVal.error);
    }
    var centre := grid.centreOf(nextVal.value);
    return Ok(Some(PathStep(best.value.0, centre.0, centre.1, best.value.1)));
  }

  /** Extending a chain by a step allowed from where it ends keeps it a chain. */
  lemma {:induction false} ChainedSnoc(model: ClassModel, grid: H3Grid, cog: real, lat: real, lon: real,
                                       path: seq<PathStep>, step: PathStep)
    requires ChainedFrom(model, grid, cog, lat, lon, path)
    requires StepFrom(model, grid, cog, EndOf(lat, lon, path).0, EndOf(lat, lon, path).1, step)
    ensures ChainedFrom(model, grid, cog, lat, lon, path + [step])
    decreases |path|
  {
    if |path| == 0 {
      assert (path + [step])[1..] == [];
    } else {
      assert (path + [step])[1..] == path[1..] + [step];
      assert EndOf(path[0].lat, path[0].lon, path[1..]) == EndOf(lat, lon, path);
      ChainedSnoc(model, grid, cog, path[0].lat, path[0].lon, path[1..], step);
    }
  }

  /** From a point where `StepFrom` allows `step`, the prediction is `step`
      followed by the prediction from where `step` leaves the vessel. */
  lemma PathFromStepOk(model: ClassModel, grid: H3Grid, lat: real, lon: real, cog: real, n: nat, step: PathStep)
    requires n > 0 && StepFrom(model, grid, cog, lat, lon, step)
    ensures PathFrom(model, grid, lat, lon, cog, n)
            == Prepend([step], PathFrom(model, grid, step.lat, step.lon, cog, n - 1))
  {
    var key := MakeStateKey(grid.cellOf(lat, lon), cog);
    var best := BestOf(model[key]).value;
    var centre := grid.centreOf(ParseU64(best.0).value);
    assert PathStep(best.0, centre.0, centre.1, best.1) == step;
  }

  lemma EndOfTail(lat: real, lon: real, path: seq<PathStep>)
    requires |path| > 0
    ensures EndOf(path[0].lat, path[0].lon, path[1..]) == EndOf(lat, lon, path)
  {
  }

  /** No step is recorded when none is requested or the loop is stuck at the start. */
  lemma PathFromStops(model: ClassModel, grid: H3Grid, lat: real, lon: real, cog: real, n: nat)
    requires n == 0 || Stuck(model, grid, cog, lat, lon)
    ensures PathFrom(model, grid, lat, lon, cog, n) == Ok([])
  {
  }

  /** The converse of `PathFromChained`: a chain of best moves that has the
      requested length, or ends where the loop is stuck, is the prediction. */
  lemma {:induction false} ChainedIsPathFrom(model: ClassModel, grid: H3Grid, lat: real, lon: real, cog: real,
                                             n: nat, path: seq<PathStep>)
    requires ChainedFrom(model, grid, cog, lat, lon, path)
    requires |path| <= n
    requires |path| < n ==> Stuck(model, grid, cog, EndOf(lat, lon, path).0, EndOf(lat, lon, path).1)
    ensures PathFrom(model, grid, lat, lon, cog, n) == Ok(path)
    decreases |path|
  {
    if |path| > 0 {
      var step, tail := path[0], path[1..];
      EndOfTail(lat, lon, path);
      ChainedIsPathFrom(model, grid, step.lat, step.lon, cog, n - 1, tail);
      PathFromStepOk(model, grid, lat, lon, cog, n, step);
      assert path == [step] + tail;
      assert PathFrom(model, grid, lat, lon, cog, n) == Prepend([step], Ok(tail));
    } else {
      assert EndOf(lat, lon, path) == (lat, lon);
      PathFromStops(model, grid, lat, lon, cog, n);
    }
  }

  /** At (lat, lon) the state is known and has a best outcome, but that
      outcome's cell id does not parse, with fault `e`. */
  predicate FaultsAt(model: ClassModel, grid: H3Grid, cog: real, lat: real, lon: real, e: Fault) {
    var key := MakeStateKey(grid.cellOf(lat, lon), cog);
    key in model && BestOf(model[key]).Some? && ParseU64(BestOf(model[key]).value.0) == Err(e)
  }

  /** A prediction started where the best cell id does not parse fails with that fault. */
  lemma PathFromFaults(model: ClassModel, grid: H3Grid, lat: real, lon: real, cog: real, n: nat, e: Fault)
    requires n > 0 && FaultsAt(model, grid, cog, lat, lon, e)
    ensures PathFrom(model, grid, lat, lon, cog, n) == Err(e)
  {
  }

  /** A chain that ends where the best cell id does not parse, before the
      requested length, makes the prediction fail with that fault. */
  lemma {:induction false} ChainedFaultIsPathFrom(model: ClassModel, grid: H3Grid, lat: real, lon: real, cog: real,
                                                  n: nat, path: seq<PathStep>, e: Fault)
    requires ChainedFrom(model, grid, cog, lat, lon, path)
    requires |path| < n
    requires FaultsAt(model, grid, cog, EndOf(lat, lon, path).0, EndOf(lat, lon, path).1, e)
    ensures PathFrom(model, grid, lat, lon, cog, n) == Err(e)
    decreases |path|
  {
    if |path| > 0 {
      var step, tail := path[0], path[1..];
      EndOfTail(lat, lon, path);
      ChainedFaultIsPathFrom(model, grid, step.lat, step.lon, cog, n - 1, tail, e);
      PathFromStepOk(model, grid, lat, lon, cog, n, step);
    } else {
      assert EndOf(lat, lon, path) == (lat, lon);
      PathFromFaults(model, grid, lat, lon, cog, n, e);
    }
  }

  /** The loop of `PredictPath` computes `PathFrom` for the class model,
      with a negative step count meaning none. */
  method PredictPath(models: Models, grid: H3Grid, lat: real, lon: real, cog: real, vtype: int, steps: int)
    returns (r: Result<seq<PathStep>, Fault>)
    ensures MapVesselTypeToClass(vtype) !in models ==> r.Err?
    ensures MapVesselTypeToClass(vtype) in models ==>
      r == PathFrom(models[MapVesselTypeToClass(vtype)], grid, lat, lon, cog, if steps < 0 then 0 else steps)
    ensures r.Ok? ==> |r.value| <= (if steps < 0 then 0 else steps)
  {
    var shipClass := MapVesselTypeToClass(vtype);
    if shipClass !in models {
      return Err(InvalidOperation("model not loaded: " + shipClass));
    }
    var model := models[shipClass];
    ghost var total: nat := if steps < 0 then 0 else steps;
    var results: seq<PathStep> := [];
    var curLat, curLon := lat, lon;
    var i := 0;
    while i < steps
      invariant 0 <= i <= total && |results| == i
      invariant ChainedFrom(model, grid, cog, lat, lon, results)
      invariant EndOf(lat, lon, results) == (curLat, curLon)
    {
      var next := NextStep(model, grid, curLat, curLon, cog);
      if next.Err? {
        ChainedFaultIsPathFrom(model, grid, lat, lon, cog, total, results, next.error);
        return Err(next.error);
      }
      if next.value.None? {
        ChainedIsPathFrom(model, grid, lat, lon, cog, total, results);
        break;
      }
      var step := next.value.value;
      ChainedSnoc(model, grid, cog, lat, lon, results, step);
      results := results + [step];
      curLat, curLon := step.lat, step.lon;
      i := i + 1;
    }
    if |results| == total {
      ChainedIsPathFrom(model, grid, lat, lon, cog, total, results);
    }
    return Ok(results);
  }

  // ---------------------------------------------------------------------
  // Anomaly checks

  datatype Reason =
    | SameCell
    | StateNeverSeen(stateKey: string)
    | TransitionNeverSeen
    | LowProbability
    | NormalTransition
    | RareState
    | CommonState

  /** The dictionary the checks return: `is_anomaly`, `prob`, `reason`. */
  datatype AnomalyReport = AnomalyReport(isAnomaly: bool, prob: real, reason: Reason)

  /** The probability recorded for moving from the state `key` to `next`, if any. */
  function RecordedProb(model: ClassModel, key: string, next: nat): Option<real> {
    if key in model then Lookup(model[key], NatToString(next)) else None
  }

  /** Pairwise check: is moving from point 1 to point 2 on course `cog` unusual? */
  function CheckTransition(models: Models, grid: H3Grid, lat1: real, lon1: real, lat2: real, lon2: real,
                           cog: real, vtype: int): (r: Result<AnomalyReport, Fault>)
    ensures r.Err? <==> MapVesselTypeToClass(vtype) !in models
    ensures r.Ok? && grid.cellOf(lat1, lon1) == grid.cellOf(lat2, lon2) ==>
      r.value == AnomalyReport(false, 1.0, SameCell)
    ensures r.Ok? && grid.cellOf(lat1, lon1) != grid.cellOf(lat2, lon2) ==>
      var rec := RecordedProb(models[MapVesselTypeToClass(vtype)],
                              MakeStateKey(grid.cellOf(lat1, lon1), cog), grid.cellOf(lat2, lon2));
      && (r.value.isAnomaly <==> rec.None? || rec.value < AnomalyThreshold)
      && r.value.prob == rec.GetOr(0.0)
  {
    var shipClass := MapVesselTypeToClass(vtype);
    if shipClass !in models then Err(InvalidOperation("model not loaded: " + shipClass))
    else
      var model := models[shipClass];
      var h1 := grid.cellOf(lat1, lon1);
      var h2 := grid.cellOf(lat2, lon2);
      if h1 == h2 then Ok(AnomalyReport(false, 1.0, SameCell))
      else
        var stateKey := MakeStateKey(h1, cog);
        if stateKey !in model then Ok(AnomalyReport(true, 0.0, StateNeverSeen(stateKey)))
        else
          match Lookup(model[stateKey], NatToString(h2))
          case None => Ok(AnomalyReport(true, 0.0, TransitionNeverSeen))
          case Some(prob) =>
            var isAnomaly := prob < AnomalyThreshold;
            Ok(AnomalyReport(isAnomaly, prob, if isAnomaly then LowProbability else NormalTransition))
  }

  /** Single-point check: how rare are the recorded outcomes of the current state on average? */
  function CheckState(models: Models, grid: H3Grid, lat: real, lon: real, cog: real, vtype: int)
    : (r: Result<AnomalyReport, Fault>)
    ensures r.Err? <==>
      var cls := MapVesselTypeToClass(vtype);
      var key := MakeStateKey(grid.cellOf(lat, lon), cog);
      cls !in models || (key in models[cls] && |models[cls][key]| == 0)
    ensures r.Ok? ==>
      var model := models[MapVesselTypeToClass(vtype)];
      var key := MakeStateKey(grid.cellOf(lat, lon), cog);
      && (key !in model ==> r.value == AnomalyReport(true, 0.0, StateNeverSeen(key)))
      && (key in model ==> r.value.prob == Mean(model[key])
                           && (r.value.isAnomaly <==> r.value.prob < AnomalyThreshold))
  {
    var shipClass := MapVesselTypeToClass(vtype);
    if shipClass !in models then Err(InvalidOperation("model not loaded: " + shipClass))
    else
      var model := models[shipClass];
      var stateKey := MakeStateKey(grid.cellOf(lat, lon), cog);
      if stateKey !in model then Ok(AnomalyReport(true, 0.0, StateNeverSeen(stateKey)))
      else
        var nextProbs := model[stateKey];
        if |nextProbs| == 0 then Err(InvalidOperation("Sequence contains no elements"))
        else
          var avgProb := Mean(nextProbs);
          var isAnomaly := avgProb < AnomalyThreshold;
          Ok(AnomalyReport(isAnomaly, avgProb, if isAnomaly then RareState else CommonState))
  }

  /** A state whose outcomes are all rarer than the threshold is reported
      anomalous; one whose outcomes all reach it is not. */
  lemma CheckStateBounds(models: Models, grid: H3Grid, lat: real, lon: real, cog: real, vtype: int)
    requires CheckState(models, grid, lat, lon, cog, vtype).Ok?
    ensures var model := models[MapVesselTypeToClass(vtype)];
            var key := MakeStateKey(grid.cellOf(lat, lon), cog);
            var report := CheckState(models, grid, lat, lon, cog, vtype).value;
            && (key in model && (forall i :: 0 <= i < |model[key]| ==> model[key][i].1 < AnomalyThreshold)
                ==> report.isAnomaly)
            && (key in model && (forall i :: 0 <= i < |model[key]| ==> model[key][i].1 >= AnomalyThreshold)
                ==> !report.isAnomaly)
  {
    var model := models[MapVesselTypeToClass(vtype)];
    var key := MakeStateKey(grid.cellOf(lat, lon), cog);
    if key in model {
      if forall i :: 0 <= i < |model[key]| ==> model[key][i].1 < AnomalyThreshold {
        MeanBelow(model[key], AnomalyThreshold);
      }
      if forall i :: 0 <= i < |model[key]| ==> model[key][i].1 >= AnomalyThreshold {
        MeanAtLeast(model[key], AnomalyThreshold);
      }
    }
  }

  /** The three entry points read the model under the same key: when the
      single-point check finds the state unseen, the pairwise check from the
      same point to any other cell finds it unseen too, and no path is predicted. */
  lemma UnseenStateAgreement(models: Models, grid: H3Grid, lat: real, lon: real, lat2: real, lon2: real,
                             cog: real, vtype: int, n: nat)
    requires CheckState(models, grid, lat, lon, cog, vtype).Ok?
    requires CheckState(models, grid, lat, lon, cog, vtype).value.reason.StateNeverSeen?
    requires grid.cellOf(lat, lon) != grid.cellOf(lat2, lon2)
    ensures CheckTransition(models, grid, lat, lon, lat2, lon2, cog, vtype)
            == CheckState(models, grid, lat, lon, cog, vtype)
    ensures PathFrom(models[MapVesselTypeToClass(vtype)], grid, lat, lon, cog, n) == Ok([])
  {
  }
}
