/** Conversion of a decoded AIS message into the engine's event. Only the
    fields the conversion reads are kept from the message record. */
module AisConversion {
  import opened Wrappers
  import opened Domain
  import opened Decimal
  import opened PositionAnomaly

  datatype Com = Com(
    uniqueSign: Option<string>,
    globalId: Option<string>,
    mmsi: Int64,
    lat: real,
    lon: real,
    sog: real,
    time: Int64,
    navStatus: Int32,
    fuseFlags: Int32,
    aisName: Option<string>,
    callSign: Option<string>,
    typeCode: Int32,
    imo: Int64,
    cog: real,
    heading: real,
    rot: real,
    length: real,
    width: real,
    dwt: real,
    sourceIp: Option<string>,
    terminalType: Int32)

  datatype AISData = AISData(msgType: Int32, com: Option<Com>)

  /** The Unix seconds `DateTimeOffset.FromUnixTimeSeconds` accepts:
      0001-01-01T00:00:00Z to 9999-12-31T23:59:59Z. */
  const MinUnixSeconds: int := -62135596800
  const MaxUnixSeconds: int := 253402300799

  /** Bit 1 (value 2) of a 32-bit two's-complement integer: set exactly
      when the integer leaves remainder 2 or 3 on division by 4, negative
      integers included. */
  function Bit1(x: Int32): (on: bool)
    ensures on <==> x % 4 >= 2
  {
    var u := x % 0x1_0000_0000;
    assert u % 4 == x % 4 by {
      assert x == (x / 0x1_0000_0000) * 0x1_0000_0000 + u;
      assert 0x1_0000_0000 == 4 * 0x4000_0000;
    }
    assert u / 2 % 2 == 1 <==> u % 4 >= 2 by {
      assert u == (u / 4) * 4 + u % 4;
      assert u / 2 == (u / 4) * 2 + (u % 4) / 2;
    }
    u / 2 % 2 == 1
  }

  function Text(s: Option<string>): AttrValue {
    if s.None? then ANull else AText(s.value)
  }

  const AttributeNames: set<string> :=
    {"CallSign", "ShipName", "VesselType", "IMO", "COG", "Heading", "ROT",
     "Length", "Width", "DWT", "SourceIP", "TerminalType", "NavStatusRaw"}

  /** The thirteen attribute entries the conversion writes. */
  function ExtraAttributes(c: Com): (attrs: map<string, AttrValue>)
    ensures attrs.Keys == AttributeNames
    ensures attrs["ShipName"] == ANull <==> c.aisName.None?
    ensures attrs["CallSign"] == ANull <==> c.callSign.None?
    ensures attrs["SourceIP"] == ANull <==> c.sourceIp.None?
    ensures attrs["VesselType"] == AInt(c.typeCode) && attrs["COG"] == AReal(c.cog)
  {
    map[
      "CallSign" := Text(c.callSign),
      "ShipName" := Text(c.aisName),
      "VesselType" := AInt(c.typeCode),
      "IMO" := AInt(c.imo),
      "COG" := AReal(c.cog),
      "Heading" := AReal(c.heading),
      "ROT" := AReal(c.rot),
      "Length" := AReal(c.length),
      "Width" := AReal(c.width),
      "DWT" := AReal(c.dwt),
      "SourceIP" := Text(c.sourceIp),
      "TerminalType" := AInt(c.terminalType),
      "NavStatusRaw" := AInt(c.navStatus)]
  }

  /** `null` for a message without a body; an out-of-range timestamp throws;
      otherwise the event built from the body, identified by its unique
      sign, else its global id, else `freshGuid`. */
  function ConvertToMaritimeEvent(root: Option<AISData>, freshGuid: string)
    : (r: Result<Option<MaritimeEvent>, Fault>)
    ensures (root.None? || root.value.com.None?) <==> r == Ok(None)
    ensures r.Err? <==> root.Some? && root.value.com.Some?
                        && !(MinUnixSeconds <= root.value.com.value.time <= MaxUnixSeconds)
    ensures r.Ok? && r.value.Some? ==>
      var c := root.value.com.value;
      var ev := r.value.value;
      && ev.id == (if c.uniqueSign.Some? then c.uniqueSign.value
                   else if c.globalId.Some? then c.globalId.value else freshGuid)
      && ev.mmsi == IntToString(c.mmsi)
      && ev.location == LatLon(c.lat, c.lon)
      && ev.speedKnots == c.sog
      && ev.eventTime == c.time as real
      && ev.state == IntToString(c.navStatus)
      && (ev.radarPresent <==> Bit1(c.fuseFlags))
      && (ev.aisSignal <==> c.aisName.Some? && |c.aisName.value| > 0 && c.mmsi > 0)
      && ev.videoDetectionClass.None?
      && ev.attributes == ExtraAttributes(c)
  {
    if root.None? || root.value.com.None? then Ok(None)
    else
      var c := root.value.com.value;
      if !(MinUnixSeconds <= c.time <= MaxUnixSeconds) then Err(ArgumentOutOfRange("seconds"))
      else
        var id := if c.uniqueSign.Some? then c.uniqueSign.value
                  else if c.globalId.Some? then c.globalId.value
                  else freshGuid;
        var attrs := ExtraAttributes(c);
        Ok(Some(MaritimeEvent(
          id,
          IntToString(c.mmsi),
          LatLon(c.lat, c.lon),
          c.sog,
          c.time as real,
          IntToString(c.navStatus),
          Bit1(c.fuseFlags),
          c.aisName.Some? && |c.aisName.value| > 0 && c.mmsi > 0,
          None,
          attrs)))
  }

  /** The position-anomaly condition reads back, from a converted event, the
      course and the vessel type of the message it came from. */
  lemma ConvertedAttributesReadBack(root: Option<AISData>, freshGuid: string, p: Parsers)
    requires ConvertToMaritimeEvent(root, freshGuid).Ok?
    requires ConvertToMaritimeEvent(root, freshGuid).value.Some?
    ensures var attrs := ConvertToMaritimeEvent(root, freshGuid).value.value.attributes;
            && ReadCourse(attrs, p) == root.value.com.value.cog
            && ReadVesselType(attrs, p) == root.value.com.value.typeCode
  {
    var attrs := ConvertToMaritimeEvent(root, freshGuid).value.value.attributes;
    assert attrs == ExtraAttributes(root.value.com.value);
  }

  /** Distinct MMSI numbers give distinct MMSI texts. */
  lemma ConvertedMmsiInjective(c1: Com, c2: Com, g: string)
    requires ConvertToMaritimeEvent(Some(AISData(0, Some(c1))), g).Ok?
    requires ConvertToMaritimeEvent(Some(AISData(0, Some(c2))), g).Ok?
    ensures var e1 := ConvertToMaritimeEvent(Some(AISData(0, Some(c1))), g).value.value;
            var e2 := ConvertToMaritimeEvent(Some(AISData(0, Some(c2))), g).value.value;
            e1.mmsi == e2.mmsi ==> c1.mmsi == c2.mmsi
  {
    IntToStringInjective(c1.mmsi, c2.mmsi);
  }
}
