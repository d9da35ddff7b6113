/**
 * The persisted part of a static object and its `Instances` record: the six
 * keys WriteSessionConfigs writes and GenerateModelLists reads back.
 */
module Records {
  import opened Outcomes
  import opened ConfigTree

  /** Unity's Vector3; its float components are modelled as reals. */
  datatype Vec3 = Vec3(x: real, y: real, z: real)

  const Zero := Vec3(0.0, 0.0, 0.0)
  const Up := Vec3(0.0, 1.0, 0.0)

  /** The fields of a StaticObject that an `Instances` record stores. */
  datatype Placement = Placement(
    radPosition: Vec3,
    rotAngle: real,
    radOffset: real,
    orientation: Vec3,
    visRange: real,
    bodyName: string)

  /** What the save reads of one StaticObject: its ConfigURL and its placement. */
  datatype Tracked = Tracked(configUrl: string, placement: Placement)

  /**
   * Number and vector text forms: float.ToString(InvariantCulture) /
   * float.Parse and ConfigNode.WriteVector / ConfigNode.ParseVector3.
   * A parse that throws yields None.
   */
  datatype Codec = Codec(
    formatFloat: real -> string,
    parseFloat: string -> Option<real>,
    writeVector: Vec3 -> string,
    parseVector: string -> Option<Vec3>)
  {
    /** The five numbers and vectors a record stores for `p` read back as themselves. */
    ghost predicate RoundTripsOn(p: Placement)
    {
      && parseVector(writeVector(p.radPosition)) == Some(p.radPosition)
      && parseFloat(formatFloat(p.rotAngle)) == Some(p.rotAngle)
      && parseFloat(formatFloat(p.radOffset)) == Some(p.radOffset)
      && parseVector(writeVector(p.orientation)) == Some(p.orientation)
      && parseFloat(formatFloat(p.visRange)) == Some(p.visRange)
    }
  }

  const InstancesTag := "Instances"

  /** The record WriteSessionConfigs builds for one object, keys in this order. */
  function InstanceRecord(p: Placement, codec: Codec): (n: ConfigNode)
    ensures n.name == InstancesTag && n.nodes == [] && |n.values| == 6
  {
    ConfigNode(InstancesTag, [
      KeyValue("RadialPosition", codec.writeVector(p.radPosition)),
      KeyValue("RotationAngle", codec.formatFloat(p.rotAngle)),
      KeyValue("RadiusOffset", codec.formatFloat(p.radOffset)),
      KeyValue("Orientation", codec.writeVector(p.orientation)),
      KeyValue("VisibilityRange", codec.formatFloat(p.visRange)),
      KeyValue("CelestialBody", p.bodyName)], [])
  }

  /** Each of the six keys of a written record holds the text of its field. */
  lemma InstanceRecordKeys(p: Placement, codec: Codec)
    ensures var n := InstanceRecord(p, codec);
      && GetValue(n, "RadialPosition") == Some(codec.writeVector(p.radPosition))
      && GetValue(n, "RotationAngle") == Some(codec.formatFloat(p.rotAngle))
      && GetValue(n, "RadiusOffset") == Some(codec.formatFloat(p.radOffset))
      && GetValue(n, "Orientation") == Some(codec.writeVector(p.orientation))
      && GetValue(n, "VisibilityRange") == Some(codec.formatFloat(p.visRange))
      && GetValue(n, "CelestialBody") == Some(p.bodyName)
  {
    var vs := InstanceRecord(p, codec).values;
    FirstValueAt(vs, "RadialPosition", 0);
    FirstValueAt(vs, "RotationAngle", 1);
    FirstValueAt(vs, "RadiusOffset", 2);
    FirstValueAt(vs, "Orientation", 3);
    FirstValueAt(vs, "VisibilityRange", 4);
    FirstValueAt(vs, "CelestialBody", 5);
  }

  function ReadFloat(n: ConfigNode, key: string, codec: Codec): Option<real>
  {
    match GetValue(n, key)
    case None => None
    case Some(text) => codec.parseFloat(text)
  }

  function ReadVector(n: ConfigNode, key: string, codec: Codec): Option<Vec3>
  {
    match GetValue(n, key)
    case None => None
    case Some(text) => codec.parseVector(text)
  }

  /**
   * Reading one `Instances` record (GenerateModelLists): each numeric or
   * vector field must be present and parse; a missing CelestialBody gives "".
   */
  function ParseRecord(n: ConfigNode, codec: Codec, modelUrl: string): (r: Result<Placement>)
    ensures r.Err? <==> ReadVector(n, "RadialPosition", codec).None? || ReadFloat(n, "RotationAngle", codec).None?
                        || ReadFloat(n, "RadiusOffset", codec).None? || ReadVector(n, "Orientation", codec).None?
                        || ReadFloat(n, "VisibilityRange", codec).None?
    ensures r.Err? ==> r.fault == MalformedRecord(modelUrl)
    ensures r.Ok? ==> Some(r.value.radPosition) == ReadVector(n, "RadialPosition", codec)
                      && Some(r.value.rotAngle) == ReadFloat(n, "RotationAngle", codec)
                      && Some(r.value.radOffset) == ReadFloat(n, "RadiusOffset", codec)
                      && Some(r.value.orientation) == ReadVector(n, "Orientation", codec)
                      && Some(r.value.visRange) == ReadFloat(n, "VisibilityRange", codec)
                      && r.value.bodyName == (if GetValue(n, "CelestialBody").Some? then GetValue(n, "CelestialBody").value else "")
  {
    var radPosition := ReadVector(n, "RadialPosition", codec);
    var rotAngle := ReadFloat(n, "RotationAngle", codec);
    var radOffset := ReadFloat(n, "RadiusOffset", codec);
    var orientation := ReadVector(n, "Orientation", codec);
    var visRange := ReadFloat(n, "VisibilityRange", codec);
    var body := GetValue(n, "CelestialBody");
    if radPosition.None? || rotAngle.None? || radOffset.None? || orientation.None? || visRange.None? then
      Err(MalformedRecord(modelUrl))
    else
      Ok(Placement(radPosition.value, rotAngle.value, radOffset.value, orientation.value, visRange.value,
                   if body.Some? then body.value else ""))
  }

  /** A written record reads back as the placement it was written from, when the codec reads its fields back. */
  lemma RecordRoundTrip(p: Placement, codec: Codec, modelUrl: string)
    requires codec.RoundTripsOn(p)
    ensures ParseRecord(InstanceRecord(p, codec), codec, modelUrl) == Ok(p)
  {
    InstanceRecordKeys(p, codec);
  }

  /** The records of a sequence of placements, in order. */
  function InstanceRecords(ps: seq<Placement>, codec: Codec): (r: seq<ConfigNode>)
    ensures |r| == |ps|
    ensures forall i :: 0 <= i < |ps| ==> r[i] == InstanceRecord(ps[i], codec)
  {
    if ps == [] then [] else InstanceRecords(ps[..|ps| - 1], codec) + [InstanceRecord(ps[|ps| - 1], codec)]
  }
}
