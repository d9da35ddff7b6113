/**
 * The static object and the PQSCity component that places it on a body:
 * the StaticObject constructor (ObjectID and NameID), the placement sentinels
 * InstantiateStatic replaces, and the Reorientate hand-off.
 */
module Statics {
  import opened Outcomes
  import opened Records
  import opened PathStrings

  /** An ObjectID: a float formatted with "N2", which is never the empty string. */
  type IdText = s: string | s != "" witness "0.00"

  /**
   * A celestial object found in the scene: the name of its CelestialBody
   * component and the engine's latitude and longitude of a radial position.
   */
  datatype Body = Body(name: string, latitudeOf: Vec3 -> real, longitudeOf: Vec3 -> real)

  /** GetLatitude: the engine's answer, or 0.0 when no celestial object was found. */
  function GetLatitude(body: Option<Body>, position: Vec3): (r: real)
    ensures body.None? ==> r == 0.0
    ensures body.Some? ==> r == body.value.latitudeOf(position)
  {
    if body.Some? then body.value.latitudeOf(position) else 0.0
  }

  /** GetLongitude: the engine's answer, or 0.0 when no celestial object was found. */
  function GetLongitude(body: Option<Body>, position: Vec3): (r: real)
    ensures body.None? ==> r == 0.0
    ensures body.Some? ==> r == body.value.longitudeOf(position)
  {
    if body.Some? then body.value.longitudeOf(position) else 0.0
  }

  /** A zero radial position is the sentinel for "place at the observer". */
  function DefaultPosition(position: Vec3, observer: Vec3): (r: Vec3)
    ensures position != Zero ==> r == position
    ensures position == Zero ==> r == observer
  {
    if position == Zero then observer else position
  }

  /** A zero orientation is the sentinel for "point up". */
  function DefaultOrientation(orientation: Vec3): (r: Vec3)
    ensures r != Zero
    ensures orientation != Zero ==> r == orientation
  {
    if orientation == Zero then Up else orientation
  }

  /**
   * Each sentinel is replaced at most once: defaulting an already defaulted
   * value changes nothing (the observer position is taken non-zero), and a
   * value that is not a sentinel is kept.
   */
  lemma DefaultingSettles(position: Vec3, orientation: Vec3, observer: Vec3, laterObserver: Vec3)
    requires observer != Zero
    ensures DefaultPosition(DefaultPosition(position, observer), laterObserver) == DefaultPosition(position, observer)
    ensures DefaultOrientation(DefaultOrientation(orientation)) == DefaultOrientation(orientation)
    ensures DefaultPosition(position, observer) != Zero && DefaultOrientation(orientation) != Zero
    ensures position != Zero ==> DefaultPosition(position, observer) == position
    ensures orientation != Zero ==> DefaultOrientation(orientation) == orientation
  {
  }

  /** The PQSCity component that positions a static on its body's sphere. */
  class PqsCity {
    var repositionRadial: Vec3
    var repositionRadiusOffset: real
    var reorientFinalAngle: real
    var reorientInitialUp: Vec3
    var repositionToSphere: bool
    var reorientToSphere: bool
    /** The visibleRange of its single LOD range. */
    var visibleRange: real
    /** How many times Orientate() has been called. */
    var orientations: nat

    constructor (radial: Vec3, radiusOffset: real, finalAngle: real, initialUp: Vec3, range: real)
      ensures repositionRadial == radial && repositionRadiusOffset == radiusOffset
      ensures reorientFinalAngle == finalAngle && reorientInitialUp == initialUp
      ensures repositionToSphere && reorientToSphere
      ensures visibleRange == range && orientations == 0
    {
      repositionRadial := radial;
      repositionRadiusOffset := radiusOffset;
      reorientFinalAngle := finalAngle;
      reorientInitialUp := initialUp;
      repositionToSphere := true;
      reorientToSphere := true;
      visibleRange := range;
      orientations := 0;
    }

    /** PQSCity.Orientate: the engine re-places the object; only the call is recorded. */
    method Orientate()
      modifies this
      ensures orientations == old(orientations) + 1
      ensures repositionRadial == old(repositionRadial) && repositionRadiusOffset == old(repositionRadiusOffset)
      ensures reorientFinalAngle == old(reorientFinalAngle) && reorientInitialUp == old(reorientInitialUp)
      ensures repositionToSphere == old(repositionToSphere) && reorientToSphere == old(reorientToSphere)
      ensures visibleRange == old(visibleRange)
    {
      orientations := orientations + 1;
    }
  }

  class StaticObject {
    const configUrl: string
    const modelUrl: string
    const nameId: string
    const objectId: IdText
    const visRange: real

    var bodyName: string
    var latitude: real
    var longitude: real
    var orientation: Vec3
    var radOffset: real
    var radPosition: Vec3
    var rotAngle: real
    var city: PqsCity?

    /**
     * A supplied non-empty ObjectID is kept; otherwise the ID is the random
     * one. NameID is the model URL's last segment followed by " (ID)".
     */
    constructor (radialPosition: Vec3, rotationAngle: real, radiusOffset: real, objectOrientation: Vec3,
                 visibilityRange: real, modelUrl: string, configUrl: string, celestialBodyName: string,
                 suppliedId: string, randomId: IdText)
      ensures radPosition == radialPosition && rotAngle == rotationAngle && radOffset == radiusOffset
      ensures orientation == objectOrientation && visRange == visibilityRange
      ensures bodyName == celestialBodyName && this.modelUrl == modelUrl && this.configUrl == configUrl
      ensures suppliedId != "" ==> objectId == suppliedId
      ensures suppliedId == "" ==> objectId == randomId
      ensures nameId == NameId(modelUrl, objectId)
      ensures city == null
    {
      radPosition := radialPosition;
      rotAngle := rotationAngle;
      radOffset := radiusOffset;
      orientation := objectOrientation;
      visRange := visibilityRange;
      bodyName := celestialBodyName;
      this.modelUrl := modelUrl;
      this.configUrl := configUrl;
      var id: IdText := if suppliedId == "" then randomId else suppliedId;
      objectId := id;
      nameId := NameId(modelUrl, id);
      latitude := 0.0;
      longitude := 0.0;
      city := null;
    }

    /** The fields an `Instances` record stores. */
    function CurrentPlacement(): Placement
      reads this
    {
      Placement(radPosition, rotAngle, radOffset, orientation, visRange, bodyName)
    }

    /** What the save reads of this object. */
    function Track(): Tracked
      reads this
    {
      Tracked(configUrl, CurrentPlacement())
    }

    /**
     * Without a PQSCity component nothing happens (the frame is then empty);
     * otherwise exactly the position, offset, angle and orientation are
     * copied into it and it is re-oriented.
     */
    method Reorientate()
      modifies city
      ensures city != null ==> && city.repositionRadial == radPosition
                               && city.repositionRadiusOffset == radOffset
                               && city.reorientFinalAngle == rotAngle
                               && city.reorientInitialUp == orientation
                               && city.orientations == old(city.orientations) + 1
                               && city.visibleRange == old(city.visibleRange)
                               && city.repositionToSphere == old(city.repositionToSphere)
                               && city.reorientToSphere == old(city.reorientToSphere)
    {
      if city == null {
        return;
      }
      city.repositionRadial := radPosition;
      city.repositionRadiusOffset := radOffset;
      city.reorientFinalAngle := rotAngle;
      city.reorientInitialUp := orientation;
      city.Orientate();
    }
  }

  /** The placements of a list of objects, in order. */
  function PlacementsOf(os: seq<StaticObject>): (r: seq<Placement>)
    reads os
    ensures |r| == |os|
    ensures forall i :: 0 <= i < |os| ==> r[i] == os[i].CurrentPlacement()
  {
    if os == [] then [] else [os[0].CurrentPlacement()] + PlacementsOf(os[1..])
  }

  /** What the save reads of a list of objects, in order. */
  function TracksOf(os: seq<StaticObject>): (r: seq<Tracked>)
    reads os
    ensures |r| == |os|
    ensures forall i :: 0 <= i < |os| ==> r[i] == os[i].Track()
  {
    if os == [] then [] else [os[0].Track()] + TracksOf(os[1..])
  }
}
